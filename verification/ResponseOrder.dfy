/**
 Rows in another order: what e2e/guard/response-compare.ts makes of a list whose rows are permuted.
 */
module ResponseOrder {
  import opened Options
  import opened JsonValues
  import opened Strings
  import opened ResponseNames
  import opened ResponseCells

  // ----- rows in another order -----

  /** Every row has a name and no two have the same. */
  ghost predicate NamedApart(rows: seq<Json>) {
    OwnNames(rows).Some? && Distinct(OwnNames(rows).value)
  }

  /** `after` holds the rows of `before` in another order, each once. */
  ghost predicate Permutes(before: seq<Json>, after: seq<Json>, from: seq<nat>, to: seq<nat>) {
    && |before| == |after| == |from| == |to|
    && (forall i | 0 <= i < |after| :: from[i] < |before| && to[from[i]] == i && after[i] == before[from[i]])
    && (forall i | 0 <= i < |before| :: to[i] < |after| && from[to[i]] == i)
  }

  /** `w` is `v` with the rows of the one list at path `at` in another order. */
  ghost predicate Reordered(v: Json, w: Json, at: Path)
    decreases v
  {
    if at == [] then v.Arr? && w.Arr? && NamedApart(v.items) && exists from, to :: Permutes(v.items, w.items, from, to)
    else
      match v
      case Arr(items) => w.Arr? && |items| == |w.items| && exists i :: ReorderedRow(v, w, at, i)
      case Obj(members) =>
        && w.Obj? && members.Keys == w.members.Keys && at[0].Key? && at[0].k in members
        && (forall k | k in members && k != at[0].k :: members[k] == w.members[k])
        && Reordered(members[at[0].k], w.members[at[0].k], at[1..])
      case _ => false
  }

  /** The list lies in row `i`, and every other row is as it was. */
  ghost predicate ReorderedRow(v: Json, w: Json, at: Path, i: int)
    requires v.Arr? && w.Arr? && |v.items| == |w.items| && at != []
    decreases v, 0
  {
    && 0 <= i < |v.items| && at[0] == StepOf(RowNames(v.items), i)
    && (forall j | 0 <= j < |v.items| && j != i :: v.items[j] == w.items[j])
    && Reordered(v.items[i], w.items[i], at[1..])
  }

  /** Equal but for what their lists hold. */
  ghost predicate Similar(v: Json, w: Json) {
    match v
    case Arr(_) => w.Arr?
    case Obj(members) => w.Obj? && members.Keys == w.members.Keys && forall k | k in members :: Similar(members[k], w.members[k])
    case _ => v == w
  }

  ghost predicate SimilarParts(a: Option<Json>, b: Option<Json>) {
    (a.Some? <==> b.Some?) && (a.Some? ==> Similar(a.value, b.value))
  }

  lemma {:induction false} SimilarItself(v: Json)
    ensures Similar(v, v)
  {
    if v.Obj? {
      forall k | k in v.members
        ensures Similar(v.members[k], v.members[k])
      {
        SimilarItself(v.members[k]);
      }
    }
  }

  lemma {:induction false} ReorderedIsSimilar(v: Json, w: Json, at: Path)
    requires Reordered(v, w, at)
    ensures Similar(v, w)
  {
    if v.Obj? {
      forall k | k in v.members
        ensures Similar(v.members[k], w.members[k])
      {
        if k == at[0].k {
          ReorderedIsSimilar(v.members[k], w.members[k], at[1..]);
        } else {
          SimilarItself(v.members[k]);
        }
      }
    }
  }

  lemma SimilarGet(a: Option<Json>, b: Option<Json>, key: string)
    requires SimilarParts(a, b)
    ensures SimilarParts(Get(a, key), Get(b, key))
  {
  }

  lemma SimilarScalar(a: Option<Json>, b: Option<Json>)
    requires SimilarParts(a, b)
    ensures Scalar(a) == Scalar(b) && (IsText(a) <==> IsText(b)) && TextOr(a) == TextOr(b)
    ensures IsText(a) ==> a == b
    ensures (a.None? || a.value.Null?) <==> (b.None? || b.value.Null?)
    ensures !(a.Some? && a.value.Arr?) ==> Joined(a) == Joined(b)
  {
  }

  lemma {:induction false} SimilarFirst(a: seq<Option<Json>>, b: seq<Option<Json>>)
    requires |a| == |b| && forall i | 0 <= i < |a| :: SimilarParts(a[i], b[i])
    ensures FirstScalar(a) == FirstScalar(b)
  {
    if a != [] {
      SimilarScalar(a[0], b[0]);
      SimilarFirst(a[1..], b[1..]);
    }
  }

  /** No part of an event's name is a list. */
  ghost predicate PlainEventName(v: Json) {
    IsEvent(Some(v)) ==>
      forall i | 0 <= i < 5 :: !(EventParts(Some(v))[i].Some? && EventParts(Some(v))[i].value.Arr?)
  }

  lemma SimilarObjectName(a: Option<Json>, b: Option<Json>)
    requires SimilarParts(a, b)
    ensures ObjectName(a) == ObjectName(b)
  {
    hide Similar, Get;
    var ma, mb := Get(a, "metadata"), Get(b, "metadata");
    SimilarGet(a, b, "metadata");
    SimilarGet(ma, mb, "name");
    SimilarGet(a, b, "name");
    SimilarGet(ma, mb, "namespace");
    SimilarGet(a, b, "namespace");
    SimilarGet(a, b, "kind");
    SimilarGet(a, b, "type");
    SimilarGet(a, b, "revision");
    SimilarScalar(Get(ma, "name"), Get(mb, "name"));
    SimilarScalar(Get(a, "name"), Get(b, "name"));
    SimilarScalar(Get(ma, "namespace"), Get(mb, "namespace"));
    SimilarScalar(Get(a, "namespace"), Get(b, "namespace"));
    SimilarScalar(Get(a, "kind"), Get(b, "kind"));
    SimilarScalar(Get(a, "type"), Get(b, "type"));
    SimilarScalar(Get(a, "revision"), Get(b, "revision"));
    hide SimilarParts, Scalar, IsText;
  }

  lemma SimilarNameFields(a: Option<Json>, b: Option<Json>)
    requires SimilarParts(a, b)
    ensures FirstScalar(NameFields(a)) == FirstScalar(NameFields(b))
  {
    hide Similar, Get, SimilarParts, FirstScalar;
    SimilarGet(a, b, "metadata");
    SimilarGet(Get(a, "metadata"), Get(b, "metadata"), "uid");
    SimilarGet(a, b, "uid");
    SimilarGet(a, b, "uuid");
    SimilarGet(a, b, "id");
    SimilarGet(a, b, "ID");
    SimilarGet(a, b, "fingerprint");
    SimilarGet(a, b, "key");
    SimilarFirst(NameFields(a), NameFields(b));
  }

  lemma SimilarEventParts(a: Option<Json>, b: Option<Json>)
    requires SimilarParts(a, b)
    ensures IsEvent(a) <==> IsEvent(b)
    ensures forall i | 0 <= i < 5 :: SimilarParts(EventParts(a)[i], EventParts(b)[i])
  {
    hide Get;
    var oa, ob := Get(a, "involved_object"), Get(b, "involved_object");
    SimilarGet(a, b, "involved_object");
    SimilarGet(oa, ob, "kind");
    SimilarGet(oa, ob, "namespace");
    SimilarGet(oa, ob, "name");
    SimilarGet(a, b, "reason");
    SimilarGet(a, b, "message");
  }

  /** What a list holds does not name the row it is in. */
  lemma SimilarName(v: Json, w: Json)
    requires Similar(v, w) && PlainEventName(v)
    ensures NameOf(v) == NameOf(w)
  {
    hide Similar, Get, EventParts, NameFields, ObjectName, FirstScalar, IsEvent, Join;
    SimilarEventParts(Some(v), Some(w));
    SimilarNameFields(Some(v), Some(w));
    SimilarObjectName(Some(v), Some(w));
    if IsEvent(Some(v)) {
      forall i | 0 <= i < 5
        ensures Joined(EventParts(Some(v))[i]) == Joined(EventParts(Some(w))[i])
      {
        SimilarScalar(EventParts(Some(v))[i], EventParts(Some(w))[i]);
      }
      hide SimilarParts, Joined;
    }
  }

  predicate SameKind(v: Json, w: Json) {
    && (v.Obj? <==> w.Obj?) && (v.Str? <==> w.Str?) && (v.Number? <==> w.Number?)
    && (v.Str? || v.Number? ==> v == w)
  }

  lemma {:induction false} SimilarKind(v: Json, w: Json)
    requires Similar(v, w)
    ensures SameKind(v, w)
  {
  }

  lemma SameOwnNames(rows: seq<Json>, others: seq<Json>)
    requires |rows| == |others| && Plain(rows) == Plain(others)
    requires forall i | 0 <= i < |rows| :: rows[i].Obj? == others[i].Obj?
    requires forall i | 0 <= i < |rows| :: RowName(rows[i], Plain(rows)) == RowName(others[i], Plain(rows))
    ensures OwnNames(rows) == OwnNames(others)
  {
    hide RowName, Plain;
    if OwnNames(rows).Some? {
      assert OwnNames(others).Some?;
      assert OwnNames(rows).value == OwnNames(others).value;
    } else {
      assert OwnNames(others).None?;
    }
  }

  // ----- rows in another order change one cell -----

  /** No row on the way to a list is an event with a list in its name. */
  ghost predicate PlainEventsOnTheWay(v: Json, at: Path)
    decreases v
  {
    at == [] ||
    match v
    case Arr(items) =>
      forall i | 0 <= i < |items| && at[0] == StepOf(RowNames(items), i) ::
        PlainEventName(items[i]) && PlainEventsOnTheWay(items[i], at[1..])
    case Obj(members) => at[0].Key? && at[0].k in members ==> PlainEventsOnTheWay(members[at[0].k], at[1..])
    case _ => true
  }

  /** Row `i` is the only one a path through its name can lead into. */
  lemma {:induction false} NamedRowCell(v: Json, names: seq<string>, i: nat, p: Path, n: nat)
    requires v.Arr? && |names| == |v.items| && Distinct(names) && i < |names| && n <= |names|
    requires p != [] && p[0] == Row(names[i])
    ensures RowCell(v, Some(names), p, n) == if i < n then CellAt(v.items[i], p[1..]) else None
  {
    hide CellAt;
    if n > 0 {
      NamedRowCell(v, names, i, p, n - 1);
    }
  }

  lemma {:induction false} NoRowNamed(v: Json, names: seq<string>, p: Path, n: nat)
    requires v.Arr? && |names| == |v.items| && n <= |names|
    requires forall i | 0 <= i < n :: !(p != [] && p[0] == Row(names[i]))
    ensures RowCell(v, Some(names), p, n) == None
  {
    hide CellAt;
    if n > 0 {
      NoRowNamed(v, names, p, n - 1);
    }
  }

  /** The names go with the rows. */
  lemma {:induction false} PermutedNames(before: seq<Json>, after: seq<Json>, from: seq<nat>, to: seq<nat>)
    requires NamedApart(before) && Permutes(before, after, from, to)
    ensures NamedApart(after)
    ensures RowNames(before) == OwnNames(before) && RowNames(after) == OwnNames(after)
    ensures |RowNames(before).value| == |RowNames(after).value| == |before|
    ensures Distinct(RowNames(before).value) && Distinct(RowNames(after).value)
    ensures forall i | 0 <= i < |after| :: RowNames(after).value[i] == RowNames(before).value[from[i]]
  {
    hide NameOf;
    assert Plain(after) == Plain(before) by {
      if Plain(after) {
        assert forall i | 0 <= i < |before| :: before[i] == after[to[i]];
      }
    }
    var plain := Plain(before);
    forall i | 0 <= i < |after|
      ensures RowName(after[i], plain) == RowName(before[from[i]], plain) && RowName(before[from[i]], plain).Some?
      ensures !plain ==> after[i].Obj?
    {
    }
    hide RowName;
    assert after != [] && OwnNames(after).Some?;
    assert forall i | 0 <= i < |after| :: OwnNames(after).value[i] == OwnNames(before).value[from[i]];
    forall i, j | 0 <= i < j < |after|
      ensures OwnNames(after).value[i] != OwnNames(after).value[j]
    {
      assert to[from[i]] == i && to[from[j]] == j;
    }
  }

  lemma {:induction false} PermutedRowCell(v: Json, w: Json, names: seq<string>, others: seq<string>, from: seq<nat>,
                                           to: seq<nat>, p: Path)
    requires v.Arr? && w.Arr? && |names| == |others| == |v.items| && Distinct(names) && Distinct(others)
    requires Permutes(v.items, w.items, from, to)
    requires forall i | 0 <= i < |others| :: others[i] == names[from[i]]
    ensures RowCell(v, Some(names), p, |names|) == RowCell(w, Some(others), p, |others|)
  {
    hide RowCell, CellAt, Distinct;
    if p != [] && p[0].Row? && p[0].name in names {
      var i :| 0 <= i < |names| && names[i] == p[0].name;
      assert others[to[i]] == names[from[to[i]]] == names[i];
      NamedRowCell(v, names, i, p, |names|);
      NamedRowCell(w, others, to[i], p, |others|);
    } else {
      forall i | 0 <= i < |others|
        ensures !(p != [] && p[0] == Row(others[i]))
      {
        assert others[i] == names[from[i]] && others[i] in names;
      }
      NoRowNamed(v, names, p, |names|);
      NoRowNamed(w, others, p, |others|);
    }
  }

  lemma {:induction false} PermutedCells(v: Json, w: Json, from: seq<nat>, to: seq<nat>, p: Path)
    requires v.Arr? && w.Arr? && NamedApart(v.items) && Permutes(v.items, w.items, from, to)
    requires p != [Order]
    ensures CellAt(v, p) == CellAt(w, p)
  {
    PermutedNames(v.items, w.items, from, to);
    PermutedRowCell(v, w, RowNames(v.items).value, RowNames(w.items).value, from, to, p);
    hide RowNames, OwnNames, NamedApart, RowCell, Permutes, Distinct;
  }

  /** One row reordered inside, the others as they were. */
  lemma {:induction false} RowsBeside(v: Json, w: Json, names: Option<seq<string>>, i: nat, p: Path, n: nat)
    requires v.Arr? && w.Arr? && |v.items| == |w.items| && i < |v.items| && n <= |v.items|
    requires forall j | 0 <= j < |v.items| && j != i :: v.items[j] == w.items[j]
    requires p != [] && p[0] == StepOf(names, i) ==> CellAt(v.items[i], p[1..]) == CellAt(w.items[i], p[1..])
    ensures RowCell(v, names, p, n) == RowCell(w, names, p, n)
  {
    hide CellAt, StepOf;
    if n > 0 {
      RowsBeside(v, w, names, i, p, n - 1);
    }
  }

  /** Every list on the way to `at` gives its rows the same names in both values. */
  ghost predicate NamesKept(v: Json, w: Json, at: Path)
    requires Reordered(v, w, at)
    decreases v
  {
    at == [] ||
    match v
    case Arr(items) =>
      && RowNames(items) == RowNames(w.items)
      && forall i | ReorderedRow(v, w, at, i) :: NamesKept(items[i], w.items[i], at[1..])
    case Obj(members) => NamesKept(members[at[0].k], w.members[at[0].k], at[1..])
    case _ => true
  }

  /**
   Putting the rows of one list in another order, at any depth and with names that tell them apart, changes no cell but
   the one that holds the list's order, as long as no row on the way there is renamed by it.
   */
  lemma {:induction false} ReorderingChangesOrderOnly(v: Json, w: Json, at: Path, p: Path)
    requires Reordered(v, w, at) && NamesKept(v, w, at) && p != at + [Order]
    ensures CellAt(v, p) == CellAt(w, p)
    decreases v
  {
    hide RowNames, NamedApart;
    if at == [] {
      var from, to :| Permutes(v.items, w.items, from, to);
      assert [] + [Order] == [Order];
      PermutedCells(v, w, from, to, p);
    } else if v.Arr? {
      var i :| ReorderedRow(v, w, at, i);
      if p != [] && p[0] == at[0] {
        StepsApart(at, p);
        ReorderingChangesOrderOnly(v.items[i], w.items[i], at[1..], p[1..]);
      }
      RowsBeside(v, w, RowNames(v.items), i, p, |v.items|);
    } else if p != [] && p[0] == at[0] {
      StepsApart(at, p);
      ReorderingChangesOrderOnly(v.members[at[0].k], w.members[at[0].k], at[1..], p[1..]);
    }
  }

  lemma {:induction false} StepsApart(at: Path, p: Path)
    requires at != [] && p != [] && p[0] == at[0]
    ensures p == at + [Order] <==> p[1..] == at[1..] + [Order]
  {
    assert p == [p[0]] + p[1..];
    assert at + [Order] == [at[0]] + (at[1..] + [Order]);
  }

  // ----- and exactly then -----

  /** The path leads into one row of every list on its way. */
  ghost predicate OneListAt(v: Json, at: Path)
    decreases v
  {
    at == [] ||
    match v
    case Arr(items) =>
      && (RowNames(items).Some? ==> Distinct(RowNames(items).value))
      && forall i | 0 <= i < |items| && at[0] == StepOf(RowNames(items), i) :: OneListAt(items[i], at[1..])
    case Obj(members) => at[0].Key? && at[0].k in members ==> OneListAt(members[at[0].k], at[1..])
    case _ => true
  }

  /** The cells below a row that shares its step with no other. */
  lemma {:induction false} OneRowCell(v: Json, names: Option<seq<string>>, i: nat, p: Path, n: nat)
    requires v.Arr? && i < |v.items| && n <= |v.items| && p != [] && p[0] == StepOf(names, i)
    requires forall j | 0 <= j < |v.items| && j != i :: StepOf(names, j) != StepOf(names, i)
    ensures RowCell(v, names, p, n) == if i < n then CellAt(v.items[i], p[1..]) else None
  {
    hide CellAt, StepOf;
    if n > 0 {
      OneRowCell(v, names, i, p, n - 1);
    }
  }

  lemma StepsDistinct(names: Option<seq<string>>, n: nat, i: nat)
    requires names.Some? ==> Distinct(names.value) && |names.value| == n
    requires i < n
    ensures forall j | 0 <= j < n && j != i :: StepOf(names, j) != StepOf(names, i)
  {
  }

  /** A row that is renamed on the way shows in the order of its list. */
  lemma {:induction false} RenamedRowShows(rows: seq<Json>, others: seq<Json>, i: nat)
    requires |rows| == |others| && i < |rows| && forall j | 0 <= j < |rows| && j != i :: rows[j] == others[j]
    requires (rows[i].Arr? && others[i].Arr?) || (rows[i].Obj? && others[i].Obj?)
    requires RowNames(rows) != RowNames(others) && RowNames(rows).Some? && RowNames(others).Some?
    ensures Join(RowNames(rows).value, ' ') != Join(RowNames(others).value, ' ')
  {
    NumberedRowNames(rows, i);
    NumberedRowNames(others, i);
    hide RowNames, NameOf, OwnNames;
    OrderShowsChange(OwnNames(rows).value, OwnNames(others).value, i);
  }

  lemma {:induction false} RenamedRowChangesOrder(v: Json, w: Json, at: Path, i: nat)
    requires v.Arr? && w.Arr? && |v.items| == |w.items| && at != [] && ReorderedRow(v, w, at, i)
    requires RowNames(v.items) != RowNames(w.items)
    ensures CellAt(v, [Order]) != CellAt(w, [Order])
  {
    OrderCell(v);
    OrderCell(w);
    ReorderedHoldsLists(v.items[i], w.items[i], at[1..]);
    hide RowNames, CellAt, Reordered;
    if RowNames(v.items).Some? && RowNames(w.items).Some? {
      RenamedRowShows(v.items, w.items, i);
    }
  }

  lemma {:induction false} OrderCell(v: Json)
    requires v.Arr?
    ensures CellAt(v, [Order]) ==
            if RowNames(v.items).Some? then Some(Names(Join(RowNames(v.items).value, ' '))) else None
  {
    hide RowNames;
  }

  lemma {:induction false} ReorderedHoldsLists(v: Json, w: Json, at: Path)
    requires Reordered(v, w, at)
    ensures (v.Arr? && w.Arr?) || (v.Obj? && w.Obj?)
  {
  }

  /** Where a row is an object, its list's names are the rows' own, numbered. */
  lemma {:induction false} NumberedRowNames(rows: seq<Json>, i: nat)
    requires i < |rows| && (rows[i].Obj? || rows[i].Arr?) && RowNames(rows).Some?
    ensures rows[i].Obj? && !Plain(rows) && OwnNames(rows).Some? && RowNames(rows) == Some(Numbered(OwnNames(rows).value))
    ensures |OwnNames(rows).value| == |rows|
    ensures forall j | 0 <= j < |rows| :: OwnNames(rows).value[j] == NameOf(rows[j]).value
  {
    hide NameOf;
    assert !Plain(rows);
    if Distinct(OwnNames(rows).value) {
      DistinctAreNotNumbered(OwnNames(rows).value);
    }
  }

  lemma {:induction false} RenamingChangesACell(v: Json, w: Json, at: Path) returns (p: Path)
    requires Reordered(v, w, at) && OneListAt(v, at) && !NamesKept(v, w, at)
    ensures p != at + [Order] && CellAt(v, p) != CellAt(w, p)
    decreases v
  {
    hide RowNames, NamedApart;
    if v.Arr? {
      if RowNames(v.items) != RowNames(w.items) {
        var i :| ReorderedRow(v, w, at, i);
        RenamedRowChangesOrder(v, w, at, i);
        p := [Order];
        assert |at + [Order]| > 1;
      } else {
        var i :| ReorderedRow(v, w, at, i) && !NamesKept(v.items[i], w.items[i], at[1..]);
        var q := RenamingChangesACell(v.items[i], w.items[i], at[1..]);
        p := [at[0]] + q;
        assert p[1..] == q;
        StepsApart(at, p);
        RowNamesLength(v.items);
        StepsDistinct(RowNames(v.items), |v.items|, i);
        OneRowCell(v, RowNames(v.items), i, p, |v.items|);
        OneRowCell(w, RowNames(w.items), i, p, |w.items|);
      }
    } else {
      var k := at[0].k;
      var q := RenamingChangesACell(v.members[k], w.members[k], at[1..]);
      p := [at[0]] + q;
      assert p[1..] == q;
      StepsApart(at, p);
    }
  }

  /**
   Reordering the one list at a path changes no other cell exactly when every list on the way gives its rows the same
   names as before.
   */
  lemma {:induction false} ReorderingChangesOrderOnlyIff(v: Json, w: Json, at: Path)
    requires Reordered(v, w, at) && OneListAt(v, at)
    ensures (forall p | p != at + [Order] :: CellAt(v, p) == CellAt(w, p)) <==> NamesKept(v, w, at)
  {
    hide Reordered, OneListAt, NamesKept, CellAt;
    if NamesKept(v, w, at) {
      forall p | p != at + [Order]
        ensures CellAt(v, p) == CellAt(w, p)
      {
        ReorderingChangesOrderOnly(v, w, at, p);
      }
    } else {
      var p := RenamingChangesACell(v, w, at);
    }
  }

  /** The reordered list has an order cell, even where rows that share a step lie over each other. */
  lemma {:induction false} OrderCellThere(v: Json, w: Json, at: Path)
    requires Reordered(v, w, at)
    ensures CellAt(v, at + [Order]).Some?
    decreases v
  {
    hide RowNames, NamedApart;
    if at == [] {
      assert [] + [Order] == [Order];
      OrderCell(v);
      NamedApartNames(v.items);
    } else {
      var p := at + [Order];
      assert p[0] == at[0] && p[1..] == at[1..] + [Order];
      if v.Arr? {
        var i :| ReorderedRow(v, w, at, i);
        OrderCellThere(v.items[i], w.items[i], at[1..]);
        SomeRowCell(v, RowNames(v.items), i, p, |v.items|);
      } else {
        OrderCellThere(v.members[at[0].k], w.members[at[0].k], at[1..]);
      }
    }
  }

  lemma {:induction false} NamedApartNames(rows: seq<Json>)
    requires NamedApart(rows)
    ensures RowNames(rows).Some?
  {
  }

  lemma {:induction false} SomeRowCell(v: Json, names: Option<seq<string>>, i: nat, p: Path, n: nat)
    requires v.Arr? && i < n <= |v.items| && p != [] && p[0] == StepOf(names, i) && CellAt(v.items[i], p[1..]).Some?
    ensures RowCell(v, names, p, n).Some?
  {
    hide CellAt, StepOf;
    if i < n - 1 {
      SomeRowCell(v, names, i, p, n - 1);
    }
  }

  /** Where no event on the way has a list in its name, no row is renamed. */
  lemma {:induction false} PlainEventsKeepNames(v: Json, w: Json, at: Path)
    requires Reordered(v, w, at) && PlainEventsOnTheWay(v, at)
    ensures NamesKept(v, w, at)
    decreases v
  {
    hide RowNames, NamedApart, Similar, PlainEventName;
    if at == [] {
    } else if v.Arr? {
      forall i | ReorderedRow(v, w, at, i)
        ensures RowNames(v.items) == RowNames(w.items) && NamesKept(v.items[i], w.items[i], at[1..])
      {
        PlainEventsKeepNames(v.items[i], w.items[i], at[1..]);
        ReorderedIsSimilar(v.items[i], w.items[i], at[1..]);
        OneSimilarRow(v.items, w.items, i);
      }
    } else {
      PlainEventsKeepNames(v.members[at[0].k], w.members[at[0].k], at[1..]);
    }
  }

  lemma {:induction false} OneSimilarRow(rows: seq<Json>, others: seq<Json>, i: nat)
    requires |rows| == |others| && i < |rows| && forall j | 0 <= j < |rows| && j != i :: rows[j] == others[j]
    requires Similar(rows[i], others[i]) && PlainEventName(rows[i])
    ensures RowNames(rows) == RowNames(others)
  {
    hide NameOf, PlainEventName;
    SimilarName(rows[i], others[i]);
    hide Similar;
    assert forall j | 0 <= j < |rows| :: SameKind(rows[j], others[j]) && NameOf(rows[j]) == NameOf(others[j]) by {
      assert SameKind(rows[i], others[i]) by {
        SimilarKind(rows[i], others[i]);
      }
    }
    assert Plain(rows) == Plain(others);
    SameOwnNames(rows, others);
  }

  /** One event whose reason is a list of two. */
  function EventList(x: string, y: string): Json {
    Arr([Event(x, y)])
  }

  function Event(x: string, y: string): Json {
    Obj(map["involved_object" := Obj(map[]), "reason" := Arr([Str(x), Str(y)])])
  }

  function EventListName(x: string, y: string): string {
    "///" + (x + "," + y) + "/"
  }

  lemma EventNamesDiffer()
    ensures EventListName("a", "b") != EventListName("b", "a")
  {
    assert EventListName("a", "b")[3] == 'a' && EventListName("b", "a")[3] == 'b';
  }

  lemma EventNamed(x: string, y: string)
    ensures NameOf(Event(x, y)) == Some(EventListName(x, y))
  {
    var row := Event(x, y);
    var reasons := row.members["reason"];
    assert EventParts(Some(row))[3] == Some(reasons);
    ListJoined(reasons, x, y);
    EventJoined(x + "," + y);
    hide JoinedValue, JoinedItems, Join;
    assert IsEvent(Some(row));
  }

  lemma EventListNamed(x: string, y: string)
    ensures RowNames(EventList(x, y).items) == Some([EventListName(x, y)])
  {
    var rows := EventList(x, y).items;
    EventNamed(x, y);
    hide NameOf;
    ObjectRowsNamed(rows, [EventListName(x, y)]);
    DistinctAreNotNumbered([EventListName(x, y)]);
  }

  lemma ListJoined(v: Json, x: string, y: string)
    requires v == Arr([Str(x), Str(y)])
    ensures JoinedValue(v) == x + "," + y
  {
    assert JoinedItems(v, 2) == "";
    assert JoinedItems(v, 1) == "," + y + "";
    assert JoinedItems(v, 0) == "" + x + ("," + y + "");
    assert "" + x + ("," + y + "") == x + "," + y;
  }

  lemma EventJoined(reason: string)
    ensures Join(["", "", "", reason, ""], '/') == "///" + reason + "/"
  {
    var parts := ["", "", "", reason, ""];
    assert parts[1..] == ["", "", reason, ""] && parts[1..][1..] == ["", reason, ""];
    assert parts[1..][1..][1..] == [reason, ""] && [reason, ""][1..] == [""];
    assert Join([""], '/') == "";
    assert Join([reason, ""], '/') == reason + "/";
    assert Join(["", reason, ""], '/') == "/" + (reason + "/");
    assert Join(["", "", reason, ""], '/') == "/" + ("/" + (reason + "/"));
    assert Join(parts, '/') == "/" + ("/" + ("/" + (reason + "/")));
  }

  lemma {:induction false} ObjectRowsNamed(rows: seq<Json>, names: seq<string>)
    requires |rows| == |names| > 0 && forall i | 0 <= i < |rows| :: rows[i].Obj? && NameOf(rows[i]) == Some(names[i])
    ensures OwnNames(rows) == Some(names) && RowNames(rows) == Some(Numbered(names))
  {
    hide NameOf;
    assert !rows[0].Str? && !rows[0].Number?;
    assert !Plain(rows);
    forall i | 0 <= i < |rows|
      ensures RowName(rows[i], false) == Some(names[i])
    {
    }
    hide RowName;
    assert OwnNames(rows).Some? && OwnNames(rows).value == names;
    if Distinct(names) {
      DistinctAreNotNumbered(names);
    }
  }

  lemma EventListReordered(x: string, y: string)
    requires x != y
    ensures Reordered(EventList(x, y), EventList(y, x), [Row(EventListName(x, y)), Key("reason")])
  {
    var v, w, at := EventList(x, y), EventList(y, x), [Row(EventListName(x, y)), Key("reason")];
    EventListNamed(x, y);
    ReasonsReordered(x, y);
    hide EventListName, RowNames, NamedApart, Permutes;
    assert at[1..] == [Key("reason")] && at[1..][1..] == [];
    assert Reordered(v.items[0], w.items[0], at[1..]);
    assert ReorderedRow(v, w, at, 0);
  }

  lemma EventListCell(x: string, y: string, name: string)
    ensures CellAt(EventList(x, y), [Row(name), Key("reason"), Length]) ==
            if name == EventListName(x, y) then Some(Count(2)) else None
  {
    var v, p := EventList(x, y), [Row(name), Key("reason"), Length];
    EventListNamed(x, y);
    hide EventListName, RowNames;
    assert p[1..] == [Key("reason"), Length] && p[1..][1..] == [Length];
    var inner, reason := CellAt(v.items[0], p[1..]), v.items[0].members["reason"];
    assert inner == CellAt(reason, [Length]);
    assert reason == Arr([Str(x), Str(y)]);
    assert inner == Some(Count(2));
    assert RowCell(v, RowNames(v.items), p, 0) == None;
    assert RowCell(v, RowNames(v.items), p, 1) == if p[0] == StepOf(RowNames(v.items), 0) then inner else None;
  }

  /** A list inside an event's name: its order is part of the name, and the whole row moves to other cells. */
  lemma ListInEventNameMatters()
    ensures var v, w, at := EventList("a", "b"), EventList("b", "a"), [Row(EventListName("a", "b")), Key("reason")];
            Reordered(v, w, at) && CellAt(v, at + [Length]) != CellAt(w, at + [Length])
  {
    var name := EventListName("a", "b");
    EventNamesDiffer();
    hide EventListName, Reordered, CellAt, EventList;
    EventListReordered("a", "b");
    EventListCell("a", "b", name);
    EventListCell("b", "a", name);
    assert [Row(name), Key("reason")] + [Length] == [Row(name), Key("reason"), Length];
  }

  lemma ReasonsReordered(x: string, y: string)
    requires x != y
    ensures Reordered(Arr([Str(x), Str(y)]), Arr([Str(y), Str(x)]), [])
  {
    var one, two := [Str(x), Str(y)], [Str(y), Str(x)];
    assert Permutes(one, two, [1, 0], [1, 0]);
    assert Plain(one) && OwnNames(one).Some? && OwnNames(one).value == [x, y];
  }

  // ----- a path that leads into two rows -----

  /** A row with a name and a list. */
  function Holder(name: string, list: Json): Json {
    Obj(map["name" := Str(name), "list" := list])
  }

  lemma {:induction false} HolderNamed(name: string, list: Json)
    ensures NameOf(Holder(name, list)) == Some("//" + name)
  {
    var row := Some(Holder(name, list));
    assert !IsEvent(row);
    assert Get(row, "metadata") == None && Get(None, "uid") == None;
    assert FirstScalar(NameFields(row)) == None by {
      var fields := NameFields(row);
      NoScalars(fields);
    }
    SlashesJoined(name);
    hide Join;
    assert OrElse(Get(Get(row, "metadata"), "name"), Get(row, "name")) == Some(Str(name));
    assert TextOr(OrElse(Get(row, "kind"), Get(row, "type"))) == "";
  }

  lemma {:induction false} NoScalars(vs: seq<Option<Json>>)
    requires forall i | 0 <= i < |vs| :: vs[i] == None
    ensures FirstScalar(vs) == None
  {
    if vs != [] {
      NoScalars(vs[1..]);
    }
  }

  lemma SlashesJoined(name: string)
    ensures Join(["", "", name], '/') == "//" + name
  {
    assert ["", "", name][1..] == ["", name] && ["", name][1..] == [name];
    assert Join(["", name], '/') == "/" + name;
  }

  /** Two rows of one name beside one that is named like the second of them. */
  function Holders(list: Json): Json {
    Arr([Holder("x", Arr([])), Holder("x", list), Holder("x#2", BothEvents())])
  }

  function BothEvents(): Json {
    Arr([Event("a", "b"), Event("b", "a")])
  }

  lemma HoldersNamed(list: Json)
    ensures RowNames(Holders(list).items) == Some(["//x", "//x#2", "//x#2"])
  {
    HolderNamed("x", Arr([]));
    HolderNamed("x", list);
    HolderNamed("x#2", BothEvents());
    hide NameOf, BothEvents;
    assert "//" + "x" == "//x" && "//" + "x#2" == "//x#2" == "//x" + "#2";
    ObjectRowsNamed(Holders(list).items, ["//x", "//x", "//x#2"]);
    ThreeNumbered("//x", "//x#2");
  }

  lemma ThreeNumbered(x: string, y: string)
    requires x != y
    ensures Numbered([x, x, y]) == [x, x + "#2", y]
  {
    var names := [x, x, y];
    assert names[..2] == [x, x] && [x, x][..1] == [x] && [x][..0] == [];
    NotCounted([x, x], y);
    assert Times([x], x) == 1;
    assert Times([x, x], x) == Times([x], x) + 1 && Times(names, y) == Times([x, x], y) + 1;
    FirstAndSecond(x);
    FirstAndSecond(y);
    hide Nth, Times;
    assert Numbered([x]) == [] + [Nth(x, 1)];
    assert Numbered([x, x]) == [Nth(x, 1)] + [Nth(x, 2)];
  }

  lemma BothEventsNamed()
    ensures RowNames(BothEvents().items) == Some([EventListName("a", "b"), EventListName("b", "a")])
  {
    EventNamed("a", "b");
    EventNamed("b", "a");
    EventNamesDiffer();
    hide NameOf, EventListName, Event;
    var names := [EventListName("a", "b"), EventListName("b", "a")];
    assert Event("a", "b").Obj? && Event("b", "a").Obj? by {
      EventIsObject("a", "b");
      EventIsObject("b", "a");
    }
    ObjectRowsNamed(BothEvents().items, names);
    DistinctAreNotNumbered(names);
  }

  lemma EventIsObject(x: string, y: string)
    ensures Event(x, y).Obj?
  {
  }

  /** Every cell of one event's list is one of the list of both. */
  lemma {:induction false} EventListCovered(x: string, y: string, q: Path)
    requires (x == "a" && y == "b") || (x == "b" && y == "a")
    requires CellAt(EventList(x, y), q).Some?
    ensures CellAt(BothEvents(), q).Some?
  {
    var v, w := EventList(x, y), BothEvents();
    EventListNamed(x, y);
    BothEventsNamed();
    var i := if x == "a" then 0 else 1;
    assert w.items[i] == v.items[0];
    hide RowNames, EventListName, Event;
    if q != [Length] && q != [Order] {
      FirstRowCell(v, RowNames(v.items), q);
      SomeRowCell(w, RowNames(w.items), i, q, |w.items|);
    }
  }

  lemma {:induction false} FirstRowCell(v: Json, names: Option<seq<string>>, q: Path)
    requires v.Arr? && |v.items| == 1 && RowCell(v, names, q, 1).Some?
    ensures q != [] && q[0] == StepOf(names, 0) && CellAt(v.items[0], q[1..]).Some?
  {
    hide CellAt, StepOf;
    assert RowCell(v, names, q, 0) == None;
  }

  lemma {:induction false} HolderCovered(x: string, y: string, q: Path)
    requires (x == "a" && y == "b") || (x == "b" && y == "a")
    requires CellAt(Holder("x", EventList(x, y)), q).Some?
    ensures CellAt(Holder("x#2", BothEvents()), q).Some?
  {
    hide EventList, BothEvents;
    var v, w := Holder("x", EventList(x, y)), Holder("x#2", BothEvents());
    assert v.members.Keys == w.members.Keys == {"name", "list"};
    if q[0].k == "list" {
      assert CellAt(v, q) == CellAt(EventList(x, y), q[1..]);
      EventListCovered(x, y, q[1..]);
    }
  }

  lemma {:induction false} ThreeRowCells(v: Json, w: Json, names: Option<seq<string>>, p: Path)
    requires v.Arr? && w.Arr? && |v.items| == |w.items| == 3
    requires v.items[0] == w.items[0] && v.items[2] == w.items[2] && StepOf(names, 1) == StepOf(names, 2)
    requires forall q :: CellAt(v.items[1], q).Some? || CellAt(w.items[1], q).Some? ==> CellAt(v.items[2], q).Some?
    ensures RowCell(v, names, p, 3) == RowCell(w, names, p, 3)
  {
    hide CellAt, StepOf;
    assert RowCell(v, names, p, 0) == RowCell(w, names, p, 0) == None;
    assert RowCell(v, names, p, 1) == RowCell(w, names, p, 1);
    if p != [] && p[0] == StepOf(names, 2) && CellAt(v.items[2], p[1..]).Some? {
      assert RowCell(v, names, p, 3) == CellAt(v.items[2], p[1..]) == RowCell(w, names, p, 3);
    } else {
      assert RowCell(v, names, p, 2) == RowCell(w, names, p, 2);
    }
  }

  lemma HoldersAlike(p: Path)
    ensures CellAt(Holders(EventList("a", "b")), p) == CellAt(Holders(EventList("b", "a")), p)
  {
    var v, w := Holders(EventList("a", "b")), Holders(EventList("b", "a"));
    HoldersNamed(EventList("a", "b"));
    HoldersNamed(EventList("b", "a"));
    hide EventList, BothEvents, RowNames, Holder;
    forall q | CellAt(v.items[1], q).Some? || CellAt(w.items[1], q).Some?
      ensures CellAt(v.items[2], q).Some?
    {
      if CellAt(v.items[1], q).Some? {
        HolderCovered("a", "b", q);
      } else {
        HolderCovered("b", "a", q);
      }
    }
    ThreeRowCells(v, w, RowNames(v.items), p);
  }

  lemma {:induction false} HolderReordered(x: Json, y: Json, inner: Path)
    requires Reordered(x, y, inner)
    ensures Reordered(Holder("x", x), Holder("x", y), [Key("list")] + inner)
    ensures NamesKept(Holder("x", x), Holder("x", y), [Key("list")] + inner) <==> NamesKept(x, y, inner)
  {
    var v, w, at := Holder("x", x), Holder("x", y), [Key("list")] + inner;
    assert at[1..] == inner && v.members.Keys == w.members.Keys == {"name", "list"};
    hide NamesKept, RowNames;
    assert v.members["list"] == x && w.members["list"] == y;
    assert Reordered(v, w, at);
    NamesKeptMember(v, w, at);
  }

  lemma {:induction false} NamesKeptMember(v: Json, w: Json, at: Path)
    requires v.Obj? && at != [] && Reordered(v, w, at)
    ensures NamesKept(v, w, at) <==> NamesKept(v.members[at[0].k], w.members[at[0].k], at[1..])
  {
  }

  lemma {:induction false} RowTwoReordered(v: Json, w: Json, at: Path)
    requires v.Arr? && w.Arr? && |v.items| == |w.items| == 3 && at != []
    requires v.items[0] == w.items[0] && v.items[2] == w.items[2]
    requires at[0] == StepOf(RowNames(v.items), 1) && Reordered(v.items[1], w.items[1], at[1..])
    requires !NamesKept(v.items[1], w.items[1], at[1..])
    ensures Reordered(v, w, at) && !NamesKept(v, w, at)
  {
    hide RowNames, StepOf;
    assert ReorderedRow(v, w, at, 1);
  }

  /** The event's row is renamed, below a row that another lies over. */
  lemma HoldersRename(at: Path)
    requires at == [Row("//x#2"), Key("list"), Row(EventListName("a", "b")), Key("reason")]
    ensures var v, w := Holders(EventList("a", "b")), Holders(EventList("b", "a"));
            Reordered(v, w, at) && !NamesKept(v, w, at)
  {
    var x, y := EventList("a", "b"), EventList("b", "a");
    var inner := [Row(EventListName("a", "b")), Key("reason")];
    assert at[1..] == [Key("list")] + inner;
    hide EventList, EventListName, BothEvents, RowNames, Reordered, NamesKept, Holder;
    EventListReordered("a", "b");
    EventsRenamed(inner);
    HoldersNamed(x);
    HolderReordered(x, y, inner);
    RowTwoReordered(Holders(x), Holders(y), at);
  }

  lemma EventsRenamed(inner: Path)
    requires inner == [Row(EventListName("a", "b")), Key("reason")]
    requires Reordered(EventList("a", "b"), EventList("b", "a"), inner)
    ensures !NamesKept(EventList("a", "b"), EventList("b", "a"), inner)
  {
    EventListNamed("a", "b");
    EventListNamed("b", "a");
    EventNamesDiffer();
    hide EventListName, RowNames, Reordered;
  }

  /**
   Where a path leads into two rows, a renamed row can be hidden: the last row lies over the second and has all of its
   cells, before the reordering and after.
   */
  lemma RenamingCanBeHidden()
    ensures var v, w := Holders(EventList("a", "b")), Holders(EventList("b", "a"));
            var at := [Row("//x#2"), Key("list"), Row(EventListName("a", "b")), Key("reason")];
            Reordered(v, w, at) && !NamesKept(v, w, at) && forall p :: CellAt(v, p) == CellAt(w, p)
  {
    hide EventList, EventListName, Holders, Reordered, NamesKept, CellAt;
    HoldersRename([Row("//x#2"), Key("list"), Row(EventListName("a", "b")), Key("reason")]);
    forall p
      ensures CellAt(Holders(EventList("a", "b")), p) == CellAt(Holders(EventList("b", "a")), p)
    {
      HoldersAlike(p);
    }
  }
}

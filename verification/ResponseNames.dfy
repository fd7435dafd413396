/**
 What names the rows of a list in e2e/guard/response-compare.ts, so that two answers' rows are paired by name and not by
 position.
 */
module ResponseNames {
  import opened Options
  import opened JsonValues
  import opened Strings

  // ----- what names a row -----

  /** `v[key]` of a value that may be missing; an array has none of the keys asked for. */
  function Get(v: Option<Json>, key: string): Option<Json> {
    if v.Some? && v.value.Obj? && key in v.value.members then Some(v.value.members[key]) else None
  }

  /** `a ?? b`. */
  function OrElse(a: Option<Json>, b: Option<Json>): Option<Json> {
    if a.None? || a.value.Null? then b else a
  }

  /** What `join` writes of an element. */
  function Joined(v: Option<Json>): string {
    match v
    case None => ""
    case Some(x) => JoinedValue(x)
  }

  function JoinedValue(v: Json): string
    decreases v, 1
  {
    match v
    case Null => ""
    case Bool(truth) => if truth then "true" else "false"
    case Number(literal) => literal
    case Str(text) => text
    case Arr(items) => JoinedItems(v, 0)
    case Obj(_) => "[object Object]"
  }

  function JoinedItems(v: Json, i: nat): string
    requires v.Arr? && i <= |v.items|
    decreases v, 0, |v.items| - i
  {
    if i == |v.items| then ""
    else (if i > 0 then "," else "") + JoinedValue(v.items[i]) + JoinedItems(v, i + 1)
  }

  predicate IsText(v: Option<Json>) {
    v.Some? && v.value.Str?
  }

  /** A string or a number, as text. */
  function Scalar(v: Option<Json>): Option<string> {
    match v
    case Some(Str(text)) => Some(text)
    case Some(Number(literal)) => Some(literal)
    case _ => None
  }

  function FirstScalar(vs: seq<Option<Json>>): Option<string> {
    if vs == [] then None else if Scalar(vs[0]).Some? then Scalar(vs[0]) else FirstScalar(vs[1..])
  }

  predicate IsEvent(row: Option<Json>) {
    var o := Get(row, "involved_object");
    o.Some? && (o.value.Obj? || o.value.Arr?)
  }

  /** The values an event's name is joined from. */
  function EventParts(row: Option<Json>): (parts: seq<Option<Json>>)
    ensures |parts| == 5
  {
    var o := Get(row, "involved_object");
    [Get(o, "kind"), Get(o, "namespace"), Get(o, "name"), Get(row, "reason"), Get(row, "message")]
  }

  /** The fields that name a row, in the order they are tried. */
  function NameFields(row: Option<Json>): seq<Option<Json>> {
    [Get(Get(row, "metadata"), "uid"), Get(row, "uid"), Get(row, "uuid"), Get(row, "id"), Get(row, "ID"),
     Get(row, "fingerprint"), Get(row, "key")]
  }

  function TextOr(v: Option<Json>): string {
    if IsText(v) then v.value.text else ""
  }

  /** The name of a named object: kind, namespace, name and, for a revision, its number. */
  function ObjectName(row: Option<Json>): Option<string> {
    var meta := Get(row, "metadata");
    var named := OrElse(Get(meta, "name"), Get(row, "name"));
    if !IsText(named) then None
    else
      var ns := OrElse(Get(meta, "namespace"), Get(row, "namespace"));
      var kind := OrElse(Get(row, "kind"), Get(row, "type"));
      var revision := Scalar(Get(row, "revision"));
      var parts := [TextOr(kind), TextOr(ns), named.value.text];
      Some(Join(if revision.Some? then parts + [revision.value] else parts, '/'))
  }

  function NameOf(v: Json): Option<string> {
    var row := Some(v);
    if IsEvent(row) then
      var p := EventParts(row);
      Some(Join([Joined(p[0]), Joined(p[1]), Joined(p[2]), Joined(p[3]), Joined(p[4])], '/'))
    else if FirstScalar(NameFields(row)).Some? then FirstScalar(NameFields(row))
    else ObjectName(row)
  }

  predicate Plain(rows: seq<Json>) {
    forall i | 0 <= i < |rows| :: rows[i].Str? || rows[i].Number?
  }

  function RowName(v: Json, plain: bool): Option<string> {
    if plain then Scalar(Some(v)) else NameOf(v)
  }

  predicate Distinct(names: seq<string>) {
    forall i, j | 0 <= i < j < |names| :: names[i] != names[j]
  }

  /** The rows' own names, when every row has one. */
  function OwnNames(rows: seq<Json>): Option<seq<string>> {
    var plain := Plain(rows);
    if rows == [] || (!plain && exists i | 0 <= i < |rows| :: !rows[i].Obj?) then None
    else if exists i | 0 <= i < |rows| :: RowName(rows[i], plain).None? then None
    else Some(seq(|rows|, i requires 0 <= i < |rows| => RowName(rows[i], plain).value))
  }

  function Times(names: seq<string>, name: string): nat {
    if names == [] then 0 else Times(names[..|names| - 1], name) + if names[|names| - 1] == name then 1 else 0
  }

  /** The second, third… row of a name takes its number. */
  function Nth(name: string, nth: nat): string {
    if nth == 1 then name else name + "#" + NatText(nth)
  }

  function Numbered(names: seq<string>): seq<string> {
    if names == [] then []
    else
      var last := names[|names| - 1];
      var nth := Times(names, last);
      Numbered(names[..|names| - 1]) + [Nth(last, nth)]
  }

  function RowNames(rows: seq<Json>): (names: Option<seq<string>>)
  {
    var own := OwnNames(rows);
    if own.None? || Distinct(own.value) then own
    else if Plain(rows) then None
    else Some(Numbered(own.value))
  }

  lemma {:induction false} RowNamesLength(rows: seq<Json>)
    ensures RowNames(rows).Some? ==> |RowNames(rows).value| == |rows|
  {
    var own := OwnNames(rows);
    if own.Some? {
      NumberedLength(own.value);
    }
  }

  lemma {:induction false} NumberedLength(names: seq<string>)
    ensures |Numbered(names)| == |names|
  {
    if names != [] {
      NumberedLength(names[..|names| - 1]);
    }
  }

  // ----- what a changed name shows in the order -----

  lemma {:induction false} NotCounted(names: seq<string>, name: string)
    requires name !in names
    ensures Times(names, name) == 0
  {
    if names != [] {
      NotCounted(names[..|names| - 1], name);
    }
  }

  lemma {:induction false} DistinctAreNotNumbered(names: seq<string>)
    requires Distinct(names)
    ensures Numbered(names) == names
  {
    if names != [] {
      var init := names[..|names| - 1];
      NotCounted(init, names[|names| - 1]);
      DistinctAreNotNumbered(init);
      assert names == init + [names[|names| - 1]];
    }
  }

  lemma {:induction false} JoinLast(parts: seq<string>, sep: char)
    requires |parts| > 1
    ensures Join(parts, sep) == Join(parts[..|parts| - 1], sep) + [sep] + parts[|parts| - 1]
  {
    var init := parts[..|parts| - 1];
    if |parts| > 2 {
      JoinLast(parts[1..], sep);
      assert init[1..] == parts[1..][..|parts| - 2];
    } else {
      assert init == [parts[0]] && parts[1..] == [parts[1]];
    }
  }

  /** Two lists of names that differ in one row count each name almost alike. */
  lemma {:induction false} TimesClose(a: seq<string>, b: seq<string>, i: nat, name: string)
    requires |a| == |b| && forall j | 0 <= j < |a| && j != i :: a[j] == b[j]
    ensures -1 <= Times(a, name) - Times(b, name) <= 1
    ensures i >= |a| ==> Times(a, name) == Times(b, name)
  {
    if a != [] {
      TimesClose(a[..|a| - 1], b[..|b| - 1], i, name);
    }
  }

  /** Reading on by two from a space only meets spaces. */
  lemma {:induction false} SpacesOn(x: string, y: string, n: nat)
    requires y == x + "#2" && |y| > 1 && y[1] == ' ' && forall j | 0 <= j < |x| :: x[j] == y[j + 2]
    requires 2 * n + 1 < |y|
    ensures y[2 * n + 1] == ' '
  {
    if n > 0 {
      SpacesOn(x, y, n - 1);
      assert x[2 * n - 1] == y[2 * n - 1];
    }
  }

  /** A name and its second occurrence do not end the same text, each after a space. */
  lemma FirstAndSecondDiffer(before: string, after: string, x: string)
    ensures before + " " + x != after + " " + (x + "#2")
  {
    var y := x + "#2";
    var s, t := before + " " + x, after + " " + y;
    assert y[|x|] == '#' && y[|x| + 1] == '2';
    if s == t {
      assert |before| == |after| + 2;
      assert s[|before|] == ' ' && t[|before|] == y[1];
      forall j | 0 <= j < |x|
        ensures x[j] == y[j + 2]
      {
        assert s[|before| + 1 + j] == x[j] && t[|after| + 1 + (j + 2)] == y[j + 2];
      }
      SpacesOn(x, y, |x| / 2);
    }
  }

  lemma NumberEnds(x: string, a: nat)
    requires a >= 2
    ensures Nth(x, a) != "" && Nth(x, a)[|Nth(x, a)| - 1] == '0' + (a % 10) as char
  {
    var digits := NatText(a);
    assert digits[|digits| - 1] == '0' + (a % 10) as char;
    hide NatText;
    assert Nth(x, a) == x + "#" + digits;
  }

  lemma EndsDiffer(before: string, after: string, x: string, y: string)
    requires x != "" && y != "" && x[|x| - 1] != y[|y| - 1]
    ensures before + " " + x != after + " " + y
  {
    var s, t := before + " " + x, after + " " + y;
    assert s[|s| - 1] == x[|x| - 1] && t[|t| - 1] == y[|y| - 1];
  }

  lemma FirstAndSecond(x: string)
    ensures Nth(x, 1) == x && Nth(x, 2) == x + "#2"
  {
    assert NatText(2) == "2";
    hide NatText;
    assert x + "#" + "2" == x + "#2";
  }

  lemma NeighboursDiffer(before: string, after: string, x: string, a: nat, b: nat)
    requires a >= 1 && b >= 1 && a != b && -1 <= a - b <= 1
    ensures before + " " + Nth(x, a) != after + " " + Nth(x, b)
  {
    if a == 1 || b == 1 {
      FirstAndSecond(x);
      hide Nth;
      FirstAndSecondDiffer(before, after, x);
      FirstAndSecondDiffer(after, before, x);
    } else {
      NumberEnds(x, a);
      NumberEnds(x, b);
      hide Nth, NatText;
      EndsDiffer(before, after, Nth(x, a), Nth(x, b));
    }
  }

  lemma SuffixCancels(s: string, t: string, u: string)
    ensures s + u == t + u ==> s == t
  {
    if s + u == t + u {
      assert s == (s + u)[..|s|] && t == (t + u)[..|t|];
    }
  }

  /** The last of some names, and what is joined before it. */
  lemma LastNumbered(names: seq<string>)
    requires names != []
    ensures var init, last := Numbered(names[..|names| - 1]), Nth(names[|names| - 1], Times(names, names[|names| - 1]));
            && Numbered(names) == init + [last]
            && Join(Numbered(names), ' ') == if init == [] then last else Join(init, ' ') + " " + last
  {
    var n := |names| - 1;
    NumberedLength(names);
    NumberedLength(names[..n]);
    var x := Numbered(names);
    assert x[..n] == Numbered(names[..n]);
    if n > 0 {
      JoinLast(x, ' ');
    }
  }

  /** When one row's own name changes and that changes the rows' names, their joined order changes too. */
  lemma {:induction false} OrderShowsChange(a: seq<string>, b: seq<string>, i: nat)
    requires |a| == |b| && i < |a| && forall j | 0 <= j < |a| && j != i :: a[j] == b[j]
    requires Numbered(a) != Numbered(b)
    ensures Join(Numbered(a), ' ') != Join(Numbered(b), ' ')
  {
    var n := |a| - 1;
    var before, after := a[..n], b[..n];
    NumberedLength(before);
    NumberedLength(after);
    LastNumbered(a);
    LastNumbered(b);
    if i == n {
      assert before == after;
      PrefixCancels(Join(Numbered(before), ' ') + " ", Nth(a[n], Times(a, a[n])), Nth(b[n], Times(b, b[n])));
    } else {
      CountedOnce(a);
      CountedOnce(b);
      TimesClose(a, b, i, a[n]);
      var p, q, name, s, t := Join(Numbered(before), ' '), Join(Numbered(after), ' '), a[n], Times(a, a[n]), Times(b, a[n]);
      hide Join, Nth, Times, Numbered;
      if s == t {
        assert Numbered(before) != Numbered(after);
        OrderShowsChange(before, after, i);
      }
      EntriesDiffer(p, q, name, s, t);
    }
  }

  lemma EntriesDiffer(p: string, q: string, name: string, s: nat, t: nat)
    requires s >= 1 && t >= 1 && -1 <= s - t <= 1 && (s == t ==> p != q)
    ensures p + " " + Nth(name, s) != q + " " + Nth(name, t)
  {
    hide Nth;
    if s == t {
      SuffixCancels(p + " ", q + " ", Nth(name, s));
      SuffixCancels(p, q, " ");
    } else {
      NeighboursDiffer(p, q, name, s, t);
    }
  }

  lemma CountedOnce(names: seq<string>)
    requires names != []
    ensures Times(names, names[|names| - 1]) >= 1
  {
  }

  lemma PrefixCancels(p: string, x: string, y: string)
    ensures p + x == p + y ==> x == y
  {
    assert (p + x)[|p|..] == x && (p + y)[|p|..] == y;
  }

  /** The loop that numbers repeated names, with the map of how often each was seen. */
  method NumberNames(names: seq<string>) returns (out: seq<string>)
    ensures out == Numbered(names)
  {
    out := [];
    var seen: map<string, nat> := map[];
    for i := 0 to |names|
      invariant out == Numbered(names[..i])
      invariant forall name :: Times(names[..i], name) == if name in seen then seen[name] else 0
    {
      assert names[..i + 1][..i] == names[..i];
      var nth := (if names[i] in seen then seen[names[i]] else 0) + 1;
      seen := seen[names[i] := nth];
      out := out + [if nth == 1 then names[i] else names[i] + "#" + NatText(nth)];
    }
    assert names[..|names|] == names;
  }

  method FindRowNames(rows: seq<Json>) returns (names: Option<seq<string>>)
    ensures names == RowNames(rows)
  {
    names := OwnNames(rows);
    if names.Some? && !Distinct(names.value) {
      if Plain(rows) {
        return None;
      }
      var numbered := NumberNames(names.value);
      names := Some(numbered);
    }
  }
}

/**
 When the text of a path tells the path: e2e/guard/response-compare.ts keeps its cells under texts, and two paths that read
 the same share a cell.
 */
module ResponsePaths {
  import opened Options
  import opened JsonValues
  import opened Strings
  import opened ResponseNames
  import opened ResponseCells

  /** The steps below an answer's body. */
  predicate BodyPath(p: Path) {
    forall i | 0 <= i < |p| :: !p[i].Status? && !p[i].Header?
  }

  /** What follows a step's text starts with a dot or a bracket, so the step can be read as the start of the other. */
  predicate RunsInto(s: Step, t: Step) {
    StepText(s) + "." <= StepText(t) || StepText(s) + "[" <= StepText(t)
  }

  /** Two steps at one place keep all paths through them apart. */
  predicate KeepApart(s: Step, t: Step) {
    StepText(s) != StepText(t) && !RunsInto(s, t) && !RunsInto(t, s)
  }

  lemma BodyStart(p: Path)
    requires BodyPath(p) && p != []
    ensures StepsText(p) != "" && (StepsText(p)[0] == '.' || StepsText(p)[0] == '[')
  {
    assert !p[0].Status? && !p[0].Header?;
  }

  lemma LongerGoesOn(x: string, y: string, s: string, t: string)
    requires x + s == y + t && |x| <= |y| && x != y
    ensures s != "" && x + [s[0]] <= y
  {
    var all := x + s;
    assert y == all[..|y|] && x == all[..|x|];
    assert |x| < |y| && all[|x|] == s[0];
  }

  /** A step's text that is the start of another's, with more of a path behind, runs into it. */
  lemma ShorterRunsInto(s: Step, t: Step, p: Path, q: Path)
    requires BodyPath(p) && StepText(s) + StepsText(p) == StepText(t) + StepsText(q)
    requires |StepText(s)| <= |StepText(t)| && StepText(s) != StepText(t)
    ensures p != [] && RunsInto(s, t)
  {
    if p != [] {
      BodyStart(p);
    }
    assert p == [] ==> StepsText(p) == "";
    hide StepText, StepsText;
    LongerGoesOn(StepText(s), StepText(t), StepsText(p), StepsText(q));
  }

  /** Two different steps at one place keep every two paths through them apart exactly under `KeepApart`. */
  lemma KeepApartIff(s: Step, t: Step)
    ensures KeepApart(s, t) <==>
            forall p, q | BodyPath(p) && BodyPath(q) :: StepText(s) + StepsText(p) != StepText(t) + StepsText(q)
  {
    if KeepApart(s, t) {
      forall p, q | BodyPath(p) && BodyPath(q)
        ensures StepText(s) + StepsText(p) != StepText(t) + StepsText(q)
      {
        if StepText(s) + StepsText(p) == StepText(t) + StepsText(q) {
          if |StepText(s)| <= |StepText(t)| {
            ShorterRunsInto(s, t, p, q);
          } else {
            ShorterRunsInto(t, s, q, p);
          }
        }
      }
    } else if StepText(s) == StepText(t) {
      assert BodyPath([]) && StepText(s) + StepsText([]) == StepText(t) + StepsText([]);
    } else if RunsInto(s, t) {
      var p, q := Collision(s, t);
    } else {
      var p, q := Collision(t, s);
    }
  }

  lemma DotGoesOn(x: string, y: string)
    requires x + "." <= y
    ensures x + ("." + y[|x| + 1..]) == y
  {
    assert y[..|x| + 1] == x + ".";
  }

  lemma BracketGoesOn(x: string, y: string)
    requires x + "[" <= y
    ensures x + ("[" + (y[|x| + 1..] + "[r") + "]") == y + "[r]"
  {
    assert y[..|x| + 1] == x + "[";
    assert y == x + "[" + y[|x| + 1..];
  }

  lemma KeyGoesOn(s: Step, t: Step, key: string)
    requires StepText(s) + ("." + key) == StepText(t)
    ensures StepText(s) + StepsText([Key(key)]) == StepText(t) + StepsText([])
  {
    OneStepText(Key(key));
    assert StepText(Key(key)) == "." + key && StepsText([]) == "";
    hide StepText, StepsText;
    assert StepText(t) + "" == StepText(t);
  }

  lemma RowGoesOn(s: Step, t: Step, name: string)
    requires StepText(s) + ("[" + name + "]") == StepText(t) + "[r]"
    ensures StepText(s) + StepsText([Row(name)]) == StepText(t) + StepsText([Row("r")])
  {
    OneStepText(Row(name));
    OneStepText(Row("r"));
    assert StepText(Row(name)) == "[" + name + "]" && StepText(Row("r")) == "[r]";
  }

  /** Where a step runs into another, some paths through them read the same. */
  lemma Collision(s: Step, t: Step) returns (p: Path, q: Path)
    requires RunsInto(s, t)
    ensures BodyPath(p) && BodyPath(q) && StepText(s) + StepsText(p) == StepText(t) + StepsText(q)
  {
    hide StepText, StepsText;
    var x, y := StepText(s), StepText(t);
    var rest := y[|x| + 1..];
    if x + "." <= y {
      p, q := [Key(rest)], [];
      DotGoesOn(x, y);
      KeyGoesOn(s, t, rest);
    } else {
      p, q := [Row(rest + "[r")], [Row("r")];
      BracketGoesOn(x, y);
      RowGoesOn(s, t, rest + "[r");
    }
  }

  lemma OneStepText(s: Step)
    ensures StepsText([s]) == StepText(s)
  {
    assert [s][1..] == [];
  }

  // ----- two paths -----

  /** Where two paths part, neither step reads like the other, or like its start with more of the path behind. */
  predicate Clear(p: Path, q: Path) {
    p == [] || q == [] ||
    if p[0] == q[0] then Clear(p[1..], q[1..])
    else
      && StepText(p[0]) != StepText(q[0])
      && (|p| > 1 ==> !RunsInto(p[0], q[0]))
      && (|q| > 1 ==> !RunsInto(q[0], p[0]))
  }

  lemma {:induction false} ClearReadsApart(p: Path, q: Path)
    requires BodyPath(p) && BodyPath(q) && Clear(p, q) && StepsText(p) == StepsText(q)
    ensures p == q
  {
    hide RunsInto, StepText;
    if p == [] || q == [] {
      if p != [] {
        BodyStart(p);
      }
      if q != [] {
        BodyStart(q);
      }
    } else if p[0] == q[0] {
      var x := StepText(p[0]);
      assert StepsText(p[1..]) == (x + StepsText(p[1..]))[|x|..] == StepsText(q[1..]);
      ClearReadsApart(p[1..], q[1..]);
      assert p == [p[0]] + p[1..] && q == [q[0]] + q[1..];
    } else if |StepText(p[0])| <= |StepText(q[0])| {
      ShorterRunsInto(p[0], q[0], p[1..], q[1..]);
    } else {
      ShorterRunsInto(q[0], p[0], q[1..], p[1..]);
    }
  }

  // ----- the cells of one value -----

  /** Cells are written below a value, not only at it. */
  predicate Branches(v: Json) {
    v.Arr? || (v.Obj? && v.members != map[])
  }

  /** Wherever a value branches, no branch that goes on runs into one beside it. */
  ghost predicate Legible(v: Json)
    decreases v
  {
    match v
    case Arr(items) =>
      var names := RowNames(items);
      && (names.Some? ==> Distinct(names.value))
      && (forall i, j | 0 <= i < |items| && 0 <= j < |items| && i != j && Branches(items[i]) ::
            !RunsInto(StepOf(names, i), StepOf(names, j)))
      && forall i | 0 <= i < |items| :: Legible(items[i])
    case Obj(members) =>
      && (forall j, k | j in members && k in members && j != k && Branches(members[j]) :: !RunsInto(Key(j), Key(k)))
      && forall k | k in members :: Legible(members[k])
    case _ => true
  }

  lemma {:induction false} RowCellRow(v: Json, names: Option<seq<string>>, p: Path, n: nat) returns (i: nat)
    requires v.Arr? && n <= |v.items| && RowCell(v, names, p, n).Some?
    ensures i < n && p != [] && p[0] == StepOf(names, i) && CellAt(v.items[i], p[1..]).Some?
  {
    hide CellAt, StepOf;
    i := n - 1;
    if !(p != [] && p[0] == StepOf(names, i) && CellAt(v.items[i], p[1..]).Some?) {
      i := RowCellRow(v, names, p, n - 1);
    }
  }

  lemma DeeperBranches(v: Json, p: Path)
    requires CellAt(v, p).Some? && p != []
    ensures Branches(v)
  {
  }

  /** An array's cells: its length, its order and those of its rows. */
  lemma ArrayCells(v: Json, p: Path) returns (i: nat)
    requires v.Arr? && CellAt(v, p).Some?
    ensures p == [Length] || p == [Order] ||
            (i < |v.items| && p != [] && p[0] == StepOf(RowNames(v.items), i) && CellAt(v.items[i], p[1..]).Some?)
  {
    hide RowNames, RowCell;
    i := 0;
    if p != [Length] && p != [Order] {
      i := RowCellRow(v, RowNames(v.items), p, |v.items|);
    }
  }

  lemma {:induction false} CellsAreBodyPaths(v: Json, p: Path)
    requires CellAt(v, p).Some?
    ensures BodyPath(p)
    decreases v
  {
    if v.Arr? {
      var i := ArrayCells(v, p);
      if p != [Length] && p != [Order] {
        CellsAreBodyPaths(v.items[i], p[1..]);
      }
    } else if v.Obj? && v.members != map[] {
      CellsAreBodyPaths(v.members[p[0].k], p[1..]);
    }
    assert p != [] ==> p == [p[0]] + p[1..];
  }

  /** Rows and an array's own cells differ in their first character. */
  lemma OwnStepsApart(names: Option<seq<string>>, i: nat, s: Step)
    requires s.Length? || s.Order?
    ensures KeepApart(s, StepOf(names, i)) && KeepApart(StepOf(names, i), s)
  {
    var t := StepOf(names, i);
    assert StepText(s)[0] == '.' && StepText(t)[0] == '[';
  }

  lemma LengthOrderApart()
    ensures KeepApart(Length, Order) && KeepApart(Order, Length)
  {
    assert ".$length"[2] != ".$order"[2];
  }

  lemma BracketsCancel(a: string, b: string)
    requires "[" + a + "]" == "[" + b + "]"
    ensures a == b
  {
    assert a == ("[" + a + "]")[1..|a| + 1] && b == ("[" + b + "]")[1..|b| + 1];
  }

  /** Rows named apart, or rows by number, have different texts. */
  lemma RowTextsDiffer(names: Option<seq<string>>, n: nat, i: nat, j: nat)
    requires names.Some? ==> |names.value| == n && Distinct(names.value)
    requires i < n && j < n && i != j
    ensures StepText(StepOf(names, i)) != StepText(StepOf(names, j))
  {
    hide NatText;
    var a, b := if names.Some? then names.value[i] else NatText(i), if names.Some? then names.value[j] else NatText(j);
    if names.None? && NatText(i) == NatText(j) {
      NatTextInjective(i, j);
    }
    assert a != b;
    if StepText(StepOf(names, i)) == StepText(StepOf(names, j)) {
      BracketsCancel(a, b);
    }
  }

  lemma KeyTextsDiffer(j: string, k: string)
    requires j != k
    ensures StepText(Key(j)) != StepText(Key(k))
  {
    assert j == ("." + j)[1..] && k == ("." + k)[1..];
  }

  /** The cells of a legible value have clear paths. */
  lemma {:induction false} LegibleIsClear(v: Json, p: Path, q: Path)
    requires Legible(v) && CellAt(v, p).Some? && CellAt(v, q).Some?
    ensures Clear(p, q)
    decreases v
  {
    hide StepText, RunsInto, KeepApart, RowNames, Distinct, StepOf;
    if v.Arr? {
      ArrayIsClear(v, p, q);
    } else if p != [] && q != [] {
      if p[0] == q[0] {
        LegibleIsClear(v.members[p[0].k], p[1..], q[1..]);
      } else {
        KeyTextsDiffer(p[0].k, q[0].k);
        if |p| > 1 {
          DeeperBranches(v.members[p[0].k], p[1..]);
        }
        if |q| > 1 {
          DeeperBranches(v.members[q[0].k], q[1..]);
        }
      }
    }
  }

  lemma ArrayIsClear(v: Json, p: Path, q: Path)
    requires v.Arr? && Legible(v) && CellAt(v, p).Some? && CellAt(v, q).Some?
    ensures Clear(p, q)
    decreases v, 0
  {
    hide StepText, RunsInto, RowNames, Distinct, StepOf, CellAt;
    var names := RowNames(v.items);
    RowNamesLength(v.items);
    LengthOrderApart();
    var i := ArrayCells(v, p);
    var j := ArrayCells(v, q);
    OwnStepsApart(names, i, Length);
    OwnStepsApart(names, i, Order);
    OwnStepsApart(names, j, Length);
    OwnStepsApart(names, j, Order);
    if p != [Length] && p != [Order] && q != [Length] && q != [Order] {
      RowsAreClear(v, p, q, i, j);
    }
  }

  lemma RowsAreClear(v: Json, p: Path, q: Path, i: nat, j: nat)
    requires v.Arr? && Legible(v) && i < |v.items| && j < |v.items| && p != [] && q != []
    requires p[0] == StepOf(RowNames(v.items), i) && CellAt(v.items[i], p[1..]).Some?
    requires q[0] == StepOf(RowNames(v.items), j) && CellAt(v.items[j], q[1..]).Some?
    ensures Clear(p, q)
    decreases v, 0, 0
  {
    hide StepText, RunsInto, RowNames, Distinct, StepOf, CellAt;
    RowNamesLength(v.items);
    if i == j {
      LegibleIsClear(v.items[i], p[1..], q[1..]);
    } else {
      RowTextsDiffer(RowNames(v.items), |v.items|, i, j);
      if |p| > 1 {
        DeeperBranches(v.items[i], p[1..]);
      }
      if |q| > 1 {
        DeeperBranches(v.items[j], q[1..]);
      }
    }
  }

  /** In a legible value no two cells read the same. */
  lemma LegibleReadsApart(v: Json, p: Path, q: Path)
    requires Legible(v) && CellAt(v, p).Some? && CellAt(v, q).Some? && PathText(p) == PathText(q)
    ensures p == q
  {
    hide Legible, CellAt, Clear, StepsText;
    LegibleIsClear(v, p, q);
    CellsAreBodyPaths(v, p);
    CellsAreBodyPaths(v, q);
    assert StepsText(p) == PathText(p)[1..] == PathText(q)[1..] == StepsText(q);
    ClearReadsApart(p, q);
  }

  // ----- the cells of several values -----

  predicate PlainStep(s: Step) {
    match s
    case Key(k) => '.' !in k && '[' !in k && k != "$length" && k != "$order"
    case Row(name) => ']' !in name && (name == "" || !AllDigits(name))
    case Status => false
    case Header(_) => false
    case _ => true
  }

  predicate PlainPath(p: Path) {
    forall i | 0 <= i < |p| :: PlainStep(p[i])
  }

  /** Keys without a dot or an opening bracket, row names without a closing one that are not numbers. */
  ghost predicate PlainBody(v: Json)
    decreases v
  {
    match v
    case Arr(items) =>
      && (forall i | 0 <= i < |items| :: PlainStep(StepOf(RowNames(items), i)))
      && forall i | 0 <= i < |items| :: PlainBody(items[i])
    case Obj(members) => forall k | k in members :: PlainStep(Key(k)) && PlainBody(members[k])
    case _ => true
  }

  lemma {:induction false} PlainCells(v: Json, p: Path)
    requires PlainBody(v) && CellAt(v, p).Some?
    ensures PlainPath(p)
    decreases v
  {
    hide PlainStep, RowNames, StepOf;
    assert PlainStep(Length) && PlainStep(Order) by {
      OwnStepsPlain();
    }
    if v.Arr? {
      var i := ArrayCells(v, p);
      if p != [Length] && p != [Order] {
        PlainCells(v.items[i], p[1..]);
      }
    } else if v.Obj? && v.members != map[] {
      PlainCells(v.members[p[0].k], p[1..]);
    }
    assert p != [] ==> p == [p[0]] + p[1..];
  }

  lemma OwnStepsPlain()
    ensures PlainStep(Length) && PlainStep(Order)
  {
  }

  /** The text inside a row's brackets. */
  function Inner(s: Step): string
    requires s.Row? || s.Index?
  {
    if s.Row? then s.name else NatText(s.i)
  }

  lemma InnerPlain(s: Step)
    requires PlainStep(s) && (s.Row? || s.Index?)
    ensures ']' !in Inner(s) && StepText(s) == "[" + Inner(s) + "]"
  {
    if s.Index? {
      assert forall k | 0 <= k < |NatText(s.i)| :: IsDigit(NatText(s.i)[k]);
    }
  }

  lemma PrefixAt(u: string, y: string, i: nat)
    ensures u <= y && i < |u| ==> i < |y| && y[i] == u[i]
  {
  }

  lemma EndsInside(x: string, y: string, c: string)
    requires x != "" && |c| == 1 && forall k | 0 < k < |y| - 1 :: y[k] != ']'
    requires y != "" && y[0] == '[' && (x[0] != '[' || (|x| > 1 && x[|x| - 1] == ']'))
    ensures !(x + c <= y)
  {
    PrefixAt(x + c, y, 0);
    PrefixAt(x + c, y, |x| - 1);
    assert (x + c)[0] == x[0] && (x + c)[|x| - 1] == x[|x| - 1];
  }

  lemma NotInside(x: string, y: string, c: string)
    requires x != "" && |c| == 1 && forall k | 0 < k < |y| :: y[k] != c[0]
    ensures !(x + c <= y)
  {
    PrefixAt(x + c, y, |x|);
    assert (x + c)[|x|] == c[0];
  }

  lemma BracketedEnds(s: Step)
    requires PlainStep(s)
    ensures StepText(s)[0] == '[' ==> |StepText(s)| > 1 && StepText(s)[|StepText(s)| - 1] == ']'
  {
    hide NatText;
  }

  lemma PlainBracketLast(t: Step)
    requires PlainStep(t) && (t.Row? || t.Index?)
    ensures StepText(t)[0] == '[' && forall k | 0 < k < |StepText(t)| - 1 :: StepText(t)[k] != ']'
  {
    InnerPlain(t);
    var y, inner := StepText(t), Inner(t);
    hide Inner, PlainStep, NatText, StepText;
    forall k | 0 < k < |y| - 1
      ensures y[k] != ']'
    {
      assert y[k] == inner[k - 1];
    }
  }

  /** A dot or an opening bracket is a plain step's first character or lies inside a row's brackets. */
  lemma PlainDoesNotRun(s: Step, t: Step)
    requires PlainStep(s) && PlainStep(t)
    ensures !RunsInto(s, t)
  {
    var x, y := StepText(s), StepText(t);
    BracketedEnds(s);
    if t.Row? || t.Index? {
      PlainBracketLast(t);
      hide StepText, PlainStep;
      EndsInside(x, y, ".");
      EndsInside(x, y, "[");
    } else {
      PlainDotOnlyFirst(t);
      hide StepText, PlainStep;
      NotInside(x, y, ".");
      NotInside(x, y, "[");
    }
  }

  lemma PlainDotOnlyFirst(t: Step)
    requires PlainStep(t) && !t.Row? && !t.Index?
    ensures forall k | 0 < k < |StepText(t)| :: StepText(t)[k] != '.' && StepText(t)[k] != '['
  {
    var y := StepText(t);
    if t.Key? {
      forall k | 0 < k < |y|
        ensures y[k] != '.' && y[k] != '['
      {
        assert y[k] == t.k[k - 1];
      }
    }
  }

  /** The text behind the dot of a key or of an array's own cell. */
  function Outer(s: Step): string
    requires s.Key? || s.Length? || s.Order?
  {
    if s.Key? then s.k else if s.Length? then "$length" else "$order"
  }

  lemma SameTextSameStep(s: Step, t: Step)
    requires PlainStep(s) && PlainStep(t) && StepText(s) == StepText(t)
    ensures s == t
  {
    hide NatText;
    var x, y := StepText(s), StepText(t);
    assert (s.Row? || s.Index?) <==> x[0] == '[';
    assert (t.Row? || t.Index?) <==> y[0] == '[';
    if s.Row? || s.Index? {
      BracketsCancel(Inner(s), Inner(t));
      SameInner(s, t);
    } else {
      assert x[1..] == Outer(s) && y[1..] == Outer(t);
      SameOuter(s, t);
    }
  }

  lemma SameOuter(s: Step, t: Step)
    requires PlainStep(s) && PlainStep(t) && (s.Key? || s.Length? || s.Order?) && (t.Key? || t.Length? || t.Order?)
    requires Outer(s) == Outer(t)
    ensures s == t
  {
    assert "$length"[1] != "$order"[1];
  }

  lemma SameInner(s: Step, t: Step)
    requires PlainStep(s) && PlainStep(t) && (s.Row? || s.Index?) && (t.Row? || t.Index?) && Inner(s) == Inner(t)
    ensures s == t
  {
    hide NatText;
    if s.Index? && t.Index? {
      NatTextInjective(s.i, t.i);
    }
  }

  /** Plain paths are told apart by their texts, whatever answers they come from. */
  lemma {:induction false} PlainIsClear(p: Path, q: Path)
    requires PlainPath(p) && PlainPath(q)
    ensures Clear(p, q)
  {
    hide PlainStep, StepText, RunsInto;
    if p != [] && q != [] {
      if p[0] == q[0] {
        PlainIsClear(p[1..], q[1..]);
      } else {
        if StepText(p[0]) == StepText(q[0]) {
          SameTextSameStep(p[0], q[0]);
        }
        PlainDoesNotRun(p[0], q[0]);
        PlainDoesNotRun(q[0], p[0]);
      }
    }
  }

  lemma PlainReadsApart(v: Json, w: Json, p: Path, q: Path)
    requires PlainBody(v) && PlainBody(w) && CellAt(v, p).Some? && CellAt(w, q).Some? && PathText(p) == PathText(q)
    ensures p == q
  {
    hide PlainBody, CellAt, Clear, StepsText;
    PlainCells(v, p);
    PlainCells(w, q);
    PlainIsClear(p, q);
    CellsAreBodyPaths(v, p);
    CellsAreBodyPaths(w, q);
    assert StepsText(p) == PathText(p)[1..] == PathText(q)[1..] == StepsText(q);
    ClearReadsApart(p, q);
  }

  // ----- paths that read the same -----

  /** A key with a dot beside an object: two cells of one value, one text. */
  lemma DottedKeyHidesCell()
    ensures var v := Obj(map["a" := Obj(map["b" := Bool(true)]), "a.b" := Bool(false)]);
            && CellAt(v, [Key("a"), Key("b")]) == Some(Leaf(Bool(true)))
            && CellAt(v, [Key("a.b")]) == Some(Leaf(Bool(false)))
            && PathText([Key("a"), Key("b")]) == PathText([Key("a.b")])
  {
    var inner := Obj(map["b" := Bool(true)]);
    var v := Obj(map["a" := inner, "a.b" := Bool(false)]);
    assert [Key("a"), Key("b")][1..] == [Key("b")] && [Key("b")][1..] == [] && [Key("a.b")][1..] == [];
    assert "b" in inner.members && "a" in v.members && "a.b" in v.members;
    assert CellAt(inner, [Key("b")]) == CellAt(Bool(true), []);
    assert CellAt(v, [Key("a"), Key("b")]) == CellAt(inner, [Key("b")]);
    assert CellAt(v, [Key("a.b")]) == CellAt(Bool(false), []);
    assert ".a" + ".b" == ".a.b";
  }

  /** A row named like a number in one answer and an unnamed one in the other; a list and an object with its key. */
  lemma AnswersCanShareTexts()
    ensures PathText([Row("0")]) == PathText([Index(0)])
    ensures PathText([Length]) == PathText([Key("$length")])
  {
    assert NatText(0) == "0";
    assert [Row("0")][1..] == [] && [Index(0)][1..] == [] && [Length][1..] == [] && [Key("$length")][1..] == [];
  }
}

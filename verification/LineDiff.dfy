/**
 The line diff of services/tool-server/handlers_diff.go: `lcsOps` fills a table backwards and walks it forwards,
 `unifiedDiff` counts the changes and groups them into hunks.
 */
module LineDiff {

  const DIFF_LINES_CAP := 4000
  const CTX_LINES := 3

  datatype Kind = Same | Removed | Added
  datatype Op = Op(kind: Kind, text: string)

  // ----- scripts -----

  /** The lines a script starts from: its ' ' and '-' lines. */
  function OldLines(ops: seq<Op>): seq<string> {
    if ops == [] then []
    else (if ops[0].kind == Added then [] else [ops[0].text]) + OldLines(ops[1..])
  }

  /** The lines a script ends at: its ' ' and '+' lines. */
  function NewLines(ops: seq<Op>): seq<string> {
    if ops == [] then []
    else (if ops[0].kind == Removed then [] else [ops[0].text]) + NewLines(ops[1..])
  }

  function Count(ops: seq<Op>, kind: Kind): nat {
    if ops == [] then 0 else (if ops[0].kind == kind then 1 else 0) + Count(ops[1..], kind)
  }

  function ChangeCount(ops: seq<Op>): nat {
    Count(ops, Added) + Count(ops, Removed)
  }

  ghost predicate Spells(ops: seq<Op>, a: seq<string>, b: seq<string>) {
    OldLines(ops) == a && NewLines(ops) == b
  }

  /** Every script's lengths add up, so fewest changes and most kept lines are the same thing. */
  lemma {:induction false} LengthsAddUp(ops: seq<Op>)
    ensures |OldLines(ops)| == Count(ops, Same) + Count(ops, Removed)
    ensures |NewLines(ops)| == Count(ops, Same) + Count(ops, Added)
  {
    if ops != [] {
      LengthsAddUp(ops[1..]);
    }
  }

  lemma {:induction false} CountAppend(p: seq<Op>, q: seq<Op>, kind: Kind)
    ensures Count(p + q, kind) == Count(p, kind) + Count(q, kind)
  {
    if p == [] {
      assert p + q == q;
    } else {
      assert (p + q)[1..] == p[1..] + q;
      CountAppend(p[1..], q, kind);
    }
  }

  // ----- the table -----

  /** The length of a longest common subsequence of `a[i..]` and `b[j..]`. */
  function Common(a: seq<string>, b: seq<string>, i: nat, j: nat): nat
    requires i <= |a| && j <= |b|
    decreases |a| - i + |b| - j
  {
    if i == |a| || j == |b| then 0
    else if a[i] == b[j] then Common(a, b, i + 1, j + 1) + 1
    else if Common(a, b, i + 1, j) >= Common(a, b, i, j + 1) then Common(a, b, i + 1, j)
    else Common(a, b, i, j + 1)
  }

  /** Dropping one line from either side costs at most one common line and gains none. */
  lemma {:induction false} CommonStep(a: seq<string>, b: seq<string>, i: nat, j: nat)
    requires i <= |a| && j <= |b|
    ensures j < |b| ==> Common(a, b, i, j + 1) <= Common(a, b, i, j) <= Common(a, b, i, j + 1) + 1
    ensures i < |a| ==> Common(a, b, i + 1, j) <= Common(a, b, i, j) <= Common(a, b, i + 1, j) + 1
    decreases |a| - i + |b| - j
  {
    if i < |a| && j < |b| {
      CommonStep(a, b, i + 1, j);
      CommonStep(a, b, i, j + 1);
    }
  }

  /** No script keeps more lines than the table says. */
  lemma {:induction false} NoScriptKeepsMore(ops: seq<Op>, a: seq<string>, b: seq<string>, i: nat, j: nat)
    requires i <= |a| && j <= |b|
    requires Spells(ops, a[i..], b[j..])
    ensures Count(ops, Same) <= Common(a, b, i, j)
  {
    if ops != [] {
      CommonStep(a, b, i, j);
      var rest := ops[1..];
      match ops[0].kind {
        case Same =>
          assert a[i] == a[i..][0] == ops[0].text == b[j..][0] == b[j];
          assert OldLines(rest) == a[i..][1..] == a[i + 1..];
          assert NewLines(rest) == b[j..][1..] == b[j + 1..];
          NoScriptKeepsMore(rest, a, b, i + 1, j + 1);
        case Removed =>
          assert OldLines(rest) == a[i..][1..] == a[i + 1..];
          NoScriptKeepsMore(rest, a, b, i + 1, j);
        case Added =>
          assert NewLines(rest) == b[j..][1..] == b[j + 1..];
          NoScriptKeepsMore(rest, a, b, i, j + 1);
      }
    }
  }

  /** The script of `a[i..]` and `b[j..]` that the walk over the table emits. */
  function Walk(a: seq<string>, b: seq<string>, i: nat, j: nat): seq<Op>
    requires i <= |a| && j <= |b|
    decreases |a| - i + |b| - j
  {
    if i == |a| && j == |b| then []
    else if i == |a| then [Op(Added, b[j])] + Walk(a, b, i, j + 1)
    else if j == |b| then [Op(Removed, a[i])] + Walk(a, b, i + 1, j)
    else if a[i] == b[j] then [Op(Same, a[i])] + Walk(a, b, i + 1, j + 1)
    else if Common(a, b, i + 1, j) >= Common(a, b, i, j + 1) then [Op(Removed, a[i])] + Walk(a, b, i + 1, j)
    else [Op(Added, b[j])] + Walk(a, b, i, j + 1)
  }

  lemma {:induction false} WalkSpells(a: seq<string>, b: seq<string>, i: nat, j: nat)
    requires i <= |a| && j <= |b|
    ensures Spells(Walk(a, b, i, j), a[i..], b[j..])
    ensures Count(Walk(a, b, i, j), Same) == Common(a, b, i, j)
    decreases |a| - i + |b| - j
  {
    var ops := Walk(a, b, i, j);
    if i < |a| {
      assert a[i..] == [a[i]] + a[i + 1..];
    }
    if j < |b| {
      assert b[j..] == [b[j]] + b[j + 1..];
    }
    if ops != [] {
      match ops[0].kind {
        case Same =>
          assert ops[1..] == Walk(a, b, i + 1, j + 1);
          WalkSpells(a, b, i + 1, j + 1);
        case Removed =>
          assert ops[1..] == Walk(a, b, i + 1, j);
          WalkSpells(a, b, i + 1, j);
        case Added =>
          assert ops[1..] == Walk(a, b, i, j + 1);
          WalkSpells(a, b, i, j + 1);
      }
    }
  }

  /** The walk's script turns `a` into `b`, and no script that does so has fewer changed lines. */
  lemma WalkIsMinimal(a: seq<string>, b: seq<string>)
    ensures Spells(Walk(a, b, 0, 0), a, b)
    ensures forall ops | Spells(ops, a, b) :: ChangeCount(Walk(a, b, 0, 0)) <= ChangeCount(ops)
  {
    assert a[0..] == a && b[0..] == b;
    WalkSpells(a, b, 0, 0);
    LengthsAddUp(Walk(a, b, 0, 0));
    forall ops | Spells(ops, a, b)
      ensures ChangeCount(Walk(a, b, 0, 0)) <= ChangeCount(ops)
    {
      NoScriptKeepsMore(ops, a, b, 0, 0);
      LengthsAddUp(ops);
    }
  }

  ghost predicate TableFrom(dp: array2<nat>, a: seq<string>, b: seq<string>, i: nat)
    requires dp.Length0 == |a| + 1 && dp.Length1 == |b| + 1
    reads dp
  {
    forall x: nat, y: nat | i <= x <= |a| && y <= |b| :: dp[x, y] == Common(a, b, x, y)
  }

  ghost predicate RowFrom(dp: array2<nat>, a: seq<string>, b: seq<string>, i: nat, j: nat)
    requires dp.Length0 == |a| + 1 && dp.Length1 == |b| + 1 && i <= |a|
    reads dp
  {
    forall y: nat | j <= y <= |b| :: dp[i, y] == Common(a, b, i, y)
  }

  /** The table half of lcsOps, from the bottom right corner. */
  method FillTable(a: seq<string>, b: seq<string>) returns (dp: array2<nat>)
    ensures fresh(dp) && dp.Length0 == |a| + 1 && dp.Length1 == |b| + 1
    ensures TableFrom(dp, a, b, 0)
  {
    var n, m := |a|, |b|;
    dp := new nat[n + 1, m + 1]((_, _) => 0);
    for i := n downto 0
      invariant TableFrom(dp, a, b, i)
      invariant forall x: nat | x < i :: dp[x, m] == 0
    {
      for j := m downto 0
        invariant TableFrom(dp, a, b, i + 1)
        invariant RowFrom(dp, a, b, i, j)
        invariant forall x: nat | x < i :: dp[x, m] == 0
      {
        if a[i] == b[j] {
          dp[i, j] := dp[i + 1, j + 1] + 1;
        } else if dp[i + 1, j] >= dp[i, j + 1] {
          dp[i, j] := dp[i + 1, j];
        } else {
          dp[i, j] := dp[i, j + 1];
        }
      }
    }
  }

  lemma Emit(ops: seq<Op>, op: Op, rest: seq<Op>)
    ensures ops + ([op] + rest) == ops + [op] + rest
  {
  }

  /** lcsOps: the table is filled, then walked from the top left corner. */
  method LcsOps(a: seq<string>, b: seq<string>) returns (ops: seq<Op>)
    ensures ops == Walk(a, b, 0, 0)
  {
    var dp := FillTable(a, b);
    var n, m := |a|, |b|;
    ops := [];
    var i, j := 0, 0;
    ghost var script := Walk(a, b, 0, 0);
    while i < n && j < m
      invariant 0 <= i <= n && 0 <= j <= m
      invariant TableFrom(dp, a, b, 0)
      invariant ops + Walk(a, b, i, j) == script
      decreases n - i + m - j
    {
      if a[i] == b[j] {
        Emit(ops, Op(Same, a[i]), Walk(a, b, i + 1, j + 1));
        ops := ops + [Op(Same, a[i])];
        i, j := i + 1, j + 1;
      } else if dp[i + 1, j] >= dp[i, j + 1] {
        Emit(ops, Op(Removed, a[i]), Walk(a, b, i + 1, j));
        ops := ops + [Op(Removed, a[i])];
        i := i + 1;
      } else {
        Emit(ops, Op(Added, b[j]), Walk(a, b, i, j + 1));
        ops := ops + [Op(Added, b[j])];
        j := j + 1;
      }
    }
    while i < n
      invariant i <= n && j <= m && (i == n || j == m)
      invariant ops + Walk(a, b, i, j) == script
    {
      Emit(ops, Op(Removed, a[i]), Walk(a, b, i + 1, j));
      ops := ops + [Op(Removed, a[i])];
      i := i + 1;
    }
    while j < m
      invariant i == n && j <= m
      invariant ops + Walk(a, b, i, j) == script
    {
      Emit(ops, Op(Added, b[j]), Walk(a, b, i, j + 1));
      ops := ops + [Op(Added, b[j])];
      j := j + 1;
    }
  }

  // ----- long inputs: a whole-file replacement -----

  function AllOf(kind: Kind, lines: seq<string>): seq<Op> {
    seq(|lines|, k requires 0 <= k < |lines| => Op(kind, lines[k]))
  }

  lemma {:induction false} AllOfSpells(kind: Kind, lines: seq<string>)
    requires kind != Same
    ensures OldLines(AllOf(kind, lines)) == if kind == Removed then lines else []
    ensures NewLines(AllOf(kind, lines)) == if kind == Added then lines else []
    ensures Count(AllOf(kind, lines), kind) == |lines|
    ensures forall other | other != kind :: Count(AllOf(kind, lines), other) == 0
  {
    if lines != [] {
      assert AllOf(kind, lines)[1..] == AllOf(kind, lines[1..]);
      AllOfSpells(kind, lines[1..]);
    }
  }

  lemma {:induction false} SpellsAppend(p: seq<Op>, q: seq<Op>)
    ensures OldLines(p + q) == OldLines(p) + OldLines(q)
    ensures NewLines(p + q) == NewLines(p) + NewLines(q)
  {
    if p == [] {
      assert p + q == q;
    } else {
      assert (p + q)[1..] == p[1..] + q;
      SpellsAppend(p[1..], q);
    }
  }

  predicate OverCap(a: seq<string>, b: seq<string>) {
    |a| > DIFF_LINES_CAP || |b| > DIFF_LINES_CAP
  }

  /** The script `unifiedDiff` works on. */
  function Script(a: seq<string>, b: seq<string>): seq<Op> {
    if OverCap(a, b) then AllOf(Removed, a) + AllOf(Added, b) else Walk(a, b, 0, 0)
  }

  lemma ScriptSpells(a: seq<string>, b: seq<string>)
    ensures Spells(Script(a, b), a, b)
    ensures OverCap(a, b) ==> Count(Script(a, b), Same) == 0
  {
    if OverCap(a, b) {
      AllOfSpells(Removed, a);
      AllOfSpells(Added, b);
      SpellsAppend(AllOf(Removed, a), AllOf(Added, b));
      CountAppend(AllOf(Removed, a), AllOf(Added, b), Same);
    } else {
      WalkIsMinimal(a, b);
    }
  }

  lemma {:induction false} KeepAll(a: seq<string>) returns (ops: seq<Op>)
    ensures Spells(ops, a, a) && ChangeCount(ops) == 0
  {
    if a == [] {
      ops := [];
    } else {
      var rest := KeepAll(a[1..]);
      ops := [Op(Same, a[0])] + rest;
      assert ops[1..] == rest;
    }
  }

  lemma {:induction false} NoChangesSpellEqual(ops: seq<Op>)
    requires ChangeCount(ops) == 0
    ensures OldLines(ops) == NewLines(ops)
  {
    if ops != [] {
      assert ops[0].kind == Same;
      NoChangesSpellEqual(ops[1..]);
    }
  }

  /** No change is counted exactly when the lines are equal and within the cap: past it, equal texts still count. */
  lemma NothingCountedIff(a: seq<string>, b: seq<string>)
    ensures ChangeCount(Script(a, b)) == 0 <==> a == b && !OverCap(a, b)
  {
    ScriptSpells(a, b);
    LengthsAddUp(Script(a, b));
    if a == b && !OverCap(a, b) {
      var keep := KeepAll(a);
      WalkIsMinimal(a, b);
    }
    if ChangeCount(Script(a, b)) == 0 {
      NoChangesSpellEqual(Script(a, b));
    }
  }

  lemma {:induction false} CommonZeroIffDisjoint(a: seq<string>, b: seq<string>, i: nat, j: nat)
    requires i <= |a| && j <= |b|
    ensures Common(a, b, i, j) == 0 <==> forall x, y | i <= x < |a| && j <= y < |b| :: a[x] != b[y]
    decreases |a| - i + |b| - j
  {
    if i < |a| && j < |b| {
      CommonZeroIffDisjoint(a, b, i + 1, j);
      CommonZeroIffDisjoint(a, b, i, j + 1);
    }
  }

  /** The counts are the least any script can have exactly within the cap, or when the two texts share no line. */
  lemma CountsMinimalIff(a: seq<string>, b: seq<string>)
    ensures (forall ops | Spells(ops, a, b) :: ChangeCount(Script(a, b)) <= ChangeCount(ops)) <==>
            !OverCap(a, b) || forall x, y | 0 <= x < |a| && 0 <= y < |b| :: a[x] != b[y]
  {
    WalkIsMinimal(a, b);
    if OverCap(a, b) {
      var best := Walk(a, b, 0, 0);
      assert a[0..] == a && b[0..] == b;
      WalkSpells(a, b, 0, 0);
      ScriptSpells(a, b);
      LengthsAddUp(best);
      LengthsAddUp(Script(a, b));
      CommonZeroIffDisjoint(a, b, 0, 0);
      assert ChangeCount(Script(a, b)) == ChangeCount(best) + 2 * Common(a, b, 0, 0);
      forall ops | Spells(ops, a, b)
        ensures ChangeCount(best) <= ChangeCount(ops)
      {
      }
    }
  }
}

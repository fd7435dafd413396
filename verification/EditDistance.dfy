/**
 The two-row Levenshtein test of services/tool-server/notfound.go.

 `EditDistanceAtMost` keeps two rows, swaps them, and stops as soon as a whole row is above the limit. It is proved
 against `Distance`, and `Distance` is proved to be the least cost of any edit script from one name to the other.
 */
module EditDistance {
  import opened Numbers

  function Min3(x: int, y: int, z: int): int {
    Min(x, Min(y, z))
  }

  // ----- the recursive distance -----

  /** The distance between the first `i` bytes of `a` and the first `j` bytes of `b`. */
  function PrefixDistance(a: seq<byte>, b: seq<byte>, i: nat, j: nat): nat
    requires i <= |a| && j <= |b|
  {
    if i == 0 then j
    else if j == 0 then i
    else
      Min3(PrefixDistance(a, b, i - 1, j) + 1,
           PrefixDistance(a, b, i, j - 1) + 1,
           PrefixDistance(a, b, i - 1, j - 1) + if a[i - 1] == b[j - 1] then 0 else 1)
  }

  function Distance(a: seq<byte>, b: seq<byte>): nat {
    PrefixDistance(a, b, |a|, |b|)
  }

  // ----- edit scripts: what the distance means -----

  datatype Edit = Keep(c: byte) | Insert(added: byte) | Delete(dropped: byte) | Replace(was: byte, now: byte)

  function Reads(e: Edit): seq<byte> {
    match e
    case Keep(c) => [c]
    case Insert(_) => []
    case Delete(c) => [c]
    case Replace(c, _) => [c]
  }

  function Writes(e: Edit): seq<byte> {
    match e
    case Keep(c) => [c]
    case Insert(c) => [c]
    case Delete(_) => []
    case Replace(_, c) => [c]
  }

  function Source(script: seq<Edit>): seq<byte> {
    if script == [] then [] else Source(script[..|script| - 1]) + Reads(script[|script| - 1])
  }

  function Target(script: seq<Edit>): seq<byte> {
    if script == [] then [] else Target(script[..|script| - 1]) + Writes(script[|script| - 1])
  }

  function EditCost(e: Edit): nat {
    if e.Keep? then 0 else 1
  }

  function Cost(script: seq<Edit>): nat {
    if script == [] then 0 else Cost(script[..|script| - 1]) + EditCost(script[|script| - 1])
  }

  lemma PrefixStep(a: seq<byte>, b: seq<byte>, i: nat, j: nat)
    requires i <= |a| && j <= |b|
    ensures i == 0 ==> PrefixDistance(a, b, i, j) == j
    ensures j == 0 ==> PrefixDistance(a, b, i, j) == i
    ensures i > 0 && j > 0 ==>
              PrefixDistance(a, b, i, j) ==
              Min3(PrefixDistance(a, b, i - 1, j) + 1, PrefixDistance(a, b, i, j - 1) + 1,
                   PrefixDistance(a, b, i - 1, j - 1) + if a[i - 1] == b[j - 1] then 0 else 1)
  {
  }

  lemma StepBounds(a: seq<byte>, b: seq<byte>, i: nat, j: nat)
    requires i <= |a| && j <= |b|
    ensures i > 0 ==> PrefixDistance(a, b, i, j) <= PrefixDistance(a, b, i - 1, j) + 1
    ensures j > 0 ==> PrefixDistance(a, b, i, j) <= PrefixDistance(a, b, i, j - 1) + 1
    ensures i > 0 && j > 0 ==>
              PrefixDistance(a, b, i, j) <= PrefixDistance(a, b, i - 1, j - 1) + if a[i - 1] == b[j - 1] then 0 else 1
  {
    hide PrefixDistance;
    PrefixStep(a, b, i, j);
    if i > 0 {
      PrefixStep(a, b, i - 1, j);
    }
    if j > 0 {
      PrefixStep(a, b, i, j - 1);
    }
  }

  lemma SliceOne(s: seq<byte>, x: nat, i: nat)
    requires x <= i <= |s|
    ensures |s[x..i]| == i - x
    ensures i == x + 1 ==> s[x..i] == [s[x]]
  {
  }

  /** One edit saves at most its own cost. */
  lemma OneEdit(a: seq<byte>, b: seq<byte>, i: nat, j: nat, x: nat, y: nat, e: Edit)
    requires x <= i <= |a| && y <= j <= |b|
    requires a[x..i] == Reads(e) && b[y..j] == Writes(e)
    ensures PrefixDistance(a, b, i, j) <= PrefixDistance(a, b, x, y) + EditCost(e)
  {
    hide PrefixDistance;
    SliceOne(a, x, i);
    SliceOne(b, y, j);
    StepBounds(a, b, i, j);
    match e
    case Keep(c) => assert i == x + 1 && j == y + 1 && a[x] == c == b[y];
    case Insert(_) => assert i == x && j == y + 1;
    case Delete(_) => assert i == x + 1 && j == y;
    case Replace(_, _) => assert i == x + 1 && j == y + 1;
  }

  lemma Unappend(init: seq<byte>, last: seq<byte>, name: seq<byte>, i: nat) returns (x: nat)
    requires i <= |name| && init + last == name[..i]
    ensures x + |last| == i && init == name[..x] && last == name[x..i]
  {
    x := |init|;
    assert init == (init + last)[..x] && last == (init + last)[x..];
  }

  /** No script is cheaper than the distance of the prefixes it leads between. */
  lemma {:induction false} NoCheaperScript(script: seq<Edit>, a: seq<byte>, b: seq<byte>, i: nat, j: nat)
    requires i <= |a| && j <= |b|
    requires Source(script) == a[..i] && Target(script) == b[..j]
    ensures PrefixDistance(a, b, i, j) <= Cost(script)
  {
    if script != [] {
      var init, last := script[..|script| - 1], script[|script| - 1];
      var x := Unappend(Source(init), Reads(last), a, i);
      var y := Unappend(Target(init), Writes(last), b, j);
      NoCheaperScript(init, a, b, x, y);
      OneEdit(a, b, i, j, x, y, last);
    }
  }

  lemma Extend(script: seq<Edit>, e: Edit)
    ensures Source(script + [e]) == Source(script) + Reads(e)
    ensures Target(script + [e]) == Target(script) + Writes(e)
    ensures Cost(script + [e]) == Cost(script) + EditCost(e)
  {
    assert (script + [e])[..|script|] == script;
  }

  /** The edit a cheapest script ends with, and where it starts. */
  lemma LastEdit(a: seq<byte>, b: seq<byte>, i: nat, j: nat) returns (e: Edit, x: nat, y: nat)
    requires i <= |a| && j <= |b| && i + j > 0
    ensures x <= i && y <= j && x + y < i + j
    ensures a[x..i] == Reads(e) && b[y..j] == Writes(e)
    ensures PrefixDistance(a, b, i, j) == PrefixDistance(a, b, x, y) + EditCost(e)
  {
    PrefixStep(a, b, i, j);
    if j == 0 {
      PrefixStep(a, b, i - 1, j);
    } else if i == 0 {
      PrefixStep(a, b, i, j - 1);
    }
    hide PrefixDistance;
    var d := PrefixDistance(a, b, i, j);
    if j == 0 || (i > 0 && d == PrefixDistance(a, b, i - 1, j) + 1) {
      e, x, y := Delete(a[i - 1]), i - 1, j;
      assert EditCost(e) == 1;
    } else if i == 0 || d == PrefixDistance(a, b, i, j - 1) + 1 {
      e, x, y := Insert(b[j - 1]), i, j - 1;
      assert EditCost(e) == 1;
    } else {
      e := if a[i - 1] == b[j - 1] then Keep(a[i - 1]) else Replace(a[i - 1], b[j - 1]);
      x, y := i - 1, j - 1;
      assert EditCost(e) == if a[i - 1] == b[j - 1] then 0 else 1;
    }
    SliceOne(a, x, i);
    SliceOne(b, y, j);
  }

  /** Some script costs exactly the distance. */
  lemma {:induction false} CheapestScript(a: seq<byte>, b: seq<byte>, i: nat, j: nat) returns (script: seq<Edit>)
    requires i <= |a| && j <= |b|
    ensures Source(script) == a[..i] && Target(script) == b[..j]
    ensures Cost(script) == PrefixDistance(a, b, i, j)
    decreases i + j
  {
    if i == 0 && j == 0 {
      script := [];
    } else {
      var last, x, y := LastEdit(a, b, i, j);
      script := CheapestScript(a, b, x, y);
      assert a[..i] == a[..x] + a[x..i];
      assert b[..j] == b[..y] + b[y..j];
      Extend(script, last);
      script := script + [last];
    }
  }

  ghost predicate Reachable(a: seq<byte>, b: seq<byte>, limit: int) {
    exists script :: Source(script) == a && Target(script) == b && Cost(script) <= limit
  }

  /** The distance is at most the limit exactly when some script within the limit turns `a` into `b`. */
  lemma DistanceIsCheapestScript(a: seq<byte>, b: seq<byte>, limit: int)
    ensures Distance(a, b) <= limit <==> Reachable(a, b, limit)
  {
    assert a[..|a|] == a && b[..|b|] == b;
    var best := CheapestScript(a, b, |a|, |b|);
    assert Source(best) == a && Target(best) == b;
    forall script | Source(script) == a && Target(script) == b
      ensures Distance(a, b) <= Cost(script)
    {
      NoCheaperScript(script, a, b, |a|, |b|);
    }
  }

  // ----- the two cuts -----

  /** The length difference is a lower bound: the cut before the table. */
  lemma {:induction false} LengthDifferenceBound(a: seq<byte>, b: seq<byte>, i: nat, j: nat)
    requires i <= |a| && j <= |b|
    ensures i - j <= PrefixDistance(a, b, i, j) && j - i <= PrefixDistance(a, b, i, j)
    decreases i + j
  {
    if i > 0 && j > 0 {
      LengthDifferenceBound(a, b, i - 1, j);
      LengthDifferenceBound(a, b, i, j - 1);
      LengthDifferenceBound(a, b, i - 1, j - 1);
    }
  }

  ghost predicate RowAtLeast(a: seq<byte>, b: seq<byte>, i: nat, m: int)
    requires i <= |a|
  {
    forall j: nat | j <= |b| :: m <= PrefixDistance(a, b, i, j)
  }

  lemma {:induction false} NextRowAtLeast(a: seq<byte>, b: seq<byte>, i: nat, j: nat, m: int)
    requires i < |a| && j <= |b| && RowAtLeast(a, b, i, m)
    ensures m <= PrefixDistance(a, b, i + 1, j)
  {
    assert m <= PrefixDistance(a, b, i, j);
    if j > 0 {
      assert m <= PrefixDistance(a, b, i, j - 1);
      NextRowAtLeast(a, b, i, j - 1, m);
    } else {
      assert PrefixDistance(a, b, i, 0) == i;
    }
  }

  /** The minimum of a row never falls from one row to a later one: the cut inside the table. */
  lemma {:induction false} RowMinimumNeverFalls(a: seq<byte>, b: seq<byte>, i: nat, k: nat, m: int)
    requires i <= k <= |a| && RowAtLeast(a, b, i, m)
    ensures RowAtLeast(a, b, k, m)
    decreases k - i
  {
    if i < k {
      var next := i + 1;
      forall j: nat | j <= |b|
        ensures m <= PrefixDistance(a, b, next, j)
      {
        NextRowAtLeast(a, b, i, j, m);
      }
      RowMinimumNeverFalls(a, b, next, k, m);
    }
  }

  // ----- the algorithm -----

  ghost predicate IsRow(row: seq<int>, a: seq<byte>, b: seq<byte>, i: nat, width: nat)
    requires i <= |a| && width <= |b| + 1
  {
    width <= |row| && forall j: nat | j < width :: row[j] == PrefixDistance(a, b, i, j)
  }

  /** Both names have a byte, and the distance is within the limit. */
  predicate Answer(a: seq<byte>, b: seq<byte>, limit: int) {
    a != [] && b != [] && Distance(a, b) <= limit
  }

  lemma FirstRow(a: seq<byte>, b: seq<byte>)
    ensures forall j: nat | j <= |b| :: PrefixDistance(a, b, 0, j) == j
  {
  }

  method EditDistanceAtMost(a: seq<byte>, b: seq<byte>, limit: int) returns (within: bool)
    ensures within <==> Answer(a, b, limit)
  {
    if a == [] || b == [] {
      return false;
    }
    var d := |a| - |b|;
    if d > limit || d < -limit {
      LengthDifferenceBound(a, b, |a|, |b|);
      return false;
    }
    FirstRow(a, b);
    hide PrefixDistance;
    var prev := new int[|b| + 1];
    var cur := new int[|b| + 1];
    for j := 0 to |b| + 1
      invariant forall k: nat | k < j :: prev[k] == k
    {
      prev[j] := j;
    }
    for i := 1 to |a| + 1
      invariant fresh(prev) && fresh(cur)
      invariant prev != cur && prev.Length == cur.Length == |b| + 1
      invariant IsRow(prev[..], a, b, i - 1, |b| + 1)
    {
      cur[0] := i;
      PrefixStep(a, b, i, 0);
      var rowMin := cur[0];
      for j := 1 to |b| + 1
        invariant IsRow(prev[..], a, b, i - 1, |b| + 1)
        invariant IsRow(cur[..], a, b, i, j)
        invariant exists k: nat :: k < j && rowMin == PrefixDistance(a, b, i, k)
        invariant forall k: nat | k < j :: rowMin <= PrefixDistance(a, b, i, k)
      {
        var cost := 1;
        if a[i - 1] == b[j - 1] {
          cost := 0;
        }
        assert prev[..][j] == PrefixDistance(a, b, i - 1, j);
        assert prev[..][j - 1] == PrefixDistance(a, b, i - 1, j - 1);
        assert cur[..][j - 1] == PrefixDistance(a, b, i, j - 1);
        PrefixStep(a, b, i, j);
        cur[j] := Min3(prev[j] + 1, cur[j - 1] + 1, prev[j - 1] + cost);
        assert cur[j] == PrefixDistance(a, b, i, j);
        rowMin := Min(rowMin, cur[j]);
      }
      if rowMin > limit {
        assert RowAtLeast(a, b, i, rowMin);
        RowMinimumNeverFalls(a, b, i, |a|, rowMin);
        return false;
      }
      prev, cur := cur, prev;
    }
    assert prev[..][|b|] == Distance(a, b);
    return prev[|b|] <= limit;
  }

  /**
   The comment in the source promises "distance at most limit" for every pair. The early return for an empty name breaks
   that promise exactly when the other name is short enough to be within the limit.
   */
  lemma AnswerIsDistanceTestIff(a: seq<byte>, b: seq<byte>, limit: int)
    ensures (Answer(a, b, limit) <==> Reachable(a, b, limit)) <==>
            (a != [] && b != []) || limit < Max(|a|, |b|)
  {
    DistanceIsCheapestScript(a, b, limit);
    if a == [] {
      assert Distance(a, b) == |b|;
    } else if b == [] {
      assert Distance(a, b) == |a|;
    }
  }

  lemma EmptyNameIsRefusedWithinLimit()
    ensures Reachable([], [97], 1) && !Answer([], [97], 1)
  {
    DistanceIsCheapestScript([], [97], 1);
    assert Distance([], [97]) == 1;
  }
}

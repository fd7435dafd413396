/**
 Range queries of services/tool-server/handlers_feature.go: the window, the step chosen for it, and the thinning of a
 series with too many points.
 */
module PromSamples {
  import opened Times

  const PROM_POINTS_CAP := 120
  const PROM_MIN_STEP_SECOND := 15

  const WEEK := 7 * 24 * HOUR

  // ----- the window and the step -----

  datatype Window = BadRequest | Window(start: int, end: int)

  /** promWindow. `since` is the duration asked for, 0 when there is none that can be read. */
  function PromWindow(since: int, sinceTime: Time, untilTime: Time, now: int): (w: Window)
    ensures w.Window? ==> 0 < w.end - w.start <= WEEK
  {
    if untilTime.Unreadable? || sinceTime.Unreadable? then BadRequest
    else
      var end := if untilTime.At? then untilTime.nanos else now;
      var start := if sinceTime.At? then sinceTime.nanos else end - if since <= 0 then HOUR else since;
      if start >= end || end - start > WEEK then BadRequest else Window(start, end)
  }

  /** The step in seconds: `asked`, or by default the window in at most so many parts; never below the minimum. */
  function Step(w: Window, asked: int): int
    requires w.Window? && w.start < w.end
  {
    var step := if asked <= 0 then (w.end - w.start) / SECOND / PROM_POINTS_CAP else asked;
    if step < PROM_MIN_STEP_SECOND then PROM_MIN_STEP_SECOND else step
  }

  /** time.Time.Unix. */
  function Unix(t: int): int {
    t / SECOND
  }

  /** The times from start to end, in whole seconds and steps apart, at which a range query samples. */
  function SampleTimes(w: Window, step: int): int
    requires w.Window? && w.start < w.end && step > 0
  {
    (Unix(w.end) - Unix(w.start)) / step + 1
  }

  lemma UnixDifference(w: Window)
    requires w.Window? && w.start < w.end
    ensures var seconds := (w.end - w.start) / SECOND;
            seconds <= Unix(w.end) - Unix(w.start) <= seconds + 1
  {
  }

  lemma QuotientBound(n: int, d: int, q: int)
    requires d > 0 && n < d * q
    ensures n / d < q
  {
  }

  lemma MulMonotone(d: int, x: int, y: int)
    requires d > 0
    ensures x <= y ==> d * x <= d * y
  {
  }

  lemma QuotientAtLeast(n: int, d: int, q: int)
    requires d > 0 && n >= d * q
    ensures n / d >= q
  {
    assert n == d * (n / d) + n % d;
    MulMonotone(d, n / d, q - 1);
    assert d * (q - 1) == d * q - d;
  }

  /** By default no accepted window is sampled more than 129 times. */
  lemma DefaultStepBound(since: int, sinceTime: Time, untilTime: Time, now: int)
    requires PromWindow(since, sinceTime, untilTime, now).Window?
    ensures var w := PromWindow(since, sinceTime, untilTime, now);
            1 <= SampleTimes(w, Step(w, 0)) <= 129
  {
    var w := PromWindow(since, sinceTime, untilTime, now);
    var seconds := (w.end - w.start) / SECOND;
    var step := Step(w, 0);
    UnixDifference(w);
    assert seconds < (seconds / PROM_POINTS_CAP + 1) * PROM_POINTS_CAP;
    assert seconds + 1 < step * 129;
    QuotientBound(Unix(w.end) - Unix(w.start), step, 129);
  }

  /** The bound is reached: 1919.8 seconds that touch 1921 whole ones. */
  lemma DefaultStepBoundReached()
    ensures var w := PromWindow(0, At(500_000_000), At(1_920_300_000_000), 0);
            w.Window? && SampleTimes(w, Step(w, 0)) == 129
  {
  }

  /**
   The default step is meant to keep a series within the cap. It does so exactly for windows of less than half an hour in
   whole seconds: any longer one, the default hour included, has at least 121 sample times and is thinned.
   */
  lemma DefaultStepWithinCapIff(w: Window)
    requires w.Window? && w.start < w.end
    ensures SampleTimes(w, Step(w, 0)) <= PROM_POINTS_CAP <==> Unix(w.end) - Unix(w.start) < 1800
  {
    var seconds := (w.end - w.start) / SECOND;
    var step := Step(w, 0);
    UnixDifference(w);
    if Unix(w.end) - Unix(w.start) < 1800 {
      assert step == PROM_MIN_STEP_SECOND;
      QuotientBound(Unix(w.end) - Unix(w.start), step, 120);
    } else {
      assert step * 120 <= Unix(w.end) - Unix(w.start);
      QuotientAtLeast(Unix(w.end) - Unix(w.start), step, 120);
    }
  }

  /** When no time is asked for, the window is the last hour, and it is over the cap whenever it is asked. */
  lemma DefaultHourIsOverCap(now: int)
    ensures var w := PromWindow(0, Absent, Absent, now);
            w.Window? && SampleTimes(w, Step(w, 0)) == PROM_POINTS_CAP + 1
  {
    var w := PromWindow(0, Absent, Absent, now);
    assert w == Window(now - HOUR, now) && HOUR / SECOND == 3600;
    assert Unix(w.end) - Unix(w.start) == 3600;
    assert Step(w, 0) == 30;
  }

  // ----- thinning -----

  /** Where the `i`-th point kept of `len` comes from. */
  function KeptIndex(len: nat, n: nat, i: nat): int
    requires n >= 2
  {
    if i == n - 1 then len - 1 else i * len / (n - 1)
  }

  /** Adding `len` before dividing moves a quotient by the quotient of `len`, or one more. */
  lemma QuotientStep(a: int, len: int, d: int)
    requires d > 0
    ensures a / d + len / d <= (a + len) / d <= a / d + len / d + 1
    ensures len % d == 0 ==> (a + len) / d == a / d + len / d
  {
    var q := (a + len) / d - a / d - len / d;
    assert a == d * (a / d) + a % d && len == d * (len / d) + len % d;
    assert a + len == d * ((a + len) / d) + (a + len) % d;
    assert d * q == a % d + len % d - (a + len) % d by {
      Distribute(d, (a + len) / d, a / d, len / d);
    }
    assert -d < d * q < 2 * d;
    BetweenMultiples(d, q);
    if len % d == 0 {
      assert d * q == a % d - (a + len) % d;
      assert d * q < d;
    }
  }

  lemma Distribute(d: int, x: int, y: int, z: int)
    ensures d * (x - y - z) == d * x - d * y - d * z
  {
  }

  lemma BetweenMultiples(d: int, q: int)
    requires d > 0 && -d < d * q < 2 * d
    ensures 0 <= q <= 1
    ensures d * q < d ==> q == 0
  {
    MulMonotone(d, q, -1);
    MulMonotone(d, 2, q);
    MulMonotone(d, 1, q);
  }

  /** The quotient rounded up. */
  function Ceiling(len: nat, d: nat): nat
    requires d > 0
  {
    len / d + if len % d == 0 then 0 else 1
  }

  /** Neighbours kept of a longer series are apart, by no more than an even share rounded up. */
  lemma KeptIndexStep(len: nat, n: nat, i: nat)
    requires 2 <= n < len && i + 1 < n
    ensures KeptIndex(len, n, i) < KeptIndex(len, n, i + 1) <= KeptIndex(len, n, i) + Ceiling(len, n - 1)
  {
    var d := n - 1;
    QuotientAtLeast(len, d, 1);
    QuotientStep(i * len, len, d);
    assert (i + 1) * len == i * len + len;
    if i + 1 == n - 1 {
      // the last one is moved from `len` to `len - 1`
      assert i * len + len == d * len;
      assert (i * len + len) / d == len by {
        ExactQuotient(len, d);
      }
      if len / d == 1 {
        assert len % d > 0;
        LastStep(len, d);
      }
    }
  }

  lemma ExactQuotient(len: int, d: int)
    requires d > 0
    ensures d * len / d == len
  {
    QuotientAtLeast(d * len, d, len);
    assert d * (len + 1) == d * len + d;
    QuotientBound(d * len, d, len + 1);
  }

  /** With less than two points a part, the last part still starts before the last point. */
  lemma LastStep(len: int, d: int)
    requires d >= 1 && d + 2 <= len
    ensures (d * len - len) / d < len - 1
  {
    assert d * len - len < d * (len - 1);
    QuotientBound(d * len - len, d, len - 1);
  }

  /** The `i`-th point kept is one of the series, before the next one kept and not far from it. */
  predicate Spread(len: nat, n: nat, i: nat)
    requires 2 <= n < len && i < n
  {
    && 0 <= KeptIndex(len, n, i) < len
    && (i + 1 < n ==>
          KeptIndex(len, n, i) < KeptIndex(len, n, i + 1) <= KeptIndex(len, n, i) + Ceiling(len, n - 1))
  }

  /** What is kept of a series longer than `n`: `n` points in order, the first and the last among them. */
  ghost predicate Thinned<T>(points: seq<T>, n: nat, out: seq<T>)
    requires 2 <= n < |points|
  {
    && |out| == n
    && (forall i | 0 <= i < n :: Spread(|points|, n, i) && out[i] == points[KeptIndex(|points|, n, i)])
    && KeptIndex(|points|, n, 0) == 0 && KeptIndex(|points|, n, n - 1) == |points| - 1
  }

  lemma {:induction false} KeptIndexInside(len: nat, n: nat, i: nat)
    requires 2 <= n < len && i < n
    ensures 0 <= KeptIndex(len, n, i) < len
    ensures KeptIndex(len, n, 0) == 0
    decreases n - i
  {
    if i + 1 < n {
      KeptIndexInside(len, n, i + 1);
      KeptIndexStep(len, n, i);
      assert i * len >= 0;
    }
    assert 0 * len / (n - 1) == 0;
  }

  method Thin<T>(points: seq<T>, n: int) returns (out: seq<T>)
    ensures |points| <= n || n < 2 ==> out == points
    ensures 2 <= n < |points| ==> Thinned(points, n, out)
  {
    if |points| <= n || n < 2 {
      return points;
    }
    forall i | 0 <= i < n
      ensures Spread(|points|, n, i)
    {
      KeptIndexInside(|points|, n, i);
      if i < n - 1 {
        KeptIndexStep(|points|, n, i);
      }
    }
    out := [];
    for i := 0 to n - 1
      invariant |out| == i
      invariant forall k | 0 <= k < i :: Spread(|points|, n, k) && out[k] == points[KeptIndex(|points|, n, k)]
    {
      assert Spread(|points|, n, i);
      out := out + [points[i * |points| / (n - 1)]];
    }
    out := out + [points[|points| - 1]];
    assert KeptIndex(|points|, n, 0) == 0 by {
      KeptIndexInside(|points|, n, 0);
    }
  }
}

/**
 The hunks of services/tool-server/handlers_diff.go: `unifiedDiff` groups a script's changes with three lines of context.

 The loop is proved to print exactly the lines within three of a change, as the maximal runs of such lines. That fixes
 the hunks uniquely, and the unified-diff conventions follow from it.
 */
module DiffHunks {
  import opened LineDiff
  import opened Numbers

  datatype Span = Span(start: nat, stop: nat) {
    predicate Has(k: int) {
      start <= k < stop
    }
  }

  predicate Changed(ops: seq<Op>, k: int) {
    0 <= k < |ops| && ops[k].kind != Same
  }

  /** Line `k` is a change or within three lines of one. */
  ghost predicate Near(ops: seq<Op>, k: int) {
    exists c :: Changed(ops, c) && -CTX_LINES <= c - k <= CTX_LINES
  }

  ghost predicate Covered(hunks: seq<Span>, k: int) {
    exists h :: 0 <= h < |hunks| && hunks[h].Has(k)
  }

  /** Hunks are in order with at least one omitted line between them. */
  ghost predicate Separated(hunks: seq<Span>) {
    && (forall h | 0 <= h < |hunks| :: hunks[h].start < hunks[h].stop)
    && (forall g, h | 0 <= g < h < |hunks| :: hunks[g].stop < hunks[h].start)
  }

  /** The hunks of a script: separated, and holding exactly the lines near a change. */
  ghost predicate HunksOf(ops: seq<Op>, hunks: seq<Span>) {
    && Separated(hunks)
    && (forall h | 0 <= h < |hunks| :: hunks[h].stop <= |ops|)
    && (forall k | 0 <= k < |ops| :: Covered(hunks, k) <==> Near(ops, k))
  }

  /** The lines on either side of a hunk are omitted. */
  lemma EdgesOmitted(hunks: seq<Span>, h: nat)
    requires Separated(hunks) && h < |hunks|
    ensures !Covered(hunks, hunks[h].stop) && !Covered(hunks, hunks[h].start - 1)
  {
  }

  lemma StopsNoLater(g: seq<Span>, h: seq<Span>)
    requires g != [] && h != [] && g[0].start == h[0].start < h[0].stop
    requires !Covered(g, h[0].stop)
    ensures g[0].stop <= h[0].stop
  {
    var stop := h[0].stop;
    assert !g[0].Has(stop);
  }

  lemma {:induction false} SeparatedUnique(g: seq<Span>, h: seq<Span>)
    requires Separated(g) && Separated(h)
    requires forall k: int :: Covered(g, k) <==> Covered(h, k)
    ensures g == h
  {
    assert g != [] ==> g[0].Has(g[0].start) && Covered(h, g[0].start);
    assert h != [] ==> h[0].Has(h[0].start) && Covered(g, h[0].start);
    if g != [] {
      assert g[0].start == h[0].start;
      EdgesOmitted(g, 0);
      EdgesOmitted(h, 0);
      StopsNoLater(g, h);
      StopsNoLater(h, g);
      forall k: int
        ensures Covered(g[1..], k) <==> Covered(h[1..], k)
      {
        TailCovered(g, k);
        TailCovered(h, k);
      }
      SeparatedUnique(g[1..], h[1..]);
    }
  }

  lemma TailCovered(g: seq<Span>, k: int)
    requires g != [] && Separated(g)
    ensures Covered(g[1..], k) <==> Covered(g, k) && !g[0].Has(k)
  {
    if Covered(g[1..], k) {
      var i :| 0 <= i < |g[1..]| && g[1..][i].Has(k);
      assert g[i + 1].Has(k);
    }
    if Covered(g, k) && !g[0].Has(k) {
      var i :| 0 <= i < |g| && g[i].Has(k);
      assert g[1..][i - 1].Has(k);
    }
  }

  /** A script has one list of hunks. */
  lemma HunksUnique(ops: seq<Op>, g: seq<Span>, h: seq<Span>)
    requires HunksOf(ops, g) && HunksOf(ops, h)
    ensures g == h
  {
    forall k: int
      ensures Covered(g, k) <==> Covered(h, k)
    {
      assert 0 <= k < |ops| ==> (Covered(g, k) <==> Near(ops, k)) && (Covered(h, k) <==> Near(ops, k));
    }
    SeparatedUnique(g, h);
  }

  /** Lines covered without a break lie in one hunk. */
  lemma RunInOneHunk(hunks: seq<Span>, h: nat, x: int, y: int)
    requires Separated(hunks) && h < |hunks| && hunks[h].Has(x)
    requires forall k | Min(x, y) <= k <= Max(x, y) :: Covered(hunks, k)
    ensures hunks[h].Has(y)
  {
    EdgesOmitted(hunks, h);
  }

  /** A line and a change within three lines of it are in the same hunk. */
  lemma ChangeAndContextShareHunk(ops: seq<Op>, hunks: seq<Span>, h: nat, c: int, k: int)
    requires HunksOf(ops, hunks) && h < |hunks|
    requires Changed(ops, c) && 0 <= k < |ops| && -CTX_LINES <= c - k <= CTX_LINES
    ensures hunks[h].Has(c) <==> hunks[h].Has(k)
  {
    forall x | Min(c, k) <= x <= Max(c, k)
      ensures Covered(hunks, x)
    {
      assert Near(ops, x);
    }
    if hunks[h].Has(c) {
      RunInOneHunk(hunks, h, c, k);
    } else if hunks[h].Has(k) {
      RunInOneHunk(hunks, h, k, c);
    }
  }

  /** Two changes with only context between them share a hunk exactly when at most six context lines lie between. */
  lemma SharedHunkIff(ops: seq<Op>, hunks: seq<Span>, p: nat, q: nat)
    requires HunksOf(ops, hunks)
    requires p < q && Changed(ops, p) && Changed(ops, q)
    requires forall k | p < k < q :: !Changed(ops, k)
    ensures (exists h :: 0 <= h < |hunks| && hunks[h].Has(p) && hunks[h].Has(q)) <==> q - p - 1 <= 2 * CTX_LINES
  {
    if q - p - 1 <= 2 * CTX_LINES {
      forall k | p <= k <= q
        ensures Covered(hunks, k)
      {
        assert k - p <= CTX_LINES || q - k <= CTX_LINES;
        assert Near(ops, k);
      }
      assert Covered(hunks, p);
      var h :| 0 <= h < |hunks| && hunks[h].Has(p);
      RunInOneHunk(hunks, h, p, q);
    } else {
      var k := p + CTX_LINES + 1;
      assert !Near(ops, k);
      assert !Covered(hunks, k);
    }
  }

  /**
   A hunk holds a change, starts three lines before its first one and stops three after its last, or at an end of the
   script: at most three context lines on each outer side.
   */
  lemma HunkEdges(ops: seq<Op>, hunks: seq<Span>, h: nat)
    requires HunksOf(ops, hunks) && h < |hunks|
    ensures exists c :: hunks[h].Has(c) && Changed(ops, c)
    ensures forall first | hunks[h].Has(first) && Changed(ops, first) ::
              (forall k | hunks[h].start <= k < first :: !Changed(ops, k)) ==>
                hunks[h].start == Max(0, first - CTX_LINES)
    ensures forall last | hunks[h].Has(last) && Changed(ops, last) ::
              (forall k | last < k < hunks[h].stop :: !Changed(ops, k)) ==>
                hunks[h].stop == Min(|ops|, last + 1 + CTX_LINES)
  {
    var s := hunks[h];
    var low, high := s.start, s.stop - 1;
    assert s.Has(low) && Covered(hunks, low) && Near(ops, low);
    assert s.Has(high) && Covered(hunks, high) && Near(ops, high);
    var c :| Changed(ops, c) && -CTX_LINES <= c - low <= CTX_LINES;
    var d :| Changed(ops, d) && -CTX_LINES <= d - high <= CTX_LINES;
    ChangeAndContextShareHunk(ops, hunks, h, c, low);
    ChangeAndContextShareHunk(ops, hunks, h, d, high);
    forall first | s.Has(first) && Changed(ops, first) && forall k | s.start <= k < first :: !Changed(ops, k)
      ensures s.start == Max(0, first - CTX_LINES)
    {
      ChangeAndContextShareHunk(ops, hunks, h, first, Max(0, first - CTX_LINES));
    }
    forall last | s.Has(last) && Changed(ops, last) && forall k | last < k < s.stop :: !Changed(ops, k)
      ensures s.stop == Min(|ops|, last + 1 + CTX_LINES)
    {
      ChangeAndContextShareHunk(ops, hunks, h, last, Min(|ops|, last + 1 + CTX_LINES) - 1);
    }
  }

  // ----- what is printed -----

  function Changes(ops: seq<Op>): seq<Op> {
    if ops == [] then [] else (if ops[0].kind == Same then [] else [ops[0]]) + Changes(ops[1..])
  }

  function Printed(ops: seq<Op>, hunks: seq<Span>): seq<Op>
    requires forall h | 0 <= h < |hunks| :: hunks[h].start <= hunks[h].stop <= |ops|
  {
    if hunks == [] then []
    else Printed(ops, hunks[..|hunks| - 1]) + ops[hunks[|hunks| - 1].start..hunks[|hunks| - 1].stop]
  }

  lemma {:induction false} ChangesAppend(p: seq<Op>, q: seq<Op>)
    ensures Changes(p + q) == Changes(p) + Changes(q)
  {
    if p == [] {
      assert p + q == q;
    } else {
      assert (p + q)[1..] == p[1..] + q;
      ChangesAppend(p[1..], q);
    }
  }

  lemma {:induction false} ContextHasNoChanges(ops: seq<Op>, low: nat, high: nat)
    requires low <= high <= |ops|
    requires forall k | low <= k < high :: !Changed(ops, k)
    ensures Changes(ops[low..high]) == []
    decreases high - low
  {
    if low < high {
      assert !Changed(ops, low);
      assert ops[low..high][1..] == ops[low + 1..high];
      ContextHasNoChanges(ops, low + 1, high);
    }
  }

  lemma ChangesSplit(ops: seq<Op>, mid: nat, high: nat)
    requires mid <= high <= |ops|
    ensures Changes(ops[..high]) == Changes(ops[..mid]) + Changes(ops[mid..high])
  {
    assert ops[..mid] + ops[mid..high] == ops[..high];
    ChangesAppend(ops[..mid], ops[mid..high]);
  }

  lemma CoveredByEarlier(hunks: seq<Span>, k: int)
    requires hunks != [] && Covered(hunks, k) && k < hunks[|hunks| - 1].start
    ensures Covered(hunks[..|hunks| - 1], k)
  {
    var h :| 0 <= h < |hunks| && hunks[h].Has(k);
    assert hunks[..|hunks| - 1][h].Has(k);
  }

  lemma {:induction false} PrintedUpTo(ops: seq<Op>, hunks: seq<Span>, end: nat)
    requires Separated(hunks) && end <= |ops|
    requires forall h | 0 <= h < |hunks| :: hunks[h].stop <= end
    requires forall k | 0 <= k < end && Changed(ops, k) :: Covered(hunks, k)
    ensures Changes(Printed(ops, hunks)) == Changes(ops[..end])
    decreases |hunks|
  {
    if hunks == [] {
      forall k | 0 <= k < end
        ensures !Changed(ops, k)
      {
        assert !Covered(hunks, k);
      }
      ContextHasNoChanges(ops, 0, end);
      assert ops[0..end] == ops[..end];
    } else {
      var init, s := hunks[..|hunks| - 1], hunks[|hunks| - 1];
      assert Separated(init);
      forall k | 0 <= k < s.start && Changed(ops, k)
        ensures Covered(init, k)
      {
        CoveredByEarlier(hunks, k);
      }
      PrintedUpTo(ops, init, s.start);
      forall k | s.stop <= k < end
        ensures !Changed(ops, k)
      {
        assert !Covered(hunks, k);
      }
      ContextHasNoChanges(ops, s.stop, end);
      ChangesAppend(Printed(ops, init), ops[s.start..s.stop]);
      ChangesSplit(ops, s.start, s.stop);
      ChangesSplit(ops, s.stop, end);
    }
  }

  /** The hunks print every change once and in order, and nothing else but context. */
  lemma PrintsEveryChangeOnce(ops: seq<Op>, hunks: seq<Span>)
    requires HunksOf(ops, hunks)
    ensures Changes(Printed(ops, hunks)) == Changes(ops)
  {
    forall k | 0 <= k < |ops| && Changed(ops, k)
      ensures Covered(hunks, k)
    {
      assert Near(ops, k);
    }
    PrintedUpTo(ops, hunks, |ops|);
    assert ops[..|ops|] == ops;
  }

  // ----- the text -----

  function KindChar(kind: Kind): char {
    match kind
    case Same => ' '
    case Removed => '-'
    case Added => '+'
  }

  function LinesText(ops: seq<Op>): string {
    if ops == [] then ""
    else
      var last := ops[|ops| - 1];
      LinesText(ops[..|ops| - 1]) + [KindChar(last.kind)] + last.text + "\n"
  }

  function HunksText(ops: seq<Op>, hunks: seq<Span>): string
    requires forall h | 0 <= h < |hunks| :: hunks[h].start <= hunks[h].stop <= |ops|
  {
    if hunks == [] then ""
    else
      var last := hunks[|hunks| - 1];
      HunksText(ops, hunks[..|hunks| - 1]) + "@@\n" + LinesText(ops[last.start..last.stop])
  }

  function HeaderText(title: string): string {
    "--- live " + title + "\n+++ after apply " + title + "\n"
  }

  // ----- the loops -----

  /** The end of the run of changes that starts at `i`: context of at most six lines is bridged. */
  method RunEnd(ops: seq<Op>, i: nat) returns (end: nat)
    requires Changed(ops, i)
    ensures i < end <= |ops| && Changed(ops, end - 1)
    ensures forall k | i <= k < end :: Near(ops, k)
    ensures forall k | end <= k < Min(|ops|, end + 2 * CTX_LINES + 1) :: !Changed(ops, k)
  {
    end := i;
    while end < |ops|
      invariant i <= end <= |ops|
      invariant end == i ==> Changed(ops, end)
      invariant end > i ==> Changed(ops, end - 1) || Changed(ops, end)
      invariant forall k | i <= k < end :: Near(ops, k)
      decreases |ops| - end
    {
      if ops[end].kind != Same {
        assert Changed(ops, end);
        end := end + 1;
        continue;
      }
      var j := end;
      while j < |ops| && ops[j].kind == Same && j - end < 2 * CTX_LINES
        invariant end <= j <= |ops| && j - end <= 2 * CTX_LINES
        invariant forall k | end <= k < j :: !Changed(ops, k)
      {
        j := j + 1;
      }
      if j < |ops| && ops[j].kind != Same {
        assert Changed(ops, end - 1) && Changed(ops, j);
        forall k | end <= k < j
          ensures Near(ops, k)
        {
          assert k - (end - 1) <= CTX_LINES || j - k <= CTX_LINES;
        }
        end := j;
        continue;
      }
      break;
    }
  }

  /** What the hunk loop keeps once every line before `i` is dealt with. */
  ghost predicate Through(ops: seq<Op>, hunks: seq<Span>, i: nat) {
    && i <= |ops|
    && Separated(hunks)
    && (forall h | 0 <= h < |hunks| :: hunks[h].stop <= i)
    && (forall k | 0 <= k < |ops| && Covered(hunks, k) :: Near(ops, k))
    && (forall c, k | Changed(ops, c) && c < i && 0 <= k < |ops| && -CTX_LINES <= c - k <= CTX_LINES :: Covered(hunks, k))
    && (forall h, k | 0 <= h < |hunks| && hunks[h].stop <= k < hunks[h].stop + CTX_LINES + 1 && i <= k :: !Changed(ops, k))
  }

  lemma HunkAdded(ops: seq<Op>, hunks: seq<Span>, i: nat, end: nat, start: nat, stop: nat)
    requires Through(ops, hunks, i) && Changed(ops, i)
    requires i < end <= |ops| && Changed(ops, end - 1)
    requires forall k | i <= k < end :: Near(ops, k)
    requires forall k | end <= k < Min(|ops|, end + 2 * CTX_LINES + 1) :: !Changed(ops, k)
    requires start == Max(0, i - CTX_LINES) && stop == Min(|ops|, end + CTX_LINES)
    ensures Through(ops, hunks + [Span(start, stop)], stop)
  {
    var more := hunks + [Span(start, stop)];
    forall h | 0 <= h < |hunks|
      ensures hunks[h].stop < start
    {
      assert hunks[h].stop <= i;
    }
    forall k | 0 <= k < |ops| && Covered(more, k)
      ensures Near(ops, k)
    {
      var h :| 0 <= h < |more| && more[h].Has(k);
      if h < |hunks| {
        assert hunks[h].Has(k) && Covered(hunks, k);
      } else if k < i {
        assert -CTX_LINES <= i - k <= CTX_LINES;
      } else if k >= end {
        assert -CTX_LINES <= end - 1 - k <= CTX_LINES;
      }
    }
    forall c, k | Changed(ops, c) && c < stop && 0 <= k < |ops| && -CTX_LINES <= c - k <= CTX_LINES
      ensures Covered(more, k)
    {
      if c < i {
        assert Covered(hunks, k);
        var h :| 0 <= h < |hunks| && hunks[h].Has(k);
        assert more[h].Has(k);
      } else {
        assert c < end;
        assert more[|hunks|].Has(k);
      }
    }
  }

  lemma ThroughEnd(ops: seq<Op>, hunks: seq<Span>)
    requires Through(ops, hunks, |ops|)
    ensures HunksOf(ops, hunks)
  {
  }

  /** The text is the header and then the script's hunks; by HunksUnique there is only one such text. */
  ghost predicate PrintsHunks(ops: seq<Op>, header: string, text: string) {
    exists hunks :: HunksOf(ops, hunks) && text == header + HunksText(ops, hunks)
  }

  /** The hunk loop: the text grows by one hunk a round. */
  method WriteHunks(ops: seq<Op>, header: string) returns (text: string)
    ensures PrintsHunks(ops, header, text)
  {
    text := header;
    ghost var hunks := [];
    var i := 0;
    while i < |ops|
      invariant Through(ops, hunks, i)
      invariant text == header + HunksText(ops, hunks)
      decreases |ops| - i
    {
      if ops[i].kind == Same {
        assert !Changed(ops, i);
        i := i + 1;
        continue;
      }
      var start := i - CTX_LINES;
      if start < 0 {
        start := 0;
      }
      var end := RunEnd(ops, i);
      var stop := end + CTX_LINES;
      if stop > |ops| {
        stop := |ops|;
      }
      HunkAdded(ops, hunks, i, end, start, stop);
      text := WriteHunk(text, ops[start..stop]);
      hunks := HunkWritten(ops, header, hunks, Span(start, stop));
      i := stop;
    }
    ThroughEnd(ops, hunks);
  }

  lemma HunkWritten(ops: seq<Op>, header: string, hunks: seq<Span>, s: Span) returns (more: seq<Span>)
    requires forall h | 0 <= h < |hunks| :: hunks[h].start <= hunks[h].stop <= |ops|
    requires s.start <= s.stop <= |ops|
    ensures more == hunks + [s]
    ensures forall h | 0 <= h < |more| :: more[h].start <= more[h].stop <= |ops|
    ensures header + HunksText(ops, more) ==
            header + HunksText(ops, hunks) + "@@\n" + LinesText(ops[s.start..s.stop])
  {
    more := hunks + [s];
    assert more[..|more| - 1] == hunks;
  }

  method ScriptOps(a: seq<string>, b: seq<string>) returns (ops: seq<Op>)
    ensures ops == Script(a, b)
  {
    if |a| > DIFF_LINES_CAP || |b| > DIFF_LINES_CAP {
      ops := [];
      for k := 0 to |a|
        invariant ops == AllOf(Removed, a[..k])
      {
        ops := ops + [Op(Removed, a[k])];
      }
      assert a[..|a|] == a;
      for k := 0 to |b|
        invariant ops == AllOf(Removed, a) + AllOf(Added, b[..k])
      {
        ops := ops + [Op(Added, b[k])];
      }
      assert b[..|b|] == b;
    } else {
      ops := LcsOps(a, b);
    }
  }

  /**
   unifiedDiff on the lines of the two texts: the counts are the script's, the text is empty when nothing changed and
   otherwise the header and the hunks.
   */
  method UnifiedDiff(a: seq<string>, b: seq<string>, title: string)
    returns (text: string, added: nat, removed: nat)
    ensures added == Count(Script(a, b), Added) && removed == Count(Script(a, b), Removed)
    ensures if added == 0 && removed == 0 then text == "" else PrintsHunks(Script(a, b), HeaderText(title), text)
  {
    var ops := ScriptOps(a, b);
    added, removed := CountChanges(ops);
    if added == 0 && removed == 0 {
      return "", 0, 0;
    }
    text := WriteHunks(ops, HeaderText(title));
  }

  method WriteHunk(before: string, lines: seq<Op>) returns (text: string)
    ensures text == before + "@@\n" + LinesText(lines)
  {
    text := before + "@@\n";
    for k := 0 to |lines|
      invariant text == before + "@@\n" + LinesText(lines[..k])
    {
      assert lines[..k + 1][..k] == lines[..k];
      text := text + [KindChar(lines[k].kind)];
      text := text + lines[k].text;
      text := text + "\n";
    }
    assert lines[..|lines|] == lines;
  }

  method CountChanges(ops: seq<Op>) returns (added: nat, removed: nat)
    ensures added == Count(ops, Added) && removed == Count(ops, Removed)
  {
    added, removed := 0, 0;
    for k := 0 to |ops|
      invariant added == Count(ops[..k], Added) && removed == Count(ops[..k], Removed)
    {
      assert ops[..k + 1] == ops[..k] + [ops[k]];
      CountAppend(ops[..k], [ops[k]], Added);
      CountAppend(ops[..k], [ops[k]], Removed);
      match ops[k].kind
      case Added => added := added + 1;
      case Removed => removed := removed + 1;
      case Same =>
    }
    assert ops[..|ops|] == ops;
  }
}

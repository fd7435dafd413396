/**
 The end buffer of services/tool-server/kubectl.go and endOfText of services/tool-server/handlers_screen_reads.go: a log
 is read through a buffer that holds only its end.
 */
module EndBuffers {
  import opened Numbers

  const NEWLINE: byte := 10

  /** The last `n` bytes, or all when there are fewer. */
  function Last(s: seq<byte>, n: nat): seq<byte> {
    if |s| <= n then s else s[|s| - n..]
  }

  function Concat(chunks: seq<seq<byte>>): seq<byte> {
    if chunks == [] then [] else Concat(chunks[..|chunks| - 1]) + chunks[|chunks| - 1]
  }

  class EndBuffer {
    const max: nat
    var buf: seq<byte>
    ghost var written: seq<byte>

    /** The buffer holds the end of what was written: all of it, or at least `max` bytes, and never above twice that. */
    ghost predicate Valid()
      reads this
    {
      |buf| <= 2 * max && buf == Last(written, |buf|) && (buf == written || |buf| >= max)
    }

    constructor (max: nat)
      ensures Valid() && this.max == max && written == []
    {
      this.max := max;
      buf := [];
      written := [];
    }

    method Write(p: seq<byte>) returns (n: nat)
      requires Valid()
      modifies this
      ensures Valid() && written == old(written) + p && n == |p|
    {
      buf := buf + p;
      written := written + p;
      if |buf| > 2 * max {
        buf := buf[|buf| - max..];
      }
      n := |p|;
    }

    method Bytes() returns (end: seq<byte>)
      requires Valid()
      ensures end == Last(written, max)
    {
      if |buf| > max {
        end := buf[|buf| - max..];
      } else {
        end := buf;
      }
    }
  }

  /** strings.IndexByte. */
  function IndexOf(s: seq<byte>, b: byte): (i: int)
    ensures -1 <= i < |s|
    ensures i >= 0 ==> s[i] == b && b !in s[..i]
    ensures i < 0 ==> b !in s
  {
    if s == [] then -1
    else if s[0] == b then 0
    else
      var i := IndexOf(s[1..], b);
      assert s == [s[0]] + s[1..];
      if i < 0 then -1 else assert s[..i + 1] == [s[0]] + s[1..][..i]; i + 1
  }

  function EndOfText(text: seq<byte>, max: nat): seq<byte> {
    if |text| <= max then text
    else
      var end := Last(text, max);
      var i := IndexOf(end, NEWLINE);
      if i >= 0 && i + 1 < |end| then end[i + 1..] else end
  }

  /** `at` is where a line of the text starts. */
  predicate LineStart(text: seq<byte>, at: nat) {
    at <= |text| && (at == 0 || text[at - 1] == NEWLINE)
  }

  /**
   What is kept of a text past the limit: from the first line start strictly inside the last `max` bytes, or those bytes
   as they are when none of them starts a line.
   */
  lemma EndOfTextStartsALine(text: seq<byte>, max: nat)
    requires |text| > max
    ensures var kept := EndOfText(text, max);
            var from := |text| - |kept|;
            && |kept| <= max && kept == text[from..]
            && (forall at | |text| - max < at < from :: !LineStart(text, at))
            && (LineStart(text, from) || (|kept| == max && forall at | from < at < |text| :: !LineStart(text, at)))
            && (max > 0 ==> kept != [])
  {
    var low := |text| - max;
    var end := text[low..];
    assert end == Last(text, max);
    var i := IndexOf(end, NEWLINE);
    hide IndexOf;
    forall at | low < at < |text| && (i < 0 || at <= low + i)
      ensures !LineStart(text, at)
    {
      assert text[at - 1] == end[at - 1 - low];
    }
    if i >= 0 {
      assert text[low + i] == end[i];
    }
  }

  lemma LastOfLast(text: seq<byte>, m: nat, n: nat)
    requires m <= n
    ensures Last(Last(text, n), m) == Last(text, m)
  {
  }

  /** One byte more than the limit is enough to cut as the whole text would be. */
  lemma EndOfTextFromEnd(text: seq<byte>, max: nat)
    requires |text| > max
    ensures EndOfText(Last(text, max + 1), max) == EndOfText(text, max)
  {
    LastOfLast(text, max, max + 1);
    hide IndexOf;
  }

  /**
   runKubectlKeepingEnd for a command that succeeds and prints `chunks`: cut exactly when the output is longer than the
   limit, and then its end from the start of a line, as if the whole output had been kept.
   */
  method RunKeepingEnd(chunks: seq<seq<byte>>, outputMaxBytes: nat) returns (text: seq<byte>, cut: bool)
    ensures cut <==> |Concat(chunks)| > outputMaxBytes
    ensures text == EndOfText(Concat(chunks), outputMaxBytes)
    ensures !cut ==> text == Concat(chunks)
  {
    var end := new EndBuffer(outputMaxBytes + 1);
    for k := 0 to |chunks|
      invariant end.Valid() && end.max == outputMaxBytes + 1 && end.written == Concat(chunks[..k])
    {
      assert chunks[..k + 1][..k] == chunks[..k];
      var _ := end.Write(chunks[k]);
    }
    assert chunks[..|chunks|] == chunks;
    var output := end.Bytes();
    if |output| <= outputMaxBytes {
      return output, false;
    }
    EndOfTextFromEnd(Concat(chunks), outputMaxBytes);
    return EndOfText(output, outputMaxBytes), true;
  }
}

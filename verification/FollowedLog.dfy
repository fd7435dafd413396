/** Following a log file in frontend/src/components/LogFilesView.tsx: the text keeps its last lines as messages arrive. */
module FollowedLog {

  const FOLLOW_KEEP_LINES := 5000

  function Newlines(s: string): nat {
    if s == "" then 0 else (if s[0] == '\n' then 1 else 0) + Newlines(s[1..])
  }

  /** The longest end of the text with at most `n` newlines. */
  function Tail(text: string, n: nat): string {
    if Newlines(text) <= n then text else Tail(text[1..], n)
  }

  lemma {:induction false} NewlinesAppend(s: string, t: string)
    ensures Newlines(s + t) == Newlines(s) + Newlines(t)
  {
    if s == "" {
      assert s + t == t;
    } else {
      assert (s + t)[1..] == s[1..] + t;
      NewlinesAppend(s[1..], t);
    }
  }

  lemma {:induction false} TailIsEnd(text: string, n: nat)
    ensures |Tail(text, n)| <= |text| && Tail(text, n) == text[|text| - |Tail(text, n)|..]
  {
    if Newlines(text) > n {
      TailIsEnd(text[1..], n);
    }
  }

  /** The ends of the text with at most `n` newlines are exactly those no longer than the tail. */
  lemma {:induction false} TailIsLongest(text: string, n: nat, at: nat)
    requires at <= |text|
    ensures Newlines(text[at..]) <= n <==> |text| - at <= |Tail(text, n)|
  {
    TailIsEnd(text, n);
    if Newlines(text) <= n {
      assert text == text[..at] + text[at..];
      NewlinesAppend(text[..at], text[at..]);
    } else if at == 0 {
      assert text[0..] == text;
      TailIsEnd(text[1..], n);
    } else {
      assert text[1..][at - 1..] == text[at..];
      TailIsLongest(text[1..], n, at - 1);
    }
  }

  /** The tail of a text whose front was dropped to its tail is the tail of the whole. */
  lemma {:induction false} TailOfTail(a: string, b: string, n: nat)
    ensures Tail(Tail(a, n) + b, n) == Tail(a + b, n)
  {
    if Newlines(a) > n {
      NewlinesAppend(a, b);
      assert (a + b)[1..] == a[1..] + b;
      TailOfTail(a[1..], b, n);
    }
  }

  /** keepLastLines: the loop counts newlines from the end. */
  method KeepLastLines(text: string) returns (kept: string)
    ensures kept == Tail(text, FOLLOW_KEEP_LINES)
  {
    var count := 0;
    var i := |text| - 1;
    while i >= 0
      invariant -1 <= i < |text|
      invariant count == Newlines(text[i + 1..]) <= FOLLOW_KEEP_LINES
    {
      assert text[i..] == [text[i]] + text[i + 1..];
      assert text[i..][1..] == text[i + 1..];
      if text[i] == '\n' {
        count := count + 1;
        if count > FOLLOW_KEEP_LINES {
          TailIsEnd(text, FOLLOW_KEEP_LINES);
          TailIsLongest(text, FOLLOW_KEEP_LINES, i);
          TailIsLongest(text, FOLLOW_KEEP_LINES, i + 1);
          return text[i + 1..];
        }
      }
      i := i - 1;
    }
    assert text[0..] == text;
    kept := text;
  }

  datatype Message = Line(data: string) | Notice(data: string)

  function MessageText(m: Message): string {
    (if m.Notice? then "\U{BB} " else "") + m.data + "\n"
  }

  function AllText(messages: seq<Message>): string {
    if messages == [] then "" else AllText(messages[..|messages| - 1]) + MessageText(messages[|messages| - 1])
  }

  /**
   The stream's handlers, message by message: the text shown is the last 5000 lines of everything that was streamed,
   whatever was dropped on the way.
   */
  method Follow(messages: seq<Message>) returns (streamText: string)
    ensures streamText == Tail(AllText(messages), FOLLOW_KEEP_LINES)
  {
    streamText := "";
    for k := 0 to |messages|
      invariant streamText == Tail(AllText(messages[..k]), FOLLOW_KEEP_LINES)
    {
      assert messages[..k + 1][..k] == messages[..k];
      TailOfTail(AllText(messages[..k]), MessageText(messages[k]), FOLLOW_KEEP_LINES);
      streamText := KeepLastLines(streamText + MessageText(messages[k]));
    }
    assert messages[..|messages|] == messages;
  }
}

/**
 The timeline's window and its event counts in services/tool-server/handlers_timeline.go: only the newest events of a
 window are listed, and what that leaves uncounted has to be null.
 */
module TimelineCount {
  import opened Options
  import opened Times

  const TIMELINE_MAX_BACK := 90 * 24 * HOUR
  const TIMELINE_DEFAULT_SPAN := 24 * HOUR

  // ----- the window -----

  datatype Window = BadRequest | Window(hours: int, until: Option<int>, rounded: bool)

  /** The rounding up of math.Ceil over a number of hours. */
  function CeilHours(back: int): int {
    -((-back) / HOUR)
  }

  function End(untilTime: Time, now: int): int {
    if untilTime.At? && untilTime.nanos < now then untilTime.nanos else now
  }

  /** `sinceTime` as asked: a time, already taken back from the end when it was a span. */
  function Start(sinceTime: Time, end: int): int {
    if sinceTime.At? then sinceTime.nanos else end - TIMELINE_DEFAULT_SPAN
  }

  function WindowOf(sinceTime: Time, untilTime: Time, now: int): Window {
    var end := End(untilTime, now);
    var start := Start(sinceTime, end);
    if untilTime.Unreadable? || sinceTime.Unreadable? || start >= end || now - start > TIMELINE_MAX_BACK then BadRequest
    else
      var hours := CeilHours(now - start);
      Window(hours, if end < now then Some(end) else None, hours * HOUR != now - start)
  }

  /** The whole hours read reach the start asked for, by less than an hour more, and at most 2160 back. */
  lemma WindowCovers(sinceTime: Time, untilTime: Time, now: int)
    requires WindowOf(sinceTime, untilTime, now).Window?
    ensures var w := WindowOf(sinceTime, untilTime, now);
            var start := Start(sinceTime, End(untilTime, now));
            && 1 <= w.hours <= 2160
            && now - w.hours * HOUR <= start < now - (w.hours - 1) * HOUR
            && (w.rounded <==> now - w.hours * HOUR < start)
  {
  }

  // ----- the count -----

  /** An event of the window: its time as far as it reads, and its object's kind. */
  datatype Row = Row(time: Option<int>, kind: string)

  /** What the call narrows the listed events by: an end before now, and a kind without a name. */
  datatype Narrow = Narrow(until: Option<int>, kind: Option<string>)

  /** strings.EqualFold as an arbitrary comparison of kinds. */
  type SameKind = (string, string) -> bool

  function After(row: Row, n: Narrow): bool {
    n.until.Some? && row.time.Some? && row.time.value > n.until.value
  }

  function OtherKind(row: Row, n: Narrow, same: SameKind): bool {
    n.kind.Some? && !same(row.kind, n.kind.value)
  }

  /** The events asked for: not after the end, and of the kind. */
  function Asked(rows: seq<Row>, n: Narrow, same: SameKind): seq<Row> {
    if rows == [] then []
    else
      var last := rows[|rows| - 1];
      Asked(rows[..|rows| - 1], n, same) + if After(last, n) || OtherKind(last, n, same) then [] else [last]
  }

  function CountAfter(rows: seq<Row>, n: Narrow): nat {
    if rows == [] then 0
    else CountAfter(rows[..|rows| - 1], n) + if After(rows[|rows| - 1], n) then 1 else 0
  }

  /** The loop over the listed events and the decision after it. */
  method KeepAndCount(events: seq<Row>, matching: nat, n: Narrow, same: SameKind)
    returns (kept: seq<Row>, inRange: Option<int>)
    ensures kept == Asked(events, n, same)
    ensures inRange ==
            if |events| >= matching then Some(|kept|)
            else if n.kind.None? && CountAfter(events, n) < |events| then Some(matching - CountAfter(events, n))
            else None
  {
    var listedAfter := 0;
    kept := [];
    for i := 0 to |events|
      invariant kept == Asked(events[..i], n, same) && listedAfter == CountAfter(events[..i], n)
    {
      assert events[..i + 1][..i] == events[..i];
      if After(events[i], n) {
        listedAfter := listedAfter + 1;
        continue;
      }
      if OtherKind(events[i], n, same) {
        continue;
      }
      kept := kept + [events[i]];
    }
    assert events[..|events|] == events;
    inRange := None;
    if |events| >= matching {
      inRange := Some(|kept|);
    } else if n.kind.None? && listedAfter < |events| {
      inRange := Some(matching - listedAfter);
    }
  }

  /** The decision as a function, as `KeepAndCount` is proved to make it. */
  function InRange(events: seq<Row>, matching: nat, n: Narrow, same: SameKind): Option<int> {
    if |events| >= matching then Some(|Asked(events, n, same)|)
    else if n.kind.None? && CountAfter(events, n) < |events| then Some(matching - CountAfter(events, n))
    else None
  }

  // ----- what the count means -----

  /** The events of a window, newest first, with times that can be read. */
  ghost predicate Timeline(all: seq<Row>) {
    && (forall i | 0 <= i < |all| :: all[i].time.Some?)
    && forall i, j | 0 <= i < j < |all| :: all[i].time.value >= all[j].time.value
  }

  /** The API lists the newest of the window, up to `read`, and says how many match. */
  ghost predicate Listed(all: seq<Row>, read: nat, events: seq<Row>, matching: nat) {
    && Timeline(all) && matching == |all|
    && events == if |all| <= read then all else all[..read]
  }

  lemma {:induction false} CountsAppend(p: seq<Row>, q: seq<Row>, n: Narrow, same: SameKind)
    ensures CountAfter(p + q, n) == CountAfter(p, n) + CountAfter(q, n)
    ensures Asked(p + q, n, same) == Asked(p, n, same) + Asked(q, n, same)
    ensures CountAfter(q, n) <= |q|
  {
    if q == [] {
      assert p + q == p;
    } else {
      assert (p + q)[..|p + q| - 1] == p + q[..|q| - 1];
      CountsAppend(p, q[..|q| - 1], n, same);
    }
  }

  /** Rows that are all not after the end, and without a kind all of them, are all asked for. */
  lemma {:induction false} NoneAfter(rows: seq<Row>, n: Narrow, same: SameKind)
    requires forall i | 0 <= i < |rows| :: !After(rows[i], n)
    ensures CountAfter(rows, n) == 0
    ensures n.kind.None? ==> Asked(rows, n, same) == rows
  {
    if rows != [] {
      NoneAfter(rows[..|rows| - 1], n, same);
    }
  }

  lemma {:induction false} WithoutKind(rows: seq<Row>, n: Narrow, same: SameKind)
    requires n.kind.None?
    ensures |Asked(rows, n, same)| == |rows| - CountAfter(rows, n)
  {
    if rows != [] {
      WithoutKind(rows[..|rows| - 1], n, same);
    }
  }

  lemma {:induction false} AllAfter(rows: seq<Row>, n: Narrow, same: SameKind)
    ensures CountAfter(rows, n) <= |rows|
    ensures CountAfter(rows, n) == |rows| <==> forall i | 0 <= i < |rows| :: After(rows[i], n)
    ensures CountAfter(rows, n) == |rows| ==> Asked(rows, n, same) == []
  {
    if rows != [] {
      AllAfter(rows[..|rows| - 1], n, same);
    }
  }

  /** Whenever a count is given, it is the number of the window's events asked for, listed or not. */
  lemma CountIsTrue(all: seq<Row>, read: nat, events: seq<Row>, matching: nat, n: Narrow, same: SameKind)
    requires Listed(all, read, events, matching)
    requires InRange(events, matching, n, same).Some?
    ensures InRange(events, matching, n, same).value == |Asked(all, n, same)|
  {
    if |events| < matching {
      var rest := all[|events|..];
      assert all == events + rest;
      AllAfter(events, n, same);
      assert exists i :: 0 <= i < |events| && !After(events[i], n);
      var i :| 0 <= i < |events| && !After(events[i], n);
      forall j | 0 <= j < |rest|
        ensures !After(rest[j], n)
      {
        assert rest[j] == all[|events| + j] && events[i] == all[i];
      }
      NoneAfter(rest, n, same);
      CountsAppend(events, rest, n, same);
      WithoutKind(events, n, same);
    }
  }

  /** `copies` of one event. */
  function Repeat(row: Row, copies: nat): seq<Row> {
    seq(copies, _ => row)
  }

  lemma {:induction false} RepeatAsked(row: Row, copies: nat, n: Narrow, same: SameKind)
    ensures |Asked(Repeat(row, copies), n, same)| ==
            if After(row, n) || OtherKind(row, n, same) then 0 else copies
  {
    if copies > 0 {
      assert Repeat(row, copies)[..copies - 1] == Repeat(row, copies - 1);
      RepeatAsked(row, copies - 1, n, same);
    }
  }

  lemma OlderKeepsTimeline(events: seq<Row>, row: Row, copies: nat)
    requires Timeline(events) && events != [] && row.time.Some?
    requires row.time.value <= events[|events| - 1].time.value
    ensures Timeline(events + Repeat(row, copies))
  {
  }

  /** A window with one more event, so many times, behind those listed. */
  lemma OlderListed(all: seq<Row>, read: nat, events: seq<Row>, matching: nat, row: Row, n: Narrow, same: SameKind)
    returns (window: seq<Row>)
    requires Listed(all, read, events, matching) && read > 0 && |events| < matching
    requires row.time.Some? && row.time.value <= events[|events| - 1].time.value
    ensures Listed(window, read, events, matching)
    ensures |Asked(window, n, same)| ==
            |Asked(events, n, same)| + if After(row, n) || OtherKind(row, n, same) then 0 else matching - |events|
  {
    hide After, OtherKind, Asked;
    var left := matching - |events|;
    window := events + Repeat(row, left);
    OlderKeepsTimeline(events, row, left);
    CountsAppend(events, Repeat(row, left), n, same);
    RepeatAsked(row, left, n, same);
    assert window[..read] == events;
  }

  /**
   Null is the only honest answer where it is given: some other window with the very same listing and total holds another
   number of the events asked for.
   */
  lemma NullIsUndetermined(all: seq<Row>, read: nat, events: seq<Row>, matching: nat, n: Narrow, same: SameKind)
    returns (one: seq<Row>, two: seq<Row>)
    requires Listed(all, read, events, matching) && read > 0
    requires n.kind.Some? ==> same(n.kind.value, n.kind.value) && !same("", n.kind.value)
    requires InRange(events, matching, n, same).None?
    ensures Listed(one, read, events, matching) && Listed(two, read, events, matching)
    ensures |Asked(one, n, same)| != |Asked(two, n, same)|
  {
    var last := events[|events| - 1].time.value;
    // one event that is asked for and one that is not, neither newer than those listed
    var asked, other: Row;
    if n.kind.Some? {
      var earlier := if n.until.Some? && n.until.value < last then n.until.value else last;
      asked, other := Row(Some(earlier), n.kind.value), Row(Some(earlier), "");
    } else {
      AllAfter(events, n, same);
      assert After(events[|events| - 1], n);
      asked, other := Row(Some(n.until.value), ""), Row(Some(last), "");
    }
    one := OlderListed(all, read, events, matching, asked, n, same);
    two := OlderListed(all, read, events, matching, other, n, same);
  }

  // ----- the note -----

  /** The note under the list: that nothing was counted, that only the newest are listed, or none. */
  datatype Note = NoNote | NotCounted | NewestOf(listed: int, total: int)

  function EventsNote(listed: nat, matching: nat, inRange: Option<int>, narrowed: bool): Note {
    if narrowed && inRange.None? then NotCounted
    else
      var total := if narrowed then inRange.value else matching;
      if listed < total then NewestOf(listed, total) else NoNote
  }

  /** What is listed of the events kept. */
  function Cut(kept: seq<Row>, limit: nat): seq<Row> {
    if |kept| > limit then kept[..limit] else kept
  }

  /**
   No note is shown exactly when every event of the window that was asked for is listed and could be counted: a list that
   leaves something out always says so.
   */
  lemma NoNoteIffComplete(all: seq<Row>, limit: nat, timelineMax: nat, n: Narrow, same: SameKind)
    requires limit <= timelineMax && Timeline(all)
    ensures var narrowed := n.until.Some? || n.kind.Some?;
            var read := if narrowed then timelineMax else limit;
            var events := if |all| <= read then all else all[..read];
            var listed := Cut(Asked(events, n, same), limit);
            var inRange := InRange(events, |all|, n, same);
            EventsNote(|listed|, |all|, inRange, narrowed) == NoNote <==>
            listed == Asked(all, n, same) && (narrowed ==> inRange.Some?)
  {
    hide Asked, InRange;
    var narrowed := n.until.Some? || n.kind.Some?;
    var read := if narrowed then timelineMax else limit;
    var events := if |all| <= read then all else all[..read];
    assert all == events + all[|events|..];
    CountsAppend(events, all[|events|..], n, same);
    CutIsWholeIff(Asked(events, n, same), Asked(all[|events|..], n, same), limit);
    if narrowed {
      if InRange(events, |all|, n, same).Some? {
        CountIsTrue(all, read, events, |all|, n, same);
      }
    } else {
      NoneAfter(all, n, same);
      NoneAfter(events, n, same);
    }
  }

  lemma CutIsWholeIff(kept: seq<Row>, more: seq<Row>, limit: nat)
    ensures |Cut(kept, limit)| <= |kept + more|
    ensures Cut(kept, limit) == kept + more <==> |Cut(kept, limit)| >= |kept + more|
  {
    assert |kept + more| == |kept| + |more|;
    if |Cut(kept, limit)| == |kept + more| {
      assert more == [] && kept + more == kept;
    }
  }
}

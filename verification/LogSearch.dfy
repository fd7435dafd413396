/**
 The log search view of frontend/src/components/LogSearchView.tsx: every request takes a sequence number, and an answer
 is used only while its number is still the latest.

 `LogSearchView` is the component's state. A run is any sequence of searches, clicks on Load older, answers and failures,
 with answers late, out of order or never.
 */
module LogSearch {
  import opened Options

  datatype Submitted = Submitted(q: string, regex: bool, ignoreCase: bool, start: string, end: string, logql: Option<string>)

  datatype Page = Page(lines: seq<string>, truncated: bool, oldest: Option<string>, bytes: nat)

  /** What the component shows and keeps. */
  datatype View = View(
    latest: nat,
    submitted: Option<Submitted>,
    lines: seq<string>,
    truncated: bool,
    oldest: Option<string>,
    bytes: nat,
    busy: bool,
    error: Option<string>)
  {
    /** The condition under which Load older is drawn and not disabled. */
    predicate CanLoadOlder() {
      truncated && error.None? && submitted.Some? && oldest.Some? && oldest.value != "" && !busy
    }

    function Begun(): View {
      this.(latest := latest + 1, busy := true, error := None)
    }

    function Searched(s: Submitted): View {
      this.(submitted := Some(s)).Begun()
    }

    function Answered(mine: nat, older: Option<string>, page: Page): View {
      if mine != latest then this
      else
        this.(lines := if older.Some? then lines + page.lines else page.lines,
              truncated := page.truncated,
              oldest := page.oldest,
              bytes := if older.Some? then bytes + page.bytes else page.bytes,
              busy := false)
    }

    function Failed(mine: nat, message: string): View {
      if mine != latest then this else this.(error := Some(message), busy := false)
    }
  }

  const INITIAL := View(0, None, [], false, None, 0, false, None)

  class LogSearchView {
    var latest: nat
    var submitted: Option<Submitted>
    var lines: seq<string>
    var truncated: bool
    var oldest: Option<string>
    var bytes: nat
    var busy: bool
    var error: Option<string>

    function Shown(): View
      reads this
    {
      View(latest, submitted, lines, truncated, oldest, bytes, busy, error)
    }

    constructor ()
      ensures Shown() == INITIAL
    {
      latest, submitted, lines, truncated, oldest, bytes, busy, error := 0, None, [], false, None, 0, false, None;
    }

    /** The start of `run`, up to the request. */
    method Begin() returns (mine: nat)
      modifies this
      ensures Shown() == old(Shown()).Begun() && mine == latest
    {
      latest := latest + 1;
      mine := latest;
      busy := true;
      error := None;
    }

    method Search(s: Submitted) returns (mine: nat)
      modifies this
      ensures Shown() == old(Shown()).Searched(s) && mine == latest
    {
      submitted := Some(s);
      mine := Begin();
    }

    /** The rest of `run` when the request is answered. */
    method Answer(mine: nat, older: Option<string>, page: Page)
      modifies this
      ensures Shown() == old(Shown()).Answered(mine, older, page)
    {
      if mine != latest {
        return;
      }
      lines := if older.Some? then lines + page.lines else page.lines;
      truncated := page.truncated;
      oldest := page.oldest;
      bytes := if older.Some? then bytes + page.bytes else page.bytes;
      if mine == latest {
        busy := false;
      }
    }

    /** The rest of `run` when the request fails. */
    method Fail(mine: nat, message: string)
      modifies this
      ensures Shown() == old(Shown()).Failed(mine, message)
    {
      if mine == latest {
        error := Some(message);
      }
      if mine == latest {
        busy := false;
      }
    }
  }

  // ----- runs -----

  datatype Event =
    | Search(submitted: Submitted)
    | LoadOlder
    | Answer(id: nat, page: Page)
    | Failure(id: nat, message: string)

  /** A request: what was submitted, and for Load older the oldest time shown. */
  datatype Request = Request(submitted: Submitted, older: Option<string>)

  datatype State = State(view: View, requests: seq<Request>, over: set<nat>) {
    /** The request is out: made, and neither answered nor failed. */
    predicate Waiting(id: nat) {
      1 <= id <= |requests| && id !in over
    }
  }

  function Step(s: State, e: Event): State {
    match e
    case Search(submitted) =>
      s.(view := s.view.Searched(submitted), requests := s.requests + [Request(submitted, None)])
    case LoadOlder =>
      if s.view.CanLoadOlder() then
        s.(view := s.view.Begun(), requests := s.requests + [Request(s.view.submitted.value, s.view.oldest)])
      else s
    case Answer(id, page) =>
      if s.Waiting(id) then s.(view := s.view.Answered(id, s.requests[id - 1].older, page), over := s.over + {id}) else s
    case Failure(id, message) =>
      if s.Waiting(id) then s.(view := s.view.Failed(id, message), over := s.over + {id}) else s
  }

  function At(run: seq<Event>, n: nat): State
    requires n <= |run|
  {
    if n == 0 then State(INITIAL, [], {}) else Step(At(run, n - 1), run[n - 1])
  }

  /** The number of the latest search's own request. */
  function SearchId(run: seq<Event>, n: nat): nat
    requires n <= |run|
  {
    if n == 0 then 0
    else if run[n - 1].Search? then |At(run, n).requests|
    else SearchId(run, n - 1)
  }

  // ----- what is shown -----

  ghost predicate IsAnswers(run: seq<Event>, answers: seq<nat>, n: nat) {
    n <= |run| && forall k | 0 <= k < |answers| :: answers[k] < n && run[answers[k]].Answer?
  }

  function AllLines(run: seq<Event>, answers: seq<nat>): seq<string>
    requires IsAnswers(run, answers, |run|)
  {
    if answers == [] then []
    else AllLines(run, answers[..|answers| - 1]) + run[answers[|answers| - 1]].page.lines
  }

  function AllBytes(run: seq<Event>, answers: seq<nat>): nat
    requires IsAnswers(run, answers, |run|)
  {
    if answers == [] then 0
    else AllBytes(run, answers[..|answers| - 1]) + run[answers[|answers| - 1]].page.bytes
  }

  ghost predicate InOrder(answers: seq<nat>) {
    forall j, k | 0 <= j < k < |answers| :: answers[j] < answers[k]
  }

  /** Answer `k` is to the request `first + k`, which asked for what is older than the page before. */
  ghost predicate Follows(run: seq<Event>, answers: seq<nat>, k: nat, s: State, first: nat)
    requires k < |answers| && IsAnswers(run, answers, |run|)
    requires s.view.submitted.Some? && first >= 1 && first + |answers| - 1 <= |s.requests|
  {
    && run[answers[k]].id == first + k
    && s.requests[first + k - 1] ==
       Request(s.view.submitted.value, if k == 0 then None else run[answers[k - 1]].page.oldest)
  }

  /**
   The view shows the pages that the events `answers` brought: the answers to the latest search and to the Load olders
   since, by consecutive requests, each asking from where the page before ended.
   */
  ghost predicate Shows(run: seq<Event>, n: nat, answers: seq<nat>)
    requires n <= |run|
  {
    var s, first := At(run, n), SearchId(run, n);
    && answers != [] && IsAnswers(run, answers, n)
    && InOrder(answers)
    && s.view.submitted.Some? && first >= 1 && first + |answers| - 1 <= |s.requests|
    && (forall k | 0 <= k < |answers| :: Follows(run, answers, k, s, first))
    && s.view.lines == AllLines(run, answers)
    && s.view.bytes == AllBytes(run, answers)
    && s.view.truncated == run[answers[|answers| - 1]].page.truncated
    && s.view.oldest == run[answers[|answers| - 1]].page.oldest
  }

  /** Requests made since the latest search. */
  function Since(run: seq<Event>, n: nat): int
    requires n <= |run|
  {
    |At(run, n).requests| - SearchId(run, n)
  }

  /** Numbers, requests and the busy flag agree. */
  ghost predicate Numbered(s: State, first: nat) {
    && s.view.latest == |s.requests|
    && (forall id | id in s.over :: 1 <= id <= |s.requests|)
    && (s.view.busy <==> s.Waiting(s.view.latest))
    && (s.view.busy ==> s.view.error.None?)
    && first <= |s.requests| && (first == 0 <==> s.requests == [])
    && (s.view.submitted.Some? <==> s.requests != [])
    && (s.requests == [] ==> s.view == INITIAL)
    && (s.requests != [] ==>
          var last := s.requests[|s.requests| - 1];
          last.submitted == s.view.submitted.value && (last.older.None? <==> first == |s.requests|))
  }

  lemma {:induction false} NumberedAlways(run: seq<Event>, n: nat)
    requires n <= |run|
    ensures Numbered(At(run, n), SearchId(run, n))
  {
    if n > 0 {
      NumberedAlways(run, n - 1);
    }
  }

  /** What the view shows while it is not waiting for a new search, or left with a failed one. */
  ghost predicate ShowsPages(run: seq<Event>, n: nat, answers: seq<nat>)
    requires n <= |run|
  {
    var s := At(run, n);
    // a Load older is out or failed: the pages before it are still shown
    && (Since(run, n) > 0 && (s.view.busy || s.view.error.Some?) ==>
          Shows(run, n, answers) && |answers| == Since(run, n) && s.requests != [] &&
          s.requests[|s.requests| - 1].older == s.view.oldest)
    // idle without an error: every request since the search is shown
    && (s.requests != [] && !s.view.busy && s.view.error.None? ==>
          Shows(run, n, answers) && |answers| == Since(run, n) + 1)
  }

  /** Nothing that is shown changes, and at most one request is added. */
  predicate SameShown(s: State, t: State) {
    && s.view.submitted == t.view.submitted && s.view.lines == t.view.lines && s.view.truncated == t.view.truncated
    && s.view.oldest == t.view.oldest && s.view.bytes == t.view.bytes && s.requests <= t.requests
  }

  lemma ShowsKept(run: seq<Event>, n: nat, answers: seq<nat>)
    requires n < |run| && !run[n].Search? && Shows(run, n, answers)
    requires SameShown(At(run, n), At(run, n + 1))
    ensures Shows(run, n + 1, answers)
  {
    hide Step, At;
    var s, t, first := At(run, n), At(run, n + 1), SearchId(run, n);
    forall k | 0 <= k < |answers|
      ensures Follows(run, answers, k, t, first)
    {
      assert Follows(run, answers, k, s, first);
    }
  }

  lemma ShowsFirst(run: seq<Event>, n: nat, id: nat, page: Page)
    requires n < |run| && run[n] == Answer(id, page) && At(run, n).Waiting(id) && id == At(run, n).view.latest
    requires At(run, n).view.latest == |At(run, n).requests| == SearchId(run, n)
    requires At(run, n).view.submitted.Some?
    requires At(run, n).requests[id - 1] == Request(At(run, n).view.submitted.value, None)
    ensures Shows(run, n + 1, [n])
  {
    var s, t := At(run, n), At(run, n + 1);
    assert t == s.(view := s.view.Answered(id, None, page), over := s.over + {id});
    assert SearchId(run, n + 1) == SearchId(run, n);
    hide Step, At, SearchId, AllLines, AllBytes;
    NothingShown(run);
    AnswerAppended(run, [], n);
    assert [] + [n] == [n];
    assert Follows(run, [n], 0, t, SearchId(run, n));
  }

  lemma NothingShown(run: seq<Event>)
    ensures AllLines(run, []) == [] && AllBytes(run, []) == 0
  {
  }

  lemma AnswerAppended(run: seq<Event>, answers: seq<nat>, n: nat)
    requires n < |run| && run[n].Answer? && IsAnswers(run, answers, |run|)
    ensures AllLines(run, answers + [n]) == AllLines(run, answers) + run[n].page.lines
    ensures AllBytes(run, answers + [n]) == AllBytes(run, answers) + run[n].page.bytes
  {
    assert (answers + [n])[..|answers|] == answers;
  }

  lemma AnswerStep(run: seq<Event>, n: nat, id: nat, page: Page)
    requires n < |run| && run[n] == Answer(id, page) && At(run, n).Waiting(id)
    ensures At(run, n + 1).requests == At(run, n).requests && SearchId(run, n + 1) == SearchId(run, n)
    ensures At(run, n + 1).view == At(run, n).view.Answered(id, At(run, n).requests[id - 1].older, page)
  {
  }

  lemma LongerInOrder(run: seq<Event>, answers: seq<nat>, n: nat)
    requires n < |run| && run[n].Answer? && IsAnswers(run, answers, n) && InOrder(answers)
    ensures IsAnswers(run, answers, |run|)
    ensures IsAnswers(run, answers + [n], n + 1) && IsAnswers(run, answers + [n], |run|) && InOrder(answers + [n])
  {
  }

  lemma ShowsMore(run: seq<Event>, n: nat, answers: seq<nat>, id: nat, page: Page)
    requires n < |run| && run[n] == Answer(id, page) && At(run, n).Waiting(id) && id == At(run, n).view.latest
    requires Shows(run, n, answers) && id == SearchId(run, n) + |answers|
    requires At(run, n).requests[id - 1] == Request(At(run, n).view.submitted.value, At(run, n).view.oldest)
    requires At(run, n).view.oldest.Some?
    ensures Shows(run, n + 1, answers + [n])
  {
    var s, t, first, more := At(run, n), At(run, n + 1), SearchId(run, n), answers + [n];
    hide Step, At, SearchId, AllLines, AllBytes, Follows, IsAnswers, InOrder;
    AnswerStep(run, n, id, page);
    LongerInOrder(run, answers, n);
    AnswerAppended(run, answers, n);
    forall k | 0 <= k < |more|
      ensures Follows(run, more, k, t, first)
    {
      if k < |answers| {
        FollowsLonger(run, answers, n, s, t, first, k);
      } else {
        FollowsLast(run, answers, n, s, t, first);
      }
    }
  }

  lemma FollowsLonger(run: seq<Event>, answers: seq<nat>, n: nat, s: State, t: State, first: nat, k: nat)
    requires n < |run| && run[n].Answer? && IsAnswers(run, answers, |run|) && k < |answers|
    requires s.view.submitted.Some? && s.view.submitted == t.view.submitted && s.requests == t.requests
    requires first >= 1 && first + |answers| <= |s.requests|
    requires Follows(run, answers, k, s, first)
    ensures Follows(run, answers + [n], k, t, first)
  {
  }

  lemma FollowsLast(run: seq<Event>, answers: seq<nat>, n: nat, s: State, t: State, first: nat)
    requires n < |run| && run[n].Answer? && IsAnswers(run, answers, |run|) && answers != []
    requires s.view.submitted.Some? && s.view.submitted == t.view.submitted && s.requests == t.requests
    requires first >= 1 && first + |answers| <= |s.requests| && run[n].id == first + |answers|
    requires s.requests[first + |answers| - 1] == Request(s.view.submitted.value, s.view.oldest)
    requires s.view.oldest == run[answers[|answers| - 1]].page.oldest
    ensures Follows(run, answers + [n], |answers|, t, first)
  {
  }

  lemma PagesKept(run: seq<Event>, n: nat, answers: seq<nat>)
    requires n < |run| && !run[n].Search? && ShowsPages(run, n, answers)
    requires Numbered(At(run, n), SearchId(run, n))
    requires var s, t := At(run, n), At(run, n + 1);
             && SameShown(s, t) && s.requests == t.requests
             && s.view.busy == t.view.busy && s.view.error == t.view.error
    ensures ShowsPages(run, n + 1, answers)
  {
    hide Step, At, Shows;
    if Shows(run, n, answers) {
      ShowsKept(run, n, answers);
    }
  }

  lemma PagesAfterLoadOlder(run: seq<Event>, n: nat, answers: seq<nat>)
    requires n < |run| && run[n].LoadOlder? && ShowsPages(run, n, answers)
    requires Numbered(At(run, n), SearchId(run, n)) && At(run, n).view.CanLoadOlder()
    ensures ShowsPages(run, n + 1, answers)
  {
    hide Shows;
    ShowsKept(run, n, answers);
  }

  lemma PagesAfterAnswer(run: seq<Event>, n: nat, answers: seq<nat>) returns (more: seq<nat>)
    requires n < |run| && run[n].Answer? && ShowsPages(run, n, answers)
    requires Numbered(At(run, n), SearchId(run, n))
    requires At(run, n).Waiting(run[n].id) && run[n].id == At(run, n).view.latest
    ensures ShowsPages(run, n + 1, more)
  {
    hide Shows;
    if Since(run, n) == 0 {
      ShowsFirst(run, n, run[n].id, run[n].page);
      more := [n];
    } else {
      ShowsMore(run, n, answers, run[n].id, run[n].page);
      more := answers + [n];
    }
  }

  lemma PagesAfterFailure(run: seq<Event>, n: nat, answers: seq<nat>)
    requires n < |run| && run[n].Failure? && ShowsPages(run, n, answers)
    requires Numbered(At(run, n), SearchId(run, n))
    requires At(run, n).Waiting(run[n].id) && run[n].id == At(run, n).view.latest
    ensures ShowsPages(run, n + 1, answers)
  {
    hide Shows;
    if Since(run, n) > 0 {
      ShowsKept(run, n, answers);
    }
  }

  lemma {:induction false} ShowsPagesAlways(run: seq<Event>, n: nat) returns (answers: seq<nat>)
    requires n <= |run|
    ensures ShowsPages(run, n, answers)
  {
    if n == 0 {
      return [];
    }
    NumberedAlways(run, n - 1);
    answers := ShowsPagesAlways(run, n - 1);
    var s, e := At(run, n - 1), run[n - 1];
    hide Shows, ShowsPages, Numbered;
    if e.Search? {
      PagesAfterSearch(run, n - 1, answers);
    } else if e.LoadOlder? && s.view.CanLoadOlder() {
      PagesAfterLoadOlder(run, n - 1, answers);
    } else if e.Answer? && s.Waiting(e.id) && e.id == s.view.latest {
      answers := PagesAfterAnswer(run, n - 1, answers);
    } else if e.Failure? && s.Waiting(e.id) && e.id == s.view.latest {
      PagesAfterFailure(run, n - 1, answers);
    } else {
      PagesKept(run, n - 1, answers);
    }
  }

  lemma PagesAfterSearch(run: seq<Event>, n: nat, answers: seq<nat>)
    requires n < |run| && run[n].Search?
    ensures ShowsPages(run, n + 1, answers)
  {
  }

  // ----- the promises -----

  /**
   Whatever the interleaving, an idle view without an error shows exactly the answers to the latest search and every Load
   older since, in order, and counts their bytes.
   */
  lemma IdleShowsLatestSearch(run: seq<Event>, n: nat) returns (answers: seq<nat>)
    requires n <= |run| && At(run, n).view.submitted.Some?
    requires !At(run, n).view.busy && At(run, n).view.error.None?
    ensures Shows(run, n, answers)
    ensures SearchId(run, n) + |answers| - 1 == |At(run, n).requests|
  {
    NumberedAlways(run, n);
    answers := ShowsPagesAlways(run, n);
  }

  /** The view is busy exactly while the latest request is out. */
  lemma BusyIffLatestOut(run: seq<Event>, n: nat)
    requires n <= |run|
    ensures At(run, n).view.busy <==> At(run, n).Waiting(|At(run, n).requests|)
  {
    NumberedAlways(run, n);
  }

  /** The end of an older request changes nothing in the view. */
  lemma OlderAnswerChangesNothing(run: seq<Event>, n: nat)
    requires n < |run| && (run[n].Answer? || run[n].Failure?) && run[n].id != |At(run, n).requests|
    ensures At(run, n + 1).view == At(run, n).view
  {
    NumberedAlways(run, n);
  }
}

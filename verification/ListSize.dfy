/**
 The list size question of services/tool-server/handlers_size.go: how many objects a list holds, asked through the paged
 API without reading the list. The API server is an arbitrary function.
 */
module ListSize {
  import opened Options

  const LIST_MAX := 5000
  const LIST_SIZE_PAGE := 500

  /** One answer: a request that failed, output past the tool's limit, or a page of some items. */
  datatype Answer =
    | Failed
    | Cut
    | Page(items: nat, next: Option<nat>, remaining: Option<nat>)

  /** Answers the request for `limit` objects from a position on; positions stand for continue tokens. */
  type Server = (nat, nat) -> Answer

  /**
   The server holds a fixed list of `total` objects: a page is a stretch of it with at least one object unless it is the
   last, goes on exactly when objects are left, and a remaining count is true. Under a selector no count is given.
   */
  ghost predicate Holds(server: Server, total: nat, selector: bool) {
    forall at: nat, limit: nat | at <= total && limit > 0 && server(at, limit).Page? ::
      var page := server(at, limit);
      && page.items <= limit && at + page.items <= total
      && page.next == (if at + page.items == total then None else Some(at + page.items))
      && (at < total ==> page.items > 0)
      && (page.remaining.Some? ==> !selector && page.remaining.value == total - at - page.items)
  }

  /** Every page holds as many objects as it may. */
  ghost predicate FillsPages(server: Server, total: nat) {
    forall at: nat, limit: nat | at <= total && server(at, limit).Page? ::
      server(at, limit).items == if limit < total - at then limit else total - at
  }

  datatype Size = Unknown | Size(count: nat, atLeast: bool)

  /** What the loop may answer of a list of `total` objects. */
  predicate Truthful(size: Size, total: nat) {
    size.Size? ==>
      && size.count <= total
      && (!size.atLeast ==> size.count == total)
      && (size.count > LIST_MAX <==> total > LIST_MAX)
  }

  /** The requests after which every list is decided, when pages are full. */
  const MOST_REQUESTS := 11

  function FirstLimit(selector: bool): nat {
    if selector then LIST_SIZE_PAGE else 1
  }

  function Reply(server: Server, request: (nat, nat)): Answer {
    server(request.0, request.1)
  }

  /** The requests made: each from where the page before ended, and for a whole page from the second on. */
  ghost predicate Conversation(server: Server, selector: bool, asked: seq<(nat, nat)>) {
    && asked != [] && asked[0] == (0, FirstLimit(selector))
    && forall k | 0 <= k < |asked| - 1 :: Follows(Reply(server, asked[k]), asked[k + 1])
  }

  predicate Follows(reply: Answer, request: (nat, nat)) {
    reply.Page? && reply.next == Some(request.0) && request.1 == LIST_SIZE_PAGE
  }

  lemma Opens(server: Server, selector: bool)
    ensures Conversation(server, selector, [] + [(0, FirstLimit(selector))])
  {
    assert [] + [(0, FirstLimit(selector))] == [(0, FirstLimit(selector))];
  }

  lemma GoesOn(server: Server, selector: bool, asked: seq<(nat, nat)>, at: nat)
    requires Conversation(server, selector, asked) && LastReply(server, asked).Page?
    requires LastReply(server, asked).next == Some(at)
    ensures Conversation(server, selector, asked + [(at, LIST_SIZE_PAGE)])
  {
  }

  function LastReply(server: Server, asked: seq<(nat, nat)>): Answer
    requires asked != []
  {
    Reply(server, asked[|asked| - 1])
  }

  /**
   The answer and the requests made for it, each a position and a limit. It is right unless the last page asked for was
   cut and the list is not above the maximum; then it says that it is.
   */
  method AskListSize(server: Server, selector: bool, ghost total: nat) returns (size: Size, asked: seq<(nat, nat)>)
    requires Holds(server, total, selector)
    ensures Conversation(server, selector, asked)
    ensures Truthful(size, total) <==> !(LastReply(server, asked).Cut? && total <= LIST_MAX)
    ensures LastReply(server, asked).Cut? ==> size == Size(LIST_MAX + 1, true)
    ensures size == Unknown <==> LastReply(server, asked).Failed?
    ensures FillsPages(server, total) ==> |asked| <= MOST_REQUESTS
    ensures |asked| <= LIST_MAX + 1
  {
    hide Conversation, Follows;
    var limit := if selector then LIST_SIZE_PAGE else 1;
    var n, at := 0, 0;
    Opens(server, selector);
    asked := [];
    while true
      invariant n == at <= total && |asked| <= n <= LIST_MAX
      invariant limit == if asked == [] then FirstLimit(selector) else LIST_SIZE_PAGE
      invariant if asked == [] then n == 0 else at < total
      invariant Conversation(server, selector, asked + [(at, limit)])
      invariant FillsPages(server, total) && asked != [] ==> n == LIST_SIZE_PAGE * (|asked| - 1) + FirstLimit(selector)
      decreases total - at, if asked == [] then 1 else 0
    {
      asked := asked + [(at, limit)];
      var answer := server(at, limit);
      match answer
      case Failed => return Unknown, asked;
      case Cut => return Size(LIST_MAX + 1, true), asked;
      case Page(items, next, remaining) =>
        n := n + items;
        if next == None {
          return Size(n, false), asked;
        }
        if remaining.Some? && limit == 1 {
          return Size(n + remaining.value, false), asked;
        }
        if n > LIST_MAX {
          return Size(n, true), asked;
        }
        limit := LIST_SIZE_PAGE;
        at := next.value;
        GoesOn(server, selector, asked, at);
    }
  }

  /** listTooMany for a kind other than pods: a size that is not known lets kubectl run. */
  predicate TooMany(size: Size) {
    size.Size? && size.count > LIST_MAX
  }

  /** What is refused: the lists of more than 5000 objects unless a request failed, and whatever had a page cut. */
  method RefusesLongLists(server: Server, selector: bool, ghost total: nat)
    returns (refused: bool, asked: seq<(nat, nat)>)
    requires Holds(server, total, selector)
    ensures Conversation(server, selector, asked)
    ensures refused <==> match LastReply(server, asked)
                         case Page(_, _, _) => total > LIST_MAX
                         case Cut => true
                         case Failed => false
  {
    var size;
    size, asked := AskListSize(server, selector, total);
    refused := TooMany(size);
  }

  /** A server of `total` objects so large that more than one is more than the tool's output holds. */
  function LargeObjects(total: nat): Server {
    (at: nat, limit: nat) =>
      if at >= total then Page(0, None, None)
      else if limit > 1 && total - at > 1 then Cut
      else Page(1, if at + 1 == total then None else Some(at + 1), None)
  }

  lemma CutEnds(server: Server, selector: bool, asked: seq<(nat, nat)>)
    requires Conversation(server, selector, asked) && Reply(server, asked[0]).Cut?
    ensures |asked| == 1
  {
    assert |asked| > 1 ==> Follows(Reply(server, asked[0]), asked[0 + 1]);
  }

  /** Under a selector any list of two or more of them is refused, far below the maximum as well. */
  method CutPageRefusesShortList(total: nat) returns (refused: bool)
    requires total >= 2
    ensures Holds(LargeObjects(total), total, true)
    ensures refused
  {
    var asked;
    refused, asked := RefusesLongLists(LargeObjects(total), true, total);
    CutEnds(LargeObjects(total), true, asked);
  }
}

/**
 The kubeconfig cache of services/tool-server/kubeconfig_resolver.go.

 `Cache` is the map and its three locked sections. A run is any sequence of events of any number of calls: the lookup,
 the answer of k8s-service and the store of one call are separate events, with invalidations and time between them.
 `Fetched` is the moment k8s-service decides its answer; the way back to the tool-server lies between it and the store.
 */
module KubeconfigCache {
  import opened Options

  // time in seconds
  const KUBECONFIG_TTL := 300

  /** What a fetch answers and the cache keeps: the kubeconfig path and the namespaces the call is held to. */
  datatype Access = Access(path: string, protected: set<string>)

  datatype Entry = Entry(access: Access, expiry: int)

  /** The first half of the SHA-256 of a token in hexadecimal. */
  type Digest = string -> string

  ghost predicate Ideal(digest: Digest) {
    && (forall s, t :: digest(s) == digest(t) ==> s == t)
    && (forall s :: '|' !in digest(s))
  }

  // ----- keys -----

  function ClusterOf(id: string): string {
    if id == "" then "default" else id
  }

  /** kcCacheKey, for a cluster id after its default. */
  function CacheKey(digest: Digest, cluster: string, token: string): string {
    if token == "" then cluster else cluster + "|" + digest(token)
  }

  /** Whether invalidating a cluster drops a key. */
  predicate Drops(cluster: string, key: string) {
    key == cluster || cluster + "|" <= key
  }

  /** Digests hold no bar: behind the one before its digest a key has none. */
  lemma NoBarBehind(c: string, x: string)
    requires '|' !in x
    ensures forall i | |c| < i < |c + "|" + x| :: (c + "|" + x)[i] != '|'
  {
    forall i | |c| < i < |c + "|" + x|
      ensures (c + "|" + x)[i] != '|'
    {
      assert (c + "|" + x)[i] == x[i - |c| - 1];
    }
  }

  lemma LastBar(c: string, d: string, x: string, y: string)
    requires '|' !in x && '|' !in y && c + "|" + x == d + "|" + y
    ensures c == d && x == y
  {
    var key := c + "|" + x;
    NoBarBehind(c, x);
    NoBarBehind(d, y);
    assert key[|c|] == key[|d|] == '|';
    assert c == key[..|c|] == d && x == key[|c| + 1..] == y;
  }

  /** The id of one cluster is another's key for a caller with that token. */
  predicate IsKeyOf(digest: Digest, id: string, cluster: string, token: string) {
    token != "" && id == cluster + "|" + digest(token)
  }

  /**
   When two callers share a key: they are one caller of one cluster, or one of them has no token and the id it names
   reads like the other's key.
   */
  lemma SharedKeyIff(digest: Digest, c: string, s: string, d: string, t: string)
    requires Ideal(digest)
    ensures CacheKey(digest, c, s) == CacheKey(digest, d, t) <==>
            (c == d && s == t) || (s == "" && IsKeyOf(digest, c, d, t)) || (t == "" && IsKeyOf(digest, d, c, s))
  {
    if s != "" && t != "" && CacheKey(digest, c, s) == CacheKey(digest, d, t) {
      LastBar(c, d, digest(s), digest(t));
    }
  }

  /**
   What an invalidation of `c` drops: the entries of `c`, those of every id that goes on after `c` with a bar, and those
   of one token for a cluster whose key under that token is `c`.
   */
  lemma DropsIff(digest: Digest, c: string, d: string, t: string)
    requires Ideal(digest)
    ensures Drops(c, CacheKey(digest, d, t)) <==> c == d || c + "|" <= d || IsKeyOf(digest, c, d, t)
  {
    var key := CacheKey(digest, d, t);
    if t != "" {
      NoBarBehind(d, digest(t));
      if c + "|" <= key {
        assert key[|c|] == '|';
        assert key[..|c|] == c && key[..|d|] == d;
        assert c + "|" == key[..|c| + 1];
      }
      assert c + "|" <= d ==> key[..|c| + 1] == c + "|";
    }
  }

  /** An id with a bar: rotating "prod" drops what is cached for "prod|eu". */
  lemma BarInIdIsReached(digest: Digest, token: string)
    requires Ideal(digest)
    ensures Drops("prod", CacheKey(digest, "prod|eu", token))
  {
    assert "prod" + "|" == "prod|eu"[..5];
    DropsIff(digest, "prod", "prod|eu", token);
  }

  // ----- the map and its locked sections -----

  /** An entry answers until its expiry. */
  function Find(entries: map<string, Entry>, key: string, now: int): Option<Access> {
    if key in entries && now < entries[key].expiry then Some(entries[key].access) else None
  }

  function Kept(entries: map<string, Entry>, cluster: string): map<string, Entry> {
    map k | k in entries && !Drops(cluster, k) :: entries[k]
  }

  class Cache {
    var entries: map<string, Entry>

    constructor ()
      ensures entries == map[]
    {
      entries := map[];
    }

    method Lookup(key: string, now: int) returns (found: Option<Access>)
      ensures found == Find(entries, key, now)
    {
      found := None;
      if key in entries && now < entries[key].expiry {
        found := Some(entries[key].access);
      }
    }

    method Store(key: string, access: Access, now: int)
      modifies this
      ensures entries == old(entries)[key := Entry(access, now + KUBECONFIG_TTL)]
    {
      entries := entries[key := Entry(access, now + KUBECONFIG_TTL)];
    }

    /** The loop over the keys, in whatever order they come, deleting as it goes. */
    method Invalidate(id: string)
      modifies this
      ensures entries == Kept(old(entries), ClusterOf(id))
    {
      var cluster := ClusterOf(id);
      var rest := entries.Keys;
      while rest != {}
        invariant rest <= old(entries).Keys
        invariant entries == map k | k in old(entries) && (k in rest || !Drops(cluster, k)) :: old(entries)[k]
        decreases rest
      {
        var k :| k in rest;
        rest := rest - {k};
        if k == cluster || cluster + "|" <= k {
          entries := entries - {k};
        }
      }
    }
  }

  // ----- runs -----

  datatype Event =
    | Tick(seconds: nat)
    | Lookup(call: nat, id: string, token: string)
    | Fetched(call: nat, access: Access)
    | FetchFailed(call: nat)
    | Store(call: nat)
    | Invalidate(id: string)

  datatype Phase =
    | Fetching(cluster: string, token: string)
    | Ready(cluster: string, token: string, access: Access)
    | Over

  datatype State = State(now: int, entries: map<string, Entry>, calls: map<nat, Phase>)

  /** An event that its call is not waiting for changes nothing. */
  function Step(digest: Digest, s: State, e: Event): State {
    match e
    case Tick(seconds) => s.(now := s.now + seconds)
    case Lookup(call, id, token) =>
      if call in s.calls then s
      else if Find(s.entries, CacheKey(digest, ClusterOf(id), token), s.now).Some? then s.(calls := s.calls[call := Over])
      else s.(calls := s.calls[call := Fetching(ClusterOf(id), token)])
    case Fetched(call, access) =>
      if call in s.calls && s.calls[call].Fetching? then
        s.(calls := s.calls[call := Ready(s.calls[call].cluster, s.calls[call].token, access)])
      else s
    case FetchFailed(call) =>
      if call in s.calls && s.calls[call].Fetching? then s.(calls := s.calls[call := Over]) else s
    case Store(call) =>
      if call in s.calls && s.calls[call].Ready? then
        var p := s.calls[call];
        State(s.now, s.entries[CacheKey(digest, p.cluster, p.token) := Entry(p.access, s.now + KUBECONFIG_TTL)],
              s.calls[call := Over])
      else s
    case Invalidate(id) => s.(entries := Kept(s.entries, ClusterOf(id)))
  }

  /** The state before event `n` of a run. */
  function At(digest: Digest, run: seq<Event>, n: nat): State
    requires n <= |run|
  {
    if n == 0 then State(0, map[], map[]) else Step(digest, At(digest, run, n - 1), run[n - 1])
  }

  /** Every call has a bearer token; a call without one is refused before it gets here. */
  predicate HasTokens(run: seq<Event>) {
    forall i | 0 <= i < |run| && run[i].Lookup? :: run[i].token != ""
  }

  /** Event `j` is a lookup of (cluster, token) that the cache answers with `access`. */
  predicate Serves(digest: Digest, run: seq<Event>, j: nat, cluster: string, token: string, access: Access) {
    && j < |run| && run[j].Lookup? && ClusterOf(run[j].id) == cluster && run[j].token == token
    && run[j].call !in At(digest, run, j).calls
    && Find(At(digest, run, j).entries, CacheKey(digest, cluster, token), At(digest, run, j).now) == Some(access)
  }

  predicate Invalidates(run: seq<Event>, m: nat, cluster: string) {
    m < |run| && run[m].Invalidate? && ClusterOf(run[m].id) == cluster
  }

  /** Event `f` is the answer `access` of the fetch that `call` makes for (cluster, token). */
  predicate Answers(digest: Digest, run: seq<Event>, f: nat, call: nat, cluster: string, token: string, access: Access) {
    && f < |run| && run[f] == Fetched(call, access)
    && call in At(digest, run, f).calls && At(digest, run, f).calls[call] == Fetching(cluster, token)
  }

  /** Event `i` stores what `call` fetched for (cluster, token). */
  predicate Stores(digest: Digest, run: seq<Event>, i: nat, call: nat, cluster: string, token: string, access: Access) {
    && i < |run| && run[i] == Store(call)
    && call in At(digest, run, i).calls && At(digest, run, i).calls[call] == Ready(cluster, token, access)
  }

  // ----- what holds over every run -----

  /** A call with a fetched answer looked its own cluster and token up, and its fetch answered them. */
  lemma {:induction false} ReadyWasAnswered(digest: Digest, run: seq<Event>, n: nat, call: nat)
    requires n <= |run|
    requires call in At(digest, run, n).calls && At(digest, run, n).calls[call].Ready?
    ensures var p := At(digest, run, n).calls[call];
            exists f: nat :: f < n && Answers(digest, run, f, call, p.cluster, p.token, p.access)
  {
    var before := At(digest, run, n - 1);
    var p := At(digest, run, n).calls[call];
    if call in before.calls && before.calls[call] == p {
      ReadyWasAnswered(digest, run, n - 1, call);
    } else {
      assert Answers(digest, run, n - 1, call, p.cluster, p.token, p.access);
    }
  }

  lemma {:induction false} CallsLookedUp(digest: Digest, run: seq<Event>, n: nat, call: nat)
    requires n <= |run| && call in At(digest, run, n).calls && !At(digest, run, n).calls[call].Over?
    ensures var p := At(digest, run, n).calls[call];
            exists l: nat :: l < n && run[l].Lookup? && run[l].call == call &&
                             ClusterOf(run[l].id) == p.cluster && run[l].token == p.token
  {
    var before := At(digest, run, n - 1);
    if call in before.calls {
      CallsLookedUp(digest, run, n - 1, call);
    } else {
      assert run[n - 1].Lookup? && run[n - 1].call == call;
    }
  }

  lemma ClusterIsNamed(digest: Digest, run: seq<Event>, n: nat, call: nat)
    requires n <= |run| && call in At(digest, run, n).calls && !At(digest, run, n).calls[call].Over?
    ensures At(digest, run, n).calls[call].cluster != ""
  {
    hide Step;
    CallsLookedUp(digest, run, n, call);
  }

  lemma {:induction false} ClockGoesOn(digest: Digest, run: seq<Event>, i: nat, n: nat)
    requires i <= n <= |run|
    ensures At(digest, run, i).now <= At(digest, run, n).now
    decreases n
  {
    if i < n {
      ClockGoesOn(digest, run, i, n - 1);
    }
  }

  /** The store an entry comes from, with no invalidation that reaches its key since. */
  ghost predicate Origin(digest: Digest, run: seq<Event>, n: nat, key: string, entry: Entry, i: nat, call: nat,
                         cluster: string, token: string)
    requires n <= |run|
  {
    && i < n && Stores(digest, run, i, call, cluster, token, entry.access)
    && CacheKey(digest, cluster, token) == key
    && entry.expiry == At(digest, run, i).now + KUBECONFIG_TTL
    && forall m: nat | i < m < n && run[m].Invalidate? :: !Drops(ClusterOf(run[m].id), key)
  }

  predicate StoresUnder(digest: Digest, s: State, e: Event, key: string) {
    && e.Store? && e.call in s.calls && s.calls[e.call].Ready?
    && CacheKey(digest, s.calls[e.call].cluster, s.calls[e.call].token) == key
  }

  /** An entry is there after an event because the event stores it or leaves it. */
  lemma EntryStep(digest: Digest, s: State, e: Event, key: string)
    requires key in Step(digest, s, e).entries
    ensures var entry := Step(digest, s, e).entries[key];
            if StoresUnder(digest, s, e, key)
            then entry == Entry(s.calls[e.call].access, s.now + KUBECONFIG_TTL)
            else key in s.entries && s.entries[key] == entry && (e.Invalidate? ==> !Drops(ClusterOf(e.id), key))
  {
    hide CacheKey, Drops;
  }

  lemma {:induction false} EntryHasOrigin(digest: Digest, run: seq<Event>, n: nat, key: string)
    returns (i: nat, call: nat, cluster: string, token: string)
    requires n <= |run| && key in At(digest, run, n).entries
    ensures Origin(digest, run, n, key, At(digest, run, n).entries[key], i, call, cluster, token)
  {
    hide Step, CacheKey, Drops;
    var before, e := At(digest, run, n - 1), run[n - 1];
    EntryStep(digest, before, e, key);
    if StoresUnder(digest, before, e, key) {
      i, call := n - 1, e.call;
      cluster, token := before.calls[call].cluster, before.calls[call].token;
    } else {
      i, call, cluster, token := EntryHasOrigin(digest, run, n - 1, key);
    }
  }

  /** Where an answer served from the cache comes from: a fetch, by a call for the same cluster and token, and its store. */
  ghost predicate ServedFrom(digest: Digest, run: seq<Event>, j: nat, f: nat, i: nat, call: nat, cluster: string,
                             token: string, access: Access) {
    && f < i < j < |run|
    && Answers(digest, run, f, call, cluster, token, access)
    && Stores(digest, run, i, call, cluster, token, access)
    && At(digest, run, i).now <= At(digest, run, j).now < At(digest, run, i).now + KUBECONFIG_TTL
    && forall m: nat | i < m < j :: !Invalidates(run, m, cluster)
  }

  /**
   In every run of calls with tokens, whatever ids they name, what the cache serves for a cluster and token is what a
   fetch for that same pair answered, stored less than the TTL ago and after the last invalidation of the cluster.
   */
  lemma ServedIsFetchedForCaller(digest: Digest, run: seq<Event>, j: nat, cluster: string, token: string,
                                 access: Access)
    returns (f: nat, i: nat, call: nat)
    requires Ideal(digest) && HasTokens(run)
    requires Serves(digest, run, j, cluster, token, access)
    ensures ServedFrom(digest, run, j, f, i, call, cluster, token, access)
  {
    var key := CacheKey(digest, cluster, token);
    var entry := At(digest, run, j).entries[key];
    var c: string, t: string;
    i, call, c, t := EntryHasOrigin(digest, run, j, key);
    CallsLookedUp(digest, run, i, call);
    SharedKeyIff(digest, c, t, cluster, token);
    ReadyWasAnswered(digest, run, i, call);
    f :| f < i && Answers(digest, run, f, call, c, t, access);
    ClockGoesOn(digest, run, i, j);
    forall m: nat | i < m < j
      ensures !Invalidates(run, m, cluster)
    {
      if run[m].Invalidate? {
        DropsIff(digest, ClusterOf(run[m].id), cluster, token);
      }
    }
  }

  /**
   Without tokens it fails, for every two callers that share a key: what the first one fetched is served to the second.
   */
  lemma SharedKeyIsServed(digest: Digest, c: string, s: string, d: string, t: string, access: Access)
    requires c != "" && d != "" && CacheKey(digest, c, s) == CacheKey(digest, d, t)
    ensures var run := [Lookup(0, c, s), Fetched(0, access), Store(0), Lookup(1, d, t)];
            Answers(digest, run, 1, 0, c, s, access) && Serves(digest, run, 3, d, t, access)
  {
    hide CacheKey;
    var run := [Lookup(0, c, s), Fetched(0, access), Store(0), Lookup(1, d, t)];
    assert At(digest, run, 0) == State(0, map[], map[]);
    assert At(digest, run, 1) == State(0, map[], map[0 := Fetching(c, s)]);
    assert At(digest, run, 2) == State(0, map[], map[0 := Ready(c, s, access)]);
    assert At(digest, run, 3) ==
           State(0, map[CacheKey(digest, c, s) := Entry(access, KUBECONFIG_TTL)], map[0 := Over]);
  }

  /**
   An invalidation removes every entry of its cluster, of the ids that go on after its own with a bar, and of the one
   caller whose key is its id; all other entries stay as they were.
   */
  lemma InvalidateIsExact(digest: Digest, s: State, id: string, cluster: string, token: string)
    requires Ideal(digest)
    ensures var key, c := CacheKey(digest, cluster, token), ClusterOf(id);
            var after := Step(digest, s, Invalidate(id)).entries;
            if c == cluster || c + "|" <= cluster || IsKeyOf(digest, c, cluster, token) then key !in after
            else (key in after <==> key in s.entries) && (key in after ==> after[key] == s.entries[key])
  {
    DropsIff(digest, ClusterOf(id), cluster, token);
  }

  // ----- a rotation and a call in flight -----

  /** Some call for the cluster is answered and has not stored its answer yet. */
  ghost predicate InFlight(s: State, cluster: string) {
    exists call :: call in s.calls && s.calls[call].Ready? && s.calls[call].cluster == cluster
  }

  /** The run goes on to serve, from the cache, access to the cluster that was fetched before event `m`. */
  ghost predicate ServesStale(digest: Digest, run: seq<Event>, m: nat, cluster: string) {
    exists more, j, f, i, call, token, access :: StaleServe(digest, run, m, cluster, more, j, f, i, call, token, access)
  }

  ghost predicate StaleServe(digest: Digest, run: seq<Event>, m: nat, cluster: string, more: seq<Event>, j: nat,
                             f: nat, i: nat, call: nat, token: string, access: Access) {
    && f < m < j
    && Serves(digest, run + more, j, cluster, token, access)
    && ServedFrom(digest, run + more, j, f, i, call, cluster, token, access)
  }

  lemma {:induction false} AtPrefix(digest: Digest, run: seq<Event>, more: seq<Event>, n: nat)
    requires n <= |run|
    ensures At(digest, run + more, n) == At(digest, run, n)
  {
    if n > 0 {
      AtPrefix(digest, run, more, n - 1);
      assert (run + more)[n - 1] == run[n - 1];
    }
  }

  lemma {:induction false} OverStaysOver(digest: Digest, run: seq<Event>, m: nat, n: nat, call: nat)
    requires m <= n <= |run| && call in At(digest, run, m).calls && At(digest, run, m).calls[call].Over?
    ensures call in At(digest, run, n).calls && At(digest, run, n).calls[call].Over?
    decreases n
  {
    if m < n {
      OverStaysOver(digest, run, m, n - 1, call);
    }
  }

  lemma {:induction false} AnsweredStays(digest: Digest, run: seq<Event>, f: nat, n: nat, call: nat, cluster: string,
                                         token: string, access: Access)
    requires f < n <= |run| && Answers(digest, run, f, call, cluster, token, access)
    ensures call in At(digest, run, n).calls
    ensures At(digest, run, n).calls[call] in {Ready(cluster, token, access), Over}
    decreases n
  {
    if f + 1 < n {
      AnsweredStays(digest, run, f, n - 1, call, cluster, token, access);
    }
  }

  /** Between its answer and its store a call is in flight. */
  lemma ReadyUntilStored(digest: Digest, run: seq<Event>, f: nat, m: nat, i: nat, call: nat, cluster: string,
                         token: string, access: Access)
    requires f < m <= i && Answers(digest, run, f, call, cluster, token, access)
    requires Stores(digest, run, i, call, cluster, token, access)
    ensures InFlight(At(digest, run, m), cluster)
  {
    AnsweredStays(digest, run, f, m, call, cluster, token, access);
    if At(digest, run, m).calls[call].Over? {
      OverStaysOver(digest, run, m, i, call);
    }
    assert call in At(digest, run, m).calls && At(digest, run, m).calls[call].cluster == cluster;
  }

  /**
   The last event of the run invalidates a cluster after a rotation. A later lookup can be served access fetched before it
   exactly when k8s-service has answered some call for the cluster that has not stored the answer yet, be it still on the
   wire: the store puts the old entry back.
   */
  lemma StaleAfterInvalidateIff(digest: Digest, run: seq<Event>, cluster: string)
    requires run != [] && Invalidates(run, |run| - 1, cluster)
    ensures ServesStale(digest, run, |run| - 1, cluster) <==> InFlight(At(digest, run, |run| - 1), cluster)
  {
    hide Answers, Stores, Serves, ServedFrom, Step, At;
    var m := |run| - 1;
    if ServesStale(digest, run, m, cluster) {
      var more, j, f, i, call, token, access :| StaleServe(digest, run, m, cluster, more, j, f, i, call, token, access);
      StaleWasInFlight(digest, run, more, j, f, i, call, cluster, token, access);
    }
    if InFlight(At(digest, run, m), cluster) {
      var call :| call in At(digest, run, m).calls && At(digest, run, m).calls[call].Ready?
                  && At(digest, run, m).calls[call].cluster == cluster;
      StaleRun(digest, run, cluster, call);
    }
  }

  lemma StaleWasInFlight(digest: Digest, run: seq<Event>, more: seq<Event>, j: nat, f: nat, i: nat, call: nat,
                         cluster: string, token: string, access: Access)
    requires run != [] && Invalidates(run, |run| - 1, cluster) && |run| - 1 < j
    requires ServedFrom(digest, run + more, j, f, i, call, cluster, token, access) && f < |run| - 1
    ensures InFlight(At(digest, run, |run| - 1), cluster)
  {
    hide Step, At, Answers;
    var m := |run| - 1;
    assert (run + more)[m] == run[m];
    assert Invalidates(run + more, m, cluster);
    ReadyUntilStored(digest, run + more, f, m, i, call, cluster, token, access);
    AtPrefix(digest, run, more, m);
  }

  /** A store puts the entry in, and a lookup by a new call is served it. */
  lemma StoreThenLookup(digest: Digest, s: State, call: nat, again: nat, cluster: string, token: string, access: Access)
    requires call in s.calls && s.calls[call] == Ready(cluster, token, access) && again !in s.calls
    ensures var after := Step(digest, s, Store(call));
            && again !in after.calls && after.now == s.now
            && Find(after.entries, CacheKey(digest, cluster, token), after.now) == Some(access)
  {
  }

  lemma StaleRun(digest: Digest, run: seq<Event>, cluster: string, call: nat)
    requires run != [] && Invalidates(run, |run| - 1, cluster)
    requires var s := At(digest, run, |run| - 1);
             call in s.calls && s.calls[call].Ready? && s.calls[call].cluster == cluster
    ensures ServesStale(digest, run, |run| - 1, cluster)
  {
    hide Step, At, Answers;
    var s := At(digest, run, |run| - 1);
    var token, access := s.calls[call].token, s.calls[call].access;
    ReadyWasAnswered(digest, run, |run| - 1, call);
    ClusterIsNamed(digest, run, |run| - 1, call);
    var f: nat :| f < |run| - 1 && Answers(digest, run, f, call, cluster, token, access);
    var again := FreshCall(s.calls);
    AtNext(digest, run, |run| - 1);
    InvalidateKeepsCalls(digest, s, run[|run| - 1]);
    PutBack(digest, run, f, call, again, cluster, token, access);
  }

  lemma InvalidateKeepsCalls(digest: Digest, s: State, e: Event)
    requires e.Invalidate?
    ensures Step(digest, s, e).calls == s.calls
  {
  }

  /** The store after the invalidation and a lookup after the store. */
  lemma PutBack(digest: Digest, run: seq<Event>, f: nat, call: nat, again: nat, cluster: string, token: string,
                access: Access)
    requires cluster != "" && run != []
    requires f < |run| - 1 && Answers(digest, run, f, call, cluster, token, access)
    requires var s := At(digest, run, |run|);
             call in s.calls && s.calls[call] == Ready(cluster, token, access) && again !in s.calls
    ensures ServesStale(digest, run, |run| - 1, cluster)
  {
    hide Step, At, Answers, Stores, Serves;
    var more, n := [Store(call), Lookup(again, cluster, token)], |run|;
    AnswersPrefix(digest, run, more, f, call, cluster, token, access);
    AtPrefix(digest, run, more, n);
    assert At(digest, run + more, n) == At(digest, run, n);
    assert (run + more)[n] == Store(call) && (run + more)[n + 1] == Lookup(again, cluster, token);
    StoredAndServed(digest, run + more, n, call, again, cluster, token, access);
    assert ServedFrom(digest, run + more, n + 1, f, n, call, cluster, token, access);
    assert StaleServe(digest, run, n - 1, cluster, more, n + 1, f, n, call, token, access);
  }

  lemma StoredAndServed(digest: Digest, run: seq<Event>, n: nat, call: nat, again: nat, cluster: string, token: string,
                        access: Access)
    requires n + 2 == |run| && run[n] == Store(call) && run[n + 1] == Lookup(again, cluster, token)
    requires cluster != ""
    requires var s := At(digest, run, n);
             call in s.calls && s.calls[call] == Ready(cluster, token, access) && again !in s.calls
    ensures Stores(digest, run, n, call, cluster, token, access)
    ensures Serves(digest, run, n + 1, cluster, token, access)
    ensures At(digest, run, n).now == At(digest, run, n + 1).now
  {
    AtNext(digest, run, n);
    hide Step, At, Find;
    StoreThenLookup(digest, At(digest, run, n), call, again, cluster, token, access);
  }

  lemma AnswersPrefix(digest: Digest, run: seq<Event>, more: seq<Event>, f: nat, call: nat, cluster: string,
                      token: string, access: Access)
    requires Answers(digest, run, f, call, cluster, token, access)
    ensures Answers(digest, run + more, f, call, cluster, token, access)
  {
    hide At;
    AtPrefix(digest, run, more, f);
  }

  lemma AtNext(digest: Digest, run: seq<Event>, n: nat)
    requires n < |run|
    ensures At(digest, run, n + 1) == Step(digest, At(digest, run, n), run[n])
  {
  }

  /** A call number not used yet. */
  lemma {:induction false} FreshCall(calls: map<nat, Phase>) returns (call: nat)
    ensures call !in calls
  {
    call := FreshNat(calls.Keys);
  }

  lemma {:induction false} FreshNat(used: set<nat>) returns (n: nat)
    ensures forall k | k in used :: k < n
    decreases |used|
  {
    if used == {} {
      n := 0;
    } else {
      var k :| k in used;
      var below := FreshNat(used - {k});
      n := if k < below then below else k + 1;
      assert forall x | x in used :: x == k || x in used - {k};
    }
  }
}

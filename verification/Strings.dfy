/** What the models need of Go's `strings` and `sort` packages. Strings are sequences of Unicode scalar values. */
module Strings {

  /** strings.Split for a one-character separator. */
  function Split(s: string, sep: char): (parts: seq<string>)
    ensures |parts| > 0
  {
    if s == "" then [""]
    else
      var rest := Split(s[1..], sep);
      if s[0] == sep then [""] + rest else [[s[0]] + rest[0]] + rest[1..]
  }

  /** strings.Join with a one-character separator. */
  function Join(parts: seq<string>, sep: char): string {
    if parts == [] then ""
    else if |parts| == 1 then parts[0]
    else parts[0] + [sep] + Join(parts[1..], sep)
  }

  function Occurrences(s: string, c: char): nat {
    if s == "" then 0 else (if s[0] == c then 1 else 0) + Occurrences(s[1..], c)
  }

  lemma {:induction false} JoinSplit(s: string, sep: char)
    ensures Join(Split(s, sep), sep) == s
  {
    if s != "" {
      var rest := Split(s[1..], sep);
      JoinSplit(s[1..], sep);
      if s[0] == sep {
        assert ([""] + rest)[1..] == rest;
      } else {
        var parts := [[s[0]] + rest[0]] + rest[1..];
        assert parts[1..] == rest[1..];
        assert s == [s[0]] + s[1..];
      }
    }
  }

  lemma {:induction false} SplitAround(head: string, tail: string, sep: char)
    requires sep !in head
    ensures Split(head + [sep] + tail, sep) == [head] + Split(tail, sep)
  {
    var s := head + [sep] + tail;
    if head == "" {
      assert s[1..] == tail;
    } else {
      assert s[1..] == head[1..] + [sep] + tail;
      SplitAround(head[1..], tail, sep);
      assert head == [head[0]] + head[1..];
    }
  }

  lemma {:induction false} SplitPlain(s: string, sep: char)
    requires sep !in s
    ensures Split(s, sep) == [s]
  {
    if s != "" {
      SplitPlain(s[1..], sep);
      assert s == [s[0]] + s[1..];
    }
  }

  lemma {:induction false} SplitLength(s: string, sep: char)
    ensures |Split(s, sep)| == 1 + Occurrences(s, sep)
  {
    if s != "" {
      SplitLength(s[1..], sep);
    }
  }

  lemma {:induction false} OccurrencesAppend(s: string, t: string, c: char)
    ensures Occurrences(s + t, c) == Occurrences(s, c) + Occurrences(t, c)
  {
    if s == "" {
      assert s + t == t;
    } else {
      assert (s + t)[1..] == s[1..] + t;
      OccurrencesAppend(s[1..], t, c);
    }
  }

  lemma {:induction false} OccursIff(s: string, c: char)
    ensures Occurrences(s, c) > 0 <==> c in s
  {
    if s != "" {
      OccursIff(s[1..], c);
      assert s == [s[0]] + s[1..];
    }
  }

  /** Parts without the separator are split back; a separator inside one makes too many parts. */
  lemma {:induction false} SplitJoin(parts: seq<string>, sep: char)
    requires parts != []
    ensures (forall p | p in parts :: sep !in p) ==> Split(Join(parts, sep), sep) == parts
    ensures (exists p | p in parts :: sep in p) ==> |Split(Join(parts, sep), sep)| > |parts|
    ensures |Split(Join(parts, sep), sep)| >= |parts|
  {
    var head, tail := parts[0], parts[1..];
    assert parts == [head] + tail;
    SplitLength(Join(parts, sep), sep);
    OccursIff(head, sep);
    if tail == [] {
      if sep !in head {
        SplitPlain(head, sep);
      }
    } else {
      SplitJoin(tail, sep);
      SplitLength(Join(tail, sep), sep);
      OccurrencesAppend(head + [sep], Join(tail, sep), sep);
      OccurrencesAppend(head, [sep], sep);
      if sep !in head {
        SplitAround(head, Join(tail, sep), sep);
      }
    }
  }

  lemma PrefixHolds(s: string, t: string, c: char)
    ensures s <= t && c in s ==> c in t
  {
  }

  // ----- decimal numbers -----

  predicate IsDigit(c: char) {
    '0' <= c <= '9'
  }

  predicate AllDigits(s: string) {
    forall i | 0 <= i < |s| :: IsDigit(s[i])
  }

  function NatText(n: nat): (s: string)
    ensures s != "" && AllDigits(s)
  {
    (if n < 10 then "" else NatText(n / 10)) + ['0' + (n % 10) as char]
  }

  lemma {:induction false} NatTextInjective(m: nat, n: nat)
    requires NatText(m) == NatText(n)
    ensures m == n
  {
    var s, t := NatText(m), NatText(n);
    assert s[|s| - 1] == '0' + (m % 10) as char && t[|t| - 1] == '0' + (n % 10) as char;
    assert (m < 10 <==> |s| == 1) && (n < 10 <==> |t| == 1);
    if m >= 10 {
      assert NatText(m / 10) == s[..|s| - 1] && NatText(n / 10) == t[..|t| - 1];
      NatTextInjective(m / 10, n / 10);
    }
  }

  // ----- order -----

  /** Go orders strings by their UTF-8 bytes, which is the order of their scalar values. */
  predicate Less(s: string, t: string) {
    t != "" && (s == "" || s[0] < t[0] || (s[0] == t[0] && Less(s[1..], t[1..])))
  }

  lemma {:induction false} LessTransitive(s: string, t: string, u: string)
    requires Less(s, t) && Less(t, u)
    ensures Less(s, u)
  {
    if s != "" && s[0] == t[0] && t[0] == u[0] {
      LessTransitive(s[1..], t[1..], u[1..]);
    }
  }

  lemma {:induction false} LessIrreflexive(s: string)
    ensures !Less(s, s)
  {
    if s != "" {
      LessIrreflexive(s[1..]);
    }
  }

  lemma {:induction false} LessAsymmetric(s: string, t: string)
    ensures !(Less(s, t) && Less(t, s))
  {
    if s != "" && t != "" && s[0] == t[0] {
      LessAsymmetric(s[1..], t[1..]);
    }
  }

  lemma {:induction false} LessTotal(s: string, t: string)
    ensures s == t || Less(s, t) || Less(t, s)
  {
    if s != "" && t != "" && s[0] == t[0] {
      LessTotal(s[1..], t[1..]);
      assert s == [s[0]] + s[1..] && t == [t[0]] + t[1..];
    }
  }

  ghost predicate StrictlySorted(keys: seq<string>) {
    forall i, j | 0 <= i < j < |keys| :: Less(keys[i], keys[j])
  }

  lemma SortedTail(p: seq<string>, k: string)
    requires p != [] && StrictlySorted(p)
    ensures k in p[1..] <==> k in p && k != p[0]
  {
    assert p == [p[0]] + p[1..];
    LessIrreflexive(k);
    if i :| 0 <= i < |p[1..]| && p[1..][i] == k {
      assert Less(p[0], p[i + 1]);
    }
  }

  /** A set of strings has one sorted listing. */
  lemma {:induction false} SortedListingUnique(p: seq<string>, q: seq<string>)
    requires StrictlySorted(p) && StrictlySorted(q)
    requires forall k :: k in p <==> k in q
    ensures p == q
  {
    assert p != [] ==> p[0] in q;
    assert q != [] ==> q[0] in p;
    if p != [] {
      LessAsymmetric(p[0], q[0]);
      forall k
        ensures k in p[1..] <==> k in q[1..]
      {
        SortedTail(p, k);
        SortedTail(q, k);
      }
      SortedListingUnique(p[1..], q[1..]);
    }
  }

  /** One insertion step of a sort. */
  function Insert(key: string, keys: seq<string>): seq<string> {
    if keys == [] then [key]
    else if Less(key, keys[0]) then [key] + keys
    else [keys[0]] + Insert(key, keys[1..])
  }

  lemma {:induction false} InsertSorted(key: string, keys: seq<string>)
    requires StrictlySorted(keys) && key !in keys
    ensures StrictlySorted(Insert(key, keys))
    ensures forall k :: k in Insert(key, keys) <==> k == key || k in keys
  {
    if keys != [] {
      assert keys == [keys[0]] + keys[1..];
      if Less(key, keys[0]) {
        forall j | 0 < j < |keys|
          ensures Less(key, keys[j])
        {
          LessTransitive(key, keys[0], keys[j]);
        }
      } else {
        LessTotal(key, keys[0]);
        InsertSorted(key, keys[1..]);
        var rest := Insert(key, keys[1..]);
        forall j | 0 <= j < |rest|
          ensures Less(keys[0], rest[j])
        {
          assert rest[j] in rest;
        }
      }
    }
  }

  /** sort.Strings, as far as distinct strings can tell. */
  function SortStrings(keys: seq<string>): seq<string> {
    if keys == [] then [] else Insert(keys[0], SortStrings(keys[1..]))
  }

  lemma {:induction false} SortStringsSorts(keys: seq<string>)
    requires forall i, j | 0 <= i < j < |keys| :: keys[i] != keys[j]
    ensures StrictlySorted(SortStrings(keys))
    ensures forall k :: k in SortStrings(keys) <==> k in keys
  {
    if keys != [] {
      assert keys == [keys[0]] + keys[1..];
      SortStringsSorts(keys[1..]);
      InsertSorted(keys[0], SortStrings(keys[1..]));
    }
  }

  /** Some listing of a set, each element once. */
  ghost function Listing(keys: set<string>): seq<string> {
    if keys == {} then []
    else
      var k :| k in keys;
      [k] + Listing(keys - {k})
  }

  lemma {:induction false} ListingLists(keys: set<string>)
    ensures forall k :: k in Listing(keys) <==> k in keys
    ensures forall i, j | 0 <= i < j < |Listing(keys)| :: Listing(keys)[i] != Listing(keys)[j]
  {
    if keys != {} {
      var all := Listing(keys);
      assert all[0] in keys && all == [all[0]] + Listing(keys - {all[0]});
      ListingLists(keys - {all[0]});
      forall j | 0 < j < |all|
        ensures all[0] != all[j]
      {
        assert all[j] in Listing(keys - {all[0]});
      }
    }
  }

  /** The sorted listing of a set of strings. */
  ghost function SortedKeys(keys: set<string>): (listing: seq<string>)
    ensures StrictlySorted(listing)
    ensures forall k :: k in listing <==> k in keys
  {
    ListingLists(keys);
    SortStringsSorts(Listing(keys));
    SortStrings(Listing(keys))
  }
}

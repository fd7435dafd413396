/**
 The manifest reader of services/tool-server/screen_permissions.go: documents are flattened into objects, within limits
 on depth and count. `Flatten` is the flattening without limits and without an order.
 */
module ManifestReader {
  import opened Options
  import opened JsonValues

  const MAX_BYTES := 0x4_0000
  const MAX_DEPTH := 8
  const MAX_OBJECTS := 2000

  datatype Object =
    Object(kind: string, apiVersion: string, name: string, generateName: string, namespace: string)

  // ----- fields -----

  /** `s, _ := m[key].(string)`. */
  function StringField(m: map<string, Json>, key: string): string {
    if key in m && m[key].Str? then m[key].text else ""
  }

  function Metadata(m: map<string, Json>): map<string, Json> {
    if "metadata" in m && m["metadata"].Obj? then m["metadata"].members else map[]
  }

  /** strings.EqualFold(key, "items"): U+017F, the long s, folds to s as well. */
  predicate IsItems(key: string) {
    |key| == 5 && key[0] in "iI" && key[1] in "tT" && key[2] in "eE" && key[3] in "mM" && key[4] in "sS\U{17F}"
  }

  predicate HasListSuffix(kind: string) {
    |kind| >= 4 && kind[|kind| - 4..] == "List"
  }

  /** strings.TrimSuffix(kind, "List"). */
  function ItemKind(kind: string): string {
    if HasListSuffix(kind) then kind[..|kind| - 4] else kind
  }

  // ----- flattening without limits -----

  /** What an item takes from the document that lists it; a document of its own takes nothing. */
  datatype Lister = Nobody | Lister(kind: string, apiVersion: string)

  function KindOf(m: map<string, Json>, via: Lister): string {
    var own := StringField(m, "kind");
    if own == "" && via.Lister? then via.kind else own
  }

  function ApiVersionOf(m: map<string, Json>, via: Lister): string {
    if StringField(m, "kind") == "" && via.Lister? && "apiVersion" !in m then via.apiVersion
    else StringField(m, "apiVersion")
  }

  function ItemLister(m: map<string, Json>, via: Lister): Lister {
    Lister(ItemKind(KindOf(m, via)), ApiVersionOf(m, via))
  }

  function ObjectOf(m: map<string, Json>, via: Lister): Object {
    var meta := Metadata(m);
    Object(KindOf(m, via), ApiVersionOf(m, via), StringField(meta, "name"), StringField(meta, "generateName"),
           StringField(meta, "namespace"))
  }

  /** The keys read as item lists. */
  function ListKeys(m: map<string, Json>): set<string> {
    set k | k in m && IsItems(k) && m[k] != Null
  }

  type Bag = Option<multiset<Object>>

  function Plus(x: Bag, y: Bag): Bag {
    if x.Some? && y.Some? then Some(x.value + y.value) else None
  }

  lemma PlusNothing(x: Bag)
    ensures Plus(Some(multiset{}), x) == x == Plus(x, Some(multiset{}))
  {
    if x.Some? {
      assert multiset{} + x.value == x.value == x.value + multiset{};
    }
  }

  lemma PlusSwap(x: Bag, y: Bag, z: Bag)
    ensures Plus(x, Plus(y, z)) == Plus(Plus(x, y), z) == Plus(y, Plus(x, z))
  {
    if x.Some? && y.Some? && z.Some? {
      assert x.value + (y.value + z.value) == x.value + y.value + z.value == y.value + (x.value + z.value);
    }
  }

  lemma PlusParts(x: Bag, y: Bag)
    ensures Plus(x, y).Some? <==> x.Some? && y.Some?
    ensures Plus(x, y).Some? ==> Plus(x, y).value == x.value + y.value
    ensures Plus(x, y).Some? ==> |Plus(x, y).value| == |x.value| + |y.value|
  {
  }

  /**
   The objects of a document or item: those of its lists, and itself unless it is a list named so. None when something
   listed is not a JSON object, a list is not an array, or something flattened has no kind.
   */
  ghost function Flatten(v: Json, via: Lister): Bag
    decreases v, 2, 0
  {
    if !v.Obj? then None
    else Plus(FlattenLists(v, ListKeys(v.members), ItemLister(v.members, via)), Itself(v.members, via))
  }

  function Itself(m: map<string, Json>, via: Lister): Bag {
    if ListKeys(m) != {} && HasListSuffix(KindOf(m, via)) then Some(multiset{})
    else if KindOf(m, via) == "" then None
    else Some(multiset{ObjectOf(m, via)})
  }

  ghost function FlattenLists(v: Json, keys: set<string>, via: Lister): Bag
    requires v.Obj? && keys <= v.members.Keys
    decreases v, 1, |keys|
  {
    if keys == {} then Some(multiset{})
    else
      var k :| k in keys;
      Plus(FlattenItems(v, k, 0, via), FlattenLists(v, keys - {k}, via))
  }

  ghost function FlattenItems(v: Json, key: string, i: nat, via: Lister): Bag
    requires v.Obj? && key in v.members
    requires v.members[key].Arr? ==> i <= |v.members[key].items|
    decreases v, 0, if v.members[key].Arr? then |v.members[key].items| - i else 0
  {
    if !v.members[key].Arr? then None
    else
      var items := v.members[key].items;
      if i == |items| then Some(multiset{}) else Plus(Flatten(items[i], via), FlattenItems(v, key, i + 1, via))
  }

  /** The order in which a map yields its keys does not matter. */
  lemma {:induction false} AnyKeyFirst(v: Json, keys: set<string>, k: string, via: Lister)
    requires v.Obj? && keys <= v.members.Keys && k in keys
    ensures FlattenLists(v, keys, via) == Plus(FlattenItems(v, k, 0, via), FlattenLists(v, keys - {k}, via))
    decreases |keys|
  {
    hide FlattenItems, Plus;
    var j :| j in keys && FlattenLists(v, keys, via) == Plus(FlattenItems(v, j, 0, via), FlattenLists(v, keys - {j}, via));
    if j != k {
      AnyKeyFirst(v, keys - {j}, k, via);
      AnyKeyFirst(v, keys - {k}, j, via);
      assert keys - {j} - {k} == keys - {k} - {j};
      PlusSwap(FlattenItems(v, j, 0, via), FlattenItems(v, k, 0, via), FlattenLists(v, keys - {j} - {k}, via));
    }
  }

  /** Every item lies at most `depth` lists deep. */
  ghost predicate Within(v: Json, depth: int)
    decreases v
  {
    v.Obj? ==>
      depth >= 0 &&
      forall k | k in ListKeys(v.members) && v.members[k].Arr? ::
        forall i | 0 <= i < |v.members[k].items| :: Within(v.members[k].items[i], depth - 1)
  }

  // ----- what is counted too late -----

  /** At most one key is read as an item list, here and in every item. */
  ghost predicate OneList(v: Json)
    decreases v
  {
    v.Obj? ==>
      && (forall j, k | j in ListKeys(v.members) && k in ListKeys(v.members) :: j == k)
      && forall k | k in ListKeys(v.members) && v.members[k].Arr? ::
           forall i | 0 <= i < |v.members[k].items| :: OneList(v.members[k].items[i])
  }

  ghost function SomeKey(keys: set<string>): (k: string)
    requires keys != {}
    ensures k in keys
  {
    var k :| k in keys;
    k
  }

  function Count(x: Bag): nat {
    if x.Some? then |x.value| else 0
  }

  /**
   How many objects a document adds once its last item is being read, where the count is checked for the last time: that
   item's own, and one for every list around it that is an object as well.
   */
  ghost function Tail(v: Json, via: Lister): nat
    decreases v, 1
  {
    if !v.Obj? then 0 else ListsTail(v, ItemLister(v.members, via)) + Count(Itself(v.members, via))
  }

  ghost function ListsTail(v: Json, via: Lister): nat
    requires v.Obj?
    decreases v, 0
  {
    if ListKeys(v.members) == {} then 0 else ItemsTail(v.members[SomeKey(ListKeys(v.members))], via)
  }

  ghost function ItemsTail(list: Json, via: Lister): nat
    decreases list, 0
  {
    if list.Arr? && list.items != [] then Tail(list.items[|list.items| - 1], via) else 0
  }

  lemma {:induction false} TailIsCounted(v: Json, via: Lister)
    requires Flatten(v, via).Some?
    ensures Tail(v, via) <= Count(Flatten(v, via))
    decreases v, 1
  {
    hide Itself;
    if v.Obj? {
      var lists, lister := FlattenLists(v, ListKeys(v.members), ItemLister(v.members, via)), ItemLister(v.members, via);
      PlusParts(lists, Itself(v.members, via));
      if ListKeys(v.members) != {} {
        var key := SomeKey(ListKeys(v.members));
        AnyKeyFirst(v, ListKeys(v.members), key, lister);
        PlusParts(FlattenItems(v, key, 0, lister), FlattenLists(v, ListKeys(v.members) - {key}, lister));
        ItemsTailIsCounted(v, key, 0, lister);
      }
    }
  }

  lemma {:induction false} ItemsTailIsCounted(v: Json, key: string, i: nat, via: Lister)
    requires v.Obj? && key in v.members && v.members[key].Arr? && i <= |v.members[key].items|
    requires FlattenItems(v, key, i, via).Some?
    ensures i < |v.members[key].items| || i == 0 ==> ItemsTail(v.members[key], via) <= Count(FlattenItems(v, key, i, via))
    decreases v, 0, |v.members[key].items| - i
  {
    hide Flatten, Tail;
    var items := v.members[key].items;
    if i < |items| {
      PlusParts(Flatten(items[i], via), FlattenItems(v, key, i + 1, via));
      if i == |items| - 1 {
        TailIsCounted(items[i], via);
      } else {
        ItemsTailIsCounted(v, key, i + 1, via);
      }
    }
  }

  /** The one list of a document is all its lists. */
  lemma OneKey(v: Json, key: string, via: Lister)
    requires v.Obj? && OneList(v) && key in ListKeys(v.members)
    ensures ListKeys(v.members) == {key} && ListsTail(v, via) == ItemsTail(v.members[key], via)
    ensures FlattenLists(v, ListKeys(v.members), via) == FlattenItems(v, key, 0, via)
  {
    assert ListKeys(v.members) == {key} && ListKeys(v.members) <= v.members.Keys;
    hide FlattenItems, ListKeys, Plus;
    AnyKeyFirst(v, ListKeys(v.members), key, via);
    assert {key} - {key} == {};
    EmptyLists(v, {}, via);
    PlusNothing(FlattenItems(v, key, 0, via));
  }

  // ----- what an item takes from its list -----

  /** The item as the reader leaves it: a missing kind, and then a missing apiVersion, filled in. */
  function Filled(item: map<string, Json>, kind: string, apiVersion: string): map<string, Json> {
    if StringField(item, "kind") != "" then item
    else
      var named := item["kind" := Str(kind)];
      if "apiVersion" in named then named else named["apiVersion" := Str(apiVersion)]
  }

  lemma FilledFields(item: map<string, Json>, via: Lister)
    requires via.Lister?
    ensures var filled := Filled(item, via.kind, via.apiVersion);
            && KindOf(filled, Nobody) == KindOf(item, via)
            && ApiVersionOf(filled, Nobody) == ApiVersionOf(item, via)
            && Metadata(filled) == Metadata(item)
            && ListKeys(filled) == ListKeys(item)
            && (forall k | k in ListKeys(item) :: filled[k] == item[k])
  {
    assert !IsItems("kind") && !IsItems("apiVersion");
  }

  lemma {:induction false} SameLists(v: Json, w: Json, keys: set<string>, via: Lister)
    requires v.Obj? && w.Obj? && keys <= v.members.Keys && keys <= w.members.Keys
    requires forall k | k in keys :: v.members[k] == w.members[k]
    ensures FlattenLists(v, keys, via) == FlattenLists(w, keys, via)
    decreases |keys|
  {
    if keys != {} {
      var k :| k in keys;
      AnyKeyFirst(v, keys, k, via);
      AnyKeyFirst(w, keys, k, via);
      SameItems(v, w, k, 0, via);
      SameLists(v, w, keys - {k}, via);
    }
  }

  lemma {:induction false} SameItems(v: Json, w: Json, key: string, i: nat, via: Lister)
    requires v.Obj? && w.Obj? && key in v.members && key in w.members && v.members[key] == w.members[key]
    requires v.members[key].Arr? ==> i <= |v.members[key].items|
    ensures FlattenItems(v, key, i, via) == FlattenItems(w, key, i, via)
    decreases if v.members[key].Arr? then |v.members[key].items| - i else 0
  {
    if v.members[key].Arr? && i < |v.members[key].items| {
      SameItems(v, w, key, i + 1, via);
    }
  }

  /** Filling an item in is the same as reading it under its list. */
  lemma FilledFlattens(item: map<string, Json>, via: Lister)
    requires via.Lister?
    ensures var filled := Obj(Filled(item, via.kind, via.apiVersion));
            && Flatten(filled, Nobody) == Flatten(Obj(item), via)
            && (forall depth: int :: Within(filled, depth) <==> Within(Obj(item), depth))
            && Tail(filled, Nobody) == Tail(Obj(item), via)
            && (OneList(filled) <==> OneList(Obj(item)))
  {
    hide Filled;
    FilledFields(item, via);
    var filled := Filled(item, via.kind, via.apiVersion);
    assert ItemLister(filled, Nobody) == ItemLister(item, via);
    assert ObjectOf(filled, Nobody) == ObjectOf(item, via);
    SameLists(Obj(filled), Obj(item), ListKeys(item), ItemLister(item, via));
  }

  // ----- the reader -----

  /** `out` is `objects` with a bag of objects after it. */
  ghost predicate Grown(out: seq<Object>, objects: seq<Object>, bag: multiset<Object>) {
    objects <= out && multiset(out) == multiset(objects) + bag
  }

  lemma GrownCount(out: seq<Object>, objects: seq<Object>, bag: multiset<Object>)
    requires Grown(out, objects, bag)
    ensures |out| == |objects| + |bag|
  {
    assert |multiset(out)| == |out| && |multiset(objects)| == |objects|;
  }

  lemma GrownTwice(out: seq<Object>, mid: seq<Object>, objects: seq<Object>, x: multiset<Object>, y: multiset<Object>)
    requires Grown(mid, objects, x) && Grown(out, mid, y)
    ensures Grown(out, objects, x + y)
  {
  }

  /**
   What there is to read: the objects, whether all lie within the depth, whether there is one list at a time, and how
   many come too late to be counted.
   */
  datatype Reading = Reading(bag: Bag, within: bool, one: bool, tail: nat)

  /**
   What reading into `objects` gives. A success holds exactly the objects to read, at most `over` above the maximum; with
   no more than the maximum in all there is one; and with one list at a time there is one exactly when those that come in
   time to be counted are no more than the maximum.
   */
  ghost predicate Reads(objects: seq<Object>, r: Option<seq<Object>>, x: Reading, over: int) {
    && (r.Some? ==> x.bag.Some? && Grown(r.value, objects, x.bag.value) && x.within && |r.value| <= MAX_OBJECTS + over)
    && (x.bag.Some? && x.within ==>
          && (|objects| + |x.bag.value| <= MAX_OBJECTS ==> r.Some?)
          && (x.one ==> (r.Some? <==> |objects| + |x.bag.value| - x.tail <= MAX_OBJECTS)))
  }

  ghost function DocumentReading(v: Json, depth: int): Reading {
    Reading(Flatten(v, Nobody), Within(v, MAX_DEPTH - depth), OneList(v), Tail(v, Nobody))
  }

  ghost function ListsReading(doc: map<string, Json>, depth: int): Reading {
    var via := ItemLister(doc, Nobody);
    Reading(FlattenLists(Obj(doc), ListKeys(doc), via), ListsWithin(doc, ListKeys(doc), MAX_DEPTH - depth - 1),
            OneList(Obj(doc)), ListsTail(Obj(doc), via))
  }

  /** A list begun with more objects than the maximum is exact about nothing: it may hold no item. */
  ghost function ItemsReading(doc: map<string, Json>, key: string, depth: int, before: nat): Reading
    requires key in doc && doc[key].Arr?
  {
    var items, via := doc[key].items, ItemLister(doc, Nobody);
    Reading(FlattenItems(Obj(doc), key, 0, via), ItemsWithin(items, MAX_DEPTH - depth - 1),
            before <= MAX_OBJECTS && ItemsOneList(items), ItemsTail(doc[key], via))
  }

  ghost predicate ItemsOneList(items: seq<Json>) {
    forall i | 0 <= i < |items| :: OneList(items[i])
  }

  /** Reading stops in a part `y` of what there is to read, with `rest` objects behind it. */
  lemma StopsEarly(objects: seq<Object>, out: seq<Object>, x: Reading, y: Reading, rest: nat, over: int, more: int)
    requires Reads(out, None, y, more)
    requires x.bag.Some? ==> y.bag.Some? && |objects| + |x.bag.value| == |out| + |y.bag.value| + rest
    requires (x.within ==> y.within) && (x.one ==> y.one)
    requires x.one && x.bag.Some? ==> x.tail <= rest || (rest == 0 && x.tail == y.tail)
    ensures Reads(objects, None, x, over)
  {
  }

  /** A document with more objects before it than the maximum is not begun. */
  lemma TooManyBefore(objects: seq<Object>, v: Json, depth: nat)
    requires depth > MAX_DEPTH || |objects| > MAX_OBJECTS
    requires v.Obj?
    ensures Reads(objects, None, DocumentReading(v, depth), MAX_DEPTH + 1 - depth)
  {
    if Flatten(v, Nobody).Some? {
      TailIsCounted(v, Nobody);
    }
  }

  method AppendManifestObjects(objects: seq<Object>, doc: map<string, Json>, depth: nat)
    returns (r: Option<seq<Object>>)
    ensures Reads(objects, r, DocumentReading(Obj(doc), depth), MAX_DEPTH + 1 - depth)
    decreases MAX_DEPTH + 1 - depth, 2
  {
    if depth > MAX_DEPTH || |objects| > MAX_OBJECTS {
      TooManyBefore(objects, Obj(doc), depth);
      return None;
    }
    hide Grown, Plus, DocumentReading, ListsReading, ListKeys;
    var kind := StringField(doc, "kind");
    var appended, isList := AppendLists(objects, doc, depth);
    if appended.None? || (kind == "" && !(isList && HasListSuffix(kind))) {
      Finished(objects, appended, None, doc, depth);
      return None;
    }
    var out := appended.value;
    if !(isList && HasListSuffix(kind)) {
      out := out + [ObjectOf(doc, Nobody)];
      GrownOne(appended.value, ObjectOf(doc, Nobody));
    } else {
      GrownNot(out);
    }
    r := Some(out);
    Finished(objects, appended, r, doc, depth);
  }

  /** From a document's lists to the document: itself is added last. */
  lemma Finished(objects: seq<Object>, lists: Option<seq<Object>>, r: Option<seq<Object>>, doc: map<string, Json>,
                 depth: nat)
    requires depth <= MAX_DEPTH && Reads(objects, lists, ListsReading(doc, depth), MAX_DEPTH - depth)
    requires lists.None? || Itself(doc, Nobody).None? ==> r.None?
    requires lists.Some? && Itself(doc, Nobody).Some? ==> r.Some? && Grown(r.value, lists.value, Itself(doc, Nobody).value)
    ensures Reads(objects, r, DocumentReading(Obj(doc), depth), MAX_DEPTH + 1 - depth)
  {
    var x, y, itself := DocumentReading(Obj(doc), depth), ListsReading(doc, depth), Itself(doc, Nobody);
    assert x.bag == Plus(y.bag, itself) && x.within == y.within && x.one == y.one && x.tail == y.tail + Count(itself);
    hide Grown, DocumentReading, ListsReading;
    PlusParts(y.bag, itself);
    if r.Some? {
      GrownTwice(r.value, lists.value, objects, y.bag.value, itself.value);
      GrownCount(lists.value, objects, y.bag.value);
      GrownCount(r.value, lists.value, itself.value);
    }
  }

  ghost predicate ListsWithin(doc: map<string, Json>, keys: set<string>, depth: int) {
    forall k | k in keys && k in doc && doc[k].Arr? :: ItemsWithin(doc[k].items, depth)
  }

  /** The loop over a document's keys, in whatever order they come. */
  method AppendLists(objects: seq<Object>, doc: map<string, Json>, depth: nat)
    returns (r: Option<seq<Object>>, isList: bool)
    requires depth <= MAX_DEPTH && |objects| <= MAX_OBJECTS
    ensures r.Some? ==> (isList <==> ListKeys(doc) != {})
    ensures Reads(objects, r, ListsReading(doc, depth), MAX_DEPTH - depth)
    decreases MAX_DEPTH + 1 - depth, 1
  {
    hide FlattenItems, FlattenLists, Grown, Plus, IsItems, ItemsWithin, ItemLister, OneList, ListsTail, ItemsTail, Reads;
    ghost var v, via, x := Obj(doc), ItemLister(doc, Nobody), ListsReading(doc, depth);
    ghost var bag := multiset{};
    var out := objects;
    isList := false;
    var rest := doc.Keys;
    GrownNot(objects);
    PlusNothing(x.bag);
    assert ListKeys(doc) * rest == ListKeys(doc);
    while rest != {}
      invariant rest <= doc.Keys
      invariant isList <==> ListKeys(doc) - rest != {}
      invariant Grown(out, objects, bag)
      invariant x.bag == Plus(Some(bag), FlattenLists(v, ListKeys(doc) * rest, via))
      invariant |out| <= MAX_OBJECTS + MAX_DEPTH - depth
      invariant ListsWithin(doc, ListKeys(doc) - rest, MAX_DEPTH - depth - 1)
      invariant !isList ==> out == objects
      invariant isList && x.one && x.bag.Some? && x.within ==> |objects| + |x.bag.value| - x.tail <= MAX_OBJECTS
      decreases rest
    {
      var key :| key in rest;
      ghost var left := ListKeys(doc) * rest;
      rest := rest - {key};
      if !IsItems(key) || doc[key] == Null {
        assert ListKeys(doc) * rest == left;
        continue;
      }
      ListStep(v, left, key, via, bag);
      assert left - {key} == ListKeys(doc) * rest;
      assert key in ListKeys(doc) - rest;
      if !doc[key].Arr? {
        NotAnArray(v, key, via);
        NothingReads(objects, x, MAX_DEPTH - depth);
        return None, isList;
      }
      ghost var had, y := bag, ItemsReading(doc, key, depth, |out|);
      GrownCount(out, objects, had);
      var appended := AppendItems(out, doc, key, depth);
      if x.one {
        OneKey(v, key, via);
        OneListItems(doc, key);
        assert ListKeys(doc) - (rest + {key}) == {};
      }
      if appended.None? {
        ListFailed(objects, out, had, x, y, MAX_DEPTH - depth);
        return None, isList;
      }
      ListRead(objects, out, appended.value, had, x, y, MAX_DEPTH - depth);
      isList := true;
      out := appended.value;
      bag := had + y.bag.value;
    }
    assert ListKeys(doc) * rest == {};
    EmptyLists(v, ListKeys(doc) * rest, via);
    PlusNothing(Some(bag));
    assert ListKeys(doc) - rest == ListKeys(doc);
    if ListKeys(doc) == {} {
      NoLists(v, via);
    }
    GrownCount(out, objects, bag);
    r := Some(out);
    AllListsRead(objects, out, x, MAX_DEPTH - depth);
  }

  lemma NothingReads(objects: seq<Object>, x: Reading, over: int)
    requires x.bag.None?
    ensures Reads(objects, None, x, over)
  {
  }

  lemma NoLists(v: Json, via: Lister)
    requires v.Obj? && ListKeys(v.members) == {}
    ensures ListsTail(v, via) == 0
  {
  }

  lemma OneListItems(doc: map<string, Json>, key: string)
    requires OneList(Obj(doc)) && key in ListKeys(doc) && doc[key].Arr?
    ensures ItemsOneList(doc[key].items)
  {
  }

  /** What the reading of one list, from `out` on, leaves of the reading of all lists. */
  ghost predicate PartOf(objects: seq<Object>, out: seq<Object>, had: multiset<Object>, x: Reading, y: Reading) {
    && |out| == |objects| + |had|
    && (x.bag.Some? ==> y.bag.Some? && |had| + |y.bag.value| <= |x.bag.value|)
    && (x.within ==> y.within)
    && (x.one ==> out == objects && x.bag == y.bag && x.tail == y.tail && y.one)
  }

  lemma ListFailed(objects: seq<Object>, out: seq<Object>, had: multiset<Object>, x: Reading, y: Reading, over: int)
    requires PartOf(objects, out, had, x, y) && |objects| <= MAX_OBJECTS
    requires Reads(out, None, y, over)
    ensures Reads(objects, None, x, over)
  {
    if x.bag.Some? {
      StopsEarly(objects, out, x, y, |x.bag.value| - |had| - |y.bag.value|, over, over);
    }
  }

  lemma ListRead(objects: seq<Object>, out: seq<Object>, after: seq<Object>, had: multiset<Object>, x: Reading,
                 y: Reading, over: int)
    requires PartOf(objects, out, had, x, y) && |objects| <= MAX_OBJECTS && Grown(out, objects, had)
    requires Reads(out, Some(after), y, over)
    ensures y.bag.Some? && Grown(after, objects, had + y.bag.value) && |after| <= MAX_OBJECTS + over && y.within
    ensures x.one && x.bag.Some? && x.within ==> |objects| + |x.bag.value| - x.tail <= MAX_OBJECTS
  {
    GrownTwice(after, out, objects, had, y.bag.value);
  }

  lemma AllListsRead(objects: seq<Object>, out: seq<Object>, x: Reading, over: int)
    requires x.bag.Some? && Grown(out, objects, x.bag.value) && x.within && |out| <= MAX_OBJECTS + over
    requires x.one ==> |objects| + |x.bag.value| - x.tail <= MAX_OBJECTS
    ensures Reads(objects, Some(out), x, over)
  {
  }

  /** Moving one list from those left to those done. */
  lemma ListStep(v: Json, left: set<string>, key: string, via: Lister, bag: multiset<Object>)
    requires v.Obj? && left <= v.members.Keys && key in left
    ensures var total := Plus(Some(bag), FlattenLists(v, left, via));
            var more := FlattenItems(v, key, 0, via);
            && (total.Some? ==> more.Some? && |bag| + |more.value| <= |total.value|)
            && (more.Some? ==> total == Plus(Some(bag + more.value), FlattenLists(v, left - {key}, via)))
  {
    hide FlattenItems, FlattenLists;
    var more, others := FlattenItems(v, key, 0, via), FlattenLists(v, left - {key}, via);
    AnyKeyFirst(v, left, key, via);
    PlusSwap(Some(bag), more, others);
    PlusParts(Some(bag), more);
    PlusParts(Plus(Some(bag), more), others);
  }

  ghost predicate ItemsWithin(items: seq<Json>, depth: int) {
    forall i | 0 <= i < |items| :: Within(items[i], depth)
  }

  lemma GrownNot(objects: seq<Object>)
    ensures Grown(objects, objects, multiset{})
  {
  }

  lemma GrownOne(objects: seq<Object>, item: Object)
    ensures Grown(objects + [item], objects, multiset{item})
  {
  }

  lemma NotAnArray(v: Json, key: string, via: Lister)
    requires v.Obj? && key in v.members && !v.members[key].Arr?
    ensures FlattenItems(v, key, 0, via) == None
  {
  }

  lemma EmptyLists(v: Json, keys: set<string>, via: Lister)
    requires v.Obj? && keys == {}
    ensures FlattenLists(v, keys, via) == Some(multiset{})
  {
  }

  lemma ItemsStep(v: Json, key: string, i: nat, via: Lister)
    requires v.Obj? && key in v.members && v.members[key].Arr? && i <= |v.members[key].items|
    ensures FlattenItems(v, key, i, via) ==
            if i == |v.members[key].items| then Some(multiset{})
            else Plus(Flatten(v.members[key].items[i], via), FlattenItems(v, key, i + 1, via))
  {
  }

  /** The loop over one list's items, each filled in from its list before it is read. */
  method AppendItems(objects: seq<Object>, doc: map<string, Json>, key: string, depth: nat)
    returns (r: Option<seq<Object>>)
    requires key in doc && doc[key].Arr? && depth <= MAX_DEPTH
    requires |objects| <= MAX_OBJECTS + MAX_DEPTH - depth
    ensures Reads(objects, r, ItemsReading(doc, key, depth, |objects|), MAX_DEPTH - depth)
    decreases MAX_DEPTH + 1 - depth, 0
  {
    hide FlattenItems, FlattenLists, Flatten, Grown, Filled, KindOf, ApiVersionOf, Plus, OneList, Tail, ItemsTail, Reads,
         ItemsWithin, Within, ItemsOneList, DocumentReading;
    var kind, apiVersion := ItemKind(KindOf(doc, Nobody)), ApiVersionOf(doc, Nobody);
    var items := doc[key].items;
    ghost var v, via, x := Obj(doc), ItemLister(doc, Nobody), ItemsReading(doc, key, depth, |objects|);
    ghost var bag := multiset{};
    var out := objects;
    GrownNot(objects);
    PlusNothing(x.bag);
    ItemsStep(v, key, 0, via);
    NoItems(doc[key], via, MAX_DEPTH - depth - 1);
    for i := 0 to |items|
      invariant Grown(out, objects, bag)
      invariant x.bag == Plus(Some(bag), FlattenItems(v, key, i, via))
      invariant ItemsWithin(items[..i], MAX_DEPTH - depth - 1)
      invariant |out| <= MAX_OBJECTS + MAX_DEPTH - depth
      invariant x.one && x.bag.Some? && x.within && i == |items| ==> |objects| + |x.bag.value| - x.tail <= MAX_OBJECTS
    {
      ItemStep(v, key, i, via, bag);
      GrownCount(out, objects, bag);
      if !items[i].Obj? {
        NotAnObject(items[i], via);
        NothingReads(objects, x, MAX_DEPTH - depth);
        return None;
      }
      var item := Filled(items[i].members, kind, apiVersion);
      ghost var y, rest := DocumentReading(Obj(item), depth + 1), Count(FlattenItems(v, key, i + 1, via));
      ItemReading(items, i, via, depth);
      var appended := AppendManifestObjects(out, item, depth + 1);
      if appended.None? {
        StopsEarly(objects, out, x, y, rest, MAX_DEPTH - depth, MAX_DEPTH - depth);
        return None;
      }
      ItemRead(objects, out, appended.value, bag, x, y, rest, MAX_DEPTH - depth);
      out := appended.value;
      bag := bag + y.bag.value;
    }
    ItemsStep(v, key, |items|, via);
    PlusNothing(Some(bag));
    assert items[..|items|] == items;
    GrownCount(out, objects, bag);
    r := Some(out);
    AllListsRead(objects, out, x, MAX_DEPTH - depth);
  }

  lemma NoItems(list: Json, via: Lister, depth: int)
    requires list.Arr?
    ensures ItemsWithin(list.items[..0], depth) && (list.items == [] ==> ItemsTail(list, via) == 0)
  {
  }

  /** What there is to read of one item, and what it is to the whole list. */
  lemma ItemReading(items: seq<Json>, i: nat, via: Lister, depth: nat)
    requires i < |items| && items[i].Obj? && via.Lister?
    ensures var y := DocumentReading(Obj(Filled(items[i].members, via.kind, via.apiVersion)), depth + 1);
            && y.bag == Flatten(items[i], via) && y.tail == Tail(items[i], via)
            && (ItemsWithin(items, MAX_DEPTH - depth - 1) ==> y.within)
            && (ItemsOneList(items) ==> y.one)
            && (y.within && ItemsWithin(items[..i], MAX_DEPTH - depth - 1) ==>
                  ItemsWithin(items[..i + 1], MAX_DEPTH - depth - 1))
  {
    hide Flatten, Tail, Filled, Within, OneList;
    FilledFlattens(items[i].members, via);
    assert Obj(items[i].members) == items[i];
    assert items[..i + 1] == items[..i] + [items[i]];
  }

  /** Moving one item from those left to those done, and what that leaves to be counted. */
  lemma ItemStep(v: Json, key: string, i: nat, via: Lister, bag: multiset<Object>)
    requires v.Obj? && key in v.members && v.members[key].Arr? && i < |v.members[key].items|
    ensures var item, rest := Flatten(v.members[key].items[i], via), FlattenItems(v, key, i + 1, via);
            var total := Plus(Some(bag), FlattenItems(v, key, i, via));
            && (total.Some? ==> item.Some? && rest.Some? && |total.value| == |bag| + |item.value| + |rest.value|)
            && (item.Some? ==> total == Plus(Some(bag + item.value), rest))
            && (rest.Some? && i + 1 < |v.members[key].items| ==> ItemsTail(v.members[key], via) <= |rest.value|)
            && (i + 1 == |v.members[key].items| ==>
                  rest == Some(multiset{}) && ItemsTail(v.members[key], via) == Tail(v.members[key].items[i], via))
  {
    hide Flatten, FlattenItems, Tail;
    var item, rest := Flatten(v.members[key].items[i], via), FlattenItems(v, key, i + 1, via);
    ItemsStep(v, key, i, via);
    ItemsStep(v, key, i + 1, via);
    PlusSwap(Some(bag), item, rest);
    PlusParts(Some(bag), item);
    PlusParts(Plus(Some(bag), item), rest);
    if rest.Some? {
      ItemsTailIsCounted(v, key, i + 1, via);
    }
  }

  lemma ItemRead(objects: seq<Object>, out: seq<Object>, after: seq<Object>, had: multiset<Object>, x: Reading,
                 y: Reading, rest: nat, over: int)
    requires Grown(out, objects, had) && Reads(out, Some(after), y, over)
    requires x.bag.Some? ==> y.bag.Some? && |x.bag.value| == |had| + |y.bag.value| + rest
    requires x.one ==> y.one
    ensures y.bag.Some? && Grown(after, objects, had + y.bag.value) && |after| <= MAX_OBJECTS + over && y.within
    ensures x.one && x.bag.Some? && rest == 0 && x.tail == y.tail ==> |objects| + |x.bag.value| - x.tail <= MAX_OBJECTS
  {
    GrownTwice(after, out, objects, had, y.bag.value);
    GrownCount(out, objects, had);
  }

  lemma NotAnObject(v: Json, via: Lister)
    requires !v.Obj?
    ensures Flatten(v, via) == None
  {
  }

  // ----- whole manifests -----

  /** What the YAML or JSON decoder yields: a document, an empty one, or an error. */
  datatype Document = Empty | Doc(members: map<string, Json>) | Unreadable

  ghost function BagOf(document: Document): Bag {
    match document
    case Empty => Some(multiset{})
    case Doc(members) => Flatten(Obj(members), Nobody)
    case Unreadable => None
  }

  ghost function FlattenAll(stream: seq<Document>): Bag {
    if stream == [] then Some(multiset{})
    else Plus(FlattenAll(stream[..|stream| - 1]), BagOf(stream[|stream| - 1]))
  }

  ghost predicate AllWithin(stream: seq<Document>, depth: int) {
    forall i | 0 <= i < |stream| && stream[i].Doc? :: Within(Obj(stream[i].members), depth)
  }

  ghost predicate OneLists(stream: seq<Document>) {
    forall i | 0 <= i < |stream| && stream[i].Doc? :: OneList(Obj(stream[i].members))
  }

  /** How many objects the last document adds after the last count. */
  ghost function StreamTail(stream: seq<Document>): nat {
    if stream == [] then 0
    else
      match stream[|stream| - 1]
      case Doc(members) => Tail(Obj(members), Nobody)
      case _ => StreamTail(stream[..|stream| - 1])
  }

  ghost function StreamReading(stream: seq<Document>): Reading {
    Reading(FlattenAll(stream), AllWithin(stream, MAX_DEPTH), OneLists(stream), StreamTail(stream))
  }

  lemma {:induction false} FlattenAllPrefix(stream: seq<Document>, i: nat)
    requires i <= |stream| && FlattenAll(stream).Some?
    ensures FlattenAll(stream[..i]).Some? && FlattenAll(stream[..i]).value <= FlattenAll(stream).value
    ensures |FlattenAll(stream[..i]).value| <= |FlattenAll(stream).value|
  {
    if i == |stream| {
      assert stream[..i] == stream;
    } else {
      var init := stream[..|stream| - 1];
      FlattenAllPrefix(init, i);
      assert init[..i] == stream[..i];
    }
  }

  /** The documents after the first `i` add no less than their tail. */
  lemma {:induction false} StreamTailIsCounted(stream: seq<Document>, i: nat)
    requires i < |stream| && stream[i].Doc? && FlattenAll(stream).Some?
    ensures FlattenAll(stream[..i + 1]).Some?
    ensures var rest := |FlattenAll(stream).value| - |FlattenAll(stream[..i + 1]).value|;
            && rest >= 0
            && (StreamTail(stream) <= rest ||
                (rest == 0 && StreamTail(stream) == Tail(Obj(stream[i].members), Nobody)))
  {
    hide Flatten, Tail;
    if i == |stream| - 1 {
      assert stream[..i + 1] == stream;
    } else {
      var init, last := stream[..|stream| - 1], stream[|stream| - 1];
      assert init[..i + 1] == stream[..i + 1];
      StreamTailIsCounted(init, i);
      PlusParts(FlattenAll(init), BagOf(last));
      if last.Doc? {
        TailIsCounted(Obj(last.members), Nobody);
      }
    }
  }

  lemma NextBag(stream: seq<Document>, i: nat)
    requires i < |stream|
    ensures FlattenAll(stream[..i + 1]) == Plus(FlattenAll(stream[..i]), BagOf(stream[i]))
    ensures StreamTail(stream[..i + 1]) ==
            if stream[i].Doc? then Tail(Obj(stream[i].members), Nobody) else StreamTail(stream[..i])
    ensures !stream[i].Doc? ==> (OneLists(stream[..i + 1]) <==> OneLists(stream[..i]))
    ensures !stream[i].Doc? ==> (AllWithin(stream[..i + 1], MAX_DEPTH) <==> AllWithin(stream[..i], MAX_DEPTH))
    ensures stream[i].Doc? ==> (OneLists(stream[..i + 1]) <==> OneLists(stream[..i]) && OneList(Obj(stream[i].members)))
    ensures stream[i].Doc? ==>
              (AllWithin(stream[..i + 1], MAX_DEPTH) <==>
               AllWithin(stream[..i], MAX_DEPTH) && Within(Obj(stream[i].members), MAX_DEPTH))
  {
    hide Tail, Flatten, OneList, Within;
    var next := stream[..i + 1];
    assert next[..i] == stream[..i] && next == stream[..i] + [stream[i]];
  }

  lemma NoDocuments(stream: seq<Document>)
    ensures Reads([], Some([]), StreamReading(stream[..0]), MAX_DEPTH + 1)
  {
    assert stream[..0] == [];
  }

  lemma UnreadableStops(stream: seq<Document>, i: nat)
    requires i < |stream| && stream[i].Unreadable?
    ensures FlattenAll(stream) == None
  {
    hide Flatten, StreamTail, OneLists, AllWithin;
    NextBag(stream, i);
    if FlattenAll(stream).Some? {
      FlattenAllPrefix(stream, i + 1);
    }
  }

  lemma EmptySkipped(stream: seq<Document>, i: nat, objects: seq<Object>)
    requires i < |stream| && stream[i].Empty? && Reads([], Some(objects), StreamReading(stream[..i]), MAX_DEPTH + 1)
    ensures Reads([], Some(objects), StreamReading(stream[..i + 1]), MAX_DEPTH + 1)
  {
    hide FlattenAll, StreamTail, OneLists, AllWithin, Reads;
    NextBag(stream, i);
    PlusNothing(FlattenAll(stream[..i]));
  }

  lemma DocumentRead(stream: seq<Document>, i: nat, objects: seq<Object>, after: seq<Object>)
    requires i < |stream| && stream[i].Doc? && Reads([], Some(objects), StreamReading(stream[..i]), MAX_DEPTH + 1)
    requires Reads(objects, Some(after), DocumentReading(Obj(stream[i].members), 0), MAX_DEPTH + 1)
    ensures Reads([], Some(after), StreamReading(stream[..i + 1]), MAX_DEPTH + 1)
  {
    hide FlattenAll, StreamTail, OneLists, AllWithin, Flatten, Tail, OneList, Within, Grown;
    var x, y := StreamReading(stream[..i]), DocumentReading(Obj(stream[i].members), 0);
    NextBag(stream, i);
    PlusParts(x.bag, y.bag);
    GrownTwice(after, objects, [], x.bag.value, y.bag.value);
    GrownCount(objects, [], x.bag.value);
  }

  lemma DocumentStops(stream: seq<Document>, i: nat, objects: seq<Object>)
    requires i < |stream| && stream[i].Doc? && Reads([], Some(objects), StreamReading(stream[..i]), MAX_DEPTH + 1)
    requires Reads(objects, None, DocumentReading(Obj(stream[i].members), 0), MAX_DEPTH + 1)
    ensures Reads([], None, StreamReading(stream), MAX_DEPTH + 1)
  {
    var x, before, y := StreamReading(stream), StreamReading(stream[..i]), DocumentReading(Obj(stream[i].members), 0);
    assert AllWithin(stream, MAX_DEPTH) ==> Within(Obj(stream[i].members), MAX_DEPTH);
    assert OneLists(stream) ==> OneList(Obj(stream[i].members));
    hide FlattenAll, StreamTail, OneLists, AllWithin, Flatten, Tail, OneList, Within, Grown;
    if x.bag.Some? {
      StreamTailIsCounted(stream, i);
      NextBag(stream, i);
      PlusParts(before.bag, y.bag);
      GrownCount(objects, [], before.bag.value);
      hide Reads;
      StopsEarly([], objects, x, y, |x.bag.value| - |objects| - |y.bag.value|, MAX_DEPTH + 1, MAX_DEPTH + 1);
    }
  }

  /** What reading the whole stream comes to. */
  lemma ReadMeans(objects: seq<Object>, x: Reading)
    requires Reads([], Some(objects), x, MAX_DEPTH + 1)
    ensures x.bag == Some(multiset(objects)) && x.within && |objects| <= MAX_OBJECTS + MAX_DEPTH + 1
    ensures |multiset(objects)| == |objects|
  {
    var none: seq<Object> := [];
    assert multiset(none) + x.bag.value == x.bag.value;
  }

  /**
   readManifest. What it returns is, in some order, the unlimited flattening of every document; nothing lies deeper than
   8 lists and there are at most 2000 + 8 + 1 objects. A manifest of 1 to 2000 objects within the depth is read; where no
   object has two keys that read as items, one is read exactly when at most 2000 come in time to be counted.
   */
  method ReadManifest(size: nat, stream: seq<Document>) returns (r: Option<seq<Object>>)
    ensures r.Some? ==> FlattenAll(stream) == Some(multiset(r.value)) && r.value != []
    ensures r.Some? ==> size <= MAX_BYTES && AllWithin(stream, MAX_DEPTH) && |r.value| <= MAX_OBJECTS + MAX_DEPTH + 1
    ensures size <= MAX_BYTES && FlattenAll(stream).Some? && AllWithin(stream, MAX_DEPTH) &&
            FlattenAll(stream).value != multiset{} ==>
              && (|FlattenAll(stream).value| <= MAX_OBJECTS ==> r.Some?)
              && (OneLists(stream) ==> (r.Some? <==> |FlattenAll(stream).value| - StreamTail(stream) <= MAX_OBJECTS))
  {
    if size > MAX_BYTES {
      return None;
    }
    hide Flatten, Grown, Tail, FlattenAll, OneList, StreamTail, Plus, AllWithin, OneLists;
    ghost var x := StreamReading(stream);
    var objects: seq<Object> := [];
    NoDocuments(stream);
    for i := 0 to |stream|
      invariant Reads([], Some(objects), StreamReading(stream[..i]), MAX_DEPTH + 1)
    {
      match stream[i]
      case Unreadable =>
        UnreadableStops(stream, i);
        return None;
      case Empty => EmptySkipped(stream, i, objects);
      case Doc(members) =>
        var appended := AppendManifestObjects(objects, members, 0);
        if appended.None? {
          DocumentStops(stream, i, objects);
          return None;
        }
        DocumentRead(stream, i, objects, appended.value);
        objects := appended.value;
    }
    assert stream[..|stream|] == stream;
    ReadMeans(objects, x);
    r := if |objects| > 0 then Some(objects) else None;
  }
}

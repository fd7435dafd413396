/**
 What a Secret's preview shows: hideSecretValues of services/tool-server/handlers_diff.go replaces the values of the object
 as it would be stored and of the live one before they are compared as text.
 */
module SecretPreview {
  import opened JsonValues
  import opened Strings

  const HIDDEN := "<REDACTED:secret>"
  const HIDDEN_NEW := "<REDACTED:secret:new value>"
  const HIDDEN_OLD := "<REDACTED:secret:old value>"
  const HIDDEN_PREFIX := "<REDACTED:secret:"

  type Values = map<string, Json>

  /** A value that already reads like a placeholder is left as it is. */
  predicate LeftAlone(v: Json) {
    v.Str? && HIDDEN_PREFIX <= v.text
  }

  function HiddenAfter(after: Values, before: Values): Values {
    map k | k in after :: Str(if k !in before || before[k] == after[k] then HIDDEN else HIDDEN_NEW)
  }

  function HiddenBefore(after: Values, before: Values): Values {
    map k | k in before ::
      if k in after && before[k] != after[k] then Str(HIDDEN_OLD)
      else if LeftAlone(before[k]) then before[k]
      else Str(HIDDEN)
  }

  function Fields(obj: Values, field: string): Values {
    if field in obj && obj[field].Obj? then obj[field].members else map[]
  }

  function WithFields(obj: Values, field: string, values: Values): Values {
    if field in obj && obj[field].Obj? then obj[field := Obj(values)] else obj
  }

  function HideField(want: Values, live: Values, field: string): (Values, Values) {
    var after, before := Fields(want, field), Fields(live, field);
    (WithFields(want, field, HiddenAfter(after, before)), WithFields(live, field, HiddenBefore(after, before)))
  }

  predicate IsSecret(want: Values) {
    "kind" in want && want["kind"] == Str("Secret")
  }

  /** What is left to compare; a live object that does not exist reads as an empty one. */
  function Hidden(want: Values, live: Values): (Values, Values) {
    if !IsSecret(want) then (want, live)
    else
      var (w, l) := HideField(want, live, "data");
      HideField(w, l, "stringData")
  }

  // ----- the loops -----

  /** The live values once the loop over `after` has replaced those whose key is not in `rest`. */
  function OldMarked(after: Values, before: Values, rest: set<string>): Values {
    map k | k in before :: if k in after && k !in rest && before[k] != after[k] then Str(HIDDEN_OLD) else before[k]
  }

  /** The values as they would be stored once the loop has replaced those whose key is not in `rest`. */
  function NewMarked(after: Values, before: Values, rest: set<string>): Values {
    map k | k in after :: if k in rest then after[k] else HiddenAfter(after, before)[k]
  }

  /** One round of the loop over `after`. */
  lemma MarkStep(after: Values, before: Values, rest: set<string>, k: string)
    requires k in after && k in rest
    ensures OldMarked(after, before, rest - {k}) ==
            if k in before && before[k] != after[k] then OldMarked(after, before, rest)[k := Str(HIDDEN_OLD)]
            else OldMarked(after, before, rest)
    ensures NewMarked(after, before, rest - {k}) ==
            NewMarked(after, before, rest)[k := Str(if k !in before || before[k] == after[k] then HIDDEN else HIDDEN_NEW)]
  {
    MarkStepOld(after, before, rest, k);
  }

  lemma MarkStepOld(after: Values, before: Values, rest: set<string>, k: string)
    requires k in after && k in rest
    ensures OldMarked(after, before, rest - {k}) ==
            if k in before && before[k] != after[k] then OldMarked(after, before, rest)[k := Str(HIDDEN_OLD)]
            else OldMarked(after, before, rest)
  {
    var marked, next := OldMarked(after, before, rest), OldMarked(after, before, rest - {k});
    forall x | x in before && x != k
      ensures next[x] == marked[x]
    {
    }
    if k !in before || before[k] == after[k] {
      assert next == marked;
    } else {
      assert next == marked[k := Str(HIDDEN_OLD)];
    }
  }

  /** The loop over the values as they would be stored, in whatever order the map yields its keys. */
  method HideAfter(after0: Values, before0: Values) returns (after: Values, before: Values)
    ensures after == HiddenAfter(after0, before0) && before == OldMarked(after0, before0, {})
  {
    after, before := after0, before0;
    var rest := after0.Keys;
    assert OldMarked(after0, before0, rest) == before0 && NewMarked(after0, before0, rest) == after0;
    while rest != {}
      invariant rest <= after0.Keys
      invariant after == NewMarked(after0, before0, rest) && before == OldMarked(after0, before0, rest)
      decreases rest
    {
      var k :| k in rest;
      MarkStep(after0, before0, rest, k);
      assert after[k] == after0[k] && (k in before <==> k in before0) && (k in before ==> before[k] == before0[k]);
      hide OldMarked, NewMarked;
      rest := rest - {k};
      if k !in before || before[k] == after[k] {
        after := after[k := Str(HIDDEN)];
      } else {
        after := after[k := Str(HIDDEN_NEW)];
        before := before[k := Str(HIDDEN_OLD)];
      }
    }
    assert NewMarked(after0, before0, {}) == HiddenAfter(after0, before0);
  }

  /** The loop over the live values. */
  method HideBefore(marked: Values) returns (before: Values)
    ensures before == map k | k in marked :: if LeftAlone(marked[k]) then marked[k] else Str(HIDDEN)
  {
    before := marked;
    var rest := marked.Keys;
    while rest != {}
      invariant rest <= marked.Keys
      invariant before.Keys == marked.Keys
      invariant forall k | k in marked ::
                  before[k] == if k in rest || LeftAlone(marked[k]) then marked[k] else Str(HIDDEN)
      decreases rest
    {
      var k :| k in rest;
      rest := rest - {k};
      if !LeftAlone(before[k]) {
        before := before[k := Str(HIDDEN)];
      }
    }
  }

  method HideValues(after0: Values, before0: Values) returns (after: Values, before: Values)
    ensures after == HiddenAfter(after0, before0) && before == HiddenBefore(after0, before0)
  {
    after, before := HideAfter(after0, before0);
    before := HideBefore(before);
    assert LeftAlone(Str(HIDDEN_OLD));
    assert before == HiddenBefore(after0, before0);
  }

  method HideSecretValues(want0: Values, live0: Values) returns (want: Values, live: Values)
    ensures (want, live) == Hidden(want0, live0)
  {
    want, live := want0, live0;
    if !IsSecret(want) {
      return;
    }
    var fields := ["data", "stringData"];
    for i := 0 to 2
      invariant (want, live) ==
                if i == 0 then (want0, live0)
                else if i == 1 then HideField(want0, live0, "data")
                else Hidden(want0, live0)
    {
      var after, before := HideValues(Fields(want, fields[i]), Fields(live, fields[i]));
      want, live := WithFields(want, fields[i], after), WithFields(live, fields[i], before);
    }
  }

  // ----- what the preview depends on -----

  /** Two Secrets' values look the same: same keys, and the same keys shared with equal values. */
  ghost predicate SameShape(after1: Values, before1: Values, after2: Values, before2: Values) {
    && after1.Keys == after2.Keys && before1.Keys == before2.Keys
    && forall k | k in after1 && k in before1 :: after1[k] == before1[k] <==> after2[k] == before2[k]
  }

  /** No live value that stays as it is reads like a placeholder. */
  ghost predicate Plain(after: Values, before: Values) {
    forall k | k in before && LeftAlone(before[k]) :: k in after && after[k] != before[k]
  }

  /** A field is a map of values in the same objects of two pairs, with values of one shape, or else is equal in them. */
  ghost predicate Alike(want1: Values, live1: Values, want2: Values, live2: Values, field: string) {
    && (field in want1 <==> field in want2) && (field in live1 <==> field in live2)
    && (field in want1 ==> (want1[field].Obj? <==> want2[field].Obj?) && (!want1[field].Obj? ==> want1[field] == want2[field]))
    && (field in live1 ==> (live1[field].Obj? <==> live2[field].Obj?) && (!live1[field].Obj? ==> live1[field] == live2[field]))
    && SameShape(Fields(want1, field), Fields(live1, field), Fields(want2, field), Fields(live2, field))
  }

  ghost predicate PlainValues(want: Values, live: Values) {
    && Plain(Fields(want, "data"), Fields(live, "data"))
    && Plain(Fields(want, "stringData"), Fields(live, "stringData"))
  }

  lemma ShapeFixesValues(after1: Values, before1: Values, after2: Values, before2: Values)
    requires SameShape(after1, before1, after2, before2) && Plain(after1, before1) && Plain(after2, before2)
    ensures HiddenAfter(after1, before1) == HiddenAfter(after2, before2)
    ensures HiddenBefore(after1, before1) == HiddenBefore(after2, before2)
  {
    forall k | k in before1
      ensures HiddenBefore(after1, before1)[k] == HiddenBefore(after2, before2)[k]
    {
      assert k in before2;
    }
    assert HiddenBefore(after1, before1).Keys == before1.Keys;
    assert HiddenBefore(after2, before2).Keys == before2.Keys;
  }

  /**
   Non-interference: whatever the values of two Secrets, if they have the same keys and the same keys changed, and
   everything else is equal, the previews are identical.
   */
  lemma PreviewHidesValues(want1: Values, live1: Values, want2: Values, live2: Values)
    requires IsSecret(want1) && IsSecret(want2)
    requires want1 - {"data", "stringData"} == want2 - {"data", "stringData"}
    requires live1 - {"data", "stringData"} == live2 - {"data", "stringData"}
    requires Alike(want1, live1, want2, live2, "data") && Alike(want1, live1, want2, live2, "stringData")
    requires PlainValues(want1, live1) && PlainValues(want2, live2)
    ensures Hidden(want1, live1) == Hidden(want2, live2)
  {
    hide Hidden, HiddenAfter, HiddenBefore;
    ShapeFixesValues(Fields(want1, "data"), Fields(live1, "data"), Fields(want2, "data"), Fields(live2, "data"));
    ShapeFixesValues(Fields(want1, "stringData"), Fields(live1, "stringData"),
                     Fields(want2, "stringData"), Fields(live2, "stringData"));
    hide SameShape, Plain;
    OutsideEqual(want1, want2);
    OutsideEqual(live1, live2);
    var h1, h2 := Hidden(want1, live1), Hidden(want2, live2);
    forall k: string
      ensures (k in h1.0 <==> k in h2.0) && (k in h1.0 ==> h1.0[k] == h2.0[k])
      ensures (k in h1.1 <==> k in h2.1) && (k in h1.1 ==> h1.1[k] == h2.1[k])
    {
      HiddenAt(want1, live1, k);
      HiddenAt(want2, live2, k);
    }
    assert h1.0 == h2.0 && h1.1 == h2.1;
  }

  predicate IsValueField(k: string) {
    k == "data" || k == "stringData"
  }

  /** What becomes of one top-level field of a Secret and of its live object. */
  lemma HiddenAt(want: Values, live: Values, k: string)
    requires IsSecret(want)
    ensures var h := Hidden(want, live);
            && (k in h.0 <==> k in want) && (k in h.1 <==> k in live)
            && (k in want ==>
                  h.0[k] == if IsValueField(k) && want[k].Obj?
                            then Obj(HiddenAfter(Fields(want, k), Fields(live, k))) else want[k])
            && (k in live ==>
                  h.1[k] == if IsValueField(k) && live[k].Obj?
                            then Obj(HiddenBefore(Fields(want, k), Fields(live, k))) else live[k])
  {
    hide HiddenAfter, HiddenBefore;
    var (w, l) := HideField(want, live, "data");
    assert Fields(w, "stringData") == Fields(want, "stringData");
    assert Fields(l, "stringData") == Fields(live, "stringData");
  }

  lemma OutsideEqual(x: Values, y: Values)
    requires x - {"data", "stringData"} == y - {"data", "stringData"}
    ensures forall k | k != "data" && k != "stringData" :: (k in x <==> k in y) && (k in x ==> x[k] == y[k])
  {
    forall k | k != "data" && k != "stringData"
      ensures (k in x <==> k in y) && (k in x ==> x[k] == y[k])
    {
      assert k in x <==> k in x - {"data", "stringData"};
      assert k in y <==> k in y - {"data", "stringData"};
    }
  }

  /** Key sets are kept. */
  lemma KeysKept(after: Values, before: Values)
    ensures HiddenAfter(after, before).Keys == after.Keys && HiddenBefore(after, before).Keys == before.Keys
  {
  }

  /**
   The placeholders of a key on both sides differ exactly when its values do, unless equal values read like a
   placeholder: those are hidden on one side only.
   */
  lemma PlaceholdersDifferIff(after: Values, before: Values, k: string)
    requires k in after && k in before
    ensures ((HiddenAfter(after, before)[k] != HiddenBefore(after, before)[k]) <==> after[k] != before[k]) <==>
            !(after[k] == before[k] && LeftAlone(before[k]))
  {
    assert HIDDEN_NEW[17] != HIDDEN_OLD[17];
    assert HIDDEN[16] != HIDDEN_PREFIX[16];
    assert !LeftAlone(Str(HIDDEN)) && HIDDEN_NEW != HIDDEN_OLD;
  }

  predicate IsPlaceholder(v: Json) {
    v == Str(HIDDEN) || v == Str(HIDDEN_NEW) || v == Str(HIDDEN_OLD)
  }

  /** A live value is shown exactly when it reads like a placeholder, is none, and is not replaced by another value. */
  lemma ShownIff(after: Values, before: Values, k: string)
    requires k in before
    ensures !IsPlaceholder(HiddenBefore(after, before)[k]) <==>
            LeftAlone(before[k]) && !IsPlaceholder(before[k]) && (k in after ==> after[k] == before[k])
    ensures !IsPlaceholder(HiddenBefore(after, before)[k]) ==> HiddenBefore(after, before)[k] == before[k]
  {
  }

  // ----- which Secrets are hidden for certain -----

  predicate IsBase64Char(c: char) {
    'A' <= c <= 'Z' || 'a' <= c <= 'z' || '0' <= c <= '9' || c == '+' || c == '/' || c == '='
  }

  /** A core v1 Secret as the API server answers it: base64 under `data`, and no `stringData`, which is for writing only. */
  ghost predicate CoreSecret(live: Values) {
    && "stringData" !in live
    && forall k | k in Fields(live, "data") ::
         Fields(live, "data")[k].Str? && forall c | c in Fields(live, "data")[k].text :: IsBase64Char(c)
  }

  /** The preview of a core Secret hides every value, and its placeholders tell exactly whether a shared value changes. */
  lemma CoreSecretIsHidden(want: Values, live: Values)
    requires CoreSecret(live)
    ensures PlainValues(want, live)
    ensures var after, before := Fields(want, "data"), Fields(live, "data");
            && (forall k | k in before :: IsPlaceholder(HiddenBefore(after, before)[k]))
            && (forall k | k in after && k in before ::
                  HiddenAfter(after, before)[k] != HiddenBefore(after, before)[k] <==> after[k] != before[k])
  {
    var after, before := Fields(want, "data"), Fields(live, "data");
    forall k | k in before
      ensures !LeftAlone(before[k])
    {
      assert HIDDEN_PREFIX[0] == '<' && !IsBase64Char('<');
      PrefixHolds(HIDDEN_PREFIX, before[k].text, '<');
    }
    forall k | k in before
      ensures IsPlaceholder(HiddenBefore(after, before)[k])
    {
      ShownIff(after, before, k);
    }
    forall k | k in after && k in before
      ensures HiddenAfter(after, before)[k] != HiddenBefore(after, before)[k] <==> after[k] != before[k]
    {
      PlaceholdersDifferIff(after, before, k);
    }
  }

  /** A custom resource whose kind is `Secret` and whose value reads like a placeholder. */
  function CustomSecret(): Values {
    map["apiVersion" := Str("example.com/v1"), "kind" := Str("Secret"),
        "data" := Obj(map["token" := Str("<REDACTED:secret:x")])]
  }

  /** Applied unchanged, its live value is shown, and the key looks changed. */
  lemma CustomSecretIsShown()
    ensures var (want, live) := Hidden(CustomSecret(), CustomSecret());
            Fields(live, "data") == map["token" := Str("<REDACTED:secret:x")] &&
            Fields(want, "data") == map["token" := Str(HIDDEN)]
  {
    var obj, v := CustomSecret(), Str("<REDACTED:secret:x");
    assert Fields(obj, "data") == map["token" := v];
    assert "<REDACTED:secret:x"[..17] == HIDDEN_PREFIX;
    assert LeftAlone(v);
    assert HiddenBefore(map["token" := v], map["token" := v]) == map["token" := v];
    assert HiddenAfter(map["token" := v], map["token" := v]) == map["token" := Str(HIDDEN)];
    hide HiddenBefore, HiddenAfter;
    HiddenAt(obj, obj, "data");
  }
}

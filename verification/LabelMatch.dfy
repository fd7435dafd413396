/**
 labelMatch of services/tool-server/handlers_find.go: a label is looked for in kubectl's rendering of a label map,
 `map[k1:v1 k2:v2]`, by searching text.
 */
module LabelMatch {
  import opened Options
  import opened Strings

  // ----- the search -----

  predicate OccursAt(text: string, sub: string, i: int) {
    0 <= i && i + |sub| <= |text| && text[i..i + |sub|] == sub
  }

  /** strings.Index of `sub` in `text[from..]`, as a position in `text`. */
  function IndexFrom(text: string, sub: string, from: nat): (i: int)
    requires from <= |text|
    ensures i >= 0 ==> from <= i && OccursAt(text, sub, i) && forall j | from <= j < i :: !OccursAt(text, sub, j)
    ensures i < 0 ==> i == -1 && forall j | from <= j :: !OccursAt(text, sub, j)
    decreases |text| - from
  {
    if OccursAt(text, sub, from) then from
    else if from == |text| then -1
    else IndexFrom(text, sub, from + 1)
  }

  /** The end of a match is the end of a label: of the text, or a space or closing bracket after it. */
  predicate EndsLabel(text: string, end: nat) {
    end >= |text| || text[end] == ' ' || text[end] == ']'
  }

  /** Some occurrence of `lead + pair` ends a label. */
  ghost predicate Found(text: string, lead: char, pair: string) {
    exists i: nat :: OccursAt(text, [lead] + pair, i) && EndsLabel(text, i + 1 + |pair|)
  }

  /** The loop over the two leads, each visiting every occurrence. */
  method LabelMatch(labels: string, key: string, value: string) returns (hit: bool)
    ensures hit <==> Found(labels, '[', key + ":" + value) || Found(labels, ' ', key + ":" + value)
  {
    var pair := key + ":" + value;
    var leads := ['[', ' '];
    for l := 0 to 2
      invariant forall m | 0 <= m < l :: !Found(labels, leads[m], pair)
    {
      var sub := [leads[l]] + pair;
      var i := IndexFrom(labels, sub, 0);
      while i >= 0
        invariant -1 <= i <= |labels|
        invariant i >= 0 ==> OccursAt(labels, sub, i)
        invariant forall j | 0 <= j && (i < 0 || j < i) && OccursAt(labels, sub, j) :: !EndsLabel(labels, j + |sub|)
        decreases if i < 0 then 0 else |labels| + 1 - i
      {
        var end := i + 1 + |pair|;
        if end >= |labels| || labels[end] == ' ' || labels[end] == ']' {
          assert leads[l] == '[' || leads[l] == ' ';
          return true;
        }
        i := IndexFrom(labels, sub, i + 1);
      }
    }
    assert !Found(labels, leads[0], pair) && !Found(labels, leads[1], pair);
    hit := false;
  }

  // ----- the rendering -----

  datatype Label = Label(key: string, value: string)

  /** Characters that no label key or value has. */
  predicate Special(c: char) {
    c == ' ' || c == ':' || c == '[' || c == ']'
  }

  predicate PlainText(s: string) {
    forall c | c in s :: !Special(c)
  }

  predicate IsLabel(l: Label) {
    l.key != "" && PlainText(l.key) && PlainText(l.value)
  }

  /** The labels of a map in the order they are printed: by key. */
  ghost predicate Labels(m: seq<Label>) {
    && (forall i | 0 <= i < |m| :: IsLabel(m[i]))
    && forall i, j | 0 <= i < j < |m| :: Less(m[i].key, m[j].key)
  }

  function Pair(l: Label): string {
    l.key + ":" + l.value
  }

  /** Labels with a space between. */
  function Body(m: seq<Label>): string {
    if m == [] then ""
    else if |m| == 1 then Pair(m[0])
    else Pair(m[0]) + " " + Body(m[1..])
  }

  lemma BodySplit(m: seq<Label>)
    ensures |m| == 1 ==> Body(m) == Pair(m[0])
    ensures |m| > 1 ==> Body(m) == Pair(m[0]) + " " + Body(m[1..])
    ensures |m| > 1 ==> Body(m) + "]" == Pair(m[0]) + " " + (Body(m[1..]) + "]")
  {
  }

  /** An object without labels prints `<none>`. */
  function Render(m: seq<Label>): string {
    if m == [] then "<none>" else "map[" + Body(m) + "]"
  }

  // ----- what a hit means -----

  /** The text goes on with `pair`, and that ends a label. */
  predicate EndsAfter(text: string, pair: string) {
    pair <= text && EndsLabel(text, |pair|)
  }

  lemma PairChars(l: Label)
    requires IsLabel(l)
    ensures forall k | 0 <= k < |Pair(l)| :: Pair(l)[k] != ' ' && Pair(l)[k] != '[' && Pair(l)[k] != ']'
    ensures forall k | 0 <= k < |Pair(l)| :: Pair(l)[k] == ':' <==> k == |l.key|
  {
    forall k | 0 <= k < |Pair(l)|
      ensures Pair(l)[k] != ' ' && Pair(l)[k] != '[' && Pair(l)[k] != ']' && (Pair(l)[k] == ':' <==> k == |l.key|)
    {
      if k < |l.key| {
        assert l.key[k] in l.key;
      } else if k > |l.key| {
        assert l.value[k - |l.key| - 1] in l.value;
      }
    }
  }

  /** `pair` spells the first labels of the list, or all of them and the closing bracket. */
  predicate SpellsFirst(m: seq<Label>, pair: string) {
    && m != []
    && var first := Pair(m[0]);
       || pair == first
       || (|m| == 1 && pair == first + "]")
       || (|m| > 1 && first + " " <= pair && SpellsFirst(m[1..], pair[|first| + 1..]))
  }

  lemma AfterOne(first: string, pair: string)
    requires forall k | 0 <= k < |first| :: first[k] != ' ' && first[k] != ']'
    ensures EndsAfter(first + "]", pair) <==> pair == first || pair == first + "]"
  {
    var text := first + "]";
    assert forall k | 0 <= k < |first| :: text[k] == first[k];
    assert text[|first|] == ']' && text[..|first|] == first && text[..|text|] == text;
    assert pair <= text ==> pair == text[..|pair|];
  }

  lemma AfterMore(first: string, rest: string, pair: string)
    requires forall k | 0 <= k < |first| :: first[k] != ' ' && first[k] != ']'
    ensures EndsAfter(first + " " + rest, pair) <==>
            pair == first || (first + " " <= pair && EndsAfter(rest, pair[|first| + 1..]))
  {
    var head := first + " ";
    var text := head + rest;
    assert text[|first|] == ' ' && text[..|first|] == first && text[..|head|] == head && text[|head|..] == rest;
    if |pair| < |first| {
      assert text[|pair|] == first[|pair|];
    } else if |pair| > |first| {
      var tail := pair[|head|..];
      assert pair == pair[..|head|] + tail;
      if pair <= text {
        assert pair[..|head|] == text[..|head|];
        assert tail == text[|head|..|pair|] == rest[..|tail|];
      }
      if head <= pair && tail <= rest {
        assert pair == head + rest[..|tail|] == text[..|pair|];
      }
      assert |pair| < |text| ==> text[|pair|] == rest[|tail|];
    }
  }

  lemma LabelsTail(m: seq<Label>)
    requires Labels(m) && m != []
    ensures Labels(m[1..])
  {
  }

  /** From the start of a label, a text that ends a label spells the labels from there. */
  lemma {:induction false} EndsAfterIsSpelt(m: seq<Label>, pair: string)
    requires Labels(m) && m != []
    ensures EndsAfter(Body(m) + "]", pair) <==> SpellsFirst(m, pair)
  {
    var first := Pair(m[0]);
    assert IsLabel(m[0]);
    PairChars(m[0]);
    LabelsTail(m);
    BodySplit(m);
    hide EndsAfter, Pair, Labels, Body;
    if |m| == 1 {
      AfterOne(first, pair);
    } else {
      var rest := Body(m[1..]) + "]";
      AfterMore(first, rest, pair);
      if first + " " <= pair {
        EndsAfterIsSpelt(m[1..], pair[|first| + 1..]);
      }
    }
  }

  /** A label starts after every bracket or space, and nowhere else: position `p` is such a lead. */
  lemma {:induction false} LeadsAreBeforeLabels(m: seq<Label>, p: nat) returns (i: nat)
    requires Labels(m) && p < |Body(m)| && (Body(m)[p] == ' ' || Body(m)[p] == '[')
    ensures i < |m| && Body(m)[p + 1..] == Body(m[i..]) && Body(m)[p] == ' ' && i > 0
  {
    var first := Pair(m[0]);
    assert IsLabel(m[0]);
    PairChars(m[0]);
    assert forall k | 0 <= k < |first| :: Body(m)[k] == first[k];
    assert p >= |first| && |m| > 1;
    assert Body(m) == first + " " + Body(m[1..]);
    if p == |first| {
      i := 1;
    } else {
      assert Body(m)[p] == Body(m[1..])[p - |first| - 1];
      var j := LeadsAreBeforeLabels(m[1..], p - |first| - 1);
      i := j + 1;
      assert m[1..][j..] == m[i..];
      assert Body(m)[p + 1..] == Body(m[1..])[p - |first|..];
    }
  }

  lemma {:induction false} LabelsHaveLeads(m: seq<Label>, i: nat) returns (p: nat)
    requires Labels(m) && 0 < i < |m|
    ensures p < |Body(m)| && Body(m)[p] == ' ' && Body(m)[p + 1..] == Body(m[i..])
  {
    hide Pair;
    var first := Pair(m[0]);
    BodySplit(m);
    LabelsTail(m);
    hide Body, Labels;
    if i == 1 {
      p := |first|;
    } else {
      var q := LabelsHaveLeads(m[1..], i - 1);
      p := |first| + 1 + q;
      assert m[1..][i - 1..] == m[i..];
      assert Body(m)[p + 1..] == Body(m[1..])[q + 1..];
    }
  }

  // ----- what a hit means -----

  /** What `LabelMatch` answers on the rendering of a map. */
  ghost predicate Hit(m: seq<Label>, key: string, value: string) {
    Found(Render(m), '[', key + ":" + value) || Found(Render(m), ' ', key + ":" + value)
  }

  lemma OccursThenEnds(text: string, lead: char, pair: string, p: nat)
    ensures OccursAt(text, [lead] + pair, p) && EndsLabel(text, p + 1 + |pair|) <==>
            p < |text| && text[p] == lead && EndsAfter(text[p + 1..], pair)
  {
    var sub := [lead] + pair;
    if p < |text| {
      var tail := text[p + 1..];
      assert p + |sub| <= |text| ==> text[p..p + |sub|] == [text[p]] + tail[..|pair|];
      assert p + 1 + |pair| < |text| ==> text[p + 1 + |pair|] == tail[|pair|];
      assert [text[p]] + tail[..if |pair| <= |tail| then |pair| else 0] != [] ;
      if OccursAt(text, sub, p) {
        assert sub[0] == text[p] && sub[1..] == tail[..|pair|] == pair;
      }
    }
  }

  /** A hit is a label at which the pair spells one or more labels, or those up to the closing bracket. */
  lemma HitIffSpelt(m: seq<Label>, key: string, value: string)
    requires Labels(m)
    ensures Hit(m, key, value) <==> exists i :: 0 <= i < |m| && SpellsFirst(m[i..], key + ":" + value)
  {
    hide Render, Labels, SpellsFirst, OccursAt, EndsLabel;
    var pair := key + ":" + value;
    assert pair[|key|] == ':';
    forall p: nat, lead | (lead == '[' || lead == ' ') && OccursAt(Render(m), [lead] + pair, p) &&
                          EndsLabel(Render(m), p + 1 + |pair|)
      ensures exists i :: 0 <= i < |m| && SpellsFirst(m[i..], pair)
    {
      var i := OccurrenceIsSpelt(m, lead, pair, p);
    }
    forall i | 0 <= i < |m| && SpellsFirst(m[i..], pair)
      ensures Hit(m, key, value)
    {
      var p := SpeltOccurs(m, i, pair);
    }
  }

  lemma OccurrenceIsSpelt(m: seq<Label>, lead: char, pair: string, p: nat) returns (i: nat)
    requires Labels(m) && ':' in pair && (lead == '[' || lead == ' ')
    requires OccursAt(Render(m), [lead] + pair, p) && EndsLabel(Render(m), p + 1 + |pair|)
    ensures i < |m| && SpellsFirst(m[i..], pair)
  {
    OccursThenEnds(Render(m), lead, pair, p);
    hide Render, Labels, SpellsFirst, OccursAt, EndsAfter;
    i := LeadStartsLabel(m, p);
    SpeltFrom(m, i, pair);
  }

  lemma SpeltOccurs(m: seq<Label>, i: nat, pair: string) returns (p: nat)
    requires Labels(m) && i < |m| && SpellsFirst(m[i..], pair) && ':' in pair
    ensures Found(Render(m), '[', pair) || Found(Render(m), ' ', pair)
  {
    hide Render, Labels, SpellsFirst, OccursAt, EndsAfter;
    SpeltFrom(m, i, pair);
    p := LabelHasLead(m, i);
    OccursThenEnds(Render(m), Render(m)[p], pair, p);
  }

  lemma SpeltFrom(m: seq<Label>, i: nat, pair: string)
    requires Labels(m) && i <= |m| && ':' in pair
    ensures i < |m| && SpellsFirst(m[i..], pair) <==> EndsAfter(Body(m[i..]) + "]", pair)
  {
    if i == |m| {
      PrefixHolds(pair, "]", ':');
      assert m[i..] == [];
    } else {
      EndsAfterIsSpelt(m[i..], pair);
    }
  }

  /** After a bracket or space in the rendering the rest is the rest of the labels. */
  lemma LeadStartsLabel(m: seq<Label>, p: nat) returns (i: nat)
    requires Labels(m) && p < |Render(m)| && (Render(m)[p] == '[' || Render(m)[p] == ' ')
    ensures i <= |m| && Render(m)[p + 1..] == Body(m[i..]) + "]"
  {
    var text, body := Render(m), Body(m);
    assert m != [];
    assert text[4..] == body + "]";
    if p == 3 {
      i := 0;
      assert m[0..] == m;
    } else {
      assert text[|text| - 1] == ']' && text[0] == 'm' && text[1] == 'a' && text[2] == 'p';
      assert text[p] == body[p - 4];
      i := LeadsAreBeforeLabels(m, p - 4);
      assert text[p + 1..] == body[p - 3..] + "]";
    }
  }

  lemma LabelHasLead(m: seq<Label>, i: nat) returns (p: nat)
    requires Labels(m) && i < |m|
    ensures p < |Render(m)| && (Render(m)[p] == '[' || Render(m)[p] == ' ')
    ensures Render(m)[p + 1..] == Body(m[i..]) + "]"
  {
    var text, body := Render(m), Body(m);
    assert text[4..] == body + "]";
    if i == 0 {
      p := 3;
      assert m[0..] == m;
    } else {
      var q := LabelsHaveLeads(m, i);
      p := q + 4;
      assert text[p] == body[q] && text[p + 1..] == body[q + 1..] + "]";
    }
  }

  // ----- when a hit is a label of the map -----

  /** The label a text reads as: two plain texts around its one colon. */
  function ReadLabel(s: string): Option<Label> {
    var parts := Split(s, ':');
    if |parts| == 2 && IsLabel(Label(parts[0], parts[1])) then Some(Label(parts[0], parts[1])) else None
  }

  /** The labels a text reads as, one between every two spaces. */
  function ReadLabels(pieces: seq<string>): Option<seq<Label>> {
    if pieces == [] then Some([])
    else
      var first, rest := ReadLabel(pieces[0]), ReadLabels(pieces[1..]);
      if first.Some? && rest.Some? then Some([first.value] + rest.value) else None
  }

  predicate KeysRise(m: seq<Label>) {
    forall i, j | 0 <= i < j < |m| :: Less(m[i].key, m[j].key)
  }

  /** The text reads as at least `least` labels whose keys rise. */
  predicate ReadsAsLabels(text: string, least: nat) {
    var m := ReadLabels(Split(text, ' '));
    m.Some? && |m.value| >= least && KeysRise(m.value)
  }

  /** The query reads as two or more labels, or as one or more and the closing bracket. */
  predicate Misleading(key: string, value: string) {
    var pair := key + ":" + value;
    ReadsAsLabels(pair, 2) || (pair[|pair| - 1] == ']' && ReadsAsLabels(pair[..|pair| - 1], 1))
  }

  /** What is printed of the labels of a map, more than one or with the closing bracket. */
  ghost predicate Misleads(m: seq<Label>, pair: string) {
    Labels(m) && m != [] && ((|m| > 1 && pair == Body(m)) || pair == Body(m) + "]")
  }

  /** Putting a label before a list that misleads, or before one label. */
  lemma MisleadsLonger(m: seq<Label>, j: nat, pair: string, tail: string)
    requires Labels(m) && 1 <= j < |m| && pair == Pair(m[0]) + " " + tail
    requires Misleads(m[1..][..j], tail) || (j == 1 && tail == Pair(m[1]))
    ensures Misleads(m[..j + 1], pair)
  {
    hide Pair;
    assert m[..j + 1][1..] == m[1..][..j];
    BodySplit(m[..j + 1]);
    BodySplit(m[1..][..j]);
    assert Labels(m[..j + 1]);
  }

  /** What is spelt is one label, or misleads. */
  lemma {:induction false} SpeltOneOrMore(m: seq<Label>, pair: string)
    requires Labels(m) && SpellsFirst(m, pair)
    ensures pair == Pair(m[0]) || exists j :: 1 <= j <= |m| && Misleads(m[..j], pair)
    decreases |m|
  {
    hide Pair, Body;
    var first := Pair(m[0]);
    if pair != first {
      BodySplit(m);
      if |m| == 1 && pair == first + "]" {
        assert m[..1] == m && Misleads(m[..1], pair);
      } else {
        var tail := pair[|first| + 1..];
        assert pair == first + " " + tail;
        LabelsTail(m);
        SpeltOneOrMore(m[1..], tail);
        hide Misleads;
        if tail == Pair(m[1]) {
          MisleadsLonger(m, 1, pair, tail);
        } else {
          var j :| 1 <= j <= |m[1..]| && Misleads(m[1..][..j], tail);
          MisleadsLonger(m, j, pair, tail);
        }
      }
    }
  }

  lemma {:induction false} SpellsAll(m: seq<Label>, pair: string)
    requires m != [] && (pair == Body(m) || pair == Body(m) + "]")
    ensures SpellsFirst(m, pair)
  {
    hide Pair, Body;
    BodySplit(m);
    if |m| > 1 {
      var first := Pair(m[0]);
      var tail := if pair == Body(m) then Body(m[1..]) else Body(m[1..]) + "]";
      assert pair == first + " " + tail;
      assert first + " " <= pair && pair[|first| + 1..] == tail;
      SpellsAll(m[1..], tail);
    }
  }

  lemma PairReads(l: Label)
    requires IsLabel(l)
    ensures ReadLabel(Pair(l)) == Some(l) && ' ' !in Pair(l)
  {
    PairChars(l);
    SplitAround(l.key, l.value, ':');
    SplitPlain(l.value, ':');
  }

  lemma ReadLabelIsPair(s: string)
    requires ReadLabel(s).Some?
    ensures s == Pair(ReadLabel(s).value) && IsLabel(ReadLabel(s).value)
  {
    JoinSplit(s, ':');
    var parts := Split(s, ':');
    assert parts == [parts[0], parts[1]] && parts[1..] == [parts[1]];
  }

  /** What is printed of labels reads as those labels. */
  lemma {:induction false} BodyReads(m: seq<Label>)
    requires m != [] && forall i | 0 <= i < |m| :: IsLabel(m[i])
    ensures ReadLabels(Split(Body(m), ' ')) == Some(m)
  {
    hide Pair, ReadLabel, IsLabel;
    PairReads(m[0]);
    var first := Pair(m[0]);
    if |m| == 1 {
      SplitPlain(first, ' ');
      assert [first][1..] == [] && m == [m[0]] + [];
    } else {
      BodyReads(m[1..]);
      var rest := Split(Body(m[1..]), ' ');
      SplitAround(first, Body(m[1..]), ' ');
      assert ([first] + rest)[1..] == rest;
      assert m == [m[0]] + m[1..];
    }
  }

  lemma {:induction false} ReadLabelsArePrinted(pieces: seq<string>)
    requires pieces != [] && ReadLabels(pieces).Some?
    ensures var m := ReadLabels(pieces).value;
            |m| == |pieces| && Body(m) == Join(pieces, ' ') && forall i | 0 <= i < |m| :: IsLabel(m[i])
  {
    hide Pair, ReadLabel, IsLabel;
    var m := ReadLabels(pieces).value;
    ReadLabelIsPair(pieces[0]);
    if |pieces| == 1 {
      assert ReadLabels([]) == Some([]) && m == [ReadLabel(pieces[0]).value];
    } else {
      ReadLabelsArePrinted(pieces[1..]);
      assert m == [ReadLabel(pieces[0]).value] + ReadLabels(pieces[1..]).value;
      assert m[1..] == ReadLabels(pieces[1..]).value;
    }
  }

  /** A text reads as labels with rising keys exactly when it is what is printed of them. */
  lemma ReadsAsLabelsIff(text: string, least: nat)
    requires least > 0
    ensures ReadsAsLabels(text, least) <==> exists m :: Labels(m) && |m| >= least && Body(m) == text
  {
    hide ReadLabels, Body, IsLabel;
    if ReadsAsLabels(text, least) {
      ReadLabelsArePrinted(Split(text, ' '));
      JoinSplit(text, ' ');
      assert Labels(ReadLabels(Split(text, ' ')).value);
    }
    forall m | Labels(m) && |m| >= least && Body(m) == text
      ensures ReadsAsLabels(text, least)
    {
      BodyReads(m);
    }
  }

  /** A query reads as more than one label exactly when some map makes it mislead. */
  lemma MisleadingIff(key: string, value: string)
    ensures Misleading(key, value) <==> exists m: seq<Label> :: Misleads(m, key + ":" + value)
  {
    hide ReadsAsLabels, Labels, Body;
    var pair := key + ":" + value;
    var open := pair[..|pair| - 1];
    ReadsAsLabelsIff(pair, 2);
    ReadsAsLabelsIff(open, 1);
    if ReadsAsLabels(pair, 2) {
      var m :| Labels(m) && |m| >= 2 && Body(m) == pair;
      assert Misleads(m, pair);
    }
    if pair[|pair| - 1] == ']' && ReadsAsLabels(open, 1) {
      var m :| Labels(m) && |m| >= 1 && Body(m) == open;
      assert pair == open + "]";
      assert Misleads(m, pair);
    }
    forall m: seq<Label> | Misleads(m, pair)
      ensures Misleading(key, value)
    {
      if pair == Body(m) + "]" {
        assert open == Body(m) && pair[|pair| - 1] == ']';
      }
    }
  }

  /** A pair without a space or bracket that spells labels is one label. */
  lemma PairFixesLabel(l: Label, key: string, value: string)
    requires IsLabel(l)
    ensures Pair(l) == key + ":" + value <==> l == Label(key, value)
  {
    PairChars(l);
    var pair := key + ":" + value;
    assert pair[|key|] == ':';
    if Pair(l) == pair {
      assert |key| == |l.key|;
      assert key == pair[..|key|] == l.key && value == pair[|key| + 1..] == l.value;
    }
  }

  lemma {:induction false} MisleadingHasSpaceOrBracket(m: seq<Label>, pair: string)
    requires Misleads(m, pair)
    ensures ' ' in pair || pair[|pair| - 1] == ']'
  {
    if |m| > 1 {
      var first := Pair(m[0]);
      assert Body(m)[|first|] == ' ';
      assert pair[|first|] == ' ';
    }
  }

  /** A label of the map is always found; a query that does not mislead finds nothing else. */
  lemma HitIffLabel(m: seq<Label>, key: string, value: string)
    requires Labels(m) && !Misleading(key, value)
    ensures Hit(m, key, value) <==> Label(key, value) in m
  {
    hide Misleading;
    var pair := key + ":" + value;
    MisleadingIff(key, value);
    HitIffSpelt(m, key, value);
    forall i | 0 <= i < |m|
      ensures SpellsFirst(m[i..], pair) <==> m[i] == Label(key, value)
    {
      assert IsLabel(m[i]) && Labels(m[i..]);
      PairFixesLabel(m[i], key, value);
      if SpellsFirst(m[i..], pair) {
        SpeltOneOrMore(m[i..], pair);
      }
    }
  }

  /** A map for which a query misleads is searched wrongly. */
  lemma MisledHit(m: seq<Label>, key: string, value: string)
    requires Misleads(m, key + ":" + value)
    ensures Labels(m) && Hit(m, key, value) && Label(key, value) !in m
  {
    hide Hit, SpellsFirst;
    var pair := key + ":" + value;
    SpellsAll(m, pair);
    assert m[0..] == m;
    HitIffSpelt(m, key, value);
    MisleadingHasSpaceOrBracket(m, pair);
    forall i | 0 <= i < |m|
      ensures m[i] != Label(key, value)
    {
      PairChars(m[i]);
      PairFixesLabel(m[i], key, value);
    }
  }

  /** The search is a lookup in every label map exactly for the queries that do not mislead. */
  lemma LookupInEveryMapIff(key: string, value: string)
    ensures (forall m | Labels(m) :: Hit(m, key, value) <==> Label(key, value) in m) <==> !Misleading(key, value)
  {
    hide Hit, Misleads, Labels, Misleading;
    MisleadingIff(key, value);
    if Misleading(key, value) {
      var m :| Misleads(m, key + ":" + value);
      MisledHit(m, key, value);
    } else {
      forall m | Labels(m)
        ensures Hit(m, key, value) <==> Label(key, value) in m
      {
        HitIffLabel(m, key, value);
      }
    }
  }

  /** Over the label alphabet, and over any text without a space or a closing bracket at the end, no query misleads. */
  lemma PlainQueriesDoNotMislead(key: string, value: string)
    requires ' ' !in key && ' ' !in value && (value == "" || value[|value| - 1] != ']')
    ensures !Misleading(key, value)
  {
    hide Misleading;
    var pair := key + ":" + value;
    MisleadingIff(key, value);
    if m :| Misleads(m, pair) {
      MisleadingHasSpaceOrBracket(m, pair);
    }
  }

  /** A value with a space is found across two labels of a map that does not hold it. */
  lemma SpaceMisleads()
    ensures var m := [Label("a", "b"), Label("c", "d")];
            Labels(m) && Hit(m, "a", "b c:d") && Label("a", "b c:d") !in m
  {
    var m := [Label("a", "b"), Label("c", "d")];
    assert Labels(m);
    hide Labels, Hit;
    BodySplit(m);
    assert m[1..] == [Label("c", "d")] && Pair(m[0]) == "a:b" && Pair(m[1]) == "c:d";
    hide Pair, Body;
    assert "a:b" + " " + "c:d" == "a" + ":" + "b c:d";
    MisledHit(m, "a", "b c:d");
  }
}

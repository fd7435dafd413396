/**
 scatterWords of site/particles.js: words are put at random places around a logo, each at the first of 400 tries that
 stays inside the box, off the logo and clear of the words before it.

 Coordinates are real numbers, and the random places, which the source takes around the logo, are arbitrary.
 */
module ScatterWords {
  import opened Options

  const ATTEMPTS := 400
  const MARGIN := 4.0
  const GAP := 8.0
  const LOGO_CLEAR := 1.04

  /** A JavaScript string is a sequence of UTF-16 code units; a word's width is taken from their number. */
  newtype Unit = x: int | 0 <= x < 0x1_0000

  type Utf16 = seq<Unit>

  datatype Rect = Rect(x: real, y: real, w: real, h: real) {
    predicate Holds(px: real, py: real) {
      x <= px <= x + w && y <= py <= y + h
    }
  }

  datatype Look = Look(z: real, fontSize: real, opacity: real)

  datatype Word = Word(text: Utf16, rect: Rect, look: Look)

  datatype Choices = Choices(avoidLogo: bool, avoid: seq<Rect>)

  datatype Stage = Stage(w: real, h: real, cx: real, cy: real, r: real)

  /** The random source: how a word looks, and where it is tried. */
  datatype Chance = Chance(look: nat -> Look, spot: (nat, nat) -> (real, real))

  function Min(a: real, b: real): real {
    if a < b then a else b
  }

  function Max(a: real, b: real): real {
    if a < b then b else a
  }

  predicate Overlaps(a: Rect, b: Rect, gap: real) {
    a.x < b.x + b.w + gap && b.x < a.x + a.w + gap && a.y < b.y + b.h + gap && b.y < a.y + a.h + gap
  }

  /** Math.hypot(dx, dy) < d, without the root. */
  predicate CloserThan(dx: real, dy: real, d: real) {
    d > 0.0 && dx * dx + dy * dy < d * d
  }

  predicate Inside(r: Rect, s: Stage) {
    !(r.x < MARGIN || r.y < MARGIN || r.x + r.w > s.w - MARGIN || r.y + r.h > s.h - MARGIN)
  }

  /** The test on the point of the rectangle that is clamped to the logo's centre. */
  predicate NearLogo(r: Rect, s: Stage) {
    var nx := Max(r.x, Min(s.cx, r.x + r.w));
    var ny := Max(r.y, Min(s.cy, r.y + r.h));
    CloserThan(nx - s.cx, ny - s.cy, s.r * LOGO_CLEAR)
  }

  function Rects(words: seq<Word>): seq<Rect> {
    seq(|words|, i requires 0 <= i < |words| => words[i].rect)
  }

  predicate ClearOf(r: Rect, taken: seq<Rect>) {
    forall k | 0 <= k < |taken| :: !Overlaps(r, taken[k], GAP)
  }

  predicate Fits(r: Rect, s: Stage, o: Choices, placed: seq<Word>) {
    Inside(r, s) && (o.avoidLogo ==> !NearLogo(r, s)) && ClearOf(r, o.avoid + Rects(placed))
  }

  function RectAt(text: Utf16, look: Look, spot: (real, real)): Rect {
    Rect(spot.0, spot.1, |text| as real * look.fontSize * 0.58, look.fontSize * 1.3)
  }

  /** The first try from `attempt` on at which word `i` fits. */
  function FirstFit(c: Chance, text: Utf16, i: nat, s: Stage, o: Choices, placed: seq<Word>, attempt: nat): (at: Option<nat>)
    requires attempt <= ATTEMPTS
    ensures at.Some? ==> attempt <= at.value < ATTEMPTS && Fits(RectAt(text, c.look(i), c.spot(i, at.value)), s, o, placed)
    ensures var tries := if at.Some? then at.value else ATTEMPTS;
            forall a: nat | attempt <= a < tries :: !Fits(RectAt(text, c.look(i), c.spot(i, a)), s, o, placed)
    decreases ATTEMPTS - attempt
  {
    if attempt == ATTEMPTS then None
    else if Fits(RectAt(text, c.look(i), c.spot(i, attempt)), s, o, placed) then Some(attempt)
    else FirstFit(c, text, i, s, o, placed, attempt + 1)
  }

  /** The words placed of the first `n`. */
  function Scattered(c: Chance, words: seq<Utf16>, s: Stage, o: Choices, n: nat): seq<Word>
    requires n <= |words|
  {
    if n == 0 then []
    else
      var placed := Scattered(c, words, s, o, n - 1);
      var at := FirstFit(c, words[n - 1], n - 1, s, o, placed, 0);
      if at.None? then placed
      else
        placed + [Word(words[n - 1], RectAt(words[n - 1], c.look(n - 1), c.spot(n - 1, at.value)), c.look(n - 1))]
  }

  method ScatterWords(c: Chance, words: seq<Utf16>, s: Stage, o: Choices) returns (placed: seq<Word>)
    ensures placed == Scattered(c, words, s, o, |words|)
  {
    hide FirstFit, RectAt;
    placed := [];
    for i := 0 to |words|
      invariant placed == Scattered(c, words, s, o, i)
    {
      placed := PlaceWord(c, words[i], i, s, o, placed);
    }
  }

  /** The tries for one word. */
  method PlaceWord(c: Chance, text: Utf16, i: nat, s: Stage, o: Choices, before: seq<Word>) returns (placed: seq<Word>)
    ensures var at := FirstFit(c, text, i, s, o, before, 0);
            placed == if at.None? then before
                      else before + [Word(text, RectAt(text, c.look(i), c.spot(i, at.value)), c.look(i))]
  {
    hide NearLogo, Overlaps;
    var look := c.look(i);
    var width := |text| as real * look.fontSize * 0.58;
    var height := look.fontSize * 1.3;
    assert forall spot :: RectAt(text, look, spot) == Rect(spot.0, spot.1, width, height);
    hide RectAt;
    var attempt := 0;
    while attempt < ATTEMPTS
      invariant attempt <= ATTEMPTS
      invariant FirstFit(c, text, i, s, o, before, 0) == FirstFit(c, text, i, s, o, before, attempt)
    {
      var (x, y) := c.spot(i, attempt);
      var r := Rect(x, y, width, height);
      assert r == RectAt(text, look, c.spot(i, attempt));
      attempt := attempt + 1;
      if x < MARGIN || y < MARGIN || x + width > s.w - MARGIN || y + height > s.h - MARGIN {
        continue;
      }
      if o.avoidLogo && NearLogo(r, s) {
        continue;
      }
      if !ClearOf(r, o.avoid + Rects(before)) {
        continue;
      }
      return before + [Word(text, r, look)];
    }
    placed := before;
  }

  // ----- what the places promise -----

  /** The gap lies between two rectangles along one of the axes. */
  predicate Apart(a: Rect, b: Rect, gap: real) {
    || a.x + a.w + gap <= b.x || b.x + b.w + gap <= a.x
    || a.y + a.h + gap <= b.y || b.y + b.h + gap <= a.y
  }

  lemma SquareMonotone(x: real, y: real)
    requires (0.0 <= x <= y) || (y <= x <= 0.0)
    ensures x * x <= y * y
  {
    if 0.0 <= x {
      assert x * x <= x * y <= y * y;
    } else {
      assert (-x) * (-x) <= (-x) * (-y) <= (-y) * (-y);
    }
  }

  /** The clamped point is the nearest: when it is clear of the logo, every point of the rectangle is. */
  lemma ClampIsNearest(r: Rect, s: Stage, px: real, py: real)
    requires r.w >= 0.0 && r.h >= 0.0 && r.Holds(px, py)
    requires CloserThan(px - s.cx, py - s.cy, s.r * LOGO_CLEAR)
    ensures NearLogo(r, s)
  {
    var nx := Max(r.x, Min(s.cx, r.x + r.w));
    var ny := Max(r.y, Min(s.cy, r.y + r.h));
    SquareMonotone(nx - s.cx, px - s.cx);
    SquareMonotone(ny - s.cy, py - s.cy);
  }

  ghost predicate NoNegativeSizes(c: Chance) {
    forall i: nat :: c.look(i).fontSize >= 0.0
  }

  /** A placed word keeps the box's margin, the gap to the avoided rectangles and the distance to the logo. */
  ghost predicate WellPlaced(r: Rect, s: Stage, o: Choices) {
    && MARGIN <= r.x && r.x + r.w <= s.w - MARGIN && MARGIN <= r.y && r.y + r.h <= s.h - MARGIN
    && (forall k | 0 <= k < |o.avoid| :: Apart(r, o.avoid[k], GAP))
    && (o.avoidLogo ==> forall px, py | r.Holds(px, py) :: !CloserThan(px - s.cx, py - s.cy, s.r * LOGO_CLEAR))
  }

  lemma FitIsWellPlaced(r: Rect, s: Stage, o: Choices, placed: seq<Word>)
    requires r.w >= 0.0 && r.h >= 0.0 && Fits(r, s, o, placed)
    ensures WellPlaced(r, s, o)
    ensures forall k | 0 <= k < |placed| :: Apart(placed[k].rect, r, GAP)
  {
    var taken := o.avoid + Rects(placed);
    forall k | 0 <= k < |o.avoid|
      ensures Apart(r, o.avoid[k], GAP)
    {
      assert !Overlaps(r, taken[k], GAP);
    }
    forall k | 0 <= k < |placed|
      ensures Apart(placed[k].rect, r, GAP)
    {
      assert !Overlaps(r, taken[|o.avoid| + k], GAP);
    }
    if o.avoidLogo {
      forall px, py | r.Holds(px, py)
        ensures !CloserThan(px - s.cx, py - s.cy, s.r * LOGO_CLEAR)
      {
        if CloserThan(px - s.cx, py - s.cy, s.r * LOGO_CLEAR) {
          ClampIsNearest(r, s, px, py);
        }
      }
    }
  }

  lemma SizeNotNegative(text: Utf16, look: Look, spot: (real, real))
    requires look.fontSize >= 0.0
    ensures RectAt(text, look, spot).w >= 0.0 && RectAt(text, look, spot).h >= 0.0
  {
    ProductNotNegative(|text| as real, look.fontSize);
  }

  lemma ProductNotNegative(x: real, y: real)
    requires x >= 0.0 && y >= 0.0
    ensures x * y >= 0.0
  {
  }

  ghost predicate AllPlaced(placed: seq<Word>, s: Stage, o: Choices) {
    && (forall k | 0 <= k < |placed| :: WellPlaced(placed[k].rect, s, o))
    && (forall j, k | 0 <= j < k < |placed| :: Apart(placed[j].rect, placed[k].rect, GAP))
  }

  lemma AddPlaced(placed: seq<Word>, word: Word, s: Stage, o: Choices)
    requires AllPlaced(placed, s, o) && WellPlaced(word.rect, s, o)
    requires forall k | 0 <= k < |placed| :: Apart(placed[k].rect, word.rect, GAP)
    ensures AllPlaced(placed + [word], s, o)
  {
    hide WellPlaced, Apart;
  }

  /** Whatever the random source, every word placed is well placed and any two are apart. */
  lemma {:induction false} PlacedApart(c: Chance, words: seq<Utf16>, s: Stage, o: Choices, n: nat)
    requires n <= |words| && NoNegativeSizes(c)
    ensures AllPlaced(Scattered(c, words, s, o, n), s, o)
  {
    hide WellPlaced, Apart, Fits, RectAt;
    if n > 0 {
      PlacedApart(c, words, s, o, n - 1);
      var placed := Scattered(c, words, s, o, n - 1);
      var at := FirstFit(c, words[n - 1], n - 1, s, o, placed, 0);
      if at.Some? {
        assert c.look(n - 1).fontSize >= 0.0;
        var spot := c.spot(n - 1, at.value);
        var r := RectAt(words[n - 1], c.look(n - 1), spot);
        SizeNotNegative(words[n - 1], c.look(n - 1), spot);
        FitIsWellPlaced(r, s, o, placed);
        AddPlaced(placed, Word(words[n - 1], r, c.look(n - 1)), s, o);
      }
    }
  }

  /** A word is left out only when none of its tries fits beside the words placed before it. */
  lemma {:induction false} LeftOutIff(c: Chance, words: seq<Utf16>, s: Stage, o: Choices, i: nat)
    requires i < |words|
    ensures var before := Scattered(c, words, s, o, i);
            |Scattered(c, words, s, o, i + 1)| == |before| <==>
            forall a: nat | a < ATTEMPTS :: !Fits(RectAt(words[i], c.look(i), c.spot(i, a)), s, o, before)
  {
  }
}

/**
 sortCells of e2e/guard/response-compare.ts: an old build's answer, a new one's and the old one's again, cell by cell.
 What differs between the old answers is noise; what they agree on and the new one does not is a real difference.
 */
module ResponseSort {
  import opened Options
  import opened JsonValues
  import opened ResponseCells
  import opened ResponseOrder
  import opened ResponsePaths

  datatype Answer = Answer(status: string, headers: map<string, string>, body: Json)

  predicate IsHeader(p: Path) {
    |p| == 1 && p[0].Header?
  }

  /** What cellsOf writes at a path. */
  function AnswerCell(a: Answer, p: Path): Option<Cell> {
    if IsHeader(p) && p[0].header in a.headers then Some(Text(a.headers[p[0].header]))
    else if p == [Status] then Some(Text(a.status))
    else CellAt(a.body, p)
  }

  /** The cells of an answer under the texts of their paths; of paths that read the same only one is left. */
  ghost predicate CellsAre(cells: map<string, Cell>, a: Answer) {
    && (forall p :: AnswerCell(a, p).Some? ==> PathText(p) in cells)
    && (forall t | t in cells :: exists p :: PathText(p) == t && AnswerCell(a, p) == Some(cells[t]))
  }

  method CellsOf(a: Answer) returns (cells: map<string, Cell>)
    ensures CellsAre(cells, a)
  {
    hide CellAt, PathText, Written;
    var out := new Cells();
    ghost var root: Path := [];
    RootText();
    Flatten(a.body, "$", root, out);
    assert forall q: Path :: root <= q && q[|root|..] == q;
    assert forall q: Path :: Find(out.paths, q) == CellAt(a.body, q);
    out.Set("$status", [Status], Text(a.status));
    assert forall q: Path :: Find(out.paths, q) == if q == [Status] then Some(Text(a.status)) else CellAt(a.body, q);
    ghost var start := out.paths;
    var rest := a.headers.Keys;
    while rest != {}
      invariant rest <= a.headers.Keys
      invariant out.Valid()
      invariant forall p: Path ::
                  Find(out.paths, p) ==
                  if IsHeader(p) && p[0].header in a.headers && p[0].header !in rest
                  then Some(Text(a.headers[p[0].header])) else Find(start, p)
      decreases rest
    {
      var k :| k in rest;
      rest := rest - {k};
      HeaderText(k);
      out.Set("$header." + k, [Header(k)], Text(a.headers[k]));
      assert forall p: Path :: p == [Header(k)] <==> IsHeader(p) && p[0].header == k;
    }
    cells := out.cells;
    WrittenAre(cells, out.paths, a);
  }

  lemma RootText()
    ensures PathText([]) == "$" && PathText([Status]) == "$status"
  {
    OneStepText(Status);
  }

  lemma HeaderText(k: string)
    ensures PathText([Header(k)]) == "$header." + k
  {
    OneStepText(Header(k));
  }

  lemma WrittenAre(cells: map<string, Cell>, paths: map<Path, Cell>, a: Answer)
    requires Written(cells, paths) && forall p :: Find(paths, p) == AnswerCell(a, p)
    ensures CellsAre(cells, a)
  {
    hide PathText, AnswerCell;
    forall p | AnswerCell(a, p).Some?
      ensures PathText(p) in cells
    {
      assert Find(paths, p).Some?;
    }
    forall t | t in cells
      ensures exists p :: PathText(p) == t && AnswerCell(a, p) == Some(cells[t])
    {
      var p :| p in paths && PathText(p) == t && paths[p] == cells[t];
      assert Find(paths, p) == Some(cells[t]);
    }
  }

  // ----- sorting -----

  datatype Kind = WasChanged | WasAdded | WasRemoved

  datatype Difference = Difference(cell: string, kind: Kind, before: Option<Cell>, after: Option<Cell>)

  /** How a cell of the three answers is sorted. */
  datatype Sort = Equal | Noise | Real

  function SortOf(a: map<string, Cell>, n: map<string, Cell>, b: map<string, Cell>, p: string): Sort {
    if Find(a, p) != Find(b, p) then Noise else if Find(n, p) != Find(a, p) then Real else Equal
  }

  function DifferenceAt(a: map<string, Cell>, n: map<string, Cell>, p: string): Difference {
    Difference(p, if p !in a then WasAdded else if p !in n then WasRemoved else WasChanged, Find(a, p), Find(n, p))
  }

  /** Each real difference and each noisy cell is reported once, and nothing else. */
  ghost predicate Sorted(a: map<string, Cell>, n: map<string, Cell>, b: map<string, Cell>, found: seq<Difference>,
                         noise: seq<string>,
                         among: set<string>) {
    && (forall p :: p in noise <==> p in among && SortOf(a, n, b, p) == Noise)
    && (forall d :: d in found <==> d.cell in among && SortOf(a, n, b, d.cell) == Real && d == DifferenceAt(a, n, d.cell))
    && (forall i, j | 0 <= i < j < |noise| :: noise[i] != noise[j])
    && (forall i, j | 0 <= i < j < |found| :: found[i].cell != found[j].cell)
  }

  method SortCells(a: map<string, Cell>, n: map<string, Cell>, b: map<string, Cell>)
    returns (cells: nat, found: seq<Difference>, noise: seq<string>)
    ensures cells == |a.Keys + n.Keys + b.Keys|
    ensures Sorted(a, n, b, found, noise, a.Keys + n.Keys + b.Keys)
  {
    var all := a.Keys + n.Keys + b.Keys;
    found, noise := SortAmong(a, n, b, all);
    cells := |all|;
  }

  /** The loop over the cells, in whatever order the set yields them. */
  method SortAmong(a: map<string, Cell>, n: map<string, Cell>, b: map<string, Cell>, all: set<string>)
    returns (found: seq<Difference>, noise: seq<string>)
    ensures Sorted(a, n, b, found, noise, all)
  {
    var rest := all;
    ghost var done := {};
    found, noise := [], [];
    assert Sorted(a, n, b, found, noise, done);
    hide Sorted, SortOf, DifferenceAt, Find;
    while rest != {}
      invariant rest + done == all && rest !! done
      invariant Sorted(a, n, b, found, noise, done)
      decreases rest
    {
      var p :| p in rest;
      if Find(a, p) != Find(b, p) {
        NoiseAdded(a, n, b, found, noise, done, p);
        noise := noise + [p];
      } else if Find(n, p) != Find(a, p) {
        RealAdded(a, n, b, found, noise, done, p);
        found := found + [DifferenceAt(a, n, p)];
      } else {
        EqualAdded(a, n, b, found, noise, done, p);
      }
      rest := rest - {p};
      done := done + {p};
    }
    assert done == all;
  }

  lemma NoiseAdded(a: map<string, Cell>, n: map<string, Cell>, b: map<string, Cell>, found: seq<Difference>,
                   noise: seq<string>,
                   done: set<string>, p: string)
    requires Sorted(a, n, b, found, noise, done) && p !in done && Find(a, p) != Find(b, p)
    ensures Sorted(a, n, b, found, noise + [p], done + {p})
  {
    assert SortOf(a, n, b, p) == Noise;
  }

  lemma RealAdded(a: map<string, Cell>, n: map<string, Cell>, b: map<string, Cell>, found: seq<Difference>,
                  noise: seq<string>,
                  done: set<string>, p: string)
    requires Sorted(a, n, b, found, noise, done) && p !in done && Find(a, p) == Find(b, p) && Find(n, p) != Find(a, p)
    ensures Sorted(a, n, b, found + [DifferenceAt(a, n, p)], noise, done + {p})
  {
    assert SortOf(a, n, b, p) == Real;
  }

  lemma EqualAdded(a: map<string, Cell>, n: map<string, Cell>, b: map<string, Cell>, found: seq<Difference>,
                   noise: seq<string>,
                   done: set<string>, p: string)
    requires Sorted(a, n, b, found, noise, done) && p !in done && Find(a, p) == Find(b, p) == Find(n, p)
    ensures Sorted(a, n, b, found, noise, done + {p})
  {
    assert SortOf(a, n, b, p) == Equal;
  }

  lemma MemberAt<T>(s: seq<T>, i: nat)
    ensures i < |s| ==> s[i] in s
  {
  }

  /** Nothing is reported exactly when the three answers have the same cells. */
  lemma NothingReportedIff(a: map<string, Cell>, n: map<string, Cell>, b: map<string, Cell>, found: seq<Difference>,
                           noise: seq<string>)
    requires Sorted(a, n, b, found, noise, a.Keys + n.Keys + b.Keys)
    ensures found == [] && noise == [] <==> a == n == b
  {
    MemberAt(found, 0);
    MemberAt(noise, 0);
    if found == [] && noise == [] {
      forall p
        ensures Find(a, p) == Find(n, p) == Find(b, p)
      {
        if p in a.Keys + n.Keys + b.Keys {
          assert p !in noise && DifferenceAt(a, n, p) !in found;
        }
      }
      SameCells(a, n);
      SameCells(a, b);
    }
  }

  lemma SameCells(a: map<string, Cell>, b: map<string, Cell>)
    requires forall p :: Find(a, p) == Find(b, p)
    ensures a == b
  {
    assert forall p :: p in a <==> Find(a, p).Some?;
    assert forall p :: p in b <==> Find(b, p).Some?;
    forall p | p in a
      ensures p in b && a[p] == b[p]
    {
      assert Find(a, p) == Find(b, p);
    }
  }

  // ----- cells and paths -----

  lemma AnswerCellPaths(a: Answer, p: Path)
    requires AnswerCell(a, p).Some?
    ensures p == [Status] || IsHeader(p) || (BodyPath(p) && CellAt(a.body, p).Some?)
  {
    hide CellAt;
    if !IsHeader(p) && p != [Status] {
      CellsAreBodyPaths(a.body, p);
    }
  }

  /** The text of a header, the status and a body path differ in their second character, if it is there. */
  lemma OwnTexts(p: Path)
    requires p == [Status] || IsHeader(p) || BodyPath(p)
    ensures p == [Status] ==> PathText(p) == "$status"
    ensures IsHeader(p) ==> PathText(p) == "$header." + p[0].header
    ensures BodyPath(p) ==> PathText(p) == "$" || (|PathText(p)| > 1 && (PathText(p)[1] == '.' || PathText(p)[1] == '['))
  {
    if p == [Status] {
      RootText();
    } else if IsHeader(p) {
      assert p == [Header(p[0].header)];
      HeaderText(p[0].header);
    } else if p != [] {
      BodyStart(p);
    }
  }

  lemma SameTextSameSort(p: Path, q: Path)
    requires p == [Status] || IsHeader(p) || BodyPath(p)
    requires q == [Status] || IsHeader(q) || BodyPath(q)
    requires PathText(p) == PathText(q)
    ensures (BodyPath(p) && BodyPath(q)) || p == q
  {
    hide PathText;
    OwnTexts(p);
    OwnTexts(q);
    if IsHeader(p) && IsHeader(q) {
      var x, y := p[0].header, q[0].header;
      assert x == ("$header." + x)[8..] && y == ("$header." + y)[8..];
      assert p == [Header(x)] && q == [Header(y)];
    }
  }

  /** No two cells of the answers read the same. */
  ghost predicate ReadApart(a: Answer, b: Answer) {
    forall p, q | AnswerCell(a, p).Some? && AnswerCell(b, q).Some? && PathText(p) == PathText(q) :: p == q
  }

  /** One answer whose branches are told apart. */
  lemma LegibleAnswer(a: Answer)
    requires Legible(a.body)
    ensures ReadApart(a, a)
  {
    hide Legible, CellAt, PathText, BodyPath;
    forall p, q | AnswerCell(a, p).Some? && AnswerCell(a, q).Some? && PathText(p) == PathText(q)
      ensures p == q
    {
      AnswerCellPaths(a, p);
      AnswerCellPaths(a, q);
      SameTextSameSort(p, q);
      if p != q {
        BodyIsNotOwn(p);
        BodyIsNotOwn(q);
        LegibleReadsApart(a.body, p, q);
      }
    }
  }

  lemma BodyIsNotOwn(p: Path)
    ensures BodyPath(p) ==> p != [Status] && !IsHeader(p)
  {
    if BodyPath(p) && p != [] {
      assert !p[0].Status? && !p[0].Header?;
    }
  }

  /** Any two answers with plain keys and row names. */
  lemma PlainAnswers(a: Answer, b: Answer)
    requires PlainBody(a.body) && PlainBody(b.body)
    ensures ReadApart(a, b)
  {
    hide PlainBody, CellAt, PathText, BodyPath;
    forall p, q | AnswerCell(a, p).Some? && AnswerCell(b, q).Some? && PathText(p) == PathText(q)
      ensures p == q
    {
      AnswerCellPaths(a, p);
      AnswerCellPaths(b, q);
      SameTextSameSort(p, q);
      if p != q {
        BodyIsNotOwn(p);
        BodyIsNotOwn(q);
        PlainReadsApart(a.body, b.body, p, q);
      }
    }
  }

  /** Where an answer's cells read apart from another's, what is kept under a path's text is the path's own cell. */
  lemma CellUnderText(cells: map<string, Cell>, a: Answer, b: Answer, p: Path)
    requires CellsAre(cells, a) && ReadApart(a, b) && AnswerCell(b, p).Some?
    ensures Find(cells, PathText(p)) == AnswerCell(a, p)
  {
    hide AnswerCell, PathText;
    var t := PathText(p);
    if t in cells {
      var q :| PathText(q) == t && AnswerCell(a, q) == Some(cells[t]);
      assert q == p;
    }
  }

  /** How a path's cell compares over the three answers. */
  ghost function SortAt(a: Answer, n: Answer, b: Answer, p: Path): Sort {
    if AnswerCell(a, p) != AnswerCell(b, p) then Noise else if AnswerCell(n, p) != AnswerCell(a, p) then Real else Equal
  }

  /** Where the answers' cells read apart, sorting the cells by text sorts the cells of the paths. */
  lemma SortedByText(a: Answer, n: Answer, b: Answer, cellsA: map<string, Cell>, cellsN: map<string, Cell>,
                     cellsB: map<string, Cell>, which: Answer, p: Path)
    requires CellsAre(cellsA, a) && CellsAre(cellsN, n) && CellsAre(cellsB, b)
    requires which in {a, n, b} && AnswerCell(which, p).Some?
    requires ReadApart(a, which) && ReadApart(n, which) && ReadApart(b, which)
    ensures SortOf(cellsA, cellsN, cellsB, PathText(p)) == SortAt(a, n, b, p)
  {
    hide AnswerCell, PathText, ReadApart, CellsAre;
    CellUnderText(cellsA, a, which, p);
    CellUnderText(cellsN, n, which, p);
    CellUnderText(cellsB, b, which, p);
  }

  /** The new answer differs from the old one by the order of one list's rows. */
  ghost predicate OnlyReordered(before: Answer, next: Answer, at: Path) {
    && before.status == next.status && before.headers == next.headers
    && Reordered(before.body, next.body, at)
  }

  /** At most one cell is reported, the order of the list at `at`. */
  ghost predicate AtMostOrder(found: seq<Difference>, noise: seq<string>, at: Path) {
    noise == [] && |found| <= 1 && forall d | d in found :: d.cell == PathText(at + [Order])
  }

  /** When only the order of one list's rows differs and no row is renamed on the way, at most that order is reported. */
  lemma OnlyOrderReported(before: Answer, next: Answer, at: Path, a: map<string, Cell>, n: map<string, Cell>,
                          found: seq<Difference>, noise: seq<string>)
    requires CellsAre(a, before) && CellsAre(n, next) && OnlyReordered(before, next, at)
    requires NamesKept(before.body, next.body, at) && ReadApart(before, before)
    requires Sorted(a, n, a, found, noise, a.Keys + n.Keys + a.Keys)
    ensures AtMostOrder(found, noise, at)
  {
    hide CellAt, Reordered, NamesKept, PathText, CellsAre, ReadApart, Sorted;
    forall p: Path | p != at + [Order]
      ensures AnswerCell(before, p) == AnswerCell(next, p)
    {
      ReorderingChangesOrderOnly(before.body, next.body, at, p);
    }
    hide AnswerCell;
    forall t | t != PathText(at + [Order])
      ensures Find(a, t) == Find(n, t)
    {
      SameUnderText(before, next, a, n, at + [Order], t);
    }
    OneDifference(a, n, found, noise, PathText(at + [Order]));
  }

  lemma OneDifference(a: map<string, Cell>, n: map<string, Cell>, found: seq<Difference>, noise: seq<string>,
                      cell: string)
    requires Sorted(a, n, a, found, noise, a.Keys + n.Keys + a.Keys)
    requires forall t | t != cell :: Find(a, t) == Find(n, t)
    ensures noise == [] && |found| <= 1 && forall d | d in found :: d.cell == cell
  {
    MemberAt(noise, 0);
    MemberAt(found, 0);
    MemberAt(found, 1);
  }

  /** A renamed row on the way is reported. */
  lemma RenamingIsReported(before: Answer, next: Answer, at: Path, a: map<string, Cell>, n: map<string, Cell>,
                           found: seq<Difference>, noise: seq<string>)
    requires CellsAre(a, before) && CellsAre(n, next) && OnlyReordered(before, next, at) && OneListAt(before.body, at)
    requires !NamesKept(before.body, next.body, at)
    requires ReadApart(before, before) && ReadApart(before, next) && ReadApart(next, before) && ReadApart(next, next)
    requires Sorted(a, n, a, found, noise, a.Keys + n.Keys + a.Keys)
    ensures !AtMostOrder(found, noise, at)
  {
    hide CellAt, Reordered, NamesKept, PathText, CellsAre, OneListAt, ReadApart, Sorted;
    var p := RenamingChangesACell(before.body, next.body, at);
    assert AnswerCell(before, p) != AnswerCell(next, p) by {
      if p == [Status] || IsHeader(p) {
        NoOwnCells(before.body, p);
        NoOwnCells(next.body, p);
      }
    }
    OrderHasCell(before, next, at);
    hide AnswerCell;
    var which := if AnswerCell(before, p).Some? then before else next;
    CellUnderText(a, before, which, p);
    CellUnderText(n, next, which, p);
    assert PathText(p) != PathText(at + [Order]) by {
      assert ReadApart(which, before);
      TextsDiffer(which, before, p, at + [Order]);
    }
    DifferenceFound(a, n, found, noise, PathText(p));
  }

  lemma TextsDiffer(a: Answer, b: Answer, p: Path, q: Path)
    requires ReadApart(a, b) && AnswerCell(a, p).Some? && AnswerCell(b, q).Some? && p != q
    ensures PathText(p) != PathText(q)
  {
  }

  lemma NoOwnCells(v: Json, p: Path)
    requires p == [Status] || IsHeader(p)
    ensures CellAt(v, p) == None
  {
    hide CellAt;
    if CellAt(v, p).Some? {
      CellsAreBodyPaths(v, p);
      BodyIsNotOwn(p);
    }
  }

  lemma DifferenceFound(a: map<string, Cell>, n: map<string, Cell>, found: seq<Difference>, noise: seq<string>,
                        t: string)
    requires Sorted(a, n, a, found, noise, a.Keys + n.Keys + a.Keys) && Find(a, t) != Find(n, t)
    ensures DifferenceAt(a, n, t) in found
  {
    assert SortOf(a, n, a, t) == Real;
    assert DifferenceAt(a, n, t).cell == t;
  }

  /** The list that is put in another order has an order cell. */
  lemma OrderHasCell(before: Answer, next: Answer, at: Path)
    requires OnlyReordered(before, next, at)
    ensures AnswerCell(before, at + [Order]).Some?
  {
    hide CellAt, Reordered;
    OrderCellThere(before.body, next.body, at);
    assert (at + [Order])[|at|] == Order;
  }

  /** Reported is at most the order of the list exactly when every list on the way gives its rows the same names. */
  lemma OnlyOrderReportedIff(before: Answer, next: Answer, at: Path, a: map<string, Cell>, n: map<string, Cell>,
                             found: seq<Difference>, noise: seq<string>)
    requires CellsAre(a, before) && CellsAre(n, next) && OnlyReordered(before, next, at) && OneListAt(before.body, at)
    requires ReadApart(before, before) && ReadApart(before, next) && ReadApart(next, before) && ReadApart(next, next)
    requires Sorted(a, n, a, found, noise, a.Keys + n.Keys + a.Keys)
    ensures AtMostOrder(found, noise, at) <==> NamesKept(before.body, next.body, at)
  {
    hide CellAt, Reordered, NamesKept, PathText, CellsAre, OneListAt, ReadApart, Sorted, AtMostOrder;
    if NamesKept(before.body, next.body, at) {
      OnlyOrderReported(before, next, at, a, n, found, noise);
    } else {
      RenamingIsReported(before, next, at, a, n, found, noise);
    }
  }

  lemma AlsoUnderText(x: Answer, y: Answer, cells: map<string, Cell>, others: map<string, Cell>, but: Path, t: string)
    requires CellsAre(cells, x) && CellsAre(others, y) && t != PathText(but)
    requires forall p | p != but :: AnswerCell(x, p) == AnswerCell(y, p)
    ensures t in cells ==> t in others
  {
    hide AnswerCell, PathText;
    if t in cells {
      var p :| PathText(p) == t && AnswerCell(x, p) == Some(cells[t]);
      assert AnswerCell(x, p) == AnswerCell(y, p);
    }
  }

  lemma SameUnderText(before: Answer, next: Answer, a: map<string, Cell>, n: map<string, Cell>, but: Path, t: string)
    requires CellsAre(a, before) && CellsAre(n, next) && ReadApart(before, before) && t != PathText(but)
    requires forall p | p != but :: AnswerCell(before, p) == AnswerCell(next, p)
    ensures Find(a, t) == Find(n, t)
  {
    AlsoUnderText(before, next, a, n, but, t);
    AlsoUnderText(next, before, n, a, but, t);
    hide AnswerCell, PathText;
    if t in a {
      var q :| PathText(q) == t && AnswerCell(before, q) == Some(a[t]);
      var r :| PathText(r) == t && AnswerCell(next, r) == Some(n[t]);
      assert AnswerCell(before, r) == AnswerCell(next, r);
      assert q == r;
    }
  }
}

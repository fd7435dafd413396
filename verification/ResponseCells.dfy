/**
 The flattening of e2e/guard/response-compare.ts: an answer becomes cells, one for every value, list length and list order.

 A path is a list of steps, and the cells are kept under the path's text, in which two paths can read the same.
 */
module ResponseCells {
  import opened Options
  import opened JsonValues
  import opened Strings
  import opened ResponseNames

  // ----- cells -----

  datatype Step = Length | Order | Row(name: string) | Index(i: nat) | Key(k: string) | Status | Header(header: string)

  type Path = seq<Step>

  datatype Cell = Count(n: nat) | Names(text: string) | EmptyObject | Leaf(value: Json) | Text(written: string)

  function StepOf(names: Option<seq<string>>, i: nat): Step {
    if names.Some? && i < |names.value| then Row(names.value[i]) else Index(i)
  }

  /** What flattening a value writes at a path below it. */
  function CellAt(v: Json, p: Path): Option<Cell>
    decreases v, 1, 0
  {
    match v
    case Arr(items) =>
      var names := RowNames(items);
      if p == [Length] then Some(Count(|items|))
      else if p == [Order] then (if names.Some? then Some(Names(Join(names.value, ' '))) else None)
      else RowCell(v, names, p, |items|)
    case Obj(members) =>
      if members == map[] then (if p == [] then Some(EmptyObject) else None)
      else if p != [] && p[0].Key? && p[0].k in members then CellAt(members[p[0].k], p[1..])
      else None
    case _ => if p == [] then Some(Leaf(v)) else None
  }

  /** What the first `n` rows write, the later over the earlier. */
  function RowCell(v: Json, names: Option<seq<string>>, p: Path, n: nat): Option<Cell>
    requires v.Arr? && n <= |v.items|
    decreases v, 0, n
  {
    if n == 0 then None
    else
      var c := if p != [] && p[0] == StepOf(names, n - 1) then CellAt(v.items[n - 1], p[1..]) else None;
      if c.Some? then c else RowCell(v, names, p, n - 1)
  }

  function Find<K>(cells: map<K, Cell>, key: K): Option<Cell> {
    if key in cells then Some(cells[key]) else None
  }

  // ----- paths as text -----

  function StepText(s: Step): (text: string)
    ensures text != ""
  {
    match s
    case Length => ".$length"
    case Order => ".$order"
    case Row(name) => "[" + name + "]"
    case Index(i) => "[" + NatText(i) + "]"
    case Key(k) => "." + k
    case Status => "status"
    case Header(header) => "header." + header
  }

  function StepsText(p: Path): string {
    if p == [] then "" else StepText(p[0]) + StepsText(p[1..])
  }

  function PathText(p: Path): string {
    "$" + StepsText(p)
  }

  lemma {:induction false} StepsTextMore(p: Path, step: Step)
    ensures StepsText(p + [step]) == StepsText(p) + StepText(step)
  {
    if p == [] {
      assert p + [step] == [step] && [step][1..] == [];
    } else {
      assert (p + [step])[1..] == p[1..] + [step];
      StepsTextMore(p[1..], step);
    }
  }

  lemma PathTextMore(p: Path, step: Step)
    ensures PathText(p + [step]) == PathText(p) + StepText(step)
  {
    StepsTextMore(p, step);
  }

  // ----- flattening -----

  /** What is found at a path once a value is flattened below `path` into cells that held `before` there. */
  function Over(before: Option<Cell>, v: Json, path: Path, q: Path): Option<Cell> {
    if path <= q && CellAt(v, q[|path|..]).Some? then CellAt(v, q[|path|..]) else before
  }

  /** The cells kept by text are those of the paths, of paths that read the same the last one written. */
  ghost predicate Written(cells: map<string, Cell>, paths: map<Path, Cell>) {
    && (forall p | p in paths :: PathText(p) in cells)
    && (forall t | t in cells :: exists p :: p in paths && PathText(p) == t && paths[p] == cells[t])
  }

  class Cells {
    var cells: map<string, Cell>
    ghost var paths: map<Path, Cell>

    ghost predicate Valid()
      reads this
    {
      Written(cells, paths)
    }

    constructor ()
      ensures Valid() && cells == map[] && paths == map[]
    {
      cells := map[];
      paths := map[];
    }

    method Set(text: string, ghost p: Path, c: Cell)
      requires Valid() && text == PathText(p)
      modifies this
      ensures Valid() && cells == old(cells)[text := c] && paths == old(paths)[p := c]
    {
      cells := cells[text := c];
      paths := paths[p := c];
      hide PathText;
      forall t | t in cells
        ensures exists q :: q in paths && PathText(q) == t && paths[q] == cells[t]
      {
        if t == text {
          assert p in paths;
        } else {
          var q :| q in old(paths) && PathText(q) == t && old(paths)[q] == cells[t];
          assert q in paths && q != p;
        }
      }
    }
  }

  /** `text` is the path to write below; `path` is the same in steps. */
  method Flatten(v: Json, text: string, ghost path: Path, out: Cells)
    requires out.Valid() && text == PathText(path)
    modifies out
    ensures out.Valid()
    ensures forall q :: Find(out.paths, q) == Over(Find(old(out.paths), q), v, path, q)
    decreases v, 1
  {
    hide PathText;
    match v
    case Arr(items) => FlattenRows(v, text, path, out);
    case Obj(members) =>
      if members == map[] {
        out.Set(text, path, EmptyObject);
        OnlyAt(old(out.paths), v, path, EmptyObject);
      } else {
        FlattenMembers(v, text, path, out);
      }
    case _ =>
      out.Set(text, path, Leaf(v));
      OnlyAt(old(out.paths), v, path, Leaf(v));
  }

  /** A value that writes one cell, at its own path. */
  lemma OnlyAt(before: map<Path, Cell>, v: Json, path: Path, c: Cell)
    requires forall p :: CellAt(v, p) == if p == [] then Some(c) else None
    ensures forall q :: Find(before[path := c], q) == Over(Find(before, q), v, path, q)
  {
    hide CellAt;
    forall q
      ensures Find(before[path := c], q) == Over(Find(before, q), v, path, q)
    {
      assert path <= q && q[|path|..] == [] <==> q == path;
    }
  }

  method FlattenRows(v: Json, text: string, ghost path: Path, out: Cells)
    requires v.Arr? && out.Valid() && text == PathText(path)
    modifies out
    ensures out.Valid()
    ensures forall q :: Find(out.paths, q) == Over(Find(old(out.paths), q), v, path, q)
    decreases v, 0
  {
    var names := FindRowNames(v.items);
    RowNamesLength(v.items);
    hide RowNames, PathText, Written, StepText, Over, OverRows;
    SetListCells(v.items, names, text, path, out);
    ghost var start := out.paths;
    NoRowsYet(start, v, names, path);
    for i := 0 to |v.items|
      invariant out.Valid()
      invariant forall q :: Find(out.paths, q) == OverRows(Find(start, q), v, names, path, q, i)
    {
      ghost var before, step := out.paths, StepOf(names, i);
      PathTextMore(path, step);
      RowText(text, names, i);
      Flatten(v.items[i], text + "[" + (if names.Some? then names.value[i] else NatText(i)) + "]", path + [step], out);
      forall q
        ensures Find(out.paths, q) == OverRows(Find(start, q), v, names, path, q, i + 1)
      {
        RowOver(before, start, v, names, path, q, i);
      }
    }
    forall q
      ensures Find(out.paths, q) == Over(Find(old(out.paths), q), v, path, q)
    {
      RowsOver(old(out.paths), start, v, names, path, q);
    }
  }

  function ListCells(before: map<Path, Cell>, rows: seq<Json>, names: Option<seq<string>>, path: Path): map<Path, Cell> {
    var counted := before[path + [Length] := Count(|rows|)];
    if names.Some? then counted[path + [Order] := Names(Join(names.value, ' '))] else counted
  }

  method SetListCells(rows: seq<Json>, names: Option<seq<string>>, text: string, ghost path: Path, out: Cells)
    requires out.Valid() && text == PathText(path)
    modifies out
    ensures out.Valid() && out.paths == ListCells(old(out.paths), rows, names, path)
  {
    PathTextMore(path, Length);
    PathTextMore(path, Order);
    hide PathText, Written;
    out.Set(text + ".$length", path + [Length], Count(|rows|));
    if names.Some? {
      out.Set(text + ".$order", path + [Order], Names(Join(names.value, ' ')));
    }
  }

  lemma RowText(text: string, names: Option<seq<string>>, i: nat)
    requires names.Some? ==> i < |names.value|
    ensures text + "[" + (if names.Some? then names.value[i] else NatText(i)) + "]" == text + StepText(StepOf(names, i))
  {
    var inner := if names.Some? then names.value[i] else NatText(i);
    hide NatText;
    assert StepText(StepOf(names, i)) == "[" + inner + "]";
    hide StepText, StepOf;
    Bracketed(text, inner);
  }

  lemma Bracketed(text: string, inner: string)
    ensures text + "[" + inner + "]" == text + ("[" + inner + "]")
  {
  }

  lemma NoRowsYet(start: map<Path, Cell>, v: Json, names: Option<seq<string>>, path: Path)
    requires v.Arr?
    ensures forall q :: Find(start, q) == OverRows(Find(start, q), v, names, path, q, 0)
  {
  }

  function OverRows(before: Option<Cell>, v: Json, names: Option<seq<string>>, path: Path, q: Path, n: nat): Option<Cell>
    requires v.Arr? && n <= |v.items|
  {
    if path <= q && RowCell(v, names, q[|path|..], n).Some? then RowCell(v, names, q[|path|..], n) else before
  }

  /** One row more. */
  lemma RowOver(before: map<Path, Cell>, start: map<Path, Cell>, v: Json, names: Option<seq<string>>, path: Path,
                q: Path, i: nat)
    requires v.Arr? && i < |v.items|
    requires Find(before, q) == OverRows(Find(start, q), v, names, path, q, i)
    ensures Over(Find(before, q), v.items[i], path + [StepOf(names, i)], q) ==
            OverRows(Find(start, q), v, names, path, q, i + 1)
  {
    hide CellAt, StepOf;
    var step := StepOf(names, i);
    PathBelow(path, step, q);
    if path <= q {
      var p := q[|path|..];
      assert RowCell(v, names, p, i + 1) ==
             (var c := if p != [] && p[0] == step then CellAt(v.items[i], p[1..]) else None;
              if c.Some? then c else RowCell(v, names, p, i));
    }
  }

  lemma PathBelow(path: Path, step: Step, q: Path)
    ensures path + [step] <= q <==> path <= q && q[|path|..] != [] && q[|path|..][0] == step
    ensures path + [step] <= q ==> q[|path + [step]|..] == q[|path|..][1..]
  {
    if path <= q && |q| > |path| {
      assert q[|path|..][0] == q[|path|];
      assert q[|path|] == step ==> path + [step] == q[..|path| + 1];
    }
  }

  lemma {:induction false} NoRowAtOwnCells(v: Json, names: Option<seq<string>>, n: nat)
    requires v.Arr? && n <= |v.items|
    ensures RowCell(v, names, [], n) == RowCell(v, names, [Length], n) == RowCell(v, names, [Order], n) == None
  {
    if n > 0 {
      NoRowAtOwnCells(v, names, n - 1);
    }
  }

  lemma RowsOver(before: map<Path, Cell>, start: map<Path, Cell>, v: Json, names: Option<seq<string>>, path: Path,
                 q: Path)
    requires v.Arr? && names == RowNames(v.items)
    requires start == ListCells(before, v.items, names, path)
    ensures OverRows(Find(start, q), v, names, path, q, |v.items|) == Over(Find(before, q), v, path, q)
  {
    hide RowCell, RowNames;
    PathBelow(path, Length, q);
    PathBelow(path, Order, q);
    NoRowAtOwnCells(v, names, |v.items|);
    if path <= q {
      var p := q[|path|..];
      assert q == path + p;
      assert p == [Length] <==> q == path + [Length];
      assert p == [Order] <==> q == path + [Order];
    }
  }

  method FlattenMembers(v: Json, text: string, ghost path: Path, out: Cells)
    requires v.Obj? && v.members != map[] && out.Valid() && text == PathText(path)
    modifies out
    ensures out.Valid()
    ensures forall q :: Find(out.paths, q) == Over(Find(old(out.paths), q), v, path, q)
    decreases v, 0
  {
    hide PathText, Written;
    var rest := v.members.Keys;
    while rest != {}
      invariant rest <= v.members.Keys
      invariant out.Valid()
      invariant forall q :: Find(out.paths, q) == OverMembers(Find(old(out.paths), q), v, path, q, v.members.Keys - rest)
      decreases rest
    {
      var k :| k in rest;
      ghost var before, done := out.paths, v.members.Keys - rest;
      rest := rest - {k};
      assert v.members.Keys - rest == done + {k};
      PathTextMore(path, Key(k));
      Flatten(v.members[k], text + "." + k, path + [Key(k)], out);
      forall q
        ensures Find(out.paths, q) == OverMembers(Find(old(out.paths), q), v, path, q, done + {k})
      {
        PathBelow(path, Key(k), q);
        hide CellAt;
      }
    }
    assert v.members.Keys - rest == v.members.Keys;
  }

  function OverMembers(before: Option<Cell>, v: Json, path: Path, q: Path, done: set<string>): Option<Cell>
    requires v.Obj? && done <= v.members.Keys
  {
    if path <= q && q[|path|..] != [] && q[|path|].Key? && q[|path|].k in done &&
       CellAt(v.members[q[|path|].k], q[|path|..][1..]).Some?
    then CellAt(v.members[q[|path|].k], q[|path|..][1..])
    else before
  }
}

/** Cells, positions, reservations and value-level grids shared by every part of the model. */
module Board {

  /** The five characters the Harvest map holds: ' ', '@', 'A', 'P' and 'F'. */
  datatype Cell = Empty | Wall | Apple | Player | Beam

  datatype Option<T> = None | Some(value: T)

  datatype Pos = Pos(row: int, col: int)

  type AgentId = string

  /** The four facings of an agent. The table that maps them to vectors is not part of this
      model; each is taken to be the cardinal unit vector it names, rows growing downwards. */
  datatype Orientation = Up | Down | Left | Right

  /** A pending write: `(r, c, 'A')`, `(r, c, 'F')` or `(r, c, 'P', agent_id)`. */
  datatype Reservation =
    | AppleSlot(row: int, col: int)
    | BeamSlot(row: int, col: int)
    | PlayerSlot(row: int, col: int, agent: AgentId)
  {
    function Where(): Pos { Pos(row, col) }
  }

  /** The cell k steps away from p in direction o. */
  function Ahead(p: Pos, o: Orientation, k: int): Pos {
    match o
    case Up => Pos(p.row - k, p.col)
    case Down => Pos(p.row + k, p.col)
    case Left => Pos(p.row, p.col - k)
    case Right => Pos(p.row, p.col + k)
  }

  function Step(p: Pos, o: Orientation): Pos {
    Ahead(p, o, 1)
  }

  /** One step beyond the cell k ahead is the cell k + 1 ahead. */
  lemma AheadStep(p: Pos, o: Orientation, k: int)
    ensures Step(Ahead(p, o, k), o) == Ahead(p, o, k + 1)
  {
  }

  /** The width of a matrix (`shape[1]`); a matrix without rows is taken to have none. */
  function Cols<T>(m: seq<seq<T>>): nat {
    if |m| == 0 then 0 else |m[0]|
  }

  /** Every row has the same length, as in a 2-D numpy array. */
  predicate IsRect<T>(m: seq<seq<T>>) {
    forall i :: 0 <= i < |m| ==> |m[i]| == Cols(m)
  }

  /** The map as a value: a sequence of rows. */
  type Grid = seq<seq<Cell>>

  predicate InBounds(g: Grid, p: Pos) {
    0 <= p.row < |g| && 0 <= p.col < |g[p.row]|
  }

  function At(g: Grid, p: Pos): Cell
    requires InBounds(g, p)
  {
    g[p.row][p.col]
  }

  predicate SameShape(a: Grid, b: Grid) {
    |a| == |b| && forall i :: 0 <= i < |a| ==> |a[i]| == |b[i]|
  }

  predicate AllIn(g: Grid, ps: seq<Pos>) {
    forall k :: 0 <= k < |ps| ==> InBounds(g, ps[k])
  }

  /** `map[row, col] = v` on a value grid. */
  function Set(g: Grid, p: Pos, v: Cell): (h: Grid)
    requires InBounds(g, p)
    ensures SameShape(h, g) && At(h, p) == v
    ensures forall q :: InBounds(g, q) && q != p ==> At(h, q) == At(g, q)
  {
    g[p.row := g[p.row][p.col := v]]
  }

  /** Two grids of the same shape that agree at every cell are equal. */
  lemma GridExt(a: Grid, b: Grid)
    requires SameShape(a, b)
    requires forall q :: InBounds(a, q) ==> At(a, q) == At(b, q)
    ensures a == b
  {
    forall i | 0 <= i < |a| ensures a[i] == b[i] {
      forall j | 0 <= j < |a[i]| ensures a[i][j] == b[i][j] {
        assert At(a, Pos(i, j)) == At(b, Pos(i, j));
      }
    }
  }

  lemma SetSame(g: Grid, p: Pos)
    requires InBounds(g, p)
    ensures Set(g, p, At(g, p)) == g
  {
    GridExt(Set(g, p, At(g, p)), g);
  }

  /** Writes v into every listed cell, in list order. */
  function Paint(g: Grid, cs: seq<Pos>, v: Cell): (h: Grid)
    requires AllIn(g, cs)
    ensures SameShape(h, g)
    decreases |cs|
  {
    if cs == [] then g else Set(Paint(g, cs[..|cs| - 1], v), cs[|cs| - 1], v)
  }

  /** Painting one more listed cell is one more write. */
  lemma PaintPrefix(g: Grid, cs: seq<Pos>, v: Cell, i: nat)
    requires i < |cs| && AllIn(g, cs[..i + 1])
    ensures AllIn(g, cs[..i]) && InBounds(g, cs[i])
    ensures Paint(g, cs[..i + 1], v) == Set(Paint(g, cs[..i], v), cs[i], v)
  {
    assert cs[..i + 1][..i] == cs[..i];
  }

  lemma {:induction false} PaintAt(g: Grid, cs: seq<Pos>, v: Cell, q: Pos)
    requires AllIn(g, cs) && InBounds(g, q)
    ensures At(Paint(g, cs, v), q) == if q in cs then v else At(g, q)
    decreases |cs|
  {
    if cs != [] {
      var init := cs[..|cs| - 1];
      assert cs == init + [cs[|cs| - 1]];
      PaintAt(g, init, v, q);
    }
  }

  /** Masking one more listed cell adds it exactly when it held c. */
  lemma MaskedPrefix(g: Grid, cs: seq<Pos>, c: Cell, i: nat)
    requires i < |cs| && AllIn(g, cs[..i + 1])
    ensures AllIn(g, cs[..i]) && InBounds(g, cs[i])
    ensures Masked(g, cs[..i + 1], c) == Masked(g, cs[..i], c) + (if At(g, cs[i]) == c then [cs[i]] else [])
  {
    assert cs[..i + 1][..i] == cs[..i];
  }

  /** The listed cells that held c in g, in list order. */
  function Masked(g: Grid, cs: seq<Pos>, c: Cell): (r: seq<Pos>)
    requires AllIn(g, cs)
    ensures |r| <= |cs|
    decreases |cs|
  {
    if cs == [] then []
    else
      var init, last := cs[..|cs| - 1], cs[|cs| - 1];
      assert cs == init + [last];
      Masked(g, init, c) + (if At(g, last) == c then [last] else [])
  }

  /** A cell is masked exactly when it is listed and held c. */
  lemma {:induction false} MaskedHas(g: Grid, cs: seq<Pos>, c: Cell, p: Pos)
    requires AllIn(g, cs)
    ensures p in Masked(g, cs, c) <==> p in cs && InBounds(g, p) && At(g, p) == c
    decreases |cs|
  {
    if cs != [] {
      var init := cs[..|cs| - 1];
      assert cs == init + [cs[|cs| - 1]];
      MaskedHas(g, init, c, p);
    }
  }
}

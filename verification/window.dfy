/** `MapEnv.pad_matrix` and `MapEnv.return_view`: a zero-padded copy of the map and a
    window sliced out of it with Python's slice rules. */
module Window {
  import opened Board

  /** An entry of a padded matrix: numpy's constant 0, or a cell of the map. */
  datatype Square = Pad | Tile(cell: Cell)

  datatype Padding = Padding(left: nat, right: nat, top: nat, bot: nat)

  /** The four pad amounts of `pad_matrix`. Each is the least amount that brings its edge
      back to the matrix border, and 0 when the edge already lies inside. The right edge is
      compared with the column count and the bottom edge with the row count. */
  function PadAmounts(leftEdge: int, rightEdge: int, topEdge: int, botEdge: int,
                      rowDim: nat, colDim: nat): Padding
  {
    Padding(if leftEdge < 0 then -leftEdge else 0,
            if rightEdge > colDim then rightEdge - colDim else 0,
            if topEdge < 0 then -topEdge else 0,
            if botEdge > rowDim then botEdge - rowDim else 0)
  }

  lemma PadAmountsLeast(leftEdge: int, rightEdge: int, topEdge: int, botEdge: int, rowDim: nat, colDim: nat)
    ensures var p := PadAmounts(leftEdge, rightEdge, topEdge, botEdge, rowDim, colDim);
            && leftEdge + p.left >= 0 && (p.left == 0 || leftEdge + p.left == 0)
            && rightEdge - p.right <= colDim && (p.right == 0 || rightEdge - p.right == colDim)
            && topEdge + p.top >= 0 && (p.top == 0 || topEdge + p.top == 0)
            && botEdge - p.bot <= rowDim && (p.bot == 0 || botEdge - p.bot == rowDim)
  {
  }

  /** Edges that do not cross the first row or column need no padding before the map. */
  lemma PadAmountsInside(leftEdge: int, rightEdge: int, topEdge: int, botEdge: int, rowDim: nat, colDim: nat)
    requires 0 <= leftEdge && 0 <= topEdge
    ensures PadAmounts(leftEdge, rightEdge, topEdge, botEdge, rowDim, colDim).left == 0
    ensures PadAmounts(leftEdge, rightEdge, topEdge, botEdge, rowDim, colDim).top == 0
  {
  }

  /** The entry at (i, j) of m padded by p: the map's cell inside the copy shifted by
      (left, top), numpy's constant 0 everywhere else. */
  function PadEntry(m: Grid, p: Padding, i: int, j: int): Square
    requires IsRect(m)
  {
    if p.left <= i < p.left + |m| && p.top <= j < p.top + Cols(m) then Tile(m[i - p.left][j - p.top]) else Pad
  }

  /** `np.pad(m, ((left, right), (top, bot)), 'constant')`: axis 0 grows by left and right,
      axis 1 by top and bottom. */
  function Padded(m: Grid, p: Padding): (r: seq<seq<Square>>)
    requires IsRect(m)
    ensures |r| == |m| + p.left + p.right
  {
    seq(|m| + p.left + p.right, i => seq(Cols(m) + p.top + p.bot, j => PadEntry(m, p, i, j)))
  }

  lemma PaddedShape(m: Grid, p: Padding)
    requires IsRect(m)
    ensures forall i :: 0 <= i < |Padded(m, p)| ==> |Padded(m, p)[i]| == Cols(m) + p.top + p.bot
  {
  }

  /** `pad_matrix(left_edge, right_edge, top_edge, bot_edge, m)`. */
  function PadMatrix(leftEdge: int, rightEdge: int, topEdge: int, botEdge: int, m: Grid): seq<seq<Square>>
    requires IsRect(m)
  {
    Padded(m, PadAmounts(leftEdge, rightEdge, topEdge, botEdge, |m|, Cols(m)))
  }

  /** The map's cells, each as a tile. */
  function Lift(m: Grid): seq<seq<Square>>
    requires IsRect(m)
  {
    seq(|m|, i requires 0 <= i < |m| => seq(Cols(m), j requires 0 <= j < Cols(m) => Tile(m[i][j])))
  }

  /** The padded matrix has the padded shape, holds every original entry shifted by
      (left, top), and holds the pad value everywhere else. */
  lemma PadMatrixLayout(leftEdge: int, rightEdge: int, topEdge: int, botEdge: int, m: Grid)
    requires IsRect(m)
    ensures var p := PadAmounts(leftEdge, rightEdge, topEdge, botEdge, |m|, Cols(m));
            var r := PadMatrix(leftEdge, rightEdge, topEdge, botEdge, m);
            && |r| == |m| + p.left + p.right
            && (forall i :: 0 <= i < |r| ==> |r[i]| == Cols(m) + p.top + p.bot)
            && (forall i, j :: 0 <= i < |m| && 0 <= j < Cols(m) ==> r[i + p.left][j + p.top] == Tile(m[i][j]))
            && (forall i, j :: 0 <= i < |r| && 0 <= j < |r[i]| && r[i][j] != Pad ==>
                  p.left <= i < p.left + |m| && p.top <= j < p.top + Cols(m))
  {
  }

  /** With every edge inside the matrix nothing is padded. */
  lemma PadMatrixInside(leftEdge: int, rightEdge: int, topEdge: int, botEdge: int, m: Grid)
    requires IsRect(m)
    requires 0 <= leftEdge && rightEdge <= Cols(m) && 0 <= topEdge && botEdge <= |m|
    ensures PadMatrix(leftEdge, rightEdge, topEdge, botEdge, m) == Lift(m)
  {
    var p := PadAmounts(leftEdge, rightEdge, topEdge, botEdge, |m|, Cols(m));
    assert p == Padding(0, 0, 0, 0);
    var r, l := Padded(m, p), Lift(m);
    forall i | 0 <= i < |m| ensures r[i] == l[i] {
      assert |r[i]| == |l[i]|;
    }
  }

  /** Where a Python slice bound lands in a sequence of length len: negative bounds count
      from the end, and the result is clamped to 0..len. */
  function SliceBound(i: int, len: nat): nat {
    if i < 0 then (if i + len < 0 then 0 else i + len)
    else if i > len then len
    else i
  }

  /** How many elements `s[start:stop]` has when |s| == len. */
  function SliceLen(start: int, stop: int, len: nat): nat {
    if SliceBound(start, len) < SliceBound(stop, len) then SliceBound(stop, len) - SliceBound(start, len) else 0
  }

  /** `s[start:stop]` in Python. */
  function PySlice<T>(s: seq<T>, start: int, stop: int): seq<T> {
    if SliceBound(start, |s|) < SliceBound(stop, |s|) then s[SliceBound(start, |s|)..SliceBound(stop, |s|)] else []
  }

  /** A Python slice has SliceLen elements, taken in order from the landing point of its start. */
  lemma PySliceAt<T>(s: seq<T>, start: int, stop: int)
    ensures |PySlice(s, start, stop)| == SliceLen(start, stop, |s|)
    ensures forall i :: 0 <= i < |PySlice(s, start, stop)| ==>
              PySlice(s, start, stop)[i] == s[SliceBound(start, |s|) + i]
  {
  }

  /** A Python slice is never longer than the range it names. */
  lemma SliceLenBounded(start: int, stop: int, len: nat)
    requires start <= stop
    ensures SliceLen(start, stop, len) <= stop - start
  {
  }

  /** `a[:, start:stop]` on a 2-D array given as rows. */
  function SliceCols(rows: seq<seq<Square>>, start: int, stop: int): (r: seq<seq<Square>>)
    ensures |r| == |rows|
  {
    seq(|rows|, i requires 0 <= i < |rows| => PySlice(rows[i], start, stop))
  }

  /** `return_view((x, y), row_size, col_size)`: pads the map for the window edges
      x -/+ col_size and y -/+ row_size, then slices the padded matrix at those same,
      unshifted, edges. */
  function ReturnView(m: Grid, x: int, y: int, rowSize: int, colSize: int): seq<seq<Square>>
    requires IsRect(m)
  {
    SliceCols(PySlice(PadMatrix(x - colSize, x + colSize, y - rowSize, y + rowSize, m), x - colSize, x + colSize + 1),
              y - rowSize, y + rowSize + 1)
  }

  /** Slicing rows a:b and then columns c:d of a matrix whose rows all have length len. */
  lemma SliceGrid(t: seq<seq<Square>>, a: int, b: int, c: int, d: int, len: nat, u: seq<seq<Square>>)
    requires forall k :: 0 <= k < |t| ==> |t[k]| == len
    requires u == SliceCols(PySlice(t, a, b), c, d)
    ensures |u| == SliceLen(a, b, |t|)
    ensures forall i :: 0 <= i < |u| ==> |u[i]| == SliceLen(c, d, len)
    ensures forall i, j :: 0 <= i < |u| && 0 <= j < |u[i]| ==>
              u[i][j] == t[SliceBound(a, |t|) + i][SliceBound(c, len) + j]
  {
    var rows := PySlice(t, a, b);
    PySliceAt(t, a, b);
    forall i | 0 <= i < |u|
      ensures |u[i]| == SliceLen(c, d, len)
      ensures forall j :: 0 <= j < |u[i]| ==> u[i][j] == t[SliceBound(a, |t|) + i][SliceBound(c, len) + j]
    {
      var row := rows[i];
      assert row == t[SliceBound(a, |t|) + i];
      assert u[i] == PySlice(row, c, d);
      PySliceAt(row, c, d);
    }
  }

  /** Rows a:b and columns c:d of m padded by p: one row per padded row the row slice keeps,
      one entry per padded column the column slice keeps, and entry (i, j) the padded entry
      at the landing points of the two slice starts plus (i, j). */
  lemma PaddedSliceAt(m: Grid, p: Padding, a: int, b: int, c: int, d: int)
    requires IsRect(m)
    ensures var rows, cols := |m| + p.left + p.right, Cols(m) + p.top + p.bot;
            var u := SliceCols(PySlice(Padded(m, p), a, b), c, d);
            && |u| == SliceLen(a, b, rows)
            && (forall i :: 0 <= i < |u| ==> |u[i]| == SliceLen(c, d, cols))
            && (forall i, j :: 0 <= i < |u| && 0 <= j < |u[i]| ==>
                  u[i][j] == PadEntry(m, p, SliceBound(a, rows) + i, SliceBound(c, cols) + j))
  {
    var t := Padded(m, p);
    PaddedShape(m, p);
    SliceGrid(t, a, b, c, d, Cols(m) + p.top + p.bot, SliceCols(PySlice(t, a, b), c, d));
  }

  /** v is the h by w block of the rectangular m whose top-left corner is (r0, c0). */
  predicate IsBlock(v: seq<seq<Square>>, m: Grid, r0: int, c0: int, h: nat, w: nat) {
    && IsRect(m) && 0 <= r0 && r0 + h <= |m| && 0 <= c0 && c0 + w <= Cols(m)
    && |v| == h
    && (forall i :: 0 <= i < h ==> |v[i]| == w)
    && (forall i, j :: 0 <= i < h && 0 <= j < w ==> v[i][j] == Tile(m[r0 + i][c0 + j]))
  }

  /** Slicing inside the map a matrix padded only after its rows and columns picks the
      block of the map at the slice's corner. */
  lemma PaddedSliceInside(m: Grid, p: Padding, a: int, b: int, c: int, d: int, h: nat, w: nat,
                          u: seq<seq<Square>>)
    requires IsRect(m) && p.left == 0 && p.top == 0
    requires b == a + h && d == c + w
    requires 0 <= a && b <= |m| && 0 <= c && d <= Cols(m)
    requires u == SliceCols(PySlice(Padded(m, p), a, b), c, d)
    ensures IsBlock(u, m, a, c, h, w)
  {
    var rows, cols := |m| + p.left + p.right, Cols(m) + p.top + p.bot;
    PaddedSliceAt(m, p, a, b, c, d);
    assert SliceBound(a, rows) == a && SliceBound(c, cols) == c;
    assert SliceLen(a, b, rows) == h && SliceLen(c, d, cols) == w;
    forall i, j | 0 <= i < h && 0 <= j < w ensures u[i][j] == Tile(m[a + i][c + j]) {
      assert u[i][j] == PadEntry(m, p, a + i, c + j);
    }
  }

  lemma BlockAt(v: seq<seq<Square>>, m: Grid, r0: int, c0: int, h: nat, w: nat, i: int, j: int)
    requires IsBlock(v, m, r0, c0, h, w) && 0 <= i < h && 0 <= j < w
    ensures 0 <= r0 + i < |m| && 0 <= c0 + j < |m[r0 + i]| && v[i][j] == Tile(m[r0 + i][c0 + j])
  {
  }

  /** A window whose four edges lie inside the map is the exact (2*col_size+1) by
      (2*row_size+1) block of the map around (x, y). */
  lemma ReturnViewInside(m: Grid, x: int, y: int, rowSize: nat, colSize: nat)
    requires IsRect(m)
    requires 0 <= x - colSize && x + colSize < |m|
    requires 0 <= y - rowSize && y + rowSize < Cols(m)
    ensures IsBlock(ReturnView(m, x, y, rowSize, colSize), m, x - colSize, y - rowSize,
                    2 * colSize + 1, 2 * rowSize + 1)
  {
    var p := PadAmounts(x - colSize, x + colSize, y - rowSize, y + rowSize, |m|, Cols(m));
    PadAmountsInside(x - colSize, x + colSize, y - rowSize, y + rowSize, |m|, Cols(m));
    PaddedSliceInside(m, p, x - colSize, x + colSize + 1, y - rowSize, y + rowSize + 1,
                      2 * colSize + 1, 2 * rowSize + 1, ReturnView(m, x, y, rowSize, colSize));
  }

  /** Such a window has the agent's own cell at its centre. */
  lemma ReturnViewCentre(m: Grid, x: int, y: int, rowSize: nat, colSize: nat)
    requires IsRect(m)
    requires 0 <= x - colSize && x + colSize < |m|
    requires 0 <= y - rowSize && y + rowSize < Cols(m)
    ensures ReturnView(m, x, y, rowSize, colSize)[colSize][rowSize] == Tile(m[x][y])
  {
    ReturnViewInside(m, x, y, rowSize, colSize);
    BlockAt(ReturnView(m, x, y, rowSize, colSize), m, x - colSize, y - rowSize,
            2 * colSize + 1, 2 * rowSize + 1, colSize, rowSize);
  }

  /** A window never exceeds the requested (2*col_size+1) by (2*row_size+1) size. */
  lemma ReturnViewBounded(m: Grid, x: int, y: int, rowSize: nat, colSize: nat)
    requires IsRect(m)
    ensures var v := ReturnView(m, x, y, rowSize, colSize);
            && |v| <= 2 * colSize + 1
            && forall i :: 0 <= i < |v| ==> |v[i]| <= 2 * rowSize + 1
  {
    var p := PadAmounts(x - colSize, x + colSize, y - rowSize, y + rowSize, |m|, Cols(m));
    PaddedSliceAt(m, p, x - colSize, x + colSize + 1, y - rowSize, y + rowSize + 1);
    SliceLenBounded(x - colSize, x + colSize + 1, |m| + p.left + p.right);
    SliceLenBounded(y - rowSize, y + rowSize + 1, Cols(m) + p.top + p.bot);
  }

  /** Near the first row the slice start is negative and wraps round to the end of the
      padded matrix, past the slice stop: the window comes back empty. */
  lemma ReturnViewEmptyNearFirstRow(m: Grid, x: int, y: int, rowSize: int, colSize: int)
    requires IsRect(m)
    requires 0 <= x < colSize && x + colSize < |m|
    ensures ReturnView(m, x, y, rowSize, colSize) == []
  {
    var p := PadAmounts(x - colSize, x + colSize, y - rowSize, y + rowSize, |m|, Cols(m));
    PaddedSliceAt(m, p, x - colSize, x + colSize + 1, y - rowSize, y + rowSize + 1);
    assert SliceLen(x - colSize, x + colSize + 1, |m| + p.left + p.right) == 0;
  }

  /** Near the first column every row of the window comes back empty, for the same reason. */
  lemma ReturnViewEmptyNearFirstColumn(m: Grid, x: int, y: int, rowSize: int, colSize: int)
    requires IsRect(m)
    requires 0 <= y < rowSize && y + rowSize < Cols(m)
    ensures forall i :: 0 <= i < |ReturnView(m, x, y, rowSize, colSize)| ==>
              ReturnView(m, x, y, rowSize, colSize)[i] == []
  {
    var p := PadAmounts(x - colSize, x + colSize, y - rowSize, y + rowSize, |m|, Cols(m));
    PaddedSliceAt(m, p, x - colSize, x + colSize + 1, y - rowSize, y + rowSize + 1);
    assert SliceLen(y - rowSize, y + rowSize + 1, Cols(m) + p.top + p.bot) == 0;
  }
}

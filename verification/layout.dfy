/** The classification loop of `HarvestEnv.__init__`: the spawn, apple and wall points of
    the base map, each in row-major order. */
module Layout {
  import opened Board

  /** p comes strictly before q in row-major order. */
  predicate Before(p: Pos, q: Pos) {
    p.row < q.row || (p.row == q.row && p.col < q.col)
  }

  /** The cells of row `row` among its first n columns that hold ch, left to right. */
  function RowPoints(base: seq<seq<char>>, row: nat, n: nat, ch: char): seq<Pos>
    requires row < |base| && n <= |base[row]|
  {
    if n == 0 then []
    else RowPoints(base, row, n - 1, ch) + (if base[row][n - 1] == ch then [Pos(row, n - 1)] else [])
  }

  /** The cells of the first n rows that hold ch, in row-major order. */
  function PointsIn(base: seq<seq<char>>, n: nat, ch: char): seq<Pos>
    requires IsRect(base) && n <= |base|
  {
    if n == 0 then [] else PointsIn(base, n - 1, ch) + RowPoints(base, n - 1, Cols(base), ch)
  }

  /** Every cell of the base map holding ch, in the order the classification loop visits them. */
  function PointsOf(base: seq<seq<char>>, ch: char): seq<Pos>
    requires IsRect(base)
  {
    PointsIn(base, |base|, ch)
  }

  /** A row's points are its cells holding ch, all in that row and strictly left to right. */
  lemma {:induction false} RowPointsSpec(base: seq<seq<char>>, row: nat, n: nat, ch: char)
    requires row < |base| && n <= |base[row]|
    ensures var r := RowPoints(base, row, n, ch);
            && (forall p :: p in r <==> p.row == row && 0 <= p.col < n && base[row][p.col] == ch)
            && (forall k :: 0 <= k < |r| ==> r[k].row == row && 0 <= r[k].col < n)
            && (forall i, j :: 0 <= i < j < |r| ==> Before(r[i], r[j]))
  {
    if n > 0 {
      RowPointsSpec(base, row, n - 1, ch);
    }
  }

  /** The first n rows' points are their cells holding ch, in strictly increasing row-major order. */
  lemma {:induction false} PointsInSpec(base: seq<seq<char>>, n: nat, ch: char)
    requires IsRect(base) && n <= |base|
    ensures var r := PointsIn(base, n, ch);
            && (forall p :: p in r <==> 0 <= p.row < n && 0 <= p.col < Cols(base) && base[p.row][p.col] == ch)
            && (forall k :: 0 <= k < |r| ==> 0 <= r[k].row < n)
            && (forall i, j :: 0 <= i < j < |r| ==> Before(r[i], r[j]))
  {
    if n > 0 {
      PointsInSpec(base, n - 1, ch);
      RowPointsSpec(base, n - 1, Cols(base), ch);
      var init, last := PointsIn(base, n - 1, ch), RowPoints(base, n - 1, Cols(base), ch);
      assert PointsIn(base, n, ch) == init + last;
      assert forall i, j :: 0 <= i < |init| && 0 <= j < |last| ==> Before(init[i], last[j]);
    }
  }

  /** A point is listed exactly when it lies on the base map and holds ch. */
  lemma PointsOfSpec(base: seq<seq<char>>, ch: char, p: Pos)
    requires IsRect(base)
    ensures p in PointsOf(base, ch) <==> 0 <= p.row < |base| && 0 <= p.col < Cols(base) && base[p.row][p.col] == ch
  {
    PointsInSpec(base, |base|, ch);
  }

  /** Every listed point lies on the base map. */
  lemma PointsOfBounds(base: seq<seq<char>>, ch: char)
    requires IsRect(base)
    ensures forall k :: 0 <= k < |PointsOf(base, ch)| ==>
              0 <= PointsOf(base, ch)[k].row < |base| && 0 <= PointsOf(base, ch)[k].col < Cols(base)
  {
    PointsInSpec(base, |base|, ch);
    forall k | 0 <= k < |PointsOf(base, ch)|
      ensures 0 <= PointsOf(base, ch)[k].row < |base| && 0 <= PointsOf(base, ch)[k].col < Cols(base)
    {
      assert PointsOf(base, ch)[k] in PointsOf(base, ch);
    }
  }

  /** The listed points are strictly increasing in row-major order, so none repeats. */
  lemma PointsOfOrdered(base: seq<seq<char>>, ch: char)
    requires IsRect(base)
    ensures forall i, j :: 0 <= i < j < |PointsOf(base, ch)| ==> Before(PointsOf(base, ch)[i], PointsOf(base, ch)[j])
    ensures forall i, j :: 0 <= i < j < |PointsOf(base, ch)| ==> PointsOf(base, ch)[i] != PointsOf(base, ch)[j]
  {
    PointsInSpec(base, |base|, ch);
  }

  /** The points of two different characters never meet. */
  lemma PointsOfDisjoint(base: seq<seq<char>>, c1: char, c2: char, p: Pos)
    requires IsRect(base) && c1 != c2
    ensures !(p in PointsOf(base, c1) && p in PointsOf(base, c2))
  {
    PointsOfSpec(base, c1, p);
    PointsOfSpec(base, c2, p);
  }

  /** The loop itself: one row-major pass, each cell tested for 'P', then 'A', then '@'. */
  method ClassifyLayout(base: seq<seq<char>>) returns (spawns: seq<Pos>, apples: seq<Pos>, walls: seq<Pos>)
    requires IsRect(base)
    ensures spawns == PointsOf(base, 'P')
    ensures apples == PointsOf(base, 'A')
    ensures walls == PointsOf(base, '@')
  {
    spawns, apples, walls := [], [], [];
    for row := 0 to |base|
      invariant spawns == PointsIn(base, row, 'P')
      invariant apples == PointsIn(base, row, 'A')
      invariant walls == PointsIn(base, row, '@')
    {
      for col := 0 to Cols(base)
        invariant spawns == PointsIn(base, row, 'P') + RowPoints(base, row, col, 'P')
        invariant apples == PointsIn(base, row, 'A') + RowPoints(base, row, col, 'A')
        invariant walls == PointsIn(base, row, '@') + RowPoints(base, row, col, '@')
      {
        if base[row][col] == 'P' {
          spawns := spawns + [Pos(row, col)];
        } else if base[row][col] == 'A' {
          apples := apples + [Pos(row, col)];
        } else if base[row][col] == '@' {
          walls := walls + [Pos(row, col)];
        }
      }
    }
  }
}

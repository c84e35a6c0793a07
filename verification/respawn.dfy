/** Apple regrowth: `count_apples` over a `return_view` window and the spawn table of
    `spawn_apples`, with the random draws supplied by the caller. */
module Respawn {
  import opened Board
  import opened Window

  /** `APPLE_RADIUS`: the window around an apple point reaches this far on each side. */
  const AppleRadius: nat := 2

  /** `SPAWN_PROB`, indexed by the number of apples in the window, capped at 3. */
  const SpawnProb: seq<real> := [0.0, 0.005, 0.02, 0.05]

  /** The entries of a window row by row, as numpy's `unique` sees them. */
  function Flatten(v: seq<seq<Square>>): seq<Square> {
    if v == [] then [] else Flatten(v[..|v| - 1]) + v[|v| - 1]
  }

  /** `count_apples`: how many entries of the window are apples. */
  function CountApples(v: seq<seq<Square>>): nat {
    multiset(Flatten(v))[Tile(Apple)]
  }

  /** A value occurs in the flattened window exactly when some entry holds it. */
  lemma {:induction false} FlattenHas(v: seq<seq<Square>>, x: Square)
    ensures x in Flatten(v) <==> exists i, j :: 0 <= i < |v| && 0 <= j < |v[i]| && v[i][j] == x
    decreases |v|
  {
    if v != [] {
      var init := v[..|v| - 1];
      FlattenHas(init, x);
      if x in Flatten(v) && x !in Flatten(init) {
        var j :| 0 <= j < |v[|v| - 1]| && v[|v| - 1][j] == x;
        assert v[|v| - 1][j] == x;
      }
      if exists i, j :: 0 <= i < |v| && 0 <= j < |v[i]| && v[i][j] == x {
        var i, j :| 0 <= i < |v| && 0 <= j < |v[i]| && v[i][j] == x;
        if i < |v| - 1 {
          assert init[i][j] == x;
        } else {
          assert v[|v| - 1][j] in Flatten(v);
        }
      }
    }
  }

  /** A window of at most h rows, each of at most w entries, has at most h * w entries. */
  lemma {:induction false} FlattenSize(v: seq<seq<Square>>, h: nat, w: nat)
    requires |v| <= h && forall i :: 0 <= i < |v| ==> |v[i]| <= w
    ensures |Flatten(v)| <= h * w
    decreases |v|
  {
    if v != [] {
      FlattenSize(v[..|v| - 1], h - 1, w);
      assert (h - 1) * w + w == h * w;
    }
  }

  /** The count is zero exactly when no entry of the window is an apple, and never more
      than the window has entries. */
  lemma CountApplesZero(v: seq<seq<Square>>)
    ensures CountApples(v) <= |Flatten(v)|
    ensures CountApples(v) == 0 <==>
              forall i, j :: 0 <= i < |v| && 0 <= j < |v[i]| ==> v[i][j] != Tile(Apple)
  {
    FlattenHas(v, Tile(Apple));
    assert |multiset(Flatten(v))| == |Flatten(v)|;
  }

  /** The table index `min(num_apples, 3)`. */
  function TableIndex(n: nat): (k: nat)
    ensures k < |SpawnProb|
    ensures k <= n
  {
    if n < 3 then n else 3
  }

  function SpawnChance(n: nat): real {
    SpawnProb[TableIndex(n)]
  }

  /** The chance grows with the number of apples nearby and is zero only with none. */
  lemma SpawnChanceMonotone(n: nat, n': nat)
    requires n <= n'
    ensures SpawnChance(n) <= SpawnChance(n')
    ensures SpawnChance(n) == 0.0 <==> n == 0
  {
  }

  /** The apples in the window `return_view((x, y), APPLE_RADIUS, APPLE_RADIUS)`. */
  function LocalApples(g: Grid, x: int, y: int): nat
    requires IsRect(g)
  {
    CountApples(ReturnView(g, x, y, AppleRadius, AppleRadius))
  }

  /** The count lies between 0 and the 5 by 5 window size. */
  lemma LocalApplesBounded(g: Grid, x: int, y: int)
    requires IsRect(g)
    ensures LocalApples(g, x, y) <= (2 * AppleRadius + 1) * (2 * AppleRadius + 1)
  {
    var v := ReturnView(g, x, y, AppleRadius, AppleRadius);
    ReturnViewBounded(g, x, y, AppleRadius, AppleRadius);
    FlattenSize(v, 2 * AppleRadius + 1, 2 * AppleRadius + 1);
    CountApplesZero(v);
  }

  /** Away from the map edges the count is zero exactly when the 5 by 5 block of the map
      around (x, y) holds no apple. */
  lemma LocalApplesInside(g: Grid, x: int, y: int)
    requires IsRect(g)
    requires 0 <= x - AppleRadius && x + AppleRadius < |g|
    requires 0 <= y - AppleRadius && y + AppleRadius < Cols(g)
    ensures LocalApples(g, x, y) == 0 <==>
              forall i, j :: (x - AppleRadius <= i <= x + AppleRadius &&
                              y - AppleRadius <= j <= y + AppleRadius) ==> g[i][j] != Apple
  {
    ReturnViewInside(g, x, y, AppleRadius, AppleRadius);
    BlockApples(ReturnView(g, x, y, AppleRadius, AppleRadius), g, x - AppleRadius, y - AppleRadius,
                2 * AppleRadius + 1, 2 * AppleRadius + 1);
  }

  /** A block of the map counts no apple exactly when the map holds none in the block. */
  lemma BlockApples(v: seq<seq<Square>>, m: Grid, r0: int, c0: int, h: nat, w: nat)
    requires IsBlock(v, m, r0, c0, h, w)
    ensures CountApples(v) == 0 <==>
              forall i, j :: (r0 <= i < r0 + h && c0 <= j < c0 + w) ==> m[i][j] != Apple
  {
    CountApplesZero(v);
    if CountApples(v) == 0 {
      forall i, j | r0 <= i < r0 + h && c0 <= j < c0 + w ensures m[i][j] != Apple {
        BlockAt(v, m, r0, c0, h, w, i - r0, j - c0);
      }
    } else {
      var i, j :| 0 <= i < |v| && 0 <= j < |v[i]| && v[i][j] == Tile(Apple);
      BlockAt(v, m, r0, c0, h, w, i, j);
    }
  }

  /** Within two rows of the first row the window comes back empty, so the count is 0. */
  lemma LocalApplesNearFirstRow(g: Grid, x: int, y: int)
    requires IsRect(g)
    requires 0 <= x < AppleRadius && x + AppleRadius < |g|
    ensures LocalApples(g, x, y) == 0
  {
    ReturnViewEmptyNearFirstRow(g, x, y, AppleRadius, AppleRadius);
  }

  /** Within two columns of the first column every window row is empty: the count is 0. */
  lemma LocalApplesNearFirstColumn(g: Grid, x: int, y: int)
    requires IsRect(g)
    requires 0 <= y < AppleRadius && y + AppleRadius < Cols(g)
    ensures LocalApples(g, x, y) == 0
  {
    var v := ReturnView(g, x, y, AppleRadius, AppleRadius);
    ReturnViewEmptyNearFirstColumn(g, x, y, AppleRadius, AppleRadius);
    CountApplesZero(v);
  }

  /** The chance the window of each apple point gives, in apple-point order. */
  function Chances(g: Grid, pts: seq<Pos>): (cs: seq<real>)
    requires IsRect(g)
    ensures |cs| == |pts|
  {
    seq(|pts|, i requires 0 <= i < |pts| => SpawnChance(LocalApples(g, pts[i].row, pts[i].col)))
  }

  /** An `(r, c, 'A')` reservation for every point whose draw falls below its chance, in order. */
  function Kept(pts: seq<Pos>, draws: seq<real>, chances: seq<real>): (r: seq<Reservation>)
    requires |draws| == |pts| && |chances| == |pts|
    ensures |r| <= |pts|
    ensures forall k :: 0 <= k < |r| ==> r[k].AppleSlot?
    decreases |pts|
  {
    if pts == [] then []
    else
      var n := |pts| - 1;
      Kept(pts[..n], draws[..n], chances[..n]) +
        (if draws[n] < chances[n] then [AppleSlot(pts[n].row, pts[n].col)] else [])
  }

  lemma KeptPrefix(pts: seq<Pos>, draws: seq<real>, chances: seq<real>, i: nat)
    requires |draws| == |pts| && |chances| == |pts| && i < |pts|
    ensures Kept(pts[..i + 1], draws[..i + 1], chances[..i + 1])
            == Kept(pts[..i], draws[..i], chances[..i]) +
               (if draws[i] < chances[i] then [AppleSlot(pts[i].row, pts[i].col)] else [])
  {
    assert pts[..i + 1][..i] == pts[..i];
    assert draws[..i + 1][..i] == draws[..i];
    assert chances[..i + 1][..i] == chances[..i];
  }

  /** `spawn_apples`: the apple points whose draws fall below the chance their windows give. */
  function SpawnSlots(g: Grid, pts: seq<Pos>, draws: seq<real>): seq<Reservation>
    requires IsRect(g) && |draws| == |pts|
  {
    Kept(pts, draws, Chances(g, pts))
  }

  /** The positions a reservation list names, in order. */
  function Places(rs: seq<Reservation>): (ps: seq<Pos>)
    ensures |ps| == |rs| && forall k :: 0 <= k < |rs| ==> ps[k] == rs[k].Where()
  {
    seq(|rs|, k requires 0 <= k < |rs| => rs[k].Where())
  }

  /** a can be obtained from b by deleting elements. */
  predicate IsSubseq<T(==)>(a: seq<T>, b: seq<T>)
    decreases |b|
  {
    if b == [] then a == []
    else (a != [] && a[|a| - 1] == b[|b| - 1] && IsSubseq(a[..|a| - 1], b[..|b| - 1]))
         || IsSubseq(a, b[..|b| - 1])
  }

  /** The kept reservations name, in order, a subsequence of the points. */
  lemma {:induction false} KeptSubseq(pts: seq<Pos>, draws: seq<real>, chances: seq<real>)
    requires |draws| == |pts| && |chances| == |pts|
    ensures IsSubseq(Places(Kept(pts, draws, chances)), pts)
    decreases |pts|
  {
    if pts != [] {
      var n := |pts| - 1;
      KeptSubseq(pts[..n], draws[..n], chances[..n]);
      var init := Places(Kept(pts[..n], draws[..n], chances[..n]));
      var r := Places(Kept(pts, draws, chances));
      if draws[n] < chances[n] {
        assert r[..|r| - 1] == init;
      } else {
        assert r == init;
      }
    }
  }

  /** A point is kept exactly when one of its draws falls below its chance. */
  lemma {:induction false} KeptHas(pts: seq<Pos>, draws: seq<real>, chances: seq<real>, q: Pos)
    requires |draws| == |pts| && |chances| == |pts|
    ensures AppleSlot(q.row, q.col) in Kept(pts, draws, chances) <==>
              exists i :: 0 <= i < |pts| && pts[i] == q && draws[i] < chances[i]
    decreases |pts|
  {
    if pts != [] {
      var n := |pts| - 1;
      KeptHas(pts[..n], draws[..n], chances[..n], q);
      if exists i :: 0 <= i < |pts| && pts[i] == q && draws[i] < chances[i] {
        var i :| 0 <= i < |pts| && pts[i] == q && draws[i] < chances[i];
        if i < n {
          assert pts[..n][i] == q && draws[..n][i] < chances[..n][i];
        }
      }
    }
  }

  /** The reservations name, in order, a subsequence of the apple points. */
  lemma SpawnSlotsSubseq(g: Grid, pts: seq<Pos>, draws: seq<real>)
    requires IsRect(g) && |draws| == |pts|
    ensures IsSubseq(Places(SpawnSlots(g, pts, draws)), pts)
    ensures forall k :: 0 <= k < |SpawnSlots(g, pts, draws)| ==> SpawnSlots(g, pts, draws)[k].AppleSlot?
  {
    KeptSubseq(pts, draws, Chances(g, pts));
  }

  /** A point gets a reservation exactly when one of its draws falls below the chance of
      its window. */
  lemma SpawnSlotsHas(g: Grid, pts: seq<Pos>, draws: seq<real>, q: Pos)
    requires IsRect(g) && |draws| == |pts|
    ensures AppleSlot(q.row, q.col) in SpawnSlots(g, pts, draws) <==>
              exists i :: 0 <= i < |pts| && pts[i] == q && draws[i] < SpawnChance(LocalApples(g, q.row, q.col))
  {
    var cs := Chances(g, pts);
    KeptHas(pts, draws, cs, q);
    assert forall i :: 0 <= i < |pts| && pts[i] == q ==> cs[i] == SpawnChance(LocalApples(g, q.row, q.col));
  }

  /** With draws from [0, 1), a point with no apple in its window never spawns; neither does
      one within two rows of the first row or two columns of the first column. */
  lemma NoSpawnWithoutApples(g: Grid, pts: seq<Pos>, draws: seq<real>, q: Pos)
    requires IsRect(g) && |draws| == |pts|
    requires forall i :: 0 <= i < |draws| ==> 0.0 <= draws[i] < 1.0
    requires LocalApples(g, q.row, q.col) == 0 ||
             (0 <= q.row < AppleRadius && q.row + AppleRadius < |g|) ||
             (0 <= q.col < AppleRadius && q.col + AppleRadius < Cols(g))
    ensures AppleSlot(q.row, q.col) !in SpawnSlots(g, pts, draws)
  {
    if 0 <= q.row < AppleRadius && q.row + AppleRadius < |g| {
      LocalApplesNearFirstRow(g, q.row, q.col);
    } else if 0 <= q.col < AppleRadius && q.col + AppleRadius < Cols(g) {
      LocalApplesNearFirstColumn(g, q.row, q.col);
    }
    SpawnSlotsHas(g, pts, draws, q);
  }
}

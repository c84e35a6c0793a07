/** The two cell-by-cell rewrites that restore and plant: the loops of
    `clean_firing_points` and `update_map_apples`, as functions of the grid. */
module Cover {
  import opened Board

  /** What a former beam cell becomes: an apple if one was hidden there, else a player if
      an agent stands there, else empty. */
  function Uncovered(p: Pos, hiddenApples: seq<Pos>, occupied: set<Pos>): Cell {
    if p in hiddenApples then Apple else if p in occupied then Player else Empty
  }

  /** Restores every listed beam cell, in list order. */
  function Uncover(g: Grid, fs: seq<Pos>, hiddenApples: seq<Pos>, occupied: set<Pos>): (h: Grid)
    requires AllIn(g, fs)
    ensures SameShape(h, g)
    decreases |fs|
  {
    if fs == [] then g
    else
      var last := fs[|fs| - 1];
      Set(Uncover(g, fs[..|fs| - 1], hiddenApples, occupied), last, Uncovered(last, hiddenApples, occupied))
  }

  /** Restoring one more listed cell is one more write. */
  lemma UncoverPrefix(g: Grid, fs: seq<Pos>, hiddenApples: seq<Pos>, occupied: set<Pos>, i: nat)
    requires i < |fs| && AllIn(g, fs[..i + 1])
    ensures AllIn(g, fs[..i]) && InBounds(g, fs[i])
    ensures Uncover(g, fs[..i + 1], hiddenApples, occupied)
            == Set(Uncover(g, fs[..i], hiddenApples, occupied), fs[i], Uncovered(fs[i], hiddenApples, occupied))
  {
    assert fs[..i + 1][..i] == fs[..i];
  }

  lemma {:induction false} UncoverAt(g: Grid, fs: seq<Pos>, hiddenApples: seq<Pos>, occupied: set<Pos>, q: Pos)
    requires AllIn(g, fs) && InBounds(g, q)
    ensures At(Uncover(g, fs, hiddenApples, occupied), q)
            == if q in fs then Uncovered(q, hiddenApples, occupied) else At(g, q)
    decreases |fs|
  {
    if fs != [] {
      var init := fs[..|fs| - 1];
      assert fs == init + [fs[|fs| - 1]];
      UncoverAt(g, init, hiddenApples, occupied, q);
    }
  }

  /** What a listed cell holding c becomes: players and beams are left alone, anything else
      becomes an apple. */
  function Planted(c: Cell): Cell {
    if c == Player || c == Beam then c else Apple
  }

  /** Plants every listed cell, in list order, each decision taken on the current grid. */
  function PlantAll(g: Grid, pts: seq<Pos>): (h: Grid)
    requires AllIn(g, pts)
    ensures SameShape(h, g)
    decreases |pts|
  {
    if pts == [] then g
    else
      var h := PlantAll(g, pts[..|pts| - 1]);
      var p := pts[|pts| - 1];
      Set(h, p, Planted(At(h, p)))
  }

  /** Planting one more listed cell is one more decision, taken on the grid planted so far. */
  lemma PlantPrefix(g: Grid, pts: seq<Pos>, i: nat)
    requires i < |pts| && AllIn(g, pts[..i + 1])
    ensures AllIn(g, pts[..i]) && InBounds(g, pts[i])
    ensures PlantAll(g, pts[..i + 1])
            == Set(PlantAll(g, pts[..i]), pts[i], Planted(At(PlantAll(g, pts[..i]), pts[i])))
  {
    assert pts[..i + 1][..i] == pts[..i];
  }

  lemma {:induction false} PlantAt(g: Grid, pts: seq<Pos>, q: Pos)
    requires AllIn(g, pts) && InBounds(g, q)
    ensures At(PlantAll(g, pts), q) == if q in pts then Planted(At(g, q)) else At(g, q)
    decreases |pts|
  {
    if pts != [] {
      var init := pts[..|pts| - 1];
      assert pts == init + [pts[|pts| - 1]];
      PlantAt(g, init, q);
      if q == pts[|pts| - 1] {
        PlantAt(g, init, q);
      }
    }
  }

  /** Deferring one more listed cell adds it exactly when it held a beam hiding no agent. */
  lemma DeferredPrefix(g: Grid, pts: seq<Pos>, hiddenAgents: seq<Pos>, i: nat)
    requires i < |pts| && AllIn(g, pts[..i + 1])
    ensures AllIn(g, pts[..i]) && InBounds(g, pts[i])
    ensures Deferred(g, pts[..i + 1], hiddenAgents)
            == Deferred(g, pts[..i], hiddenAgents) + (if At(g, pts[i]) == Beam && pts[i] !in hiddenAgents then [pts[i]] else [])
  {
    assert pts[..i + 1][..i] == pts[..i];
  }

  /** The listed cells under a beam that no agent was hidden under: the apples that
      `update_map_apples` defers into `hidden_apples`, in list order. */
  function Deferred(g: Grid, pts: seq<Pos>, hiddenAgents: seq<Pos>): (r: seq<Pos>)
    requires AllIn(g, pts)
    ensures |r| <= |pts|
    decreases |pts|
  {
    if pts == [] then []
    else
      var init, last := pts[..|pts| - 1], pts[|pts| - 1];
      assert pts == init + [last];
      Deferred(g, init, hiddenAgents) + (if At(g, last) == Beam && last !in hiddenAgents then [last] else [])
  }

  /** A point is deferred exactly when it is listed, held a beam and hid no agent. */
  lemma {:induction false} DeferredHas(g: Grid, pts: seq<Pos>, hiddenAgents: seq<Pos>, p: Pos)
    requires AllIn(g, pts)
    ensures p in Deferred(g, pts, hiddenAgents) <==>
              p in pts && InBounds(g, p) && At(g, p) == Beam && p !in hiddenAgents
    decreases |pts|
  {
    if pts != [] {
      var init := pts[..|pts| - 1];
      assert pts == init + [pts[|pts| - 1]];
      DeferredHas(g, init, hiddenAgents, p);
    }
  }
}

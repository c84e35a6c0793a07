/** The Harvest engine as functions of its state: one function per method of `HarvestEnv`,
    each giving the state the method leaves behind, and the invariant they keep. */
module Engine {
  import opened Board
  import opened Beam
  import opened Cover
  import opened Layout
  import opened Respawn

  /** What the engine reads of an agent: where it stands and which way it faces. */
  datatype Agent = Agent(pos: Pos, orientation: Orientation)

  /** The errors the engine can raise: the `KeyError`s of `update_map` for an agent id missing
      from `self.agents` or an action name missing from `ACTIONS`, and the `ValueError` numpy
      raises when a character is written into the float array of zeros that `MapEnv.__init__`
      installs as `self.map` and that only `reset_map` replaces, and the `IndexError` of
      `reset_map`'s `self.base_map[0]` on a base map with no rows. */
  datatype Fault = UnknownAgent(id: AgentId) | UnknownAction(name: string) | NumericMap | NoRows

  /** The helpers the Harvest code calls but does not define: the key set of `ACTIONS`,
      `rotate_action(ACTIONS[name], orientation)` as an offset, and `update_rotation`. */
  datatype Rules = Rules(actions: set<string>,
                         rotate: (string, Orientation) -> Pos,
                         turn: (string, Orientation) -> Orientation)
  {
    /** harvest.py adds the key 'FIRE' to `ACTIONS` when it is imported. */
    predicate KnowsFire() {
      "FIRE" in actions
    }
  }

  /** The fields of a `HarvestEnv` the engine reads and writes. */
  datatype World = World(
    base: seq<seq<char>>,
    grid: Grid,
    agents: map<AgentId, Agent>,
    applePoints: seq<Pos>,
    wallPoints: seq<Pos>,
    spawnPoints: seq<Pos>,
    firingPoints: seq<Pos>,
    hiddenApples: seq<Pos>,
    hiddenAgents: seq<Pos>,
    reservedSlots: seq<Reservation>,
    charMap: bool)

  /** The world an `update_map` call leaves, and the fault it stopped at, if any. */
  datatype Outcome = Outcome(world: World, fault: Option<Fault>)

  /** g has the shape of the base map. */
  predicate Shaped(g: Grid, base: seq<seq<char>>) {
    |g| == |base| && forall i :: 0 <= i < |g| ==> |g[i]| == Cols(base)
  }

  /** The invariant every operation keeps: the map has the base map's shape, the layout lists
      are those of the base map, every firing point is on the map and holds a beam, every
      apple or beam reservation names a cell on the map, the numeric map is all zeros (a grid
      of `Empty`), and the walls are fixed. */
  ghost predicate Valid(w: World) {
    && IsRect(w.base)
    && Shaped(w.grid, w.base)
    && w.applePoints == PointsOf(w.base, 'A')
    && w.wallPoints == PointsOf(w.base, '@')
    && AllIn(w.grid, w.applePoints)
    && AllIn(w.grid, w.wallPoints)
    && AllBeams(w.grid, w.firingPoints)
    && SlotsIn(w.grid, w.reservedSlots)
    && (!w.charMap ==> w.grid == Blank(w.base))
    && Walled(w)
  }

  /** The walls are fixed: once the character map exists every wall point holds a wall, no
      other cell ever does, and no apple or beam reservation names a wall point. */
  ghost predicate Walled(w: World) {
    && (w.charMap ==> forall k :: 0 <= k < |w.wallPoints| ==> InBounds(w.grid, w.wallPoints[k]) && At(w.grid, w.wallPoints[k]) == Wall)
    && (forall q :: InBounds(w.grid, q) && At(w.grid, q) == Wall ==> q in w.wallPoints)
    && (forall r :: r in w.reservedSlots && !r.PlayerSlot? ==> r.Where() !in w.wallPoints)
  }

  /** Every listed cell is on the map and holds a beam. */
  predicate AllBeams(g: Grid, ps: seq<Pos>) {
    AllIn(g, ps) && forall k :: 0 <= k < |ps| ==> At(g, ps[k]) == Beam
  }

  /** The cells the agents stand on (`agent_pos` of `clean_firing_points`). */
  function Occupied(agents: map<AgentId, Agent>): set<Pos> {
    set id | id in agents :: agents[id].pos
  }

  /** `clean_firing_points`: every firing point restored, the three lists emptied. */
  function Clean(w: World): World
    requires AllIn(w.grid, w.firingPoints)
  {
    w.(grid := Uncover(w.grid, w.firingPoints, w.hiddenApples, Occupied(w.agents)),
       firingPoints := [], hiddenApples := [], hiddenAgents := [])
  }

  /** `clean_firing_points` as it runs: on the numeric map its first write raises, before any
      field changes. */
  function CleanOutcome(w: World): Outcome
    requires AllIn(w.grid, w.firingPoints)
  {
    if !w.charMap && w.firingPoints != [] then Outcome(w, Some(NumericMap)) else Outcome(Clean(w), None)
  }

  /** `(r, c, 'F')` for every cell, in order. */
  function BeamSlots(cells: seq<Pos>): (rs: seq<Reservation>)
    ensures |rs| == |cells|
    ensures forall k :: 0 <= k < |cells| ==> rs[k] == BeamSlot(cells[k].row, cells[k].col)
  {
    seq(|cells|, k requires 0 <= k < |cells| => BeamSlot(cells[k].row, cells[k].col))
  }

  /** What a beam reserves is exactly what `execute_custom_reservations` commits as beams:
      its own cells, in order, and no apple. */
  lemma {:induction false} BeamSlotsCommitted(cells: seq<Pos>)
    ensures BeamPlaces(BeamSlots(cells)) == cells
    ensures ApplePlaces(BeamSlots(cells)) == []
    decreases |cells|
  {
    if cells != [] {
      var init := cells[..|cells| - 1];
      var rs := BeamSlots(cells);
      assert rs[..|rs| - 1] == BeamSlots(init);
      BeamSlotsCommitted(init);
      assert cells == init + [cells[|cells| - 1]];
    }
  }

  lemma BeamSlotsPrefix(cells: seq<Pos>, i: nat)
    requires i < |cells|
    ensures BeamSlots(cells[..i + 1]) == BeamSlots(cells[..i]) + [BeamSlot(cells[i].row, cells[i].col)]
  {
  }

  /** The state `update_map_fire(from, o)` leaves: the beam written into the map, the apples
      and agents under it logged in order. */
  function FireWorld(w: World, from: Pos, o: Orientation): World {
    RayOpen(w.grid, from, o);
    Beamed(w, Ray(w.grid, from, o))
  }

  /** The state once a beam covers `cells`: each turned into a beam, the apples and the
      agents under them logged in order. */
  function Beamed(w: World, cells: seq<Pos>): World
    requires AllIn(w.grid, cells)
  {
    w.(grid := Paint(w.grid, cells, Beam),
       hiddenApples := w.hiddenApples + Masked(w.grid, cells, Apple),
       hiddenAgents := w.hiddenAgents + Masked(w.grid, cells, Player))
  }

  /** s contains t as a contiguous piece (Python's `t in s` on strings). */
  predicate Contains(s: string, t: string)
    decreases |s|
  {
    (|t| <= |s| && s[..|t|] == t) || (|s| > 0 && Contains(s[1..], t))
  }

  /** One pass of the `update_map` loop for the pair (id, name). A beam on the numeric map
      raises at its first write, which happens exactly when the first cell ahead is on the map:
      a number is never '@', 'A' or 'P'. */
  function Act(w: World, id: AgentId, name: string, rules: Rules): Outcome {
    if id !in w.agents then Outcome(w, Some(UnknownAgent(id)))
    else if name !in rules.actions then Outcome(w, Some(UnknownAction(name)))
    else
      var a := w.agents[id];
      if Contains(name, "MOVE") || Contains(name, "STAY") then
        var off := rules.rotate(name, a.orientation);
        Outcome(w.(reservedSlots := w.reservedSlots + [PlayerSlot(a.pos.row + off.row, a.pos.col + off.col, id)]),
                None)
      else if Contains(name, "TURN") then
        Outcome(w.(agents := w.agents[id := a.(orientation := rules.turn(name, a.orientation))]), None)
      else if !w.charMap && InBounds(w.grid, Step(a.pos, a.orientation)) then Outcome(w, Some(NumericMap))
      else
        var fired := FireWorld(w, a.pos, a.orientation);
        Outcome(fired.(reservedSlots := w.reservedSlots + BeamSlots(Ray(w.grid, a.pos, a.orientation))), None)
  }

  /** The `update_map` loop over the actions in order, stopping at the first fault. */
  function ActAll(w: World, acts: seq<(AgentId, string)>, rules: Rules): Outcome
    decreases |acts|
  {
    if acts == [] then Outcome(w, None)
    else
      var before := ActAll(w, acts[..|acts| - 1], rules);
      if before.fault.Some? then before
      else Act(before.world, acts[|acts| - 1].0, acts[|acts| - 1].1, rules)
  }

  /** `update_map`: the firing points cleaned, then every action applied in order. */
  function UpdateMap(w: World, acts: seq<(AgentId, string)>, rules: Rules): Outcome
    requires AllIn(w.grid, w.firingPoints) && rules.KnowsFire()
  {
    var cleaned := CleanOutcome(w);
    if cleaned.fault.Some? then cleaned else ActAll(cleaned.world, acts, rules)
  }

  /** `update_map_apples(pts)`. */
  function PlantApples(w: World, pts: seq<Pos>): World
    requires AllIn(w.grid, pts)
  {
    w.(grid := PlantAll(w.grid, pts), hiddenApples := w.hiddenApples + Deferred(w.grid, pts, w.hiddenAgents))
  }

  /** The cells of the apple reservations, in reservation order. */
  function ApplePlaces(rs: seq<Reservation>): seq<Pos>
    decreases |rs|
  {
    if rs == [] then []
    else
      var init, last := rs[..|rs| - 1], rs[|rs| - 1];
      assert rs == init + [last];
      ApplePlaces(init) + (if last.AppleSlot? then [last.Where()] else [])
  }

  /** A cell is listed exactly when some apple reservation names it. */
  lemma {:induction false} ApplePlacesHas(rs: seq<Reservation>, p: Pos)
    ensures p in ApplePlaces(rs) <==> AppleSlot(p.row, p.col) in rs
    decreases |rs|
  {
    if rs != [] {
      var init := rs[..|rs| - 1];
      assert rs == init + [rs[|rs| - 1]];
      ApplePlacesHas(init, p);
    }
  }

  lemma ApplePlacesPrefix(rs: seq<Reservation>, i: nat)
    requires i < |rs|
    ensures ApplePlaces(rs[..i + 1]) == ApplePlaces(rs[..i]) + (if rs[i].AppleSlot? then [rs[i].Where()] else [])
  {
    assert rs[..i + 1][..i] == rs[..i];
  }

  /** The cells of the beam reservations, in reservation order. */
  function BeamPlaces(rs: seq<Reservation>): seq<Pos>
    decreases |rs|
  {
    if rs == [] then []
    else
      var init, last := rs[..|rs| - 1], rs[|rs| - 1];
      assert rs == init + [last];
      BeamPlaces(init) + (if last.BeamSlot? then [last.Where()] else [])
  }

  /** A cell is listed exactly when some beam reservation names it. */
  lemma {:induction false} BeamPlacesHas(rs: seq<Reservation>, p: Pos)
    ensures p in BeamPlaces(rs) <==> BeamSlot(p.row, p.col) in rs
    decreases |rs|
  {
    if rs != [] {
      var init := rs[..|rs| - 1];
      assert rs == init + [rs[|rs| - 1]];
      BeamPlacesHas(init, p);
    }
  }

  lemma BeamPlacesPrefix(rs: seq<Reservation>, i: nat)
    requires i < |rs|
    ensures BeamPlaces(rs[..i + 1]) == BeamPlaces(rs[..i]) + (if rs[i].BeamSlot? then [rs[i].Where()] else [])
  {
    assert rs[..i + 1][..i] == rs[..i];
  }

  /** Every apple and beam reservation names a cell on the map. */
  predicate SlotsIn(g: Grid, rs: seq<Reservation>) {
    forall r :: r in rs && !r.PlayerSlot? ==> InBounds(g, r.Where())
  }

  lemma PlacesIn(g: Grid, rs: seq<Reservation>)
    requires SlotsIn(g, rs)
    ensures AllIn(g, ApplePlaces(rs)) && AllIn(g, BeamPlaces(rs))
  {
    var a, b := ApplePlaces(rs), BeamPlaces(rs);
    forall k | 0 <= k < |a| ensures InBounds(g, a[k]) {
      ApplePlacesHas(rs, a[k]);
      assert AppleSlot(a[k].row, a[k].col).Where() == a[k];
    }
    forall k | 0 <= k < |b| ensures InBounds(g, b[k]) {
      BeamPlacesHas(rs, b[k]);
      assert BeamSlot(b[k].row, b[k].col).Where() == b[k];
    }
  }

  /** The state after the beam loop of `execute_custom_reservations`. */
  function CommitBeams(w: World): World
    requires SlotsIn(w.grid, w.reservedSlots)
  {
    PlacesIn(w.grid, w.reservedSlots);
    var beams := BeamPlaces(w.reservedSlots);
    w.(grid := Paint(w.grid, beams, Beam), firingPoints := w.firingPoints + beams)
  }

  /** `execute_custom_reservations`: beam reservations written and recorded as firing points,
      then the apple reservations planted. */
  function Execute(w: World): World
    requires SlotsIn(w.grid, w.reservedSlots)
  {
    PlacesIn(w.grid, w.reservedSlots);
    var w1 := CommitBeams(w);
    AllInSlots(w.grid, w1.grid, w.reservedSlots);
    PlacesIn(w1.grid, w.reservedSlots);
    PlantApples(w1, ApplePlaces(w.reservedSlots))
  }

  /** `execute_custom_reservations` as it runs: on the numeric map its first write raises,
      before any field changes. That is the first beam write, or with no beam reservation the
      first apple write, since a number is never 'P' or 'F'. */
  function ExecuteOutcome(w: World): Outcome
    requires SlotsIn(w.grid, w.reservedSlots)
  {
    if !w.charMap && (BeamPlaces(w.reservedSlots) != [] || ApplePlaces(w.reservedSlots) != [])
    then Outcome(w, Some(NumericMap))
    else Outcome(Execute(w), None)
  }

  /** `Execute` written out field by field. */
  lemma ExecuteIs(w: World)
    requires SlotsIn(w.grid, w.reservedSlots)
    ensures AllIn(w.grid, BeamPlaces(w.reservedSlots))
    ensures var beams, apples := BeamPlaces(w.reservedSlots), ApplePlaces(w.reservedSlots);
            var painted := Paint(w.grid, beams, Beam);
            && AllIn(painted, apples)
            && Execute(w) == w.(grid := PlantAll(painted, apples),
                                firingPoints := w.firingPoints + beams,
                                hiddenApples := w.hiddenApples + Deferred(painted, apples, w.hiddenAgents))
  {
    PlacesIn(w.grid, w.reservedSlots);
    var painted := Paint(w.grid, BeamPlaces(w.reservedSlots), Beam);
    AllInSlots(w.grid, painted, w.reservedSlots);
    PlacesIn(painted, w.reservedSlots);
  }

  lemma AllInSlots(g: Grid, h: Grid, rs: seq<Reservation>)
    requires SameShape(g, h) && SlotsIn(g, rs)
    ensures SlotsIn(h, rs)
  {
  }

  /** `custom_map_update` with the draws `np.random.rand` would give, one per apple point. */
  function CustomMapUpdate(w: World, draws: seq<real>): World
    requires IsRect(w.grid) && |draws| == |w.applePoints|
  {
    var spawned := SpawnSlots(w.grid, w.applePoints, draws);
    if |spawned| > 0 then w.(reservedSlots := w.reservedSlots + spawned) else w
  }

  /** `build_walls`. */
  function BuildWalls(w: World): World
    requires AllIn(w.grid, w.wallPoints)
  {
    w.(grid := Paint(w.grid, w.wallPoints, Wall))
  }

  /** `np.full(base_map.shape, ' ')`. */
  function Blank(base: seq<seq<char>>): (g: Grid)
    ensures Shaped(g, base)
  {
    seq(|base|, i => seq(Cols(base), j => Empty))
  }

  /** Every cell of the blank map is empty. */
  lemma BlankAt(base: seq<seq<char>>, q: Pos)
    requires InBounds(Blank(base), q)
    ensures At(Blank(base), q) == Empty
  {
  }

  /** `reset_map`: a blank character map of the base map's shape with the walls built and the
      apples planted, no firing points, and the agents `setup_agents` creates. */
  function Reset(w: World, newAgents: map<AgentId, Agent>): World
    requires |w.base| > 0
    requires AllIn(Blank(w.base), w.wallPoints) && AllIn(Blank(w.base), w.applePoints)
  {
    var walled := BuildWalls(w.(grid := Blank(w.base), firingPoints := [], charMap := true));
    AllInShape(Blank(w.base), walled.grid, w.applePoints);
    PlantApples(walled, w.applePoints).(agents := newAgents)
  }

  /** `reset_map` as it runs: on a base map with no rows `self.base_map[0]` raises before any
      field is written; otherwise the state is `Reset`. */
  function ResetOutcome(w: World, newAgents: map<AgentId, Agent>): Outcome
    requires AllIn(Blank(w.base), w.wallPoints) && AllIn(Blank(w.base), w.applePoints)
  {
    if |w.base| == 0 then Outcome(w, Some(NoRows)) else Outcome(Reset(w, newAgents), None)
  }

  /** `Reset` written out field by field. */
  lemma ResetIs(w: World, newAgents: map<AgentId, Agent>)
    requires |w.base| > 0
    requires AllIn(Blank(w.base), w.wallPoints) && AllIn(Blank(w.base), w.applePoints)
    ensures var walled := Paint(Blank(w.base), w.wallPoints, Wall);
            && AllIn(walled, w.applePoints)
            && Reset(w, newAgents)
               == World(w.base, PlantAll(walled, w.applePoints), newAgents, w.applePoints, w.wallPoints,
                        w.spawnPoints, [], w.hiddenApples + Deferred(walled, w.applePoints, w.hiddenAgents),
                        w.hiddenAgents, w.reservedSlots, true)
  {
    AllInShape(Blank(w.base), Paint(Blank(w.base), w.wallPoints, Wall), w.applePoints);
  }

  /** A list on the map stays on any map of the same shape. */
  lemma AllInShape(g: Grid, h: Grid, ps: seq<Pos>)
    requires SameShape(g, h) && AllIn(g, ps)
    ensures AllIn(h, ps)
  {
  }
}

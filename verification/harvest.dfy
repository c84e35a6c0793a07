/** `HarvestEnv` itself: the map as a 2-D array written cell by cell, the point lists and the
    reservations as fields, and every method proved to leave the state its function in
    `Engine` describes. */
module Harvest {
  import opened Board
  import opened Beam
  import opened Cover
  import opened Layout
  import opened Window
  import opened Respawn
  import opened Engine
  import opened Properties

  /** One more pass of the `update_map_apples` loop: the next point becomes an apple unless
      it holds a player or a beam, and is deferred if it holds a beam hiding no agent. */
  lemma PlantStep(g: Grid, pts: seq<Pos>, hiddenAgents: seq<Pos>, i: nat)
    requires i < |pts| && AllIn(g, pts[..i + 1])
    ensures AllIn(g, pts[..i])
    ensures var h, p := PlantAll(g, pts[..i]), pts[i];
            && InBounds(h, p)
            && (At(h, p) != Player && At(h, p) != Beam ==> PlantAll(g, pts[..i + 1]) == Set(h, p, Apple))
            && (At(h, p) == Player || At(h, p) == Beam ==> PlantAll(g, pts[..i + 1]) == h)
            && (At(h, p) == Beam && p !in hiddenAgents ==>
                  Deferred(g, pts[..i + 1], hiddenAgents) == Deferred(g, pts[..i], hiddenAgents) + [p])
            && (!(At(h, p) == Beam && p !in hiddenAgents) ==>
                  Deferred(g, pts[..i + 1], hiddenAgents) == Deferred(g, pts[..i], hiddenAgents))
  {
    var p := pts[i];
    PlantPrefix(g, pts, i);
    DeferredPrefix(g, pts, hiddenAgents, i);
    var h := PlantAll(g, pts[..i]);
    PlantAt(g, pts[..i], p);
    if At(h, p) == Player || At(h, p) == Beam {
      SetSame(h, p);
    }
  }

  /** One more cell under the beam: painted, and logged if it held an apple or an agent. */
  lemma BeamStep(g: Grid, cs: seq<Pos>, k: nat)
    requires k < |cs| && AllIn(g, cs[..k]) && InBounds(g, cs[k])
    ensures AllIn(g, cs[..k + 1])
    ensures Paint(g, cs[..k + 1], Beam) == Set(Paint(g, cs[..k], Beam), cs[k], Beam)
    ensures Masked(g, cs[..k + 1], Apple) == Masked(g, cs[..k], Apple) + (if At(g, cs[k]) == Apple then [cs[k]] else [])
    ensures Masked(g, cs[..k + 1], Player) == Masked(g, cs[..k], Player) + (if At(g, cs[k]) == Player then [cs[k]] else [])
  {
    assert cs[..k + 1] == cs[..k] + [cs[k]];
    PaintPrefix(g, cs, Beam, k);
    MaskedPrefix(g, cs, Apple, k);
    MaskedPrefix(g, cs, Player, k);
  }

  class HarvestEnv {
    /** `self.map`. */
    var grid: array2<Cell>
    /** The contents of `grid`, row by row, as the functions of `Engine` see them. */
    ghost var cells: Grid
    /** `self.base_map`. */
    var base: seq<seq<char>>
    var agents: map<AgentId, Agent>
    var spawnPoints: seq<Pos>
    var applePoints: seq<Pos>
    var wallPoints: seq<Pos>
    var firingPoints: seq<Pos>
    var hiddenApples: seq<Pos>
    var hiddenAgents: seq<Pos>
    var reservedSlots: seq<Reservation>
    /** Whether `self.map` is the character array `reset_map` builds; before the first reset it
        is the float array of zeros `MapEnv.__init__` installs, which `grid` shows as all
        `Empty` and which no character can be written into. */
    var charMap: bool

    /** `grid` holds exactly `cells`. */
    ghost predicate Linked()
      reads this`grid, this`cells, grid
    {
      && |cells| == grid.Length0
      && (forall i :: 0 <= i < |cells| ==> |cells[i]| == grid.Length1)
      && (forall i, j :: 0 <= i < grid.Length0 && 0 <= j < grid.Length1 ==> cells[i][j] == grid[i, j])
    }

    /** The map read out of the array, row by row. */
    function Map(): (g: Grid)
      reads this`grid, grid
      ensures |g| == grid.Length0
      ensures forall i :: 0 <= i < |g| ==> |g[i]| == grid.Length1
      ensures forall i, j :: 0 <= i < grid.Length0 && 0 <= j < grid.Length1 ==> g[i][j] == grid[i, j]
    {
      var a := grid;
      seq(a.Length0, i requires 0 <= i < a.Length0 reads a =>
        seq(a.Length1, j requires 0 <= j < a.Length1 reads a => a[i, j]))
    }

    /** Reading the array gives `cells`, a grid whose rows all have one length. */
    lemma MapIsCells()
      requires Linked()
      ensures Map() == cells && IsRect(cells)
    {
      GridExt(Map(), cells);
    }

    /** The whole state as the value the functions of `Engine` work on. */
    ghost function State(): World
      reads this
    {
      World(base, cells, agents, applePoints, wallPoints, spawnPoints, firingPoints,
            hiddenApples, hiddenAgents, reservedSlots, charMap)
    }

    ghost predicate Valid()
      reads this, grid
    {
      Linked() && Engine.Valid(State())
    }

    /** `self.map[row, col] = v`, which only the character map accepts. */
    method SetCell(p: Pos, v: Cell)
      requires Linked() && InBounds(cells, p) && charMap
      modifies grid, this`cells
      ensures Linked() && cells == Set(old(cells), p, v)
    {
      grid[p.row, p.col] := v;
      cells := Set(cells, p, v);
    }

    /** `__init__`: the map of the base map's shape starts as numeric zeros; the classification
        loop fills the three point lists; the agents are those `setup_agents` creates. */
    constructor (asciiMap: seq<seq<char>>, initialAgents: map<AgentId, Agent>)
      requires IsRect(asciiMap)
      ensures Valid()
      ensures base == asciiMap && cells == Blank(asciiMap) && agents == initialAgents
      ensures spawnPoints == PointsOf(asciiMap, 'P')
      ensures applePoints == PointsOf(asciiMap, 'A')
      ensures wallPoints == PointsOf(asciiMap, '@')
      ensures firingPoints == [] && hiddenApples == [] && hiddenAgents == [] && reservedSlots == []
      ensures !charMap
    {
      base := asciiMap;
      grid := new Cell[|asciiMap|, Cols(asciiMap)]((i, j) => Empty);
      cells := Blank(asciiMap);
      agents := initialAgents;
      var spawns, apples, walls := ClassifyLayout(asciiMap);
      spawnPoints, applePoints, wallPoints := spawns, apples, walls;
      firingPoints, hiddenApples, hiddenAgents := [], [], [];
      reservedSlots := [];
      charMap := false;
      new;
      ValidInit(asciiMap, initialAgents);
    }

    /** `build_walls`. */
    method BuildWalls()
      requires Linked() && AllIn(cells, wallPoints) && charMap
      modifies grid, this`cells
      ensures Linked() && cells == Paint(old(cells), wallPoints, Wall)
    {
      ghost var g0 := cells;
      for i := 0 to |wallPoints|
        invariant Linked() && cells == Paint(g0, wallPoints[..i], Wall)
      {
        PaintPrefix(g0, wallPoints, Wall, i);
        SetCell(wallPoints[i], Wall);
      }
      assert wallPoints[..|wallPoints|] == wallPoints;
    }

    /** `update_map_apples(pts)`: each point becomes an apple unless it holds a player or a
        beam; a point under a beam that hides no agent is logged as a hidden apple. */
    method UpdateMapApples(pts: seq<Pos>)
      requires Linked() && AllIn(cells, pts) && (charMap || pts == [])
      modifies this`hiddenApples, this`cells, grid
      ensures Linked()
      ensures cells == PlantAll(old(cells), pts)
      ensures hiddenApples == old(hiddenApples) + Deferred(old(cells), pts, hiddenAgents)
    {
      ghost var g0 := cells;
      for i := 0 to |pts|
        invariant Linked() && cells == PlantAll(g0, pts[..i])
        invariant hiddenApples == old(hiddenApples) + Deferred(g0, pts[..i], hiddenAgents)
      {
        PlantPoint(g0, pts, i, old(hiddenApples));
      }
      assert pts[..|pts|] == pts;
    }

    /** One pass of the `update_map_apples` loop, on the point pts[i]. */
    method PlantPoint(ghost g0: Grid, pts: seq<Pos>, i: nat, ghost logged: seq<Pos>)
      requires i < |pts| && AllIn(g0, pts)
      requires Linked() && cells == PlantAll(g0, pts[..i]) && charMap
      requires hiddenApples == logged + Deferred(g0, pts[..i], hiddenAgents)
      modifies this`hiddenApples, this`cells, grid
      ensures Linked() && cells == PlantAll(g0, pts[..i + 1])
      ensures hiddenApples == logged + Deferred(g0, pts[..i + 1], hiddenAgents)
    {
      assert pts[..i + 1][..i] == pts[..i];
      PlantStep(g0, pts, hiddenAgents, i);
      var p := pts[i];
      var c := grid[p.row, p.col];
      assert c == At(cells, p);
      if c != Player && c != Beam {
        SetCell(p, Apple);
      } else if c == Beam && p !in hiddenAgents {
        assert logged + Deferred(g0, pts[..i + 1], hiddenAgents)
            == (logged + Deferred(g0, pts[..i], hiddenAgents)) + [p];
        hiddenApples := hiddenApples + [p];
      }
    }

    /** `reset_map`: a fresh map of the base map's shape, the walls built, the apples planted,
        no firing points, and the agents `setup_agents` creates; on a base map with no rows
        `self.base_map[0]` raises first. */
    method ResetMap(newAgents: map<AgentId, Agent>) returns (fault: Option<Fault>)
      requires Valid()
      modifies this`grid, this`cells, this`firingPoints, this`hiddenApples, this`agents, this`charMap
      ensures Valid()
      ensures AllIn(Blank(old(base)), old(wallPoints)) && AllIn(Blank(old(base)), old(applePoints))
      ensures State() == ResetOutcome(old(State()), newAgents).world
      ensures fault == ResetOutcome(old(State()), newAgents).fault
    {
      ghost var w0 := State();
      ValidReset(w0, newAgents);
      if |base| == 0 {
        return Some(NoRows);
      }
      fault := None;
      ResetIs(w0, newAgents);
      ResetFields(newAgents);
    }

    /** The writes of `reset_map`, field by field. */
    method ResetFields(newAgents: map<AgentId, Agent>)
      requires IsRect(base) && |base| > 0 && AllIn(Blank(base), wallPoints)
      requires AllIn(Paint(Blank(base), wallPoints, Wall), applePoints)
      modifies this`grid, this`cells, this`firingPoints, this`hiddenApples, this`agents, this`charMap
      ensures Linked() && charMap
      ensures cells == PlantAll(Paint(Blank(base), wallPoints, Wall), applePoints)
      ensures hiddenApples == old(hiddenApples) + Deferred(Paint(Blank(base), wallPoints, Wall), applePoints, hiddenAgents)
      ensures firingPoints == [] && agents == newAgents
    {
      firingPoints := [];
      agents := newAgents;
      Replant();
    }

    /** The map rebuilt from the base map: walls, then the apples planted. */
    method Replant()
      requires IsRect(base) && |base| > 0 && AllIn(Blank(base), wallPoints)
      requires AllIn(Paint(Blank(base), wallPoints, Wall), applePoints)
      modifies this`grid, this`cells, this`hiddenApples, this`charMap
      ensures Linked() && charMap
      ensures cells == PlantAll(Paint(Blank(base), wallPoints, Wall), applePoints)
      ensures hiddenApples == old(hiddenApples) + Deferred(Paint(Blank(base), wallPoints, Wall), applePoints, hiddenAgents)
    {
      FreshWalls();
      UpdateMapApples(applePoints);
    }

    /** A new blank character map with the walls built on it. */
    method FreshWalls()
      requires IsRect(base) && |base| > 0 && AllIn(Blank(base), wallPoints)
      requires AllIn(Paint(Blank(base), wallPoints, Wall), applePoints)
      modifies this`grid, this`cells, this`charMap
      ensures fresh(grid)
      ensures Linked() && cells == Paint(Blank(base), wallPoints, Wall) && charMap
      ensures AllIn(cells, applePoints)
    {
      ClearMap();
      BuildWalls();
    }

    /** `self.map = np.full((len(self.base_map), len(self.base_map[0])), ' ')`. */
    method ClearMap()
      requires IsRect(base) && |base| > 0
      modifies this`grid, this`cells, this`charMap
      ensures fresh(grid)
      ensures Linked() && cells == Blank(base) && charMap
    {
      grid := new Cell[|base|, Cols(base)]((i, j) => Empty);
      cells := Blank(base);
      charMap := true;
    }

    /** `clean_firing_points`: every firing point restored, then the three lists emptied; on
        the numeric map the first restoring write raises. */
    method CleanFiringPoints() returns (fault: Option<Fault>)
      requires Linked() && AllIn(cells, firingPoints)
      modifies this`hiddenApples, this`firingPoints, this`hiddenAgents, this`cells, grid
      ensures Linked()
      ensures State() == CleanOutcome(old(State())).world
      ensures fault == CleanOutcome(old(State())).fault
    {
      var agentPos := Occupied(agents);
      if !charMap && |firingPoints| > 0 {
        return Some(NumericMap);
      }
      fault := None;
      RestoreFiringPoints(agentPos);
      hiddenApples := [];
      firingPoints := [];
      hiddenAgents := [];
    }

    /** The loop of `clean_firing_points`: each firing point becomes an apple if it hid one,
        else a player if an agent stands there, else empty. */
    method RestoreFiringPoints(agentPos: set<Pos>)
      requires Linked() && AllIn(cells, firingPoints) && (charMap || firingPoints == [])
      modifies this`cells, grid
      ensures Linked() && cells == Uncover(old(cells), firingPoints, hiddenApples, agentPos)
    {
      ghost var g0 := cells;
      for i := 0 to |firingPoints|
        invariant Linked() && cells == Uncover(g0, firingPoints[..i], hiddenApples, agentPos)
      {
        UncoverPrefix(g0, firingPoints, hiddenApples, agentPos, i);
        var p := firingPoints[i];
        if p in hiddenApples {
          SetCell(p, Apple);
        } else if p in agentPos {
          SetCell(p, Player);
        } else {
          SetCell(p, Empty);
        }
      }
      assert firingPoints[..|firingPoints|] == firingPoints;
    }

    /** `update_map_fire(from, o)`: walks at most 5 cells ahead, stopping at the first cell
        off the map or holding a wall, turns each cell it passes into a beam, logs the apples
        and agents it covers, and returns one beam reservation per covered cell. On the
        numeric map a cell on the board is never '@', 'A' or 'P', so the loop's first pass
        writes 'F' into the first cell ahead whenever that cell is on the board, which raises. */
    method UpdateMapFire(from: Pos, o: Orientation) returns (slots: seq<Reservation>, fault: Option<Fault>)
      requires Linked()
      modifies this`hiddenApples, this`hiddenAgents, this`cells, grid
      ensures Linked()
      ensures fault == (if !charMap && InBounds(old(cells), Step(from, o)) then Some(NumericMap) else None)
      ensures fault.Some? ==>
                cells == old(cells) && hiddenApples == old(hiddenApples) && hiddenAgents == old(hiddenAgents)
      ensures fault.None? ==>
                && AllIn(old(cells), Ray(old(cells), from, o))
                && cells == Paint(old(cells), Ray(old(cells), from, o), Beam)
                && hiddenApples == old(hiddenApples) + Masked(old(cells), Ray(old(cells), from, o), Apple)
                && hiddenAgents == old(hiddenAgents) + Masked(old(cells), Ray(old(cells), from, o), Player)
                && slots == BeamSlots(Ray(old(cells), from, o))
    {
      var first := Step(from, o);
      fault := None;
      if charMap {
        slots := WalkBeam(from, o);
      } else if 0 <= first.row < grid.Length0 && 0 <= first.col < grid.Length1 {
        slots, fault := [], Some(NumericMap);
      } else {
        // The first cell ahead is off the board: the loop stops before any write.
        FireIntoWall(State(), from, o);
        assert hiddenApples + [] == hiddenApples && hiddenAgents + [] == hiddenAgents;
        slots := [];
      }
    }

    /** The loop of `update_map_fire` on the character map. */
    method WalkBeam(from: Pos, o: Orientation) returns (slots: seq<Reservation>)
      requires Linked() && charMap
      modifies this`hiddenApples, this`hiddenAgents, this`cells, grid
      ensures AllIn(old(cells), Ray(old(cells), from, o))
      ensures Linked()
      ensures cells == Paint(old(cells), Ray(old(cells), from, o), Beam)
      ensures hiddenApples == old(hiddenApples) + Masked(old(cells), Ray(old(cells), from, o), Apple)
      ensures hiddenAgents == old(hiddenAgents) + Masked(old(cells), Ray(old(cells), from, o), Player)
      ensures slots == BeamSlots(Ray(old(cells), from, o))
    {
      ghost var g0 := cells;
      ghost var ahead := Run(from, o, BeamLength);
      var pos := from;
      slots := [];
      var k := 0;
      while k < BeamLength
        invariant pos == Ahead(from, o, k)
        invariant Firing(g0, from, o, k, slots, old(hiddenApples), old(hiddenAgents))
        decreases BeamLength - k
      {
        WalkStep(from, o, k);
        var next := Step(pos, o);
        if 0 <= next.row < grid.Length0 && 0 <= next.col < grid.Length1 {
          PaintAt(g0, ahead[..k], Beam, next);
        }
        if 0 <= next.row < grid.Length0 && 0 <= next.col < grid.Length1 && grid[next.row, next.col] != Wall {
          slots := Advance(g0, from, o, k, next, slots, old(hiddenApples), old(hiddenAgents));
          pos := next;
          k := k + 1;
        } else {
          RayFromWalk(g0, from, o, k);
          break;
        }
      }
      if k == BeamLength {
        RayFromWalk(g0, from, o, k);
      }
      RayOpen(g0, from, o);
    }

    /** What the `update_map_fire` loop keeps after k steps of a beam fired from `from` facing
        o on the character map g0: the first k cells ahead open, turned into beam, their apples and
        agents logged and their beam reservations collected. */
    ghost predicate Firing(g0: Grid, from: Pos, o: Orientation, k: nat, slots: seq<Reservation>,
                           apples0: seq<Pos>, agents0: seq<Pos>)
      reads this, grid
    {
      var ahead := Run(from, o, BeamLength);
      && k <= BeamLength
      && (forall j :: 0 <= j < k ==> Open(g0, ahead[j]))
      && AllIn(g0, ahead[..k])
      && Linked() && charMap && cells == Paint(g0, ahead[..k], Beam)
      && hiddenApples == apples0 + Masked(g0, ahead[..k], Apple)
      && hiddenAgents == agents0 + Masked(g0, ahead[..k], Player)
      && slots == BeamSlots(ahead[..k])
    }

    /** The loop's step onto the next cell p ahead, which the map shows as on the board and not
        a wall: the cell covered and its reservation added. */
    method Advance(ghost g0: Grid, ghost from: Pos, ghost o: Orientation, ghost k: nat, p: Pos,
                   slots: seq<Reservation>, ghost apples0: seq<Pos>, ghost agents0: seq<Pos>)
      returns (more: seq<Reservation>)
      requires Firing(g0, from, o, k, slots, apples0, agents0)
      requires k < BeamLength && p == Run(from, o, BeamLength)[k]
      requires 0 <= p.row < grid.Length0 && 0 <= p.col < grid.Length1 && grid[p.row, p.col] != Wall
      modifies this`hiddenApples, this`hiddenAgents, this`cells, grid
      ensures Firing(g0, from, o, k + 1, more, apples0, agents0)
    {
      ghost var ahead := Run(from, o, BeamLength);
      WalkStep(from, o, k);
      PaintAt(g0, ahead[..k], Beam, p);
      assert Open(g0, p);
      assert forall j :: 0 <= j < k + 1 ==> Open(g0, ahead[j]);
      CoverCell(g0, ahead, k, p, apples0, agents0);
      BeamSlotsPrefix(ahead, k);
      more := slots + [BeamSlot(p.row, p.col)];
    }

    /** One pass of the `update_map_fire` loop on the open cell cs[k]: the apple or agent
        there logged, then the cell turned into a beam. */
    method CoverCell(ghost g0: Grid, ghost cs: seq<Pos>, ghost k: nat, p: Pos,
                     ghost apples0: seq<Pos>, ghost agents0: seq<Pos>)
      requires k < |cs| && p == cs[k] && AllIn(g0, cs[..k]) && InBounds(g0, p) && p !in cs[..k]
      requires Linked() && cells == Paint(g0, cs[..k], Beam) && charMap
      requires hiddenApples == apples0 + Masked(g0, cs[..k], Apple)
      requires hiddenAgents == agents0 + Masked(g0, cs[..k], Player)
      modifies this`hiddenApples, this`hiddenAgents, this`cells, grid
      ensures AllIn(g0, cs[..k + 1])
      ensures Linked() && cells == Paint(g0, cs[..k + 1], Beam)
      ensures hiddenApples == apples0 + Masked(g0, cs[..k + 1], Apple)
      ensures hiddenAgents == agents0 + Masked(g0, cs[..k + 1], Player)
    {
      BeamStep(g0, cs, k);
      PaintAt(g0, cs[..k], Beam, p);
      var c := grid[p.row, p.col];
      assert c == At(g0, p);
      if c == Apple {
        hiddenApples := hiddenApples + [p];
      } else if c == Player {
        hiddenAgents := hiddenAgents + [p];
      }
      SetCell(p, Beam);
    }

    /** One pass of the `update_map` loop: a `KeyError` for an unknown agent or action, else a
        player reservation for a move or stay, a new orientation for a turn, and a beam for
        anything else. */
    method ApplyAction(id: AgentId, name: string, rules: Rules) returns (fault: Option<Fault>)
      requires Linked()
      modifies this`reservedSlots, this`agents, this`hiddenApples, this`hiddenAgents, this`cells, grid
      ensures Linked()
      ensures State() == Act(old(State()), id, name, rules).world
      ensures fault == Act(old(State()), id, name, rules).fault
    {
      if id !in agents {
        return Some(UnknownAgent(id));
      }
      if name !in rules.actions {
        return Some(UnknownAction(name));
      }
      var agent := agents[id];
      if Contains(name, "MOVE") || Contains(name, "STAY") {
        var rot := rules.rotate(name, agent.orientation);
        reservedSlots := reservedSlots + [PlayerSlot(agent.pos.row + rot.row, agent.pos.col + rot.col, id)];
      } else if Contains(name, "TURN") {
        agents := agents[id := agent.(orientation := rules.turn(name, agent.orientation))];
      } else {
        var fired, raised := UpdateMapFire(agent.pos, agent.orientation);
        if raised.Some? {
          return raised;
        }
        reservedSlots := reservedSlots + fired;
      }
      fault := None;
    }

    /** `update_map(agent_actions)`: the firing points cleaned, then each (agent, action) pair
        applied in order; an error stops the loop with the passes before it applied. */
    method UpdateMap(acts: seq<(AgentId, string)>, rules: Rules) returns (fault: Option<Fault>)
      requires Valid() && rules.KnowsFire()
      modifies this`reservedSlots, this`agents, this`hiddenApples, this`hiddenAgents, this`firingPoints,
               this`cells, grid
      ensures Valid()
      ensures State() == Engine.UpdateMap(old(State()), acts, rules).world
      ensures fault == Engine.UpdateMap(old(State()), acts, rules).fault
    {
      ValidUpdateMap(State(), acts, rules);
      fault := CleanFiringPoints();
      if fault.Some? {
        return;
      }
      ghost var w1 := State();
      for i := 0 to |acts|
        invariant Linked()
        invariant State() == ActAll(w1, acts[..i], rules).world
        invariant ActAll(w1, acts[..i], rules).fault.None?
      {
        assert acts[..i + 1][..i] == acts[..i];
        fault := ApplyAction(acts[i].0, acts[i].1, rules);
        if fault.Some? {
          ActAllStops(w1, acts, rules, i + 1);
          return;
        }
      }
      assert acts[..|acts|] == acts;
      fault := None;
    }

    /** `execute_custom_reservations`: the apple and beam reservations collected in order,
        each beam written and recorded as a firing point, then the apples planted. On the
        numeric map the first write raises: the first beam, or with no beam the first apple,
        since a number is never 'P' or 'F'. */
    method ExecuteCustomReservations() returns (fault: Option<Fault>)
      requires Valid()
      modifies this`firingPoints, this`hiddenApples, this`cells, grid
      ensures Valid()
      ensures State() == ExecuteOutcome(old(State())).world
      ensures fault == ExecuteOutcome(old(State())).fault
    {
      ghost var w0 := State();
      ValidExecute(w0);
      var applePos, firingPos := CollectPlaces();
      if !charMap && (|firingPos| > 0 || |applePos| > 0) {
        return Some(NumericMap);
      }
      fault := None;
      ExecuteIs(w0);
      CommitReservations(applePos, firingPos);
    }

    /** The writing loops of `execute_custom_reservations`: the beams, then the apples. */
    method CommitReservations(applePos: seq<Pos>, firingPos: seq<Pos>)
      requires Linked() && AllIn(cells, firingPos) && AllIn(Paint(cells, firingPos, Beam), applePos)
      requires charMap || (firingPos == [] && applePos == [])
      modifies this`firingPoints, this`hiddenApples, this`cells, grid
      ensures Linked()
      ensures cells == PlantAll(Paint(old(cells), firingPos, Beam), applePos)
      ensures firingPoints == old(firingPoints) + firingPos
      ensures hiddenApples == old(hiddenApples) + Deferred(Paint(old(cells), firingPos, Beam), applePos, hiddenAgents)
    {
      CommitBeamCells(firingPos);
      UpdateMapApples(applePos);
    }

    /** The first loop of `execute_custom_reservations`: the cells of the apple and of the
        beam reservations, each in reservation order. */
    method CollectPlaces() returns (applePos: seq<Pos>, firingPos: seq<Pos>)
      ensures applePos == ApplePlaces(reservedSlots)
      ensures firingPos == BeamPlaces(reservedSlots)
    {
      applePos, firingPos := [], [];
      for i := 0 to |reservedSlots|
        invariant applePos == ApplePlaces(reservedSlots[..i])
        invariant firingPos == BeamPlaces(reservedSlots[..i])
      {
        ApplePlacesPrefix(reservedSlots, i);
        BeamPlacesPrefix(reservedSlots, i);
        var slot := reservedSlots[i];
        if slot.AppleSlot? {
          applePos := applePos + [slot.Where()];
        } else if slot.BeamSlot? {
          firingPos := firingPos + [slot.Where()];
        }
      }
      assert reservedSlots[..|reservedSlots|] == reservedSlots;
    }

    /** The beam loop of `execute_custom_reservations`: each cell becomes a beam and is
        recorded as a firing point. */
    method CommitBeamCells(ps: seq<Pos>)
      requires Linked() && AllIn(cells, ps) && (charMap || ps == [])
      modifies this`firingPoints, this`cells, grid
      ensures Linked() && cells == Paint(old(cells), ps, Beam)
      ensures firingPoints == old(firingPoints) + ps
    {
      ghost var g0 := cells;
      for k := 0 to |ps|
        invariant Linked() && cells == Paint(g0, ps[..k], Beam)
        invariant firingPoints == old(firingPoints) + ps[..k]
      {
        PaintPrefix(g0, ps, Beam, k);
        assert old(firingPoints) + ps[..k + 1] == (old(firingPoints) + ps[..k]) + [ps[k]];
        SetCell(ps[k], Beam);
        firingPoints := firingPoints + [ps[k]];
      }
      assert ps[..|ps|] == ps;
    }

    /** `spawn_apples`, with `draws[i]` the number `np.random.rand` gives for apple point i:
        the apple points whose draw falls below the chance their window gives. */
    method SpawnApples(draws: seq<real>) returns (newApples: seq<Reservation>)
      requires Linked() && |draws| == |applePoints|
      ensures IsRect(cells) && newApples == SpawnSlots(cells, applePoints, draws)
    {
      MapIsCells();
      var g := Map();
      ghost var chances := Chances(g, applePoints);
      newApples := [];
      for i := 0 to |applePoints|
        invariant newApples == Kept(applePoints[..i], draws[..i], chances[..i])
      {
        KeptPrefix(applePoints, draws, chances, i);
        var p := applePoints[i];
        var window := ReturnView(g, p.row, p.col, AppleRadius, AppleRadius);
        var numApples := CountApples(window);
        var spawnProb := SpawnProb[TableIndex(numApples)];
        assert spawnProb == chances[i];
        var randNum := draws[i];
        if randNum < spawnProb {
          newApples := newApples + [AppleSlot(p.row, p.col)];
        }
      }
      assert applePoints[..|applePoints|] == applePoints;
      assert draws[..|draws|] == draws;
      assert chances[..|chances|] == chances;
    }

    /** `custom_map_update`: the spawned apple reservations appended, if there are any. */
    method CustomMapUpdate(draws: seq<real>)
      requires Valid() && |draws| == |applePoints|
      modifies this`reservedSlots
      ensures Valid()
      ensures State() == Engine.CustomMapUpdate(old(State()), draws)
    {
      ValidCustomMapUpdate(State(), draws);
      var newApples := SpawnApples(draws);
      if |newApples| > 0 {
        reservedSlots := reservedSlots + newApples;
      }
    }
  }
}

/** What each engine operation promises: the cells it changes and how, the lists it grows or
    empties, the invariant it keeps. */
module Properties {
  import opened Board
  import opened Beam
  import opened Cover
  import opened Layout
  import opened Respawn
  import opened Engine

  // ---- update_map_fire ----

  /** The beam covers at most 5 cells, the contiguous run straight ahead of the firer, every
      one on the map and not a wall; a beam shorter than 5 is stopped by the next cell, which
      is off the map or a wall (apples and agents do not stop it). */
  lemma FireRay(w: World, from: Pos, o: Orientation)
    ensures var cells := Ray(w.grid, from, o);
            && |cells| <= BeamLength
            && (forall k :: 0 <= k < |cells| ==> cells[k] == Ahead(from, o, k + 1) && Open(w.grid, cells[k]))
            && (|cells| < BeamLength ==> !Open(w.grid, Ahead(from, o, |cells| + 1)))
  {
    ReachStops(w.grid, from, o, BeamLength);
  }

  /** After firing a cell holds a beam if the beam covers it and is unchanged otherwise, so no
      wall is overwritten; the apples and agents under the beam are logged; nothing else
      changes. */
  lemma FireCell(w: World, from: Pos, o: Orientation, q: Pos)
    requires InBounds(w.grid, q)
    ensures var cells, f := Ray(w.grid, from, o), FireWorld(w, from, o);
            && InBounds(f.grid, q)
            && At(f.grid, q) == (if q in cells then Beam else At(w.grid, q))
            && (At(w.grid, q) == Wall ==> At(f.grid, q) == Wall)
            && (q in f.hiddenApples <==> q in w.hiddenApples || (q in cells && At(w.grid, q) == Apple))
            && (q in f.hiddenAgents <==> q in w.hiddenAgents || (q in cells && At(w.grid, q) == Player))
            && f.(grid := w.grid, hiddenApples := w.hiddenApples, hiddenAgents := w.hiddenAgents) == w
  {
    var cells := Ray(w.grid, from, o);
    RayOpen(w.grid, from, o);
    PaintAt(w.grid, cells, Beam, q);
    MaskedHas(w.grid, cells, Apple, q);
    MaskedHas(w.grid, cells, Player, q);
  }

  /** Firing into an adjacent wall or off the map covers nothing and changes nothing. */
  lemma FireIntoWall(w: World, from: Pos, o: Orientation)
    requires !Open(w.grid, Step(from, o))
    ensures Ray(w.grid, from, o) == []
    ensures FireWorld(w, from, o) == w
  {
    assert w.hiddenApples + [] == w.hiddenApples && w.hiddenAgents + [] == w.hiddenAgents;
  }

  // ---- clean_firing_points ----

  /** Every former firing point becomes an apple if one was hidden there, else a player if an
      agent stands there, else empty, so none still holds a beam; every other cell is
      unchanged; the three lists are emptied. */
  lemma CleanCell(w: World, q: Pos)
    requires AllIn(w.grid, w.firingPoints) && InBounds(w.grid, q)
    ensures var c := Clean(w);
            && InBounds(c.grid, q)
            && At(c.grid, q) == (if q !in w.firingPoints then At(w.grid, q)
                                 else if q in w.hiddenApples then Apple
                                 else if q in Occupied(w.agents) then Player
                                 else Empty)
            && (q in w.firingPoints ==> At(c.grid, q) != Beam)
            && c.firingPoints == [] && c.hiddenApples == [] && c.hiddenAgents == []
  {
    UncoverAt(w.grid, w.firingPoints, w.hiddenApples, Occupied(w.agents), q);
  }

  // ---- update_map_apples ----

  /** A listed cell becomes an apple unless it holds a player or a beam; an unlisted cell is
      unchanged; a listed beam cell no agent is hidden under is logged as a hidden apple. */
  lemma PlantCell(w: World, pts: seq<Pos>, q: Pos)
    requires AllIn(w.grid, pts) && InBounds(w.grid, q)
    ensures var p := PlantApples(w, pts);
            && InBounds(p.grid, q)
            && At(p.grid, q) == (if q in pts && At(w.grid, q) != Player && At(w.grid, q) != Beam
                                 then Apple else At(w.grid, q))
            && (q in p.hiddenApples <==>
                  q in w.hiddenApples || (q in pts && At(w.grid, q) == Beam && q !in w.hiddenAgents))
  {
    PlantAt(w.grid, pts, q);
    DeferredHas(w.grid, pts, w.hiddenAgents, q);
  }

  /** Planting the same positions twice gives the map planting them once gives. */
  lemma PlantIdempotent(w: World, pts: seq<Pos>)
    requires AllIn(w.grid, pts)
    ensures AllIn(PlantApples(w, pts).grid, pts)
    ensures PlantApples(PlantApples(w, pts), pts).grid == PlantApples(w, pts).grid
  {
    var g1 := PlantAll(w.grid, pts);
    AllInShape(w.grid, g1, pts);
    var g2 := PlantAll(g1, pts);
    forall q | InBounds(g2, q) ensures At(g2, q) == At(g1, q) {
      PlantAt(w.grid, pts, q);
      PlantAt(g1, pts, q);
    }
    GridExt(g2, g1);
  }

  // ---- execute_custom_reservations ----

  /** A cell with a beam reservation holds a beam; else a cell with an apple reservation
      becomes an apple unless it holds a player or a beam; every other cell, and so every
      cell named only by a player reservation, is unchanged. */
  lemma ExecuteCell(w: World, q: Pos)
    requires SlotsIn(w.grid, w.reservedSlots) && InBounds(w.grid, q)
    ensures var e := Execute(w);
            && InBounds(e.grid, q)
            && At(e.grid, q) == (if BeamSlot(q.row, q.col) in w.reservedSlots then Beam
                                 else if AppleSlot(q.row, q.col) in w.reservedSlots &&
                                         At(w.grid, q) != Player && At(w.grid, q) != Beam then Apple
                                 else At(w.grid, q))
  {
    var rs := w.reservedSlots;
    PlacesIn(w.grid, rs);
    var w1 := CommitBeams(w);
    BeamPlacesHas(rs, q);
    ApplePlacesHas(rs, q);
    PaintAt(w.grid, BeamPlaces(rs), Beam, q);
    AllInShape(w.grid, w1.grid, ApplePlaces(rs));
    PlantAt(w1.grid, ApplePlaces(rs), q);
  }

  /** The beam reservations are appended to the firing points in reservation order and each
      holds a beam afterwards; the agents and the reservations are left alone. */
  lemma ExecuteLists(w: World)
    requires SlotsIn(w.grid, w.reservedSlots)
    ensures var e, beams := Execute(w), BeamPlaces(w.reservedSlots);
            && e.firingPoints == w.firingPoints + beams
            && AllIn(e.grid, beams)
            && (forall k :: 0 <= k < |beams| ==> At(e.grid, beams[k]) == Beam)
            && e.agents == w.agents && e.reservedSlots == w.reservedSlots
  {
    var beams := BeamPlaces(w.reservedSlots);
    PlacesIn(w.grid, w.reservedSlots);
    var e := Execute(w);
    AllInShape(w.grid, e.grid, beams);
    forall k | 0 <= k < |beams| ensures At(e.grid, beams[k]) == Beam {
      BeamPlacesHas(w.reservedSlots, beams[k]);
      ExecuteCell(w, beams[k]);
    }
  }

  // ---- custom_map_update ----

  /** The spawned apple reservations are appended; the map and everything else is untouched. */
  lemma CustomMapUpdateAppends(w: World, draws: seq<real>)
    requires IsRect(w.grid) && |draws| == |w.applePoints|
    ensures var c := CustomMapUpdate(w, draws);
            && c.reservedSlots == w.reservedSlots + SpawnSlots(w.grid, w.applePoints, draws)
            && c.(reservedSlots := w.reservedSlots) == w
  {
    assert w.reservedSlots + [] == w.reservedSlots;
  }

  /** What spawning reserves is exactly what `execute_custom_reservations` commits as apples:
      the reserved points, in order, and no beam. */
  lemma SpawnCommitted(g: Grid, pts: seq<Pos>, draws: seq<real>)
    requires IsRect(g) && |draws| == |pts|
    ensures ApplePlaces(SpawnSlots(g, pts, draws)) == Places(SpawnSlots(g, pts, draws))
    ensures BeamPlaces(SpawnSlots(g, pts, draws)) == []
  {
    SpawnSlotsSubseq(g, pts, draws);
    ApplesCommitted(SpawnSlots(g, pts, draws));
  }

  /** A list of apple reservations commits its own positions as apples and no beam. */
  lemma {:induction false} ApplesCommitted(rs: seq<Reservation>)
    requires forall k :: 0 <= k < |rs| ==> rs[k].AppleSlot?
    ensures ApplePlaces(rs) == Places(rs) && BeamPlaces(rs) == []
    decreases |rs|
  {
    if rs != [] {
      var init := rs[..|rs| - 1];
      ApplesCommitted(init);
      assert Places(rs) == Places(init) + [rs[|rs| - 1].Where()];
    }
  }

  // ---- update_map ----

  /** A move or stay appends exactly one player reservation, for the cell the rotated action
      leads to, and changes nothing else. */
  lemma ActMove(w: World, id: AgentId, name: string, rules: Rules)
    requires id in w.agents && name in rules.actions
    requires Contains(name, "MOVE") || Contains(name, "STAY")
    ensures var o, a := Act(w, id, name, rules), w.agents[id];
            var off := rules.rotate(name, a.orientation);
            && o.fault == None
            && o.world.reservedSlots == w.reservedSlots + [PlayerSlot(a.pos.row + off.row, a.pos.col + off.col, id)]
            && o.world.(reservedSlots := w.reservedSlots) == w
  {
  }

  /** A turn appends nothing and changes only that agent's orientation. */
  lemma ActTurn(w: World, id: AgentId, name: string, rules: Rules)
    requires id in w.agents && name in rules.actions
    requires !Contains(name, "MOVE") && !Contains(name, "STAY") && Contains(name, "TURN")
    ensures var o, a := Act(w, id, name, rules), w.agents[id];
            && o.fault == None
            && o.world.agents.Keys == w.agents.Keys
            && o.world.agents[id] == Agent(a.pos, rules.turn(name, a.orientation))
            && (forall other :: other in w.agents && other != id ==> o.world.agents[other] == w.agents[other])
            && o.world.(agents := w.agents) == w
  {
  }

  /** Any other known action fires: on the character map, or when the first cell ahead is off
      the map, the beam's cells are appended as beam reservations and the map and hidden lists
      change as `update_map_fire` changes them. */
  lemma ActFire(w: World, id: AgentId, name: string, rules: Rules)
    requires id in w.agents && name in rules.actions
    requires !Contains(name, "MOVE") && !Contains(name, "STAY") && !Contains(name, "TURN")
    requires w.charMap || !InBounds(w.grid, Step(w.agents[id].pos, w.agents[id].orientation))
    ensures var o, a := Act(w, id, name, rules), w.agents[id];
            && o.fault == None
            && o.world.reservedSlots == w.reservedSlots + BeamSlots(Ray(w.grid, a.pos, a.orientation))
            && o.world.(reservedSlots := w.reservedSlots) == FireWorld(w, a.pos, a.orientation)
  {
  }

  /** Before the first reset a beam whose first cell is on the map raises at its first write,
      and nothing changes. */
  lemma ActFireNumeric(w: World, id: AgentId, name: string, rules: Rules)
    requires id in w.agents && name in rules.actions
    requires !Contains(name, "MOVE") && !Contains(name, "STAY") && !Contains(name, "TURN")
    requires !w.charMap && InBounds(w.grid, Step(w.agents[id].pos, w.agents[id].orientation))
    ensures Act(w, id, name, rules) == Outcome(w, Some(NumericMap))
  {
  }

  /** The action 'FIRE' that harvest.py adds is known and is a beam: it is none of move, stay
      or turn, so on the character map it fires. */
  lemma FireIsBeam(w: World, id: AgentId, rules: Rules)
    requires id in w.agents && rules.KnowsFire() && w.charMap
    ensures var o, a := Act(w, id, "FIRE", rules), w.agents[id];
            && o.fault == None
            && o.world.reservedSlots == w.reservedSlots + BeamSlots(Ray(w.grid, a.pos, a.orientation))
            && o.world.(reservedSlots := w.reservedSlots) == FireWorld(w, a.pos, a.orientation)
  {
    var fire := "FIRE";
    ShorterLacks(fire[1..], "MOVE");
    ShorterLacks(fire[1..], "STAY");
    ShorterLacks(fire[1..], "TURN");
    assert fire[..4][0] == 'F';
    ActFire(w, id, "FIRE", rules);
  }

  /** A string never contains a longer one. */
  lemma {:induction false} ShorterLacks(s: string, t: string)
    requires |s| < |t|
    ensures !Contains(s, t)
    decreases |s|
  {
    if |s| > 0 {
      ShorterLacks(s[1..], t);
    }
  }

  /** An unknown agent id or action name stops the loop with the state untouched by this pass. */
  lemma ActUnknown(w: World, id: AgentId, name: string, rules: Rules)
    requires id !in w.agents || name !in rules.actions
    ensures Act(w, id, name, rules).world == w
    ensures Act(w, id, name, rules).fault == (if id !in w.agents then Some(UnknownAgent(id)) else Some(UnknownAction(name)))
  {
  }

  /** One pass keeps the map's shape and its walls. */
  lemma ActKeepsWalls(w: World, id: AgentId, name: string, rules: Rules, q: Pos)
    requires InBounds(w.grid, q) && At(w.grid, q) == Wall
    ensures SameShape(Act(w, id, name, rules).world.grid, w.grid)
    ensures InBounds(Act(w, id, name, rules).world.grid, q) && At(Act(w, id, name, rules).world.grid, q) == Wall
  {
    if id in w.agents && name in rules.actions {
      var a := w.agents[id];
      FireCell(w, a.pos, a.orientation, q);
    }
  }

  /** The whole loop keeps the map's shape and its walls. */
  lemma {:induction false} ActAllKeepsWalls(w: World, acts: seq<(AgentId, string)>, rules: Rules, q: Pos)
    requires InBounds(w.grid, q) && At(w.grid, q) == Wall
    ensures SameShape(ActAll(w, acts, rules).world.grid, w.grid)
    ensures InBounds(ActAll(w, acts, rules).world.grid, q) && At(ActAll(w, acts, rules).world.grid, q) == Wall
    decreases |acts|
  {
    if acts != [] {
      var n := |acts| - 1;
      ActAllKeepsWalls(w, acts[..n], rules, q);
      var before := ActAll(w, acts[..n], rules);
      if before.fault.None? {
        ActKeepsWalls(before.world, acts[n].0, acts[n].1, rules, q);
      }
    }
  }

  /** One pass appends to the reservations it was given. */
  lemma ActAppends(w: World, id: AgentId, name: string, rules: Rules)
    ensures var r := Act(w, id, name, rules).world.reservedSlots;
            |w.reservedSlots| <= |r| && r[..|w.reservedSlots|] == w.reservedSlots
  {
  }

  /** The reservations only grow: the loop appends to the list it was given. */
  lemma {:induction false} ActAllAppends(w: World, acts: seq<(AgentId, string)>, rules: Rules)
    ensures var r := ActAll(w, acts, rules).world.reservedSlots;
            |w.reservedSlots| <= |r| && r[..|w.reservedSlots|] == w.reservedSlots
    decreases |acts|
  {
    if acts != [] {
      var n := |acts| - 1;
      ActAllAppends(w, acts[..n], rules);
      var before := ActAll(w, acts[..n], rules).world;
      ActAppends(before, acts[n].0, acts[n].1, rules);
      var r := ActAll(w, acts, rules).world.reservedSlots;
      assert r[..|before.reservedSlots|] == before.reservedSlots;
      assert r[..|w.reservedSlots|] == before.reservedSlots[..|w.reservedSlots|];
    }
  }

  /** A fault ends the loop: once a prefix of the actions stops at a fault, the whole list
      gives the same world and the same fault, so the remaining actions are never applied. */
  lemma {:induction false} ActAllStops(w: World, acts: seq<(AgentId, string)>, rules: Rules, n: nat)
    requires n <= |acts| && ActAll(w, acts[..n], rules).fault.Some?
    ensures ActAll(w, acts, rules) == ActAll(w, acts[..n], rules)
    decreases |acts|
  {
    if n < |acts| {
      var m := |acts| - 1;
      assert acts[..m][..n] == acts[..n];
      ActAllStops(w, acts[..m], rules, n);
    } else {
      assert acts[..n] == acts;
    }
  }

  /** `clean_firing_points` never overwrites a wall, given the invariant (every firing point
      it cleans holds a beam, not a wall). */
  lemma CleanKeepsWalls(w: World, q: Pos)
    requires Valid(w) && InBounds(w.grid, q) && At(w.grid, q) == Wall
    ensures InBounds(CleanOutcome(w).world.grid, q)
    ensures At(CleanOutcome(w).world.grid, q) == Wall
  {
    CleanCell(w, q);
  }

  /** `update_map` never overwrites a wall, given the invariant. */
  lemma UpdateMapKeepsWalls(w: World, acts: seq<(AgentId, string)>, rules: Rules, q: Pos)
    requires Valid(w) && rules.KnowsFire() && InBounds(w.grid, q) && At(w.grid, q) == Wall
    ensures InBounds(UpdateMap(w, acts, rules).world.grid, q)
    ensures At(UpdateMap(w, acts, rules).world.grid, q) == Wall
  {
    CleanKeepsWalls(w, q);
    if CleanOutcome(w).fault.None? {
      ActAllKeepsWalls(Clean(w), acts, rules, q);
    }
  }

  /** `execute_custom_reservations` never overwrites a wall, given the invariant (no apple or
      beam reservation names a wall point, and only wall points hold walls). */
  lemma ExecuteKeepsWalls(w: World, q: Pos)
    requires Valid(w) && InBounds(w.grid, q) && At(w.grid, q) == Wall
    ensures InBounds(ExecuteOutcome(w).world.grid, q)
    ensures At(ExecuteOutcome(w).world.grid, q) == Wall
  {
    ExecuteCell(w, q);
  }

  // ---- reset_map ----

  /** A reset map holds a wall at every wall point, an apple at every apple point and is
      empty everywhere else. */
  lemma ResetCell(w: World, newAgents: map<AgentId, Agent>, q: Pos)
    requires Valid(w) && 0 <= q.row < |w.base| && 0 <= q.col < Cols(w.base)
    ensures AllIn(Blank(w.base), w.wallPoints) && AllIn(Blank(w.base), w.applePoints)
    ensures var r := Reset(w, newAgents);
            && InBounds(r.grid, q)
            && At(r.grid, q) == (if w.base[q.row][q.col] == '@' then Wall
                                 else if w.base[q.row][q.col] == 'A' then Apple
                                 else Empty)
  {
    var blank := Blank(w.base);
    AllInShape(w.grid, blank, w.wallPoints);
    AllInShape(w.grid, blank, w.applePoints);
    var walled := Paint(blank, w.wallPoints, Wall);
    AllInShape(blank, walled, w.applePoints);
    PaintAt(blank, w.wallPoints, Wall, q);
    PlantAt(walled, w.applePoints, q);
    PointsOfSpec(w.base, '@', q);
    PointsOfSpec(w.base, 'A', q);
  }

  /** A reset empties the firing points, installs the new agents and keeps the hidden lists
      and the reservations as they were. */
  lemma ResetLists(w: World, newAgents: map<AgentId, Agent>)
    requires Valid(w)
    requires |w.base| > 0
    ensures AllIn(Blank(w.base), w.wallPoints) && AllIn(Blank(w.base), w.applePoints)
    ensures var r := Reset(w, newAgents);
            && r.firingPoints == [] && r.agents == newAgents
            && r.hiddenApples == w.hiddenApples && r.hiddenAgents == w.hiddenAgents
            && r.reservedSlots == w.reservedSlots
            && Shaped(r.grid, w.base)
  {
    var blank := Blank(w.base);
    AllInShape(w.grid, blank, w.wallPoints);
    AllInShape(w.grid, blank, w.applePoints);
    var walled := Paint(blank, w.wallPoints, Wall);
    AllInShape(blank, walled, w.applePoints);
    var d := Deferred(walled, w.applePoints, w.hiddenAgents);
    if |d| > 0 {
      DeferredHas(walled, w.applePoints, w.hiddenAgents, d[0]);
      PaintAt(blank, w.wallPoints, Wall, d[0]);
    }
    assert w.hiddenApples + d == w.hiddenApples;
  }

  // ---- the invariant ----

  /** The invariant of a state that keeps the base map and layout lists of a valid one, from
      the parts that can change. */
  lemma ValidFrom(w: World, e: World)
    requires Valid(w)
    requires e.base == w.base && e.applePoints == w.applePoints && e.wallPoints == w.wallPoints
    requires SameShape(e.grid, w.grid)
    requires AllBeams(e.grid, e.firingPoints) && SlotsIn(e.grid, e.reservedSlots)
    requires (!e.charMap ==> e.grid == Blank(e.base)) && Walled(e)
    ensures Valid(e)
  {
    AllInShape(w.grid, e.grid, w.applePoints);
    AllInShape(w.grid, e.grid, w.wallPoints);
  }

  /** Two lists of beam cells make one. */
  lemma AllBeamsConcat(g: Grid, a: seq<Pos>, b: seq<Pos>)
    requires AllBeams(g, a) && AllBeams(g, b)
    ensures AllBeams(g, a + b)
  {
    forall k | 0 <= k < |a + b| ensures InBounds(g, (a + b)[k]) && At(g, (a + b)[k]) == Beam {
      if k >= |a| {
        assert (a + b)[k] == b[k - |a|];
      }
    }
  }

  /** The state `__init__` leaves satisfies the invariant: a blank map of the base map's
      shape, the three point lists of the base map, and nothing fired or reserved. */
  lemma ValidInit(base: seq<seq<char>>, agents: map<AgentId, Agent>)
    requires IsRect(base)
    ensures Valid(World(base, Blank(base), agents, PointsOf(base, 'A'), PointsOf(base, '@'),
                        PointsOf(base, 'P'), [], [], [], [], false))
  {
    PointsOfBounds(base, 'A');
    PointsOfBounds(base, '@');
    forall q | InBounds(Blank(base), q) ensures At(Blank(base), q) == Empty {
      BlankAt(base, q);
    }
  }

  lemma ValidClean(w: World)
    requires Valid(w)
    ensures Valid(CleanOutcome(w).world)
  {
    if w.charMap || w.firingPoints == [] {
      var c := Clean(w);
      AllInSlots(w.grid, c.grid, w.reservedSlots);
      if w.charMap {
        forall k | 0 <= k < |w.wallPoints| ensures At(c.grid, w.wallPoints[k]) == Wall {
          CleanCell(w, w.wallPoints[k]);
        }
      }
      forall q | InBounds(c.grid, q) && At(c.grid, q) == Wall ensures q in w.wallPoints {
        CleanCell(w, q);
      }
      ValidFrom(w, c);
    }
  }

  /** Firing keeps the earlier firing points' beams and puts its own reservations on the map. */
  lemma FireKeeps(w: World, from: Pos, o: Orientation)
    requires AllBeams(w.grid, w.firingPoints) && SlotsIn(w.grid, w.reservedSlots)
    ensures var f := FireWorld(w, from, o);
            && SameShape(f.grid, w.grid)
            && AllBeams(f.grid, w.firingPoints)
            && SlotsIn(f.grid, w.reservedSlots + BeamSlots(Ray(w.grid, from, o)))
  {
    var cells := Ray(w.grid, from, o);
    var f := FireWorld(w, from, o);
    RayOpen(w.grid, from, o);
    AllInShape(w.grid, f.grid, w.firingPoints);
    AllInSlots(w.grid, f.grid, w.reservedSlots);
    forall k | 0 <= k < |w.firingPoints| ensures At(f.grid, w.firingPoints[k]) == Beam {
      PaintAt(w.grid, cells, Beam, w.firingPoints[k]);
    }
    var slots := BeamSlots(cells);
    forall r | r in w.reservedSlots + slots && !r.PlayerSlot? ensures InBounds(f.grid, r.Where()) {
      if r !in w.reservedSlots {
        var k :| 0 <= k < |slots| && slots[k] == r;
        assert r.Where() == cells[k];
      }
    }
  }

  /** A beam on the character map keeps the walls: it covers no wall, so it neither paints a
      wall point nor reserves one. */
  lemma FireWalled(w: World, from: Pos, o: Orientation)
    requires Valid(w) && w.charMap
    ensures Walled(FireWorld(w, from, o).(reservedSlots := w.reservedSlots + BeamSlots(Ray(w.grid, from, o))))
  {
    var cells := Ray(w.grid, from, o);
    var e := FireWorld(w, from, o).(reservedSlots := w.reservedSlots + BeamSlots(cells));
    RayOpen(w.grid, from, o);
    forall k | 0 <= k < |w.wallPoints| ensures InBounds(e.grid, w.wallPoints[k]) && At(e.grid, w.wallPoints[k]) == Wall {
      FireCell(w, from, o, w.wallPoints[k]);
    }
    forall q | InBounds(e.grid, q) && At(e.grid, q) == Wall ensures q in w.wallPoints {
      FireCell(w, from, o, q);
    }
    var slots := BeamSlots(cells);
    forall r | r in e.reservedSlots && !r.PlayerSlot? ensures r.Where() !in w.wallPoints {
      if r !in w.reservedSlots {
        var k :| 0 <= k < |slots| && slots[k] == r;
        assert r.Where() == cells[k] && Open(w.grid, cells[k]);
      }
    }
  }

  lemma ValidAct(w: World, id: AgentId, name: string, rules: Rules)
    requires Valid(w)
    ensures Valid(Act(w, id, name, rules).world)
  {
    if id in w.agents && name in rules.actions {
      var a := w.agents[id];
      if Contains(name, "MOVE") || Contains(name, "STAY") || Contains(name, "TURN") {
        ValidFrom(w, Act(w, id, name, rules).world);
      } else if w.charMap {
        FireKeeps(w, a.pos, a.orientation);
        FireWalled(w, a.pos, a.orientation);
        ValidFrom(w, Act(w, id, name, rules).world);
      } else if !InBounds(w.grid, Step(a.pos, a.orientation)) {
        FireIntoWall(w, a.pos, a.orientation);
        assert w.reservedSlots + [] == w.reservedSlots;
      }
    }
  }

  lemma {:induction false} ValidActAll(w: World, acts: seq<(AgentId, string)>, rules: Rules)
    requires Valid(w)
    ensures Valid(ActAll(w, acts, rules).world)
    decreases |acts|
  {
    if acts != [] {
      var n := |acts| - 1;
      ValidActAll(w, acts[..n], rules);
      var before := ActAll(w, acts[..n], rules);
      if before.fault.None? {
        ValidAct(before.world, acts[n].0, acts[n].1, rules);
      }
    }
  }

  lemma ValidUpdateMap(w: World, acts: seq<(AgentId, string)>, rules: Rules)
    requires Valid(w) && rules.KnowsFire()
    ensures Valid(UpdateMap(w, acts, rules).world)
  {
    ValidClean(w);
    if CleanOutcome(w).fault.None? {
      ValidActAll(Clean(w), acts, rules);
    }
  }

  /** Executing keeps the earlier firing points' beams. */
  lemma ExecuteKeeps(w: World)
    requires SlotsIn(w.grid, w.reservedSlots) && AllBeams(w.grid, w.firingPoints)
    ensures SameShape(Execute(w).grid, w.grid)
    ensures AllBeams(Execute(w).grid, w.firingPoints)
  {
    var e := Execute(w);
    PlacesIn(w.grid, w.reservedSlots);
    AllInShape(w.grid, CommitBeams(w).grid, ApplePlaces(w.reservedSlots));
    AllInShape(w.grid, e.grid, w.firingPoints);
    forall k | 0 <= k < |w.firingPoints| ensures At(e.grid, w.firingPoints[k]) == Beam {
      ExecuteCell(w, w.firingPoints[k]);
    }
  }

  /** Executing on the character map keeps the walls: no reservation names a wall point. */
  lemma ExecuteWalled(w: World)
    requires Valid(w) && w.charMap
    ensures Walled(Execute(w))
  {
    var e := Execute(w);
    ExecuteLists(w);
    ExecuteKeeps(w);
    forall k | 0 <= k < |w.wallPoints| ensures InBounds(e.grid, w.wallPoints[k]) && At(e.grid, w.wallPoints[k]) == Wall {
      ExecuteCell(w, w.wallPoints[k]);
    }
    forall q | InBounds(e.grid, q) && At(e.grid, q) == Wall ensures q in w.wallPoints {
      ExecuteCell(w, q);
    }
  }

  /** On the numeric map `execute_custom_reservations` gets past its checks only with nothing
      to write, and then changes nothing. */
  lemma ExecuteNothing(w: World)
    requires SlotsIn(w.grid, w.reservedSlots)
    requires BeamPlaces(w.reservedSlots) == [] && ApplePlaces(w.reservedSlots) == []
    ensures Execute(w) == w
  {
    ExecuteIs(w);
    assert w.firingPoints + [] == w.firingPoints && w.hiddenApples + [] == w.hiddenApples;
  }

  lemma ValidExecute(w: World)
    requires Valid(w)
    ensures Valid(ExecuteOutcome(w).world)
  {
    if ExecuteOutcome(w).fault.None? {
      if w.charMap {
        var e := Execute(w);
        ExecuteLists(w);
        ExecuteKeeps(w);
        ExecuteWalled(w);
        AllBeamsConcat(e.grid, w.firingPoints, BeamPlaces(w.reservedSlots));
        AllInSlots(w.grid, e.grid, w.reservedSlots);
        ValidFrom(w, e);
      } else {
        ExecuteNothing(w);
      }
    }
  }

  /** Every spawned reservation names an apple point: a cell on the map and no wall point. */
  lemma SpawnedApart(w: World, draws: seq<real>)
    requires Valid(w) && |draws| == |w.applePoints| && IsRect(w.grid)
    ensures var spawned := SpawnSlots(w.grid, w.applePoints, draws);
            forall r :: r in spawned ==> InBounds(w.grid, r.Where()) && r.Where() !in w.wallPoints
  {
    var spawned := SpawnSlots(w.grid, w.applePoints, draws);
    SpawnSlotsSubseq(w.grid, w.applePoints, draws);
    forall r | r in spawned ensures InBounds(w.grid, r.Where()) && r.Where() !in w.wallPoints {
      var k :| 0 <= k < |spawned| && spawned[k] == r;
      assert r == AppleSlot(r.Where().row, r.Where().col);
      SpawnSlotsHas(w.grid, w.applePoints, draws, r.Where());
      PointsOfDisjoint(w.base, 'A', '@', r.Where());
    }
  }

  lemma ValidCustomMapUpdate(w: World, draws: seq<real>)
    requires Valid(w) && |draws| == |w.applePoints|
    ensures IsRect(w.grid)
    ensures Valid(CustomMapUpdate(w, draws))
  {
    assert IsRect(w.grid) by {
      if |w.grid| > 0 {
        assert |w.grid[0]| == Cols(w.base);
      }
    }
    SpawnedApart(w, draws);
    ValidFrom(w, CustomMapUpdate(w, draws));
  }

  /** A reset keeps the invariant: on a base map with rows it installs the character map with
      the walls exactly at the wall points; on one without, it raises and changes nothing. */
  lemma ValidReset(w: World, newAgents: map<AgentId, Agent>)
    requires Valid(w)
    ensures AllIn(Blank(w.base), w.wallPoints) && AllIn(Blank(w.base), w.applePoints)
    ensures Valid(ResetOutcome(w, newAgents).world)
    ensures ResetOutcome(w, newAgents).fault.Some? <==> |w.base| == 0
  {
    AllInShape(w.grid, Blank(w.base), w.wallPoints);
    AllInShape(w.grid, Blank(w.base), w.applePoints);
    if |w.base| > 0 {
      ValidResetRows(w, newAgents);
    }
  }

  /** `Reset` on a base map with rows keeps the invariant. */
  lemma ValidResetRows(w: World, newAgents: map<AgentId, Agent>)
    requires Valid(w) && |w.base| > 0
    ensures AllIn(Blank(w.base), w.wallPoints) && AllIn(Blank(w.base), w.applePoints)
    ensures Valid(Reset(w, newAgents))
  {
    ResetLists(w, newAgents);
    var r := Reset(w, newAgents);
    AllInSlots(w.grid, r.grid, w.reservedSlots);
    forall k | 0 <= k < |w.wallPoints| ensures InBounds(r.grid, w.wallPoints[k]) && At(r.grid, w.wallPoints[k]) == Wall {
      PointsOfSpec(w.base, '@', w.wallPoints[k]);
      ResetCell(w, newAgents, w.wallPoints[k]);
    }
    forall q | InBounds(r.grid, q) && At(r.grid, q) == Wall ensures q in w.wallPoints {
      ResetCell(w, newAgents, q);
      PointsOfSpec(w.base, '@', q);
    }
    ValidFrom(w, r);
  }
}

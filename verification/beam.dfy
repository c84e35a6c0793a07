/** The beam walk of `update_map_fire`: how far a beam gets and which cells it covers. */
module Beam {
  import opened Board

  /** `num_fire_cells`: the longest beam. */
  const BeamLength: nat := 5

  /** A cell the beam may enter: inside the map and not a wall. */
  predicate Open(g: Grid, p: Pos) {
    InBounds(g, p) && At(g, p) != Wall
  }

  /** How many cells a beam leaving `from` in direction o covers, trying at most `budget`. */
  function Reach(g: Grid, from: Pos, o: Orientation, budget: nat): (n: nat)
    ensures n <= budget
    decreases budget
  {
    if budget == 0 then 0
    else if Open(g, Step(from, o)) then 1 + Reach(g, Step(from, o), o, budget - 1)
    else 0
  }

  /** The first n cells ahead of `from`, nearest first. */
  function Run(from: Pos, o: Orientation, n: nat): (cs: seq<Pos>)
    ensures |cs| == n
    ensures forall k :: 0 <= k < n ==> cs[k] == Ahead(from, o, k + 1)
  {
    if n == 0 then [] else Run(from, o, n - 1) + [Ahead(from, o, n)]
  }

  /** The cells a beam fired from `from` facing o turns into beam. */
  function Ray(g: Grid, from: Pos, o: Orientation): seq<Pos> {
    Run(from, o, Reach(g, from, o, BeamLength))
  }

  lemma AheadInjective(p: Pos, o: Orientation, j: int, k: int)
    requires j != k
    ensures Ahead(p, o, j) != Ahead(p, o, k)
  {
  }

  /** Every covered cell is open, and a beam shorter than its budget is stopped by the
      next cell, which is off the map or a wall. */
  lemma {:induction false} ReachStops(g: Grid, from: Pos, o: Orientation, budget: nat)
    ensures forall k :: 1 <= k <= Reach(g, from, o, budget) ==> Open(g, Ahead(from, o, k))
    ensures Reach(g, from, o, budget) < budget ==>
              !Open(g, Ahead(from, o, Reach(g, from, o, budget) + 1))
    decreases budget
  {
    var n := Reach(g, from, o, budget);
    if budget > 0 && Open(g, Step(from, o)) {
      var next := Step(from, o);
      ReachStops(g, next, o, budget - 1);
      forall k | 1 <= k <= n ensures Open(g, Ahead(from, o, k)) {
        if k > 1 {
          assert Ahead(from, o, k) == Ahead(next, o, k - 1);
        }
      }
      assert Ahead(from, o, n + 1) == Ahead(next, o, n);
    }
  }

  /** The two facts of ReachStops determine the reach. */
  lemma ReachUnique(g: Grid, from: Pos, o: Orientation, budget: nat, i: nat)
    requires i <= budget
    requires forall k :: 1 <= k <= i ==> Open(g, Ahead(from, o, k))
    requires i == budget || !Open(g, Ahead(from, o, i + 1))
    ensures Reach(g, from, o, budget) == i
  {
    ReachStops(g, from, o, budget);
  }

  /** The beam's cells are all on the map and none of them is a wall. */
  lemma RayOpen(g: Grid, from: Pos, o: Orientation)
    ensures AllIn(g, Ray(g, from, o))
    ensures forall p :: p in Ray(g, from, o) ==> Open(g, p)
  {
    ReachStops(g, from, o, BeamLength);
  }

  /** A walk that passed k open cells and then stopped, at a closed cell or after the whole
      budget, has walked exactly the ray. */
  lemma RayFromWalk(g: Grid, from: Pos, o: Orientation, k: nat)
    requires k <= BeamLength
    requires forall j :: 0 <= j < k ==> Open(g, Run(from, o, BeamLength)[j])
    requires k == BeamLength || !Open(g, Ahead(from, o, k + 1))
    ensures Ray(g, from, o) == Run(from, o, BeamLength)[..k]
  {
    var ahead := Run(from, o, BeamLength);
    forall j | 1 <= j <= k
      ensures Open(g, Ahead(from, o, j))
    {
      assert ahead[j - 1] == Ahead(from, o, j);
    }
    ReachUnique(g, from, o, BeamLength, k);
    assert Run(from, o, k) == ahead[..k];
  }

  /** The next step of the walk reaches the next cell of the run, one not visited before. */
  lemma WalkStep(from: Pos, o: Orientation, k: nat)
    requires k < BeamLength
    ensures var ahead := Run(from, o, BeamLength);
            && Step(Ahead(from, o, k), o) == ahead[k] == Ahead(from, o, k + 1)
            && ahead[k] !in ahead[..k]
  {
    var ahead := Run(from, o, BeamLength);
    AheadStep(from, o, k);
    forall j | 0 <= j < k
      ensures ahead[j] != ahead[k]
    {
      AheadInjective(from, o, j + 1, k + 1);
    }
  }
}

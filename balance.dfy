/** The balance policies: each arrival pours one unit of water over the
    levels of its neighbours, then picks one unselected neighbour by sampling
    without replacement, weighted by the water each one received (SWOR) or by
    that water times the correction weight w of its level (OCS). */
module Balance {
  import opened TypeGraph
  import opened WaterFill
  import opened Matching

  /** `std::max` on doubles: (a < b) ? b : a. */
  function Max(a: real, b: real): (m: real)
    ensures m >= a && m >= b && (m == a || m == b)
  {
    if a < b then b else a
  }

  /** The weight of Balance-SWOR: every vertex counts its water alone. */
  function UnitWeight(y: real): real
  {
    1.0
  }

  /** The correction weight of Balance-OCS is positive everywhere. */
  ghost predicate PositiveWeight(w: real -> real)
  {
    forall y :: w(y) > 0.0
  }

  /** The water a vertex at level y receives under the ceiling newLevel,
      times its weight. */
  function Increment(newLevel: real, y: real, w: real -> real): real
  {
    Max(newLevel - y, 0.0) * w(y)
  }

  /** The state a balance policy keeps: the level and the selected flag of
      every node, and the result so far. */
  datatype State = State(level: seq<real>, selected: seq<bool>, res: seq<int>)

  /** The levels and flags cover the same nodes and `nbrs` names only them. */
  predicate Fits(s: State, nbrs: seq<int>)
  {
    |s.selected| == |s.level| && NodesIn(nbrs, |s.level|)
  }

  /** The levels of the neighbours, in adjacency order, as `fill_water` gets them. */
  function NeighbourLevels(level: seq<real>, nbrs: seq<int>): seq<real>
    requires NodesIn(nbrs, |level|)
  {
    seq(|nbrs|, k requires 0 <= k < |nbrs| => level[nbrs[k]])
  }

  /** The ceiling `fill_water(level, 1)`: one unit of water poured over the
      levels of the neighbours. It lies in [0, 1]. */
  function WaterCeiling(level: seq<real>): (c: real)
    ensures 0.0 <= c <= 1.0
  {
    WaterLevelBounds(level, 1.0);
    WaterLevel(level, 1.0)
  }

  /** A ceiling rule whose ceilings all lie in [0, 1]. The policy steps below
      take the rule as a parameter `fill`; the policies use WaterCeiling. */
  ghost predicate CeilingInUnit(fill: seq<real> -> real)
  {
    forall level :: 0.0 <= fill(level) <= 1.0
  }

  /** fill_water's ceiling is such a rule. */
  lemma WaterCeilingInUnit()
    ensures CeilingInUnit(WaterCeiling)
  {
    forall level ensures 0.0 <= WaterCeiling(level) <= 1.0 {
    }
  }

  /** The ceiling of this arrival under the rule `fill`. */
  function NewLevel(s: State, nbrs: seq<int>, fill: seq<real> -> real): real
    requires Fits(s, nbrs)
  {
    fill(NeighbourLevels(s.level, nbrs))
  }

  /** Sum of the increments of the unselected vertices among the first m
      neighbours, in adjacency order. */
  function Mass(s: State, nbrs: seq<int>, newLevel: real, w: real -> real, m: nat): real
    requires Fits(s, nbrs) && m <= |nbrs|
  {
    if m == 0 then 0.0
    else
      var j := nbrs[m - 1];
      Mass(s, nbrs, newLevel, w, m - 1) + (if s.selected[j] then 0.0 else Increment(newLevel, s.level[j], w))
  }

  /** Position p is unselected and the running sum up to and including it
      reaches the sample. */
  predicate Crosses(s: State, nbrs: seq<int>, newLevel: real, w: real -> real, sample: real, p: int)
    requires Fits(s, nbrs) && 0 <= p < |nbrs|
  {
    !s.selected[nbrs[p]] && Mass(s, nbrs, newLevel, w, p + 1) >= sample
  }

  /** The scan that picks a neighbour: the first position from k on that
      crosses the sample, or -1. */
  function PickFrom(s: State, nbrs: seq<int>, newLevel: real, w: real -> real, sample: real, k: nat): (j: int)
    requires Fits(s, nbrs) && k <= |nbrs|
    ensures j == Unmatched || (j in nbrs[k..] && 0 <= j < |s.level| && !s.selected[j])
    decreases |nbrs| - k
  {
    if k == |nbrs| then Unmatched
    else if Crosses(s, nbrs, newLevel, w, sample, k) then nbrs[k]
    else PickFrom(s, nbrs, newLevel, w, sample, k + 1)
  }

  /** The levels after the first m neighbours, in adjacency order, have each
      been raised to at least the ceiling. */
  function Raise(level: seq<real>, nbrs: seq<int>, newLevel: real, m: nat): (r: seq<real>)
    requires NodesIn(nbrs, |level|) && m <= |nbrs|
    ensures |r| == |level|
  {
    if m == 0 then level
    else
      var before := Raise(level, nbrs, newLevel, m - 1);
      var j := nbrs[m - 1];
      before[j := Max(newLevel, before[j])]
  }

  /** Raising never lowers a level, lifts every one of the first m neighbours
      to at least the ceiling, and leaves every other node alone. */
  lemma {:induction false} RaiseFacts(level: seq<real>, nbrs: seq<int>, newLevel: real, m: nat, v: int)
    requires NodesIn(nbrs, |level|) && m <= |nbrs| && 0 <= v < |level|
    ensures Raise(level, nbrs, newLevel, m)[v] >= level[v]
    ensures v in nbrs[..m] ==> Raise(level, nbrs, newLevel, m)[v] >= newLevel
    ensures v !in nbrs[..m] ==> Raise(level, nbrs, newLevel, m)[v] == level[v]
    ensures Raise(level, nbrs, newLevel, m)[v] == level[v] || Raise(level, nbrs, newLevel, m)[v] == newLevel
  {
    if m > 0 {
      RaiseFacts(level, nbrs, newLevel, m - 1, v);
      assert nbrs[..m] == nbrs[..m - 1] + [nbrs[m - 1]];
    }
  }

  /** The sample drawn uniformly from [0, mass], given as the fraction u of the mass. */
  function Sample(u: real, mass: real): real
  {
    u * mass
  }

  /** The neighbour arrival i picks: the first unselected one whose running
      mass reaches the sample, the sample being u times the total mass. */
  function Choice(s: State, nbrs: seq<int>, w: real -> real, fill: seq<real> -> real, u: real): (j: int)
    requires Fits(s, nbrs)
    ensures j == Unmatched || (j in nbrs && 0 <= j < |s.level| && !s.selected[j])
  {
    var newLevel := NewLevel(s, nbrs, fill);
    PickFrom(s, nbrs, newLevel, w, Sample(u, Mass(s, nbrs, newLevel, w, |nbrs|)), 0)
  }

  /** Arrival i with neighbours `nbrs` and random fraction u: the picked
      vertex is selected and recorded, and every neighbour is raised to the
      ceiling. */
  function Arrive(s: State, nbrs: seq<int>, w: real -> real, fill: seq<real> -> real, u: real, i: nat): State
    requires Fits(s, nbrs) && i < |s.res|
  {
    var j := Choice(s, nbrs, w, fill, u);
    State(Raise(s.level, nbrs, NewLevel(s, nbrs, fill), |nbrs|), RecordMarks(s.selected, j), RecordRes(s.res, i, j))
  }

  /** The graph and realization a policy reads: lists and types name nodes
      of the graph, one random fraction per arrival. */
  predicate WellFormed(adj: seq<seq<int>>, types: seq<int>, fractions: seq<real>)
  {
    AdjacencyInRange(adj) && NodesIn(types, |adj|) && |fractions| == |types|
  }

  /** The random fractions are in [0, 1], so each sample lies in [0, mass]. */
  predicate Fractions(fractions: seq<real>)
  {
    forall i :: 0 <= i < |fractions| ==> 0.0 <= fractions[i] <= 1.0
  }

  /** All levels 0, nothing selected, every arrival unmatched. */
  function Initial(n: nat, m: nat): State
  {
    State(seq(n, _ => 0.0), seq(n, _ => false), seq(m, _ => Unmatched))
  }

  /** The state after the first k arrivals: arrival k - 1 picks from the
      state after k - 1 arrivals; the levels, which the picks never affect,
      are those of LevelsAt. */
  function Run(adj: seq<seq<int>>, types: seq<int>, w: real -> real, fill: seq<real> -> real, fractions: seq<real>, k: nat): (s: State)
    requires WellFormed(adj, types, fractions) && k <= |types|
    ensures |s.level| == |adj| && |s.selected| == |adj| && |s.res| == |types|
  {
    if k == 0 then Initial(|adj|, |types|)
    else
      var i := k - 1;
      var s := Run(adj, types, w, fill, fractions, i);
      var nbrs := adj[types[i]];
      var j := Choice(s, nbrs, w, fill, fractions[i]);
      State(LevelsAt(adj, types, fill, k), RecordMarks(s.selected, j), RecordRes(s.res, i, j))
  }

  /** One more arrival. */
  lemma RunStep(adj: seq<seq<int>>, types: seq<int>, w: real -> real, fill: seq<real> -> real, fractions: seq<real>, k: nat)
    requires WellFormed(adj, types, fractions) && k < |types|
    ensures Run(adj, types, w, fill, fractions, k + 1)
         == Arrive(Run(adj, types, w, fill, fractions, k), adj[types[k]], w, fill, fractions[k], k)
  {
  }

  /** With a positive weight every increment, hence the mass, is non-negative. */
  lemma {:induction false} MassNonNegative(s: State, nbrs: seq<int>, newLevel: real, w: real -> real, m: nat)
    requires Fits(s, nbrs) && m <= |nbrs| && PositiveWeight(w)
    ensures Mass(s, nbrs, newLevel, w, m) >= 0.0
  {
    if m > 0 {
      MassNonNegative(s, nbrs, newLevel, w, m - 1);
      var y := s.level[nbrs[m - 1]];
      assert w(y) > 0.0;
      assert Max(newLevel - y, 0.0) * w(y) >= 0.0;
    }
  }

  /** The picked vertex is the one at the first position that crosses the
      sample; there is none exactly when no position does. */
  lemma {:induction false} PickIsFirstCrossing(s: State, nbrs: seq<int>, newLevel: real, w: real -> real, sample: real, k: nat)
    requires Fits(s, nbrs) && k <= |nbrs|
    ensures var j := PickFrom(s, nbrs, newLevel, w, sample, k);
      j == Unmatched <==> forall p :: k <= p < |nbrs| ==> !Crosses(s, nbrs, newLevel, w, sample, p)
    ensures var j := PickFrom(s, nbrs, newLevel, w, sample, k);
      j != Unmatched ==>
        exists p :: k <= p < |nbrs| && j == nbrs[p] && Crosses(s, nbrs, newLevel, w, sample, p)
          && forall q :: k <= q < p ==> !Crosses(s, nbrs, newLevel, w, sample, q)
    decreases |nbrs| - k
  {
    if k < |nbrs| {
      PickIsFirstCrossing(s, nbrs, newLevel, w, sample, k + 1);
      assert nbrs[k] != Unmatched;
    }
  }

  /** If the first m positions hold an unselected vertex and their mass
      reaches the sample, one of them crosses the sample. */
  lemma {:induction false} SomeCrossing(s: State, nbrs: seq<int>, newLevel: real, w: real -> real, sample: real, m: nat)
    requires Fits(s, nbrs) && m <= |nbrs|
    requires sample <= Mass(s, nbrs, newLevel, w, m)
    requires exists p :: 0 <= p < m && !s.selected[nbrs[p]]
    ensures exists p :: 0 <= p < m && Crosses(s, nbrs, newLevel, w, sample, p)
  {
    var last := m - 1;
    if s.selected[nbrs[last]] {
      SomeCrossing(s, nbrs, newLevel, w, sample, last);
    } else {
      assert Crosses(s, nbrs, newLevel, w, sample, last);
    }
  }

  /** For a sample up to the mass the scan comes back empty exactly when
      every neighbour is already selected. */
  lemma UnmatchedIffAllSelected(s: State, nbrs: seq<int>, newLevel: real, w: real -> real, sample: real)
    requires Fits(s, nbrs)
    requires sample <= Mass(s, nbrs, newLevel, w, |nbrs|)
    ensures PickFrom(s, nbrs, newLevel, w, sample, 0) == Unmatched
        <==> forall p :: 0 <= p < |nbrs| ==> s.selected[nbrs[p]]
  {
    PickIsFirstCrossing(s, nbrs, newLevel, w, sample, 0);
    if exists p :: 0 <= p < |nbrs| && !s.selected[nbrs[p]] {
      SomeCrossing(s, nbrs, newLevel, w, sample, |nbrs|);
    }
  }

  /** A fraction of a non-negative mass is at most the mass. */
  lemma FractionBelow(u: real, mass: real)
    requires 0.0 <= u <= 1.0 && mass >= 0.0
    ensures 0.0 <= Sample(u, mass) <= mass
  {
    assert mass - u * mass == (1.0 - u) * mass;
  }

  /** With a positive weight and a fraction in [0, 1], arrival's choice is
      -1 exactly when every neighbour is selected. */
  lemma ChoiceUnmatchedIffFull(s: State, nbrs: seq<int>, w: real -> real, fill: seq<real> -> real, u: real)
    requires Fits(s, nbrs) && PositiveWeight(w) && 0.0 <= u <= 1.0
    ensures Choice(s, nbrs, w, fill, u) == Unmatched <==> forall p :: 0 <= p < |nbrs| ==> s.selected[nbrs[p]]
  {
    var newLevel := NewLevel(s, nbrs, fill);
    var mass := Mass(s, nbrs, newLevel, w, |nbrs|);
    MassNonNegative(s, nbrs, newLevel, w, |nbrs|);
    FractionBelow(u, mass);
    UnmatchedIffAllSelected(s, nbrs, newLevel, w, Sample(u, mass));
    assert Choice(s, nbrs, w, fill, u) == PickFrom(s, nbrs, newLevel, w, Sample(u, mass), 0);
  }

  /** When the unselected neighbours receive no mass at all, the sample is 0
      and the scan still takes the first unselected neighbour: a zero-mass
      arrival with a free neighbour is matched. */
  lemma ZeroMassTakesFirstFree(s: State, nbrs: seq<int>, w: real -> real, fill: seq<real> -> real, u: real, p: nat)
    requires Fits(s, nbrs) && PositiveWeight(w) && p < |nbrs|
    requires Mass(s, nbrs, NewLevel(s, nbrs, fill), w, |nbrs|) == 0.0
    requires !s.selected[nbrs[p]] && forall q :: 0 <= q < p ==> s.selected[nbrs[q]]
    ensures Choice(s, nbrs, w, fill, u) == nbrs[p]
  {
    var newLevel := NewLevel(s, nbrs, fill);
    var sample := Sample(u, Mass(s, nbrs, newLevel, w, |nbrs|));
    assert sample == 0.0;
    MassNonNegative(s, nbrs, newLevel, w, p + 1);
    assert Crosses(s, nbrs, newLevel, w, sample, p);
    PickIsFirstCrossing(s, nbrs, newLevel, w, sample, 0);
    assert Choice(s, nbrs, w, fill, u) == PickFrom(s, nbrs, newLevel, w, sample, 0);
  }

  /** Arrival i was left unmatched only because every neighbour of its type
      was taken by an earlier arrival, and conversely. */
  ghost predicate UnmatchedOnlyWhenFull(adj: seq<seq<int>>, types: seq<int>, res: seq<int>, k: nat)
    requires NodesIn(types, |adj|) && k <= |types| == |res|
  {
    forall i :: 0 <= i < k ==>
      (res[i] == Unmatched <==> forall j :: j in adj[types[i]] ==> j in res[..i])
  }

  /** Every level lies in [0, 1]. */
  ghost predicate LevelsInUnit(level: seq<real>)
  {
    forall v :: 0 <= v < |level| ==> 0.0 <= level[v] <= 1.0
  }

  /** The facts the run keeps about its flags and its result after k arrivals. */
  ghost predicate Consistent(adj: seq<seq<int>>, types: seq<int>, marks: seq<bool>, res: seq<int>, k: nat)
    requires NodesIn(types, |adj|) && k <= |types| == |res|
  {
    && Decided(adj, types, marks, res, k)
    && UnmatchedOnlyWhenFull(adj, types, res, k)
  }

  /** Raising levels in [0, 1] to a ceiling in [0, 1] keeps them in [0, 1]. */
  lemma RaiseInUnit(level: seq<real>, nbrs: seq<int>, c: real)
    requires NodesIn(nbrs, |level|) && LevelsInUnit(level) && 0.0 <= c <= 1.0
    ensures LevelsInUnit(Raise(level, nbrs, c, |nbrs|))
  {
    forall v | 0 <= v < |level| ensures 0.0 <= Raise(level, nbrs, c, |nbrs|)[v] <= 1.0 {
      RaiseFacts(level, nbrs, c, |nbrs|, v);
    }
  }

  /** Recording arrival k's choice keeps the run consistent. */
  lemma ArriveConsistent(adj: seq<seq<int>>, types: seq<int>, s: State, w: real -> real, fill: seq<real> -> real, u: real, k: nat)
    requires AdjacencyInRange(adj) && NodesIn(types, |adj|) && k < |types| == |s.res|
    requires |s.level| == |s.selected| == |adj|
    requires PositiveWeight(w) && 0.0 <= u <= 1.0
    requires Consistent(adj, types, s.selected, s.res, k)
    ensures var j := Choice(s, adj[types[k]], w, fill, u);
      Consistent(adj, types, RecordMarks(s.selected, j), RecordRes(s.res, k, j), k + 1)
  {
    var nbrs := adj[types[k]];
    var j := Choice(s, nbrs, w, fill, u);
    var res' := RecordRes(s.res, k, j);
    RecordKeepsDecided(adj, types, s.selected, s.res, k, j);
    ChoiceUnmatchedIffFull(s, nbrs, w, fill, u);
    forall p | 0 <= p < |nbrs| ensures (s.selected[nbrs[p]] <==> nbrs[p] in s.res[..k]) {
      TakenSoFar(adj, types, s.selected, s.res, k, nbrs[p]);
    }
    assert (res'[k] == Unmatched <==> forall v :: v in nbrs ==> v in res'[..k]);
  }

  /** Every prefix of the run is consistent. */
  lemma {:induction false} RunConsistent(adj: seq<seq<int>>, types: seq<int>, w: real -> real, fill: seq<real> -> real, fractions: seq<real>, k: nat)
    requires WellFormed(adj, types, fractions) && Fractions(fractions) && PositiveWeight(w)
    requires k <= |types|
    ensures var s := Run(adj, types, w, fill, fractions, k); Consistent(adj, types, s.selected, s.res, k)
  {
    if k == 0 {
      NothingDecided(adj, types, |adj|);
    } else {
      var i := k - 1;
      RunConsistent(adj, types, w, fill, fractions, i);
      ConsistentStep(adj, types, w, fill, fractions, i);
      assert i + 1 == k;
    }
  }

  /** One arrival of the run keeps it consistent. */
  lemma ConsistentStep(adj: seq<seq<int>>, types: seq<int>, w: real -> real, fill: seq<real> -> real, fractions: seq<real>, i: nat)
    requires WellFormed(adj, types, fractions) && Fractions(fractions) && PositiveWeight(w)
    requires i < |types|
    requires var s := Run(adj, types, w, fill, fractions, i); Consistent(adj, types, s.selected, s.res, i)
    ensures var s := Run(adj, types, w, fill, fractions, i + 1); Consistent(adj, types, s.selected, s.res, i + 1)
  {
    ArriveConsistent(adj, types, Run(adj, types, w, fill, fractions, i), w, fill, fractions[i], i);
  }

  /** The levels after the first k arrivals, computed without the choices:
      they depend on the graph, the realization and the ceiling rule only. */
  function LevelsAt(adj: seq<seq<int>>, types: seq<int>, fill: seq<real> -> real, k: nat): (level: seq<real>)
    requires AdjacencyInRange(adj) && NodesIn(types, |adj|) && k <= |types|
    ensures |level| == |adj|
  {
    if k == 0 then seq(|adj|, _ => 0.0)
    else
      var before := LevelsAt(adj, types, fill, k - 1);
      var nbrs := adj[types[k - 1]];
      Raise(before, nbrs, fill(NeighbourLevels(before, nbrs)), |nbrs|)
  }

  /** Which neighbour is picked never affects the levels: those of the run
      are the ones computed without the choices. */
  lemma LevelsIgnoreChoices(adj: seq<seq<int>>, types: seq<int>, w: real -> real, fill: seq<real> -> real, fractions: seq<real>, k: nat)
    requires WellFormed(adj, types, fractions) && k <= |types|
    ensures Run(adj, types, w, fill, fractions, k).level == LevelsAt(adj, types, fill, k)
  {
  }

  /** Arrival i raises every neighbour of its type, selected or not, to at
      least its ceiling and leaves every other level as it was. */
  lemma ArrivalLevels(adj: seq<seq<int>>, types: seq<int>, fill: seq<real> -> real, i: nat, v: int)
    requires AdjacencyInRange(adj) && NodesIn(types, |adj|) && i < |types| && 0 <= v < |adj|
    ensures var before := LevelsAt(adj, types, fill, i);
      var after := LevelsAt(adj, types, fill, i + 1);
      var nbrs := adj[types[i]];
      && after[v] >= before[v]
      && (v in nbrs ==> after[v] >= fill(NeighbourLevels(before, nbrs)))
      && (v !in nbrs ==> after[v] == before[v])
  {
    var before := LevelsAt(adj, types, fill, i);
    var nbrs := adj[types[i]];
    RaiseFacts(before, nbrs, fill(NeighbourLevels(before, nbrs)), |nbrs|, v);
    assert nbrs[..|nbrs|] == nbrs;
  }

  /** Levels never decrease over the run. */
  lemma {:induction false} LevelsMonotone(adj: seq<seq<int>>, types: seq<int>, fill: seq<real> -> real, k1: nat, k2: nat, v: int)
    requires AdjacencyInRange(adj) && NodesIn(types, |adj|) && k1 <= k2 <= |types| && 0 <= v < |adj|
    ensures LevelsAt(adj, types, fill, k1)[v] <= LevelsAt(adj, types, fill, k2)[v]
  {
    if k1 < k2 {
      LevelsMonotone(adj, types, fill, k1, k2 - 1, v);
      ArrivalLevels(adj, types, fill, k2 - 1, v);
    }
  }

  /** Under a ceiling rule with values in [0, 1] every level stays in [0, 1]. */
  lemma {:induction false} LevelsStayInUnit(adj: seq<seq<int>>, types: seq<int>, fill: seq<real> -> real, k: nat)
    requires AdjacencyInRange(adj) && NodesIn(types, |adj|) && k <= |types| && CeilingInUnit(fill)
    ensures LevelsInUnit(LevelsAt(adj, types, fill, k))
  {
    if k > 0 {
      LevelsStayInUnit(adj, types, fill, k - 1);
      var before := LevelsAt(adj, types, fill, k - 1);
      var nbrs := adj[types[k - 1]];
      RaiseInUnit(before, nbrs, fill(NeighbourLevels(before, nbrs)));
    }
  }

  /** Arrival i writes entry i of the result and flags at most the vertex it
      picks; every earlier entry and every flag already set stays. */
  lemma ArrivalDecisions(adj: seq<seq<int>>, types: seq<int>, w: real -> real, fill: seq<real> -> real, fractions: seq<real>, i: nat)
    requires WellFormed(adj, types, fractions) && i < |types|
    ensures var s := Run(adj, types, w, fill, fractions, i);
      var t := Run(adj, types, w, fill, fractions, i + 1);
      && (forall q :: 0 <= q < i ==> t.res[q] == s.res[q])
      && (forall v :: 0 <= v < |adj| && s.selected[v] ==> t.selected[v])
  {
    RunStep(adj, types, w, fill, fractions, i);
  }

  /** Decisions are irrevocable: later arrivals never change an earlier
      entry of the result, nor unselect a vertex. */
  lemma {:induction false} Irrevocable(adj: seq<seq<int>>, types: seq<int>, w: real -> real, fill: seq<real> -> real, fractions: seq<real>, k1: nat, k2: nat)
    requires WellFormed(adj, types, fractions) && k1 <= k2 <= |types|
    ensures forall i :: 0 <= i < k1 ==> Run(adj, types, w, fill, fractions, k2).res[i] == Run(adj, types, w, fill, fractions, k1).res[i]
    ensures forall v :: 0 <= v < |adj| && Run(adj, types, w, fill, fractions, k1).selected[v] ==> Run(adj, types, w, fill, fractions, k2).selected[v]
  {
    if k1 < k2 {
      Irrevocable(adj, types, w, fill, fractions, k1, k2 - 1);
      ArrivalDecisions(adj, types, w, fill, fractions, k2 - 1);
    }
  }

  /** The final result of a balance run: one entry per arrival, each -1 or a
      neighbour of the arrival's type, no vertex twice, -1 exactly when every
      neighbour was taken by an earlier arrival, and at most as many matches
      as arrivals, as nodes of the graph and as distinct vertices adjacent
      to an arrival. */
  lemma RunResult(adj: seq<seq<int>>, types: seq<int>, w: real -> real, fill: seq<real> -> real, fractions: seq<real>)
    requires WellFormed(adj, types, fractions) && Fractions(fractions) && PositiveWeight(w)
    ensures var res := Run(adj, types, w, fill, fractions, |types|).res;
      && |res| == |types|
      && (forall i :: 0 <= i < |res| ==> res[i] == Unmatched || res[i] in adj[types[i]])
      && DistinctMatches(res)
      && (forall i :: 0 <= i < |res| ==> (res[i] == Unmatched <==> forall j :: j in adj[types[i]] ==> j in res[..i]))
      && CountMatched(res) <= |types|
      && CountMatched(res) <= |adj|
      && CountMatched(res) <= |Offered(adj, types)|
  {
    var s := Run(adj, types, w, fill, fractions, |types|);
    RunConsistent(adj, types, w, fill, fractions, |types|);
    DecidedBound(adj, types, s.selected, s.res);
  }

  /** An arrival whose type has no neighbours stays unmatched. */
  lemma NoNeighboursUnmatched(adj: seq<seq<int>>, types: seq<int>, w: real -> real, fill: seq<real> -> real, fractions: seq<real>, i: nat)
    requires WellFormed(adj, types, fractions) && Fractions(fractions) && PositiveWeight(w)
    requires i < |types| && adj[types[i]] == []
    ensures Run(adj, types, w, fill, fractions, |types|).res[i] == Unmatched
  {
    RunResult(adj, types, w, fill, fractions);
  }

  /** Balance-SWOR's increment is the water alone. */
  lemma UnitIncrement(newLevel: real, y: real)
    ensures Increment(newLevel, y, UnitWeight) == Max(newLevel - y, 0.0)
  {
  }

  /** The levels of the neighbours, read from the array of levels. */
  method CollectLevels(currentLevel: array<real>, nbrs: seq<int>) returns (level: seq<real>)
    requires NodesIn(nbrs, currentLevel.Length)
    ensures level == NeighbourLevels(currentLevel[..], nbrs)
  {
    level := [];
    for k := 0 to |nbrs|
      invariant level == NeighbourLevels(currentLevel[..], nbrs[..k])
    {
      level := level + [currentLevel[nbrs[k]]];
    }
    assert nbrs[..|nbrs|] == nbrs;
  }

  /** The total mass of the unselected neighbours under the ceiling. */
  method TotalMass(currentLevel: array<real>, selected: array<bool>, nbrs: seq<int>, newLevel: real, w: real -> real, ghost s: State)
    returns (mass: real)
    requires s.level == currentLevel[..] && s.selected == selected[..] && Fits(s, nbrs)
    ensures mass == Mass(s, nbrs, newLevel, w, |nbrs|)
  {
    mass := 0.0;
    for k := 0 to |nbrs|
      invariant mass == Mass(s, nbrs, newLevel, w, k)
    {
      var j := nbrs[k];
      if !selected[j] {
        mass := mass + Increment(newLevel, currentLevel[j], w);
      }
    }
  }

  /** The scan for the first unselected neighbour whose running mass reaches
      the sample, stopping there. */
  method Scan(currentLevel: array<real>, selected: array<bool>, nbrs: seq<int>, newLevel: real,
              w: real -> real, sample: real, ghost s: State)
    returns (picked: int)
    requires s.level == currentLevel[..] && s.selected == selected[..] && Fits(s, nbrs)
    ensures picked == PickFrom(s, nbrs, newLevel, w, sample, 0)
  {
    var chosen := 0.0;
    var k := 0;
    while k < |nbrs|
      invariant 0 <= k <= |nbrs|
      invariant chosen == Mass(s, nbrs, newLevel, w, k)
      invariant PickFrom(s, nbrs, newLevel, w, sample, 0) == PickFrom(s, nbrs, newLevel, w, sample, k)
    {
      var j := nbrs[k];
      if !selected[j] {
        chosen := chosen + Increment(newLevel, currentLevel[j], w);
        if chosen >= sample {
          assert Crosses(s, nbrs, newLevel, w, sample, k);
          return j;
        }
      }
      k := k + 1;
    }
    return Unmatched;
  }

  /** The picked vertex, if any, flagged and recorded for arrival i. */
  method Record(selected: array<bool>, matchOf: array<int>, i: nat, picked: int)
    requires picked == Unmatched || 0 <= picked < selected.Length
    requires i < matchOf.Length
    modifies selected, matchOf
    ensures selected[..] == RecordMarks(old(selected[..]), picked)
    ensures matchOf[..] == RecordRes(old(matchOf[..]), i, picked)
  {
    if picked != Unmatched {
      selected[picked] := true;
      matchOf[i] := picked;
    }
  }

  /** Every neighbour raised to at least the ceiling, in adjacency order. */
  method RaiseLevels(currentLevel: array<real>, nbrs: seq<int>, newLevel: real)
    requires NodesIn(nbrs, currentLevel.Length)
    modifies currentLevel
    ensures currentLevel[..] == Raise(old(currentLevel[..]), nbrs, newLevel, |nbrs|)
  {
    for k := 0 to |nbrs|
      invariant currentLevel[..] == Raise(old(currentLevel[..]), nbrs, newLevel, k)
    {
      var j := nbrs[k];
      currentLevel[j] := Max(newLevel, currentLevel[j]);
    }
  }

  /** The body of the arrival loop of `balance_ocs`: arrival i, with
      neighbours `nbrs` and random fraction u, applied to the three arrays. */
  method ArriveArrays(currentLevel: array<real>, selected: array<bool>, matchOf: array<int>,
                      nbrs: seq<int>, w: real -> real, u: real, i: nat, ghost s: State)
    requires s == State(currentLevel[..], selected[..], matchOf[..])
    requires Fits(s, nbrs) && i < matchOf.Length
    modifies currentLevel, selected, matchOf
    ensures State(currentLevel[..], selected[..], matchOf[..]) == Arrive(s, nbrs, w, WaterCeiling, u, i)
  {
    ghost var fill := WaterCeiling;
    var level := CollectLevels(currentLevel, nbrs);
    var newLevel := FillWater(level, 1.0);
    assert newLevel == NewLevel(s, nbrs, fill);
    var mass := TotalMass(currentLevel, selected, nbrs, newLevel, w, s);
    var sample := Sample(u, mass);
    var picked := Scan(currentLevel, selected, nbrs, newLevel, w, sample, s);
    assert picked == Choice(s, nbrs, w, fill, u);
    Record(selected, matchOf, i, picked);
    RaiseLevels(currentLevel, nbrs, newLevel);
    assert currentLevel[..] == Raise(s.level, nbrs, NewLevel(s, nbrs, fill), |nbrs|);
  }

  /** The arrival loop of `balance_ocs` over the three arrays, which start
      in the initial state. */
  method RunArrays(currentLevel: array<real>, selected: array<bool>, matchOf: array<int>,
                   adj: seq<seq<int>>, types: seq<int>, w: real -> real, fractions: seq<real>)
    requires WellFormed(adj, types, fractions)
    requires State(currentLevel[..], selected[..], matchOf[..]) == Initial(|adj|, |types|)
    modifies currentLevel, selected, matchOf
    ensures State(currentLevel[..], selected[..], matchOf[..]) == Run(adj, types, w, WaterCeiling, fractions, |types|)
  {
    for i := 0 to |types|
      invariant State(currentLevel[..], selected[..], matchOf[..]) == Run(adj, types, w, WaterCeiling, fractions, i)
    {
      StepArrays(currentLevel, selected, matchOf, adj, types, w, fractions, i);
    }
  }

  /** Arrival i on the arrays takes the run from i to i + 1 arrivals. */
  method StepArrays(currentLevel: array<real>, selected: array<bool>, matchOf: array<int>,
                    adj: seq<seq<int>>, types: seq<int>, w: real -> real, fractions: seq<real>, i: nat)
    requires WellFormed(adj, types, fractions) && i < |types|
    requires State(currentLevel[..], selected[..], matchOf[..]) == Run(adj, types, w, WaterCeiling, fractions, i)
    modifies currentLevel, selected, matchOf
    ensures State(currentLevel[..], selected[..], matchOf[..]) == Run(adj, types, w, WaterCeiling, fractions, i + 1)
  {
    ghost var s := Run(adj, types, w, WaterCeiling, fractions, i);
    ArriveArrays(currentLevel, selected, matchOf, adj[types[i]], w, fractions[i], i, s);
    RunStep(adj, types, w, WaterCeiling, fractions, i);
  }

  /** `balance_ocs`: one irrevocable pass over the arrivals of the
      realization of `g`, with the OCS weight `w` and the random fraction of
      each arrival. */
  method BalanceOcs(g: Graph, w: real -> real, fractions: seq<real>) returns (res: seq<int>)
    requires g.Valid() && NodesIn(g.types, |g.adj|)
    requires |fractions| == g.realSize && Fractions(fractions) && PositiveWeight(w)
    ensures res == Run(g.adj, g.types, w, WaterCeiling, fractions, |g.types|).res
    ensures |res| == g.realSize
    ensures forall i :: 0 <= i < |res| ==> res[i] == Unmatched || res[i] in g.adj[g.types[i]]
    ensures DistinctMatches(res)
    ensures forall i :: 0 <= i < |res| ==>
      (res[i] == Unmatched <==> forall j :: j in g.adj[g.types[i]] ==> j in res[..i])
  {
    var n := g.onSize + g.offSize;
    var currentLevel := new real[n](_ => 0.0);
    var selected := new bool[n](_ => false);
    var matchOf := new int[g.realSize](_ => Unmatched);
    RunArrays(currentLevel, selected, matchOf, g.adj, g.types, w, fractions);
    res := matchOf[..];
    RunResult(g.adj, g.types, w, WaterCeiling, fractions);
  }

  /** `balance_swor`: the same pass with every vertex weighted 1. */
  method BalanceSwor(g: Graph, fractions: seq<real>) returns (res: seq<int>)
    requires g.Valid() && NodesIn(g.types, |g.adj|)
    requires |fractions| == g.realSize && Fractions(fractions)
    ensures res == Run(g.adj, g.types, UnitWeight, WaterCeiling, fractions, |g.types|).res
    ensures |res| == g.realSize
    ensures forall i :: 0 <= i < |res| ==> res[i] == Unmatched || res[i] in g.adj[g.types[i]]
    ensures DistinctMatches(res)
    ensures forall i :: 0 <= i < |res| ==>
      (res[i] == Unmatched <==> forall j :: j in g.adj[g.types[i]] ==> j in res[..i])
  {
    res := BalanceOcs(g, UnitWeight, fractions);
  }
}

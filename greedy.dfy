/** Regularized Greedy: a deterministic policy that gives each arrival the
    unmatched neighbour of smallest score. The score of an offline vertex is
    its offline mass times alpha(t), plus, over the nodes adjacent to it,
    beta(t) times the drop of p at their online mass that removing the
    vertex's edge probability causes. A match then empties the offline mass
    of the vertex and drains the online masses around it. */
module Greedy {
  import opened TypeGraph
  import opened Matching

  /** The constant theta = 0.4253 of the score functions. */
  const Theta: real := 0.4253

  /** The initial minimum 1e10: a candidate must score strictly below it. */
  const NoScore: real := 10000000000.0

  /** `std::min` on doubles: (b < a) ? b : a. */
  function Min(a: real, b: real): (m: real)
    ensures m <= a && m <= b && (m == a || m == b)
  {
    if b < a then b else a
  }

  /** The lambda `p(x) = min(x / theta, 1)`: it never exceeds 1 nor x / theta,
      and it is one of the two. */
  function P(x: real): (r: real)
    ensures r <= 1.0 && r <= x / Theta
    ensures r == 1.0 || r == x / Theta
  {
    Min(x / Theta, 1.0)
  }

  /** p is non-decreasing. */
  lemma PMonotone(x: real, y: real)
    requires x <= y
    ensures P(x) <= P(y)
  {
    assert x / Theta <= y / Theta;
  }

  /** p is x / theta up to theta and 1 from there on. */
  lemma PShape(x: real)
    ensures x <= Theta ==> P(x) == x / Theta
    ensures x >= Theta ==> P(x) == 1.0
  {
    if x <= Theta {
      assert x / Theta <= Theta / Theta;
    } else {
      assert x / Theta >= Theta / Theta;
    }
  }

  /** The table `typeProb` of edge probabilities, keyed by (online type,
      offline vertex). */
  type Table = map<(int, int), real>

  /** A lookup that reads an absent pair as probability 0. */
  function Prob(t: Table, key: (int, int)): real
  {
    if key in t then t[key] else 0.0
  }

  /** `t2` holds every entry of `t1` unchanged, and any pair it adds holds 0. */
  ghost predicate Extends(t2: Table, t1: Table)
  {
    && (forall key :: key in t1 ==> key in t2 && t2[key] == t1[key])
    && (forall key :: key in t2 && key !in t1 ==> t2[key] == 0.0)
  }

  /** `typeProb[key]`: an absent pair is inserted at 0, so the table read
      afterwards holds the pair, with its probability. */
  function Touch(t: Table, key: (int, int)): (r: Table)
    ensures key in r && r[key] == Prob(t, key)
    ensures Extends(r, t)
  {
    if key in t then t else t[key := 0.0]
  }

  /** An extension reads every pair as the original does. */
  lemma ExtendsKeepsProb(t2: Table, t1: Table, key: (int, int))
    requires Extends(t2, t1)
    ensures Prob(t2, key) == Prob(t1, key)
  {
  }

  /** A lookup in a table that extends t0 extends t0 again and reads the
      probability t0 gives. */
  lemma Lookup(t: Table, t0: Table, key: (int, int))
    requires Extends(t, t0)
    ensures Extends(Touch(t, key), t0)
    ensures Touch(t, key)[key] == Prob(t0, key)
  {
    ExtendsKeepsProb(t, t0, key);
  }

  /** The offline mass and the online mass of every node. */
  datatype Masses = Masses(offline: seq<real>, online: seq<real>)

  /** Both mass vectors have one entry per node. */
  predicate Sized(m: Masses, n: nat)
  {
    |m.offline| == n && |m.online| == n
  }

  /** One set-up step: probability `mass` of edge (i, j) added to the offline
      mass of j and the online mass of i. */
  function Visit(m: Masses, i: int, j: int, mass: real): Masses
    requires 0 <= i < |m.online| && 0 <= j < |m.offline|
  {
    Masses(m.offline[j := m.offline[j] + mass], m.online[i := m.online[i] + mass])
  }

  /** The masses after the set-up has visited the first q edges of type i. */
  function TypeSums(adj: seq<seq<int>>, t: Table, m: Masses, i: int, q: nat): (r: Masses)
    requires 0 <= i < |adj| && NodesIn(adj[i], |adj|) && Sized(m, |adj|) && q <= |adj[i]|
    ensures Sized(r, |adj|)
  {
    if q == 0 then m
    else
      var j := adj[i][q - 1];
      Visit(TypeSums(adj, t, m, i, q - 1), i, j, Prob(t, (i, j)))
  }

  /** The masses after the set-up loops over the first k online types. */
  function Setup(adj: seq<seq<int>>, t: Table, k: nat): (r: Masses)
    requires AdjacencyInRange(adj) && k <= |adj|
    ensures Sized(r, |adj|)
  {
    if k == 0 then Masses(seq(|adj|, _ => 0.0), seq(|adj|, _ => 0.0))
    else TypeSums(adj, t, Setup(adj, t, k - 1), k - 1, |adj[k - 1]|)
  }

  /** The sum of prob(i, j) over the first q edges (i, j) of type i. */
  function OnlineSum(adj: seq<seq<int>>, t: Table, i: int, q: nat): real
    requires 0 <= i < |adj| && q <= |adj[i]|
  {
    if q == 0 then 0.0 else OnlineSum(adj, t, i, q - 1) + Prob(t, (i, adj[i][q - 1]))
  }

  /** The sum over the first k types i of prob(i, v), counted once per
      occurrence of v in the list of i (that is, times its multiplicity, by
      PerOccurrenceCount). */
  function OfflineSum(adj: seq<seq<int>>, t: Table, v: int, k: nat): real
    requires k <= |adj|
  {
    if k == 0 then 0.0
    else OfflineSum(adj, t, v, k - 1) + PerOccurrence(adj[k - 1], v, Prob(t, (k - 1, v)), |adj[k - 1]|)
  }

  /** p counted once per occurrence of v among the first q entries of s. */
  function PerOccurrence(s: seq<int>, v: int, p: real, q: nat): real
    requires q <= |s|
  {
    if q == 0 then 0.0 else PerOccurrence(s, v, p, q - 1) + (if s[q - 1] == v then p else 0.0)
  }

  /** The number of occurrences of v among the first q entries of s. */
  function Occurrences(s: seq<int>, v: int, q: nat): nat
    requires q <= |s|
  {
    if q == 0 then 0 else Occurrences(s, v, q - 1) + (if s[q - 1] == v then 1 else 0)
  }

  /** It is the multiplicity of v in that prefix. */
  lemma {:induction false} OccurrencesCount(s: seq<int>, v: int, q: nat)
    requires q <= |s|
    ensures Occurrences(s, v, q) == multiset(s[..q])[v]
  {
    if q > 0 {
      OccurrencesCount(s, v, q - 1);
      assert s[..q] == s[..q - 1] + [s[q - 1]];
    }
  }

  /** p once per occurrence is p times the number of occurrences. */
  lemma {:induction false} PerOccurrenceTimes(s: seq<int>, v: int, p: real, q: nat)
    requires q <= |s|
    ensures PerOccurrence(s, v, p, q) == (Occurrences(s, v, q) as real) * p
  {
    if q > 0 {
      PerOccurrenceTimes(s, v, p, q - 1);
      var c := Occurrences(s, v, q - 1) as real;
      assert (c + 1.0) * p == c * p + p;
    }
  }

  /** p once per occurrence of v in s is p times the multiplicity of v in s. */
  lemma PerOccurrenceCount(s: seq<int>, v: int, p: real)
    ensures PerOccurrence(s, v, p, |s|) == (multiset(s)[v] as real) * p
  {
    OccurrencesCount(s, v, |s|);
    PerOccurrenceTimes(s, v, p, |s|);
    assert s[..|s|] == s;
  }

  /** Visiting the first q edges of type i adds prob(i, v) to the offline mass
      of v once per occurrence of v, and their probabilities to the online
      mass of i; nothing else. */
  lemma {:induction false} TypeSumsClosedForm(adj: seq<seq<int>>, t: Table, m: Masses, i: int, q: nat, v: int)
    requires 0 <= i < |adj| && NodesIn(adj[i], |adj|) && Sized(m, |adj|) && q <= |adj[i]|
    requires 0 <= v < |adj|
    ensures TypeSums(adj, t, m, i, q).offline[v] == m.offline[v] + PerOccurrence(adj[i], v, Prob(t, (i, v)), q)
    ensures TypeSums(adj, t, m, i, q).online[v] == m.online[v] + (if v == i then OnlineSum(adj, t, i, q) else 0.0)
  {
    if q > 0 {
      TypeSumsClosedForm(adj, t, m, i, q - 1, v);
    }
  }

  /** The set-up gives every node v the offline mass summed over the online
      types adjacent to it, with multiplicity. */
  lemma {:induction false} SetupOffline(adj: seq<seq<int>>, t: Table, k: nat, v: int)
    requires AdjacencyInRange(adj) && k <= |adj| && 0 <= v < |adj|
    ensures Setup(adj, t, k).offline[v] == OfflineSum(adj, t, v, k)
  {
    if k > 0 {
      var i := k - 1;
      var m, p := Setup(adj, t, i), Prob(t, (i, v));
      SetupOffline(adj, t, i, v);
      TypeSumsClosedForm(adj, t, m, i, |adj[i]|, v);
      assert Setup(adj, t, k) == TypeSums(adj, t, m, i, |adj[i]|);
    }
  }

  /** The set-up gives every online type the sum of the probabilities of its
      edges; every other node keeps online mass 0. */
  lemma {:induction false} SetupOnline(adj: seq<seq<int>>, t: Table, k: nat, v: int)
    requires AdjacencyInRange(adj) && k <= |adj| && 0 <= v < |adj|
    ensures Setup(adj, t, k).online[v] == (if v < k then OnlineSum(adj, t, v, |adj[v]|) else 0.0)
  {
    if k > 0 {
      var i := k - 1;
      var m := Setup(adj, t, i);
      SetupOnline(adj, t, i, v);
      TypeSumsClosedForm(adj, t, m, i, |adj[i]|, v);
      assert Setup(adj, t, k) == TypeSums(adj, t, m, i, |adj[i]|);
    }
  }

  /** One term of a score: beta times the drop of p at online mass x when
      probability q is taken away. */
  function Term(b: real, x: real, q: real): real
  {
    b * (P(x) - P(x - q))
  }

  /** The terms of the score of vertex j over the first m nodes of its list. */
  function Penalty(adj: seq<seq<int>>, t: Table, online: seq<real>, b: real, j: int, m: nat): real
    requires 0 <= j < |adj| && NodesIn(adj[j], |online|) && m <= |adj[j]|
  {
    if m == 0 then 0.0
    else
      var o := adj[j][m - 1];
      Penalty(adj, t, online, b, j, m - 1) + Term(b, online[o], Prob(t, (o, j)))
  }

  /** The score of vertex j: a times its offline mass plus its terms. */
  function Score(adj: seq<seq<int>>, t: Table, mass: Masses, a: real, b: real, j: int): real
    requires AdjacencyInRange(adj) && Sized(mass, |adj|) && 0 <= j < |adj|
  {
    a * mass.offline[j] + Penalty(adj, t, mass.online, b, j, |adj[j]|)
  }

  /** The score of the vertex at each position of `nbrs`. */
  function Scores(adj: seq<seq<int>>, t: Table, mass: Masses, a: real, b: real, nbrs: seq<int>): (sc: seq<real>)
    requires AdjacencyInRange(adj) && Sized(mass, |adj|) && NodesIn(nbrs, |adj|)
    ensures |sc| == |nbrs|
  {
    seq(|nbrs|, q requires 0 <= q < |nbrs| => Score(adj, t, mass, a, b, nbrs[q]))
  }

  /** The selection scan over the first m neighbours: starting from
      (1e10, -1), an unmatched vertex whose score is strictly below the
      current minimum becomes the new (minimum, index). */
  function Best(matched: seq<bool>, nbrs: seq<int>, score: seq<real>, m: nat): (r: (real, int))
    requires NodesIn(nbrs, |matched|) && |score| == |nbrs| && m <= |nbrs|
    ensures r.1 == Unmatched || (r.1 in nbrs && 0 <= r.1 < |matched| && !matched[r.1])
  {
    if m == 0 then (NoScore, Unmatched)
    else
      var before := Best(matched, nbrs, score, m - 1);
      var j := nbrs[m - 1];
      if !matched[j] && before.0 > score[m - 1] then (score[m - 1], j) else before
  }

  /** The scan's result is the minimum score among the unmatched neighbours
      if some one scores below 1e10, taken at the first position that
      attains it; the index is -1, and the minimum 1e10, exactly when none
      does. */
  lemma {:induction false} BestFacts(matched: seq<bool>, nbrs: seq<int>, score: seq<real>, m: nat)
    requires NodesIn(nbrs, |matched|) && |score| == |nbrs| && m <= |nbrs|
    ensures var r := Best(matched, nbrs, score, m);
      r.1 == Unmatched <==> forall q :: 0 <= q < m && !matched[nbrs[q]] ==> score[q] >= NoScore
    ensures var r := Best(matched, nbrs, score, m);
      r.0 <= NoScore && (r.1 == Unmatched ==> r.0 == NoScore)
    ensures var r := Best(matched, nbrs, score, m);
      forall q :: 0 <= q < m && !matched[nbrs[q]] ==> score[q] >= r.0
    ensures var r := Best(matched, nbrs, score, m);
      r.1 != Unmatched ==>
        exists p :: 0 <= p < m && nbrs[p] == r.1 && score[p] == r.0 && r.0 < NoScore
          && forall q :: 0 <= q < p && !matched[nbrs[q]] ==> score[q] > r.0
  {
    if m > 0 {
      BestFacts(matched, nbrs, score, m - 1);
      var before := Best(matched, nbrs, score, m - 1);
      var r := Best(matched, nbrs, score, m);
      if !matched[nbrs[m - 1]] && before.0 > score[m - 1] {
        assert r == (score[m - 1], nbrs[m - 1]);
        assert nbrs[m - 1] != Unmatched;
      } else {
        assert r == before;
        if r.1 != Unmatched {
          var p :| 0 <= p < m - 1 && nbrs[p] == r.1 && score[p] == r.0 && r.0 < NoScore
            && forall q :: 0 <= q < p && !matched[nbrs[q]] ==> score[q] > r.0;
        }
      }
    }
  }

  /** The time `1.0 * i / realSize` of arrival i among n. */
  function Time(i: nat, n: nat): (tt: real)
    requires i < n
    ensures 0.0 <= tt < 1.0
  {
    (i as real) / (n as real)
  }

  /** The online masses after the drain loop has visited the first m nodes
      of `nbrs`, each losing its edge probability to `index`. */
  function Drain(online: seq<real>, nbrs: seq<int>, index: int, t: Table, m: nat): (r: seq<real>)
    requires NodesIn(nbrs, |online|) && m <= |nbrs|
    ensures |r| == |online|
  {
    if m == 0 then online
    else
      var o := nbrs[m - 1];
      var before := Drain(online, nbrs, index, t, m - 1);
      before[o := before[o] - Prob(t, (o, index))]
  }

  /** The drain takes prob(v, index) from v once per occurrence of v. */
  lemma {:induction false} DrainClosedForm(online: seq<real>, nbrs: seq<int>, index: int, t: Table, m: nat, v: int)
    requires NodesIn(nbrs, |online|) && m <= |nbrs| && 0 <= v < |online|
    ensures Drain(online, nbrs, index, t, m)[v] == online[v] - PerOccurrence(nbrs, v, Prob(t, (v, index)), m)
  {
    if m > 0 {
      DrainClosedForm(online, nbrs, index, t, m - 1, v);
    }
  }

  /** The masses after arrival's update for the picked vertex `index`: its
      offline mass set to 0, then the online masses around it drained;
      nothing for -1. */
  function Deplete(adj: seq<seq<int>>, t: Table, mass: Masses, index: int): (r: Masses)
    requires AdjacencyInRange(adj) && Sized(mass, |adj|) && (index == Unmatched || 0 <= index < |adj|)
    ensures Sized(r, |adj|)
  {
    if index == Unmatched then mass
    else Masses(mass.offline[index := 0.0], Drain(mass.online, adj[index], index, t, |adj[index]|))
  }

  /** On a match the offline mass of the vertex becomes 0, the online mass of
      every node k drops by prob(k, index) per occurrence of k in the list of
      the vertex, and every other entry stays; on no match nothing changes. */
  lemma DepleteFacts(adj: seq<seq<int>>, t: Table, mass: Masses, index: int, v: int)
    requires AdjacencyInRange(adj) && Sized(mass, |adj|) && (index == Unmatched || 0 <= index < |adj|)
    requires 0 <= v < |adj|
    ensures index == Unmatched ==> Deplete(adj, t, mass, index) == mass
    ensures index != Unmatched ==>
      Deplete(adj, t, mass, index).offline[v] == (if v == index then 0.0 else mass.offline[v])
    ensures index != Unmatched ==>
      Deplete(adj, t, mass, index).online[v]
        == mass.online[v] - (multiset(adj[index])[v] as real) * Prob(t, (v, index))
    ensures index != Unmatched && v !in adj[index] ==> Deplete(adj, t, mass, index).online[v] == mass.online[v]
  {
    if index != Unmatched {
      var nbrs := adj[index];
      DrainClosedForm(mass.online, nbrs, index, t, |nbrs|, v);
      PerOccurrenceCount(nbrs, v, Prob(t, (v, index)));
    }
  }

  /** What the policy keeps: the masses, the matched flags and the result. */
  datatype State = State(mass: Masses, matched: seq<bool>, res: seq<int>)

  /** The graph and realization the policy reads: lists and types name nodes
      of the graph, and the online types are among them. */
  predicate WellFormed(adj: seq<seq<int>>, types: seq<int>, onSize: nat)
  {
    AdjacencyInRange(adj) && NodesIn(types, |adj|) && onSize <= |adj|
  }

  /** The masses of the set-up, nothing matched, every arrival unmatched. */
  function Initial(adj: seq<seq<int>>, types: seq<int>, t: Table, onSize: nat): State
    requires WellFormed(adj, types, onSize)
  {
    State(Setup(adj, t, onSize), seq(|adj|, _ => false), seq(|types|, _ => Unmatched))
  }

  /** The vertex arrival i picks: the scan over the neighbours of its type,
      scored at its time. */
  function Choice(adj: seq<seq<int>>, types: seq<int>, t: Table, alpha: real -> real, beta: real -> real, s: State, i: nat): (j: int)
    requires WellFormed(adj, types, 0) && Sized(s.mass, |adj|) && |s.matched| == |adj| && i < |types|
    ensures j == Unmatched || (j in adj[types[i]] && 0 <= j < |adj| && !s.matched[j])
  {
    var tt := Time(i, |types|);
    var nbrs := adj[types[i]];
    Best(s.matched, nbrs, Scores(adj, t, s.mass, alpha(tt), beta(tt), nbrs), |nbrs|).1
  }

  /** Arrival i: the picked vertex is recorded and flagged, and the masses
      are depleted. */
  function Arrive(adj: seq<seq<int>>, types: seq<int>, t: Table, alpha: real -> real, beta: real -> real, s: State, i: nat): State
    requires WellFormed(adj, types, 0) && Sized(s.mass, |adj|) && |s.matched| == |adj| && i < |types| == |s.res|
  {
    var j := Choice(adj, types, t, alpha, beta, s, i);
    State(Deplete(adj, t, s.mass, j), RecordMarks(s.matched, j), RecordRes(s.res, i, j))
  }

  /** The state after the first k arrivals. */
  function Run(adj: seq<seq<int>>, types: seq<int>, t: Table, onSize: nat, alpha: real -> real, beta: real -> real, k: nat): (s: State)
    requires WellFormed(adj, types, onSize) && k <= |types|
    ensures Sized(s.mass, |adj|) && |s.matched| == |adj| && |s.res| == |types|
  {
    if k == 0 then Initial(adj, types, t, onSize)
    else Arrive(adj, types, t, alpha, beta, Run(adj, types, t, onSize, alpha, beta, k - 1), k - 1)
  }

  /** One more arrival. */
  lemma RunStep(adj: seq<seq<int>>, types: seq<int>, t: Table, onSize: nat, alpha: real -> real, beta: real -> real, k: nat)
    requires WellFormed(adj, types, onSize) && k < |types|
    ensures Run(adj, types, t, onSize, alpha, beta, k + 1)
         == Arrive(adj, types, t, alpha, beta, Run(adj, types, t, onSize, alpha, beta, k), k)
  {
  }

  /** Arrival i picks -1 exactly when no unmatched neighbour of its
      type scores below 1e10; otherwise it takes an unmatched neighbour of
      minimum score, at the first position in adjacency order that attains
      the minimum. */
  lemma ArriveRule(adj: seq<seq<int>>, types: seq<int>, t: Table, alpha: real -> real, beta: real -> real, s: State, i: nat)
    requires WellFormed(adj, types, 0) && Sized(s.mass, |adj|) && |s.matched| == |adj| && i < |types| == |s.res|
    ensures var nbrs := adj[types[i]];
      var tt := Time(i, |types|);
      var sc := Scores(adj, t, s.mass, alpha(tt), beta(tt), nbrs);
      var j := Choice(adj, types, t, alpha, beta, s, i);
      && (j == Unmatched <==> forall q :: 0 <= q < |nbrs| && !s.matched[nbrs[q]] ==> sc[q] >= NoScore)
      && (j != Unmatched ==>
           exists p :: 0 <= p < |nbrs| && nbrs[p] == j && !s.matched[j] && sc[p] < NoScore
             && (forall q :: 0 <= q < |nbrs| && !s.matched[nbrs[q]] ==> sc[q] >= sc[p])
             && (forall q :: 0 <= q < p && !s.matched[nbrs[q]] ==> sc[q] > sc[p]))
  {
    var nbrs := adj[types[i]];
    var tt := Time(i, |types|);
    var sc := Scores(adj, t, s.mass, alpha(tt), beta(tt), nbrs);
    BestFacts(s.matched, nbrs, sc, |nbrs|);
    var r := Best(s.matched, nbrs, sc, |nbrs|);
    assert Choice(adj, types, t, alpha, beta, s, i) == r.1;
  }

  /** Recording arrival k's choice keeps the decisions consistent. */
  lemma ArriveDecided(adj: seq<seq<int>>, types: seq<int>, t: Table, alpha: real -> real, beta: real -> real, s: State, k: nat)
    requires WellFormed(adj, types, 0) && Sized(s.mass, |adj|) && |s.matched| == |adj| && k < |types| == |s.res|
    requires Decided(adj, types, s.matched, s.res, k)
    ensures var a := Arrive(adj, types, t, alpha, beta, s, k); Decided(adj, types, a.matched, a.res, k + 1)
  {
    var j := Choice(adj, types, t, alpha, beta, s, k);
    RecordKeepsDecided(adj, types, s.matched, s.res, k, j);
  }

  /** Every prefix of the run has consistent decisions. */
  lemma {:induction false} RunDecided(adj: seq<seq<int>>, types: seq<int>, t: Table, onSize: nat, alpha: real -> real, beta: real -> real, k: nat)
    requires WellFormed(adj, types, onSize) && k <= |types|
    ensures var s := Run(adj, types, t, onSize, alpha, beta, k); Decided(adj, types, s.matched, s.res, k)
  {
    if k == 0 {
      NothingDecided(adj, types, |adj|);
    } else {
      var i := k - 1;
      RunDecided(adj, types, t, onSize, alpha, beta, i);
      ArriveDecided(adj, types, t, alpha, beta, Run(adj, types, t, onSize, alpha, beta, i), i);
      RunStep(adj, types, t, onSize, alpha, beta, i);
      assert i + 1 == k;
    }
  }

  /** Arrival i writes only entry i, with -1 or a neighbour of its type that
      was unmatched before it; the matched set only grows, and by that vertex
      alone. */
  lemma ArrivalDecisions(adj: seq<seq<int>>, types: seq<int>, t: Table, onSize: nat, alpha: real -> real, beta: real -> real, i: nat)
    requires WellFormed(adj, types, onSize) && i < |types|
    ensures var s := Run(adj, types, t, onSize, alpha, beta, i);
      var a := Run(adj, types, t, onSize, alpha, beta, i + 1);
      && (forall q :: 0 <= q < |types| && q != i ==> a.res[q] == s.res[q])
      && (a.res[i] == Unmatched || (a.res[i] in adj[types[i]] && 0 <= a.res[i] < |adj| && !s.matched[a.res[i]]))
      && (forall v :: 0 <= v < |adj| && s.matched[v] ==> a.matched[v])
      && (forall v :: 0 <= v < |adj| && a.matched[v] && !s.matched[v] ==> v == a.res[i])
  {
    RunDecided(adj, types, t, onSize, alpha, beta, i);
    RunStep(adj, types, t, onSize, alpha, beta, i);
  }

  /** Decisions are irrevocable: later arrivals never change an earlier entry
      of the result, nor unmatch a vertex. */
  lemma {:induction false} Irrevocable(adj: seq<seq<int>>, types: seq<int>, t: Table, onSize: nat, alpha: real -> real, beta: real -> real, k1: nat, k2: nat)
    requires WellFormed(adj, types, onSize) && k1 <= k2 <= |types|
    ensures forall i :: 0 <= i < k1 ==>
      Run(adj, types, t, onSize, alpha, beta, k2).res[i] == Run(adj, types, t, onSize, alpha, beta, k1).res[i]
    ensures forall v :: 0 <= v < |adj| && Run(adj, types, t, onSize, alpha, beta, k1).matched[v] ==>
      Run(adj, types, t, onSize, alpha, beta, k2).matched[v]
  {
    if k1 < k2 {
      var i := k2 - 1;
      Irrevocable(adj, types, t, onSize, alpha, beta, k1, i);
      ArrivalDecisions(adj, types, t, onSize, alpha, beta, i);
      assert i + 1 == k2;
    }
  }

  /** The final result: one entry per arrival, each -1 or a neighbour of the
      arrival's type, no vertex twice, and at most as many matches as
      arrivals, as nodes and as distinct vertices adjacent to an arrival. */
  lemma RunResult(adj: seq<seq<int>>, types: seq<int>, t: Table, onSize: nat, alpha: real -> real, beta: real -> real)
    requires WellFormed(adj, types, onSize)
    ensures var res := Run(adj, types, t, onSize, alpha, beta, |types|).res;
      && |res| == |types|
      && (forall i :: 0 <= i < |res| ==> res[i] == Unmatched || res[i] in adj[types[i]])
      && DistinctMatches(res)
      && CountMatched(res) <= |types|
      && CountMatched(res) <= |adj|
      && CountMatched(res) <= |Offered(adj, types)|
  {
    var s := Run(adj, types, t, onSize, alpha, beta, |types|);
    RunDecided(adj, types, t, onSize, alpha, beta, |types|);
    DecidedBound(adj, types, s.matched, s.res);
  }

  /** The set-up loop over the edges of online type i. */
  method AccumulateType(offlineMass: array<real>, onlineMass: array<real>, adj: seq<seq<int>>, i: nat,
                        table: Table, ghost t0: Table)
    returns (table': Table)
    requires offlineMass != onlineMass
    requires AdjacencyInRange(adj) && i < |adj| && offlineMass.Length == |adj| && onlineMass.Length == |adj|
    requires Extends(table, t0)
    modifies offlineMass, onlineMass
    ensures Masses(offlineMass[..], onlineMass[..])
         == TypeSums(adj, t0, Masses(old(offlineMass[..]), old(onlineMass[..])), i, |adj[i]|)
    ensures Extends(table', t0)
  {
    ghost var m0 := Masses(offlineMass[..], onlineMass[..]);
    table' := table;
    for q := 0 to |adj[i]|
      invariant Masses(offlineMass[..], onlineMass[..]) == TypeSums(adj, t0, m0, i, q)
      invariant Extends(table', t0)
    {
      var j := adj[i][q];
      Lookup(table', t0, (i, j));
      table' := Touch(table', (i, j));
      var mass := table'[(i, j)];
      offlineMass[j] := offlineMass[j] + mass;
      onlineMass[i] := onlineMass[i] + mass;
    }
  }

  /** The set-up: both mass vectors start at 0 and every edge (i, j) of an
      online type i adds prob(i, j) to the offline mass of j and the online
      mass of i. */
  method SetupMasses(adj: seq<seq<int>>, onSize: nat, table: Table)
    returns (offlineMass: array<real>, onlineMass: array<real>, table': Table)
    requires AdjacencyInRange(adj) && onSize <= |adj|
    ensures fresh(offlineMass) && fresh(onlineMass) && offlineMass != onlineMass
    ensures Masses(offlineMass[..], onlineMass[..]) == Setup(adj, table, onSize)
    ensures Extends(table', table)
  {
    offlineMass := new real[|adj|](_ => 0.0);
    onlineMass := new real[|adj|](_ => 0.0);
    assert offlineMass[..] == seq(|adj|, _ => 0.0) && onlineMass[..] == seq(|adj|, _ => 0.0);
    table' := table;
    for i := 0 to onSize
      invariant Masses(offlineMass[..], onlineMass[..]) == Setup(adj, table, i)
      invariant Extends(table', table)
    {
      table' := AccumulateType(offlineMass, onlineMass, adj, i, table', table);
    }
  }

  /** The score of vertex j with the factors a = alpha(t) and b = beta(t). */
  method ScoreOf(offlineMass: array<real>, onlineMass: array<real>, adj: seq<seq<int>>, j: int,
                 a: real, b: real, table: Table, ghost t0: Table)
    returns (val: real, table': Table)
    requires AdjacencyInRange(adj) && 0 <= j < |adj| && offlineMass.Length == |adj| && onlineMass.Length == |adj|
    requires Extends(table, t0)
    ensures val == Score(adj, t0, Masses(offlineMass[..], onlineMass[..]), a, b, j)
    ensures Extends(table', t0)
  {
    ghost var online := onlineMass[..];
    var weighted := a * offlineMass[j];
    val := weighted;
    table' := table;
    for q := 0 to |adj[j]|
      invariant val == weighted + Penalty(adj, t0, online, b, j, q)
      invariant Extends(table', t0)
    {
      var o := adj[j][q];
      Lookup(table', t0, (o, j));
      table' := Touch(table', (o, j));
      assert Penalty(adj, t0, online, b, j, q + 1) == Penalty(adj, t0, online, b, j, q) + Term(b, online[o], Prob(t0, (o, j)));
      val := val + Term(b, onlineMass[o], table'[(o, j)]);
    }
  }

  /** The selection loop: the first unmatched neighbour whose score is below
      every earlier one and below 1e10. */
  method Choose(offlineMass: array<real>, onlineMass: array<real>, matched: array<bool>, adj: seq<seq<int>>,
                nbrs: seq<int>, a: real, b: real, table: Table, ghost t0: Table)
    returns (minVal: real, index: int, table': Table)
    requires AdjacencyInRange(adj) && NodesIn(nbrs, |adj|)
    requires offlineMass.Length == |adj| && onlineMass.Length == |adj| && matched.Length == |adj|
    requires Extends(table, t0)
    ensures (minVal, index)
         == Best(matched[..], nbrs, Scores(adj, t0, Masses(offlineMass[..], onlineMass[..]), a, b, nbrs), |nbrs|)
    ensures Extends(table', t0)
  {
    ghost var sc := Scores(adj, t0, Masses(offlineMass[..], onlineMass[..]), a, b, nbrs);
    minVal, index := NoScore, Unmatched;
    table' := table;
    for k := 0 to |nbrs|
      invariant (minVal, index) == Best(matched[..], nbrs, sc, k)
      invariant Extends(table', t0)
    {
      var j := nbrs[k];
      if !matched[j] {
        var val;
        val, table' := ScoreOf(offlineMass, onlineMass, adj, j, a, b, table', t0);
        assert val == sc[k];
        if minVal > val {
          minVal := val;
          index := j;
        }
      }
    }
  }

  /** The drain loop: every node of `nbrs` loses its edge probability to
      `index`. */
  method DrainArray(onlineMass: array<real>, nbrs: seq<int>, index: int, table: Table, ghost t0: Table)
    returns (table': Table)
    requires NodesIn(nbrs, onlineMass.Length) && Extends(table, t0)
    modifies onlineMass
    ensures onlineMass[..] == Drain(old(onlineMass[..]), nbrs, index, t0, |nbrs|)
    ensures Extends(table', t0)
  {
    ghost var online0 := onlineMass[..];
    table' := table;
    for k := 0 to |nbrs|
      invariant onlineMass[..] == Drain(online0, nbrs, index, t0, k)
      invariant Extends(table', t0)
    {
      var o := nbrs[k];
      Lookup(table', t0, (o, index));
      table' := Touch(table', (o, index));
      onlineMass[o] := onlineMass[o] - table'[(o, index)];
    }
  }

  /** The update after the selection: on a match the vertex is recorded and
      flagged, its offline mass emptied and the online masses drained. */
  method Update(offlineMass: array<real>, onlineMass: array<real>, matched: array<bool>, resArr: array<int>,
                adj: seq<seq<int>>, i: nat, index: int, table: Table, ghost t0: Table)
    returns (table': Table)
    requires offlineMass != onlineMass
    requires AdjacencyInRange(adj) && offlineMass.Length == |adj| && onlineMass.Length == |adj|
    requires matched.Length == |adj| && i < resArr.Length
    requires index == Unmatched || 0 <= index < |adj|
    requires Extends(table, t0)
    modifies offlineMass, onlineMass, matched, resArr
    ensures Masses(offlineMass[..], onlineMass[..])
         == Deplete(adj, t0, Masses(old(offlineMass[..]), old(onlineMass[..])), index)
    ensures matched[..] == RecordMarks(old(matched[..]), index)
    ensures resArr[..] == RecordRes(old(resArr[..]), i, index)
    ensures Extends(table', t0)
  {
    table' := table;
    if index != Unmatched {
      resArr[i] := index;
      matched[index] := true;
      offlineMass[index] := 0.0;
      table' := DrainArray(onlineMass, adj[index], index, table', t0);
    }
  }

  /** The body of the arrival loop for arrival i. */
  method ArriveArrays(offlineMass: array<real>, onlineMass: array<real>, matched: array<bool>, resArr: array<int>,
                      adj: seq<seq<int>>, types: seq<int>, i: nat, alpha: real -> real, beta: real -> real,
                      table: Table, ghost t0: Table, ghost s: State)
    returns (table': Table)
    requires offlineMass != onlineMass
    requires s == State(Masses(offlineMass[..], onlineMass[..]), matched[..], resArr[..])
    requires WellFormed(adj, types, 0) && Sized(s.mass, |adj|) && |s.matched| == |adj| && i < |types| == |s.res|
    requires Extends(table, t0)
    modifies offlineMass, onlineMass, matched, resArr
    ensures State(Masses(offlineMass[..], onlineMass[..]), matched[..], resArr[..]) == Arrive(adj, types, t0, alpha, beta, s, i)
    ensures Extends(table', t0)
  {
    var tt := Time(i, |types|);
    var nbrs := adj[types[i]];
    var minVal, index;
    minVal, index, table' := Choose(offlineMass, onlineMass, matched, adj, nbrs, alpha(tt), beta(tt), table, t0);
    assert index == Choice(adj, types, t0, alpha, beta, s, i);
    table' := Update(offlineMass, onlineMass, matched, resArr, adj, i, index, table', t0);
  }

  /** The arrival loop over the four arrays, which start in the initial state. */
  method RunArrays(offlineMass: array<real>, onlineMass: array<real>, matched: array<bool>, resArr: array<int>,
                   adj: seq<seq<int>>, types: seq<int>, onSize: nat, alpha: real -> real, beta: real -> real,
                   table: Table, ghost t0: Table)
    returns (table': Table)
    requires offlineMass != onlineMass
    requires WellFormed(adj, types, onSize) && Extends(table, t0)
    requires State(Masses(offlineMass[..], onlineMass[..]), matched[..], resArr[..]) == Initial(adj, types, t0, onSize)
    modifies offlineMass, onlineMass, matched, resArr
    ensures State(Masses(offlineMass[..], onlineMass[..]), matched[..], resArr[..])
         == Run(adj, types, t0, onSize, alpha, beta, |types|)
    ensures Extends(table', t0)
  {
    table' := table;
    for i := 0 to |types|
      invariant State(Masses(offlineMass[..], onlineMass[..]), matched[..], resArr[..])
             == Run(adj, types, t0, onSize, alpha, beta, i)
      invariant Extends(table', t0)
    {
      table' := StepArrays(offlineMass, onlineMass, matched, resArr, adj, types, onSize, alpha, beta, i, table', t0);
    }
  }

  /** Arrival i on the arrays takes the run from i to i + 1 arrivals. */
  method StepArrays(offlineMass: array<real>, onlineMass: array<real>, matched: array<bool>, resArr: array<int>,
                    adj: seq<seq<int>>, types: seq<int>, onSize: nat, alpha: real -> real, beta: real -> real, i: nat,
                    table: Table, ghost t0: Table)
    returns (table': Table)
    requires offlineMass != onlineMass
    requires WellFormed(adj, types, onSize) && i < |types| && Extends(table, t0)
    requires State(Masses(offlineMass[..], onlineMass[..]), matched[..], resArr[..])
          == Run(adj, types, t0, onSize, alpha, beta, i)
    modifies offlineMass, onlineMass, matched, resArr
    ensures State(Masses(offlineMass[..], onlineMass[..]), matched[..], resArr[..])
         == Run(adj, types, t0, onSize, alpha, beta, i + 1)
    ensures Extends(table', t0)
  {
    ghost var s := Run(adj, types, t0, onSize, alpha, beta, i);
    table' := ArriveArrays(offlineMass, onlineMass, matched, resArr, adj, types, i, alpha, beta, table, t0, s);
    RunStep(adj, types, t0, onSize, alpha, beta, i);
  }

  /** `regularized_greedy(typeProb)`: the set-up of the masses, then one
      deterministic pass over the arrivals of the realization of `g`. The
      table comes back with, at most, absent pairs added at 0. */
  method RegularizedGreedy(g: Graph, typeProb: Table, alpha: real -> real, beta: real -> real)
    returns (res: seq<int>, table: Table)
    requires g.Valid() && NodesIn(g.types, |g.adj|)
    ensures res == Run(g.adj, g.types, typeProb, g.onSize, alpha, beta, |g.types|).res
    ensures Extends(table, typeProb)
    ensures |res| == g.realSize
    ensures forall i :: 0 <= i < |res| ==> res[i] == Unmatched || res[i] in g.adj[g.types[i]]
    ensures DistinctMatches(res)
    ensures CountMatched(res) <= g.realSize && CountMatched(res) <= |g.adj|
  {
    var n := g.onSize + g.offSize;
    var offlineMass, onlineMass;
    offlineMass, onlineMass, table := SetupMasses(g.adj, g.onSize, typeProb);
    var resArr := new int[g.realSize](_ => Unmatched);
    var matched := new bool[n](_ => false);
    assert resArr[..] == seq(|g.types|, _ => Unmatched) && matched[..] == seq(|g.adj|, _ => false);
    table := RunArrays(offlineMass, onlineMass, matched, resArr, g.adj, g.types, g.onSize, alpha, beta, table, typeProb);
    res := resArr[..];
    RunResult(g.adj, g.types, typeProb, g.onSize, alpha, beta);
  }
}

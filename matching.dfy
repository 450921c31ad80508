/** Matching results: one entry per online arrival, either the offline vertex
    it was matched to or the sentinel -1 for "left unmatched". */
module Matching {
  import opened TypeGraph

  /** The sentinel the policies store for an arrival left unmatched. */
  const Unmatched: int := -1

  /** Number of entries of `res` that are not the sentinel. */
  function CountMatched(res: seq<int>): (c: nat)
    ensures c <= |res|
  {
    if res == [] then 0
    else CountMatched(res[..|res| - 1]) + (if res[|res| - 1] != Unmatched then 1 else 0)
  }

  /** No offline vertex is recorded for two different arrivals. */
  predicate DistinctMatches(res: seq<int>)
  {
    forall i, j :: 0 <= i < j < |res| && res[i] != Unmatched ==> res[i] != res[j]
  }

  /** The size of the matching `res`, counted by a left-to-right scan. */
  method MatchSize(res: seq<int>) returns (m: int)
    ensures m == CountMatched(res)
    ensures 0 <= m <= |res|
  {
    m := 0;
    var i := 0;
    while i < |res|
      invariant 0 <= i <= |res|
      invariant m == CountMatched(res[..i])
    {
      assert res[..i + 1][..i] == res[..i];
      if res[i] != Unmatched {
        m := m + 1;
      }
      i := i + 1;
    }
    assert res[..|res|] == res;
  }

  /** A result counts zero exactly when every entry is the sentinel; in
      particular a result initialised to all -1 and never written. */
  lemma {:induction false} CountZeroIff(res: seq<int>)
    ensures CountMatched(res) == 0 <==> forall i :: 0 <= i < |res| ==> res[i] == Unmatched
  {
    if res != [] {
      var init := res[..|res| - 1];
      CountZeroIff(init);
      assert forall i :: 0 <= i < |init| ==> init[i] == res[i];
    }
  }

  /** Counting is additive over concatenation. */
  lemma {:induction false} CountAppend(a: seq<int>, b: seq<int>)
    ensures CountMatched(a + b) == CountMatched(a) + CountMatched(b)
  {
    if b == [] {
      assert a + b == a;
    } else {
      var b' := b[..|b| - 1];
      CountAppend(a, b');
      assert (a + b)[..|a + b| - 1] == a + b';
    }
  }

  /** When matches are distinct and all lie in `vertices`, there are at most
      |vertices| of them. */
  lemma {:induction false} CountDistinctBound(res: seq<int>, vertices: set<int>)
    requires DistinctMatches(res)
    requires forall i :: 0 <= i < |res| && res[i] != Unmatched ==> res[i] in vertices
    ensures CountMatched(res) <= |vertices|
  {
    if res != [] {
      var init := res[..|res| - 1];
      var x := res[|res| - 1];
      if x == Unmatched {
        CountDistinctBound(init, vertices);
      } else {
        assert forall i :: 0 <= i < |init| && init[i] != Unmatched ==> init[i] != x;
        CountDistinctBound(init, vertices - {x});
      }
    }
  }

  /** The flags after recording vertex j as matched (no change for -1). */
  function RecordMarks(marks: seq<bool>, j: int): (r: seq<bool>)
    requires j == Unmatched || 0 <= j < |marks|
    ensures |r| == |marks|
  {
    if j == Unmatched then marks else marks[j := true]
  }

  /** The result after recording vertex j for arrival i (no change for -1). */
  function RecordRes(res: seq<int>, i: nat, j: int): (r: seq<int>)
    requires i < |res|
    ensures |r| == |res|
  {
    if j == Unmatched then res else res[i := j]
  }

  /** What an online policy keeps true after deciding the first k arrivals:
      later entries are still -1, each decided entry is -1 or a neighbour of
      the arrival's type, a vertex is flagged exactly when it occurs in the
      result, and no vertex occurs twice. */
  ghost predicate Decided(adj: seq<seq<int>>, types: seq<int>, marks: seq<bool>, res: seq<int>, k: nat)
    requires NodesIn(types, |adj|) && k <= |types| == |res|
  {
    && (forall i :: k <= i < |res| ==> res[i] == Unmatched)
    && (forall i :: 0 <= i < k ==> res[i] == Unmatched || res[i] in adj[types[i]])
    && (forall v :: 0 <= v < |marks| ==> (marks[v] <==> v in res))
    && DistinctMatches(res)
  }

  /** Before anything is decided every entry is -1 and no vertex is flagged. */
  lemma NothingDecided(adj: seq<seq<int>>, types: seq<int>, n: nat)
    requires NodesIn(types, |adj|)
    ensures Decided(adj, types, seq(n, _ => false), seq(|types|, _ => Unmatched), 0)
  {
    var res: seq<int> := seq(|types|, _ => Unmatched);
    assert forall q :: 0 <= q < |res| ==> res[q] == Unmatched;
  }

  /** After k decisions a vertex occurs in the result exactly when it occurs
      among the first k entries. */
  lemma TakenSoFar(adj: seq<seq<int>>, types: seq<int>, marks: seq<bool>, res: seq<int>, k: nat, v: int)
    requires NodesIn(types, |adj|) && k <= |types| == |res|
    requires Decided(adj, types, marks, res, k)
    requires v != Unmatched
    ensures v in res <==> v in res[..k]
  {
    if v in res {
      var q :| 0 <= q < |res| && res[q] == v;
      assert q < k && res[..k][q] == v;
    }
  }

  /** Recording an unflagged neighbour of arrival k (or -1) keeps the
      decisions consistent and leaves the earlier entries alone. */
  lemma RecordKeepsDecided(adj: seq<seq<int>>, types: seq<int>, marks: seq<bool>, res: seq<int>, k: nat, j: int)
    requires NodesIn(types, |adj|) && k < |types| == |res|
    requires Decided(adj, types, marks, res, k)
    requires j == Unmatched || (0 <= j < |marks| && j in adj[types[k]] && !marks[j])
    ensures Decided(adj, types, RecordMarks(marks, j), RecordRes(res, k, j), k + 1)
    ensures forall i :: 0 <= i <= k ==> RecordRes(res, k, j)[..i] == res[..i]
    ensures RecordRes(res, k, j)[k] == j
  {
    var marks', res' := RecordMarks(marks, j), RecordRes(res, k, j);
    forall i | 0 <= i <= k ensures res'[..i] == res[..i] {
      assert forall q :: 0 <= q < i ==> res'[q] == res[q];
    }
    if j != Unmatched {
      assert j !in res;
      forall v | 0 <= v < |marks'| ensures (marks'[v] <==> v in res') {
        if v in res' {
          var q :| 0 <= q < |res'| && res'[q] == v;
          if q != k {
            assert res[q] == v;
          }
        }
        if v in res {
          var q :| 0 <= q < |res| && res[q] == v;
          assert q != k && res'[q] == v;
        }
        if v == j {
          assert res'[k] == v;
        }
      }
      forall a, b | 0 <= a < b < |res'| && res'[a] != Unmatched ensures res'[a] != res'[b] {
        if b == k {
          assert res'[a] == res[a];
        } else if a == k {
          assert res'[b] == res[b];
        }
      }
    }
  }

  /** The matches of a consistent result are at most the arrivals, at most
      the nodes of the graph, and at most the distinct vertices adjacent to
      some arrival. */
  lemma DecidedBound(adj: seq<seq<int>>, types: seq<int>, marks: seq<bool>, res: seq<int>)
    requires AdjacencyInRange(adj) && NodesIn(types, |adj|) && |types| == |res|
    requires Decided(adj, types, marks, res, |types|)
    ensures CountMatched(res) <= |types| && CountMatched(res) <= |adj|
    ensures CountMatched(res) <= |Offered(adj, types)|
  {
    forall i | 0 <= i < |res| && res[i] != Unmatched ensures res[i] in Nodes(|adj|) && res[i] in Offered(adj, types) {
      assert res[i] in adj[types[i]];
      assert NodesIn(adj[types[i]], |adj|);
    }
    CountDistinctBound(res, Nodes(|adj|));
    CountDistinctBound(res, Offered(adj, types));
  }

  /** The vertices in the list of some arrival's type: the only ones a
      policy can match. */
  function Offered(adj: seq<seq<int>>, types: seq<int>): set<int>
    requires NodesIn(types, |adj|)
  {
    set i, j | 0 <= i < |types| && j in adj[types[i]] :: j
  }

  /** The node numbers 0..n-1 as a set. */
  function Nodes(n: nat): (r: set<int>)
    ensures |r| == n
    ensures forall v :: v in r <==> 0 <= v < n
  {
    if n == 0 then {} else Nodes(n - 1) + {n - 1}
  }
}

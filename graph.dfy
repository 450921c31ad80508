/** The type graph (online types and offline vertices in one adjacency list)
    and its realization (the type of each online arrival). */
module TypeGraph {

  /** Every entry of `s` names one of the `n` nodes. */
  predicate NodesIn(s: seq<int>, n: int)
  {
    forall k :: 0 <= k < |s| ==> 0 <= s[k] < n
  }

  /** Every adjacency list names only nodes of the graph. */
  predicate AdjacencyInRange(adj: seq<seq<int>>)
  {
    forall u :: 0 <= u < |adj| ==> NodesIn(adj[u], |adj|)
  }

  /** Node `v` occurs in the list of `u` as often as `u` occurs in the list of `v`. */
  predicate Symmetric(adj: seq<seq<int>>)
  {
    forall u, v :: 0 <= u < |adj| && 0 <= v < |adj| ==> multiset(adj[u])[v] == multiset(adj[v])[u]
  }

  /** The adjacency lists after `add_edge(i, j)`: `j` pushed onto the list of
      `i`, then `i` pushed onto the list of `j`. */
  function WithEdge(adj: seq<seq<int>>, i: int, j: int): (r: seq<seq<int>>)
    requires 0 <= i < |adj| && 0 <= j < |adj|
    ensures |r| == |adj|
    ensures i != j ==> r[i] == adj[i] + [j] && r[j] == adj[j] + [i]
    ensures i == j ==> r[i] == adj[i] + [i, i]
    ensures forall u :: 0 <= u < |adj| && u != i && u != j ==> r[u] == adj[u]
  {
    var once := adj[i := adj[i] + [j]];
    once[j := once[j] + [i]]
  }

  /** Adding an edge adds one to the count of `j` in the list of `i` and one
      to the count of `i` in the list of `j`, and nothing else. */
  lemma EdgeCount(adj: seq<seq<int>>, i: int, j: int, u: int, v: int)
    requires 0 <= i < |adj| && 0 <= j < |adj| && 0 <= u < |adj|
    ensures multiset(WithEdge(adj, i, j)[u])[v]
         == multiset(adj[u])[v] + (if u == i && v == j then 1 else 0) + (if u == j && v == i then 1 else 0)
  {
    var r := WithEdge(adj, i, j);
    if i == j && u == i {
      assert r[u] == adj[u] + [i] + [i];
    } else if u == i {
      assert r[u] == adj[u] + [j];
    } else if u == j {
      assert r[u] == adj[u] + [i];
    }
  }

  /** `add_edge` keeps the adjacency lists symmetric. */
  lemma WithEdgeSymmetric(adj: seq<seq<int>>, i: int, j: int)
    requires 0 <= i < |adj| && 0 <= j < |adj| && Symmetric(adj)
    ensures Symmetric(WithEdge(adj, i, j))
  {
    var r := WithEdge(adj, i, j);
    forall u, v | 0 <= u < |adj| && 0 <= v < |adj|
      ensures multiset(r[u])[v] == multiset(r[v])[u]
    {
      EdgeCount(adj, i, j, u, v);
      EdgeCount(adj, i, j, v, u);
    }
  }

  /** `add_edge` of two nodes of the graph keeps every list in range. */
  lemma WithEdgeInRange(adj: seq<seq<int>>, i: int, j: int)
    requires 0 <= i < |adj| && 0 <= j < |adj| && AdjacencyInRange(adj)
    ensures AdjacencyInRange(WithEdge(adj, i, j))
  {
    var r := WithEdge(adj, i, j);
    forall u | 0 <= u < |adj| ensures NodesIn(r[u], |adj|) {
      assert NodesIn(adj[u], |adj|);
    }
  }

  /** The sequence 0, 1, ..., n-1 that `iota` writes. */
  function Iota(n: nat): (s: seq<int>)
    ensures |s| == n && forall k :: 0 <= k < n ==> s[k] == k
  {
    seq(n, k => k)
  }

  /** `perm` is a permutation of the positions 0..n-1: of length n, in range
      and without repetition. */
  predicate IsPermutation(perm: seq<int>, n: nat)
  {
    |perm| == n && NodesIn(perm, n) && forall a, b :: 0 <= a < b < n ==> perm[a] != perm[b]
  }

  /** The arrangement a shuffle produces: position k receives the element that
      stood at position perm[k]. */
  function Permute(s: seq<int>, perm: seq<int>): (r: seq<int>)
    requires NodesIn(perm, |s|)
    ensures |r| == |perm| && forall k :: 0 <= k < |perm| ==> r[k] == s[perm[k]]
  {
    seq(|perm|, k requires 0 <= k < |perm| => s[perm[k]])
  }

  /** The removal of position p from s. */
  function Without(s: seq<int>, p: nat): (r: seq<int>)
    requires p < |s|
    ensures |r| == |s| - 1
    ensures forall k :: 0 <= k < p ==> r[k] == s[k]
    ensures forall k :: p <= k < |r| ==> r[k] == s[k + 1]
  {
    s[..p] + s[p + 1..]
  }

  /** Pigeonhole: a sequence without repetition drawn from 0..n-1 has at most n entries. */
  lemma {:induction false} DistinctInRangeBound(s: seq<int>, n: nat)
    requires NodesIn(s, n)
    requires forall a, b :: 0 <= a < b < |s| ==> s[a] != s[b]
    ensures |s| <= n
  {
    assert |s| > 0 ==> 0 <= s[0] < n;
    if n == 0 {
    } else if p :| 0 <= p < |s| && s[p] == n - 1 {
      var t := Without(s, p);
      forall k | 0 <= k < |t| ensures 0 <= t[k] < n - 1 {
        var k' := if k < p then k else k + 1;
        assert t[k] == s[k'] && k' != p;
      }
      forall a, b | 0 <= a < b < |t| ensures t[a] != t[b] {
        var a', b' := if a < p then a else a + 1, if b < p then b else b + 1;
        assert t[a] == s[a'] && t[b] == s[b'] && a' < b';
      }
      DistinctInRangeBound(t, n - 1);
    } else {
      DistinctInRangeBound(s, n - 1);
    }
  }

  /** A permutation of 0..n-1 takes every value in 0..n-1. */
  lemma PermutationIsOnto(perm: seq<int>, n: nat, v: int)
    requires IsPermutation(perm, n)
    requires 0 <= v < n
    ensures v in perm
  {
    if v !in perm {
      var squeezed := seq(n, k requires 0 <= k < n => if perm[k] > v then perm[k] - 1 else perm[k]);
      forall a, b | 0 <= a < b < n ensures squeezed[a] != squeezed[b] {
        assert perm[a] != perm[b] && perm[a] != v && perm[b] != v;
      }
      forall k | 0 <= k < n ensures 0 <= squeezed[k] < n - 1 {
        assert perm[k] != v;
      }
      DistinctInRangeBound(squeezed, n - 1);
    }
  }

  /** Shuffling 0..n-1 by a permutation yields a permutation that takes every
      value in 0..n-1 exactly once. */
  lemma ShuffledIotaIsPermutation(perm: seq<int>, n: nat)
    requires IsPermutation(perm, n)
    ensures Permute(Iota(n), perm) == perm
    ensures IsPermutation(Permute(Iota(n), perm), n)
    ensures forall v :: 0 <= v < n ==> v in Permute(Iota(n), perm)
  {
    assert Permute(Iota(n), perm) == perm;
    forall v | 0 <= v < n ensures v in perm {
      PermutationIsOnto(perm, n, v);
    }
  }

  /** What `vector::resize(n)` leaves: the first n elements kept, zeros appended. */
  function Resized(s: seq<int>, n: nat): (r: seq<int>)
    ensures |r| == n
    ensures forall k :: 0 <= k < n && k < |s| ==> r[k] == s[k]
    ensures forall k :: |s| <= k < n ==> r[k] == 0
  {
    if n <= |s| then s[..n] else s + seq(n - |s|, _ => 0)
  }

  /** The type graph with an optional realization. Nodes 0..onSize-1 are the
      online types, onSize..onSize+offSize-1 the offline vertices. */
  class Graph {
    var adj: seq<seq<int>>
    var types: seq<int>
    var onSize: nat
    var offSize: nat
    var realSize: nat

    /** The object invariant: one list per node, every list names nodes of
        the graph, lists are symmetric, one type per arrival. */
    ghost predicate Valid()
      reads this
    {
      && |adj| == onSize + offSize
      && AdjacencyInRange(adj)
      && Symmetric(adj)
      && |types| == realSize
    }

    /** An empty type graph with n online types and m offline vertices. */
    constructor (n: nat, m: nat)
      ensures Valid()
      ensures onSize == n && offSize == m
      ensures |adj| == n + m && forall u :: 0 <= u < n + m ==> adj[u] == []
      ensures realSize == 0 && types == []
    {
      onSize := n;
      offSize := m;
      var lists: seq<seq<int>> := Resize(n + m);
      var i := 0;
      while i < n + m
        invariant 0 <= i <= n + m
        invariant |lists| == n + m
        invariant forall u :: 0 <= u < i ==> lists[u] == []
      {
        lists := lists[i := []];
        i := i + 1;
      }
      adj := lists;
      realSize := 0;
      types := [];
    }

    /** `add_edge(i, j)`: `j` appended to the list of `i`, `i` to the list of `j`. */
    method AddEdge(i: int, j: int)
      requires Valid()
      requires 0 <= i < |adj| && 0 <= j < |adj|
      modifies this
      ensures Valid()
      ensures adj == WithEdge(old(adj), i, j)
      ensures types == old(types) && onSize == old(onSize) && offSize == old(offSize)
      ensures realSize == old(realSize)
    {
      WithEdgeSymmetric(adj, i, j);
      WithEdgeInRange(adj, i, j);
      adj := adj[i := adj[i] + [j]];
      adj := adj[j := adj[j] + [i]];
    }

    /** `get_adj`: the adjacency lists, with no change of state. */
    method GetAdj() returns (a: seq<seq<int>>)
      ensures a == adj
    {
      a := adj;
    }

    /** `online_size`: the number of online types, with no change of state. */
    method OnlineSize() returns (n: int)
      ensures n == onSize
    {
      n := onSize;
    }

    /** `realize(n, stochastic)`. In stochastic mode arrival i takes the
        uniform draw `draws[i]` in [0, onSize); otherwise the types are 0..n-1
        shuffled by the random permutation `perm`. */
    method Realize(n: nat, stochastic: bool, draws: seq<int>, perm: seq<int>)
      requires Valid()
      requires stochastic ==> |draws| == n && NodesIn(draws, onSize)
      requires !stochastic ==> IsPermutation(perm, n)
      modifies this
      ensures Valid()
      ensures adj == old(adj) && onSize == old(onSize) && offSize == old(offSize)
      ensures realSize == n && |types| == n
      ensures stochastic ==> types == draws && NodesIn(types, onSize)
      ensures !stochastic ==> types == Permute(Iota(n), perm)
      ensures !stochastic ==> IsPermutation(types, n) && forall v :: 0 <= v < n ==> v in types
    {
      realSize := n;
      types := Resized(types, realSize);
      if stochastic {
        types := CopyDraws(types, draws);
      } else {
        types := Identity(types);
        types := Permute(types, perm);
        ShuffledIotaIsPermutation(perm, n);
      }
    }
  }

  /** The stochastic loop of `realize`: entry i becomes draws[i]. */
  method CopyDraws(t: seq<int>, draws: seq<int>) returns (r: seq<int>)
    requires |t| == |draws|
    ensures r == draws
  {
    r := t;
    var i := 0;
    while i < |r|
      invariant 0 <= i <= |r| == |draws|
      invariant r[..i] == draws[..i]
    {
      r := r[i := draws[i]];
      i := i + 1;
    }
    assert r == r[..|r|];
  }

  /** The deterministic loop of `realize`: entry i becomes i. */
  method Identity(t: seq<int>) returns (r: seq<int>)
    ensures r == Iota(|t|)
  {
    r := t;
    var i := 0;
    while i < |r|
      invariant 0 <= i <= |r| == |t|
      invariant forall k :: 0 <= k < i ==> r[k] == k
    {
      r := r[i := i];
      i := i + 1;
    }
  }

  /** `adj.resize(k)` on a fresh vector: k empty lists. */
  function Resize(k: nat): (r: seq<seq<int>>)
    ensures |r| == k
  {
    seq(k, _ => [])
  }
}

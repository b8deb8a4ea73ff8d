/** Sorting the literal edges of a node, in place in the graph. */
module EdgeSort {
  import opened Permutations
  import opened SymbolLists
  import opened GraphLayout

  predicate SortedEdges(e: seq<Edge>, n: nat)
    requires n <= |e|
  {
    forall p, q | 0 <= p < q < n :: e[p].symbol <= e[q].symbol
  }

  /** Sorted up to n, but for the edge at j, which may still have to move down. */
  predicate SortedButOne(e: seq<Edge>, n: nat, j: nat)
    requires j < n <= |e|
  {
    forall p, q | 0 <= p < q < n && q != j :: e[p].symbol <= e[q].symbol
  }

  function SwapDown(e: seq<Edge>, j: nat): seq<Edge>
    requires 0 < j < |e|
  {
    e[j - 1 := e[j]][j := e[j - 1]]
  }

  lemma SwapDownIsPermutation(e: seq<Edge>, j: nat)
    requires 0 < j < |e|
    ensures multiset(SwapDown(e, j)) == multiset(e)
  {
  }

  lemma SwapDownSinks(e: seq<Edge>, n: nat, j: nat)
    requires 0 < j < n <= |e| && SortedButOne(e, n, j) && e[j].symbol < e[j - 1].symbol
    ensures SortedButOne(SwapDown(e, j), n, j - 1)
  {
  }

  predicate SameOutside(g: seq<Word>, g': seq<Word>, low: nat, high: nat) {
    |g| == |g'| && forall k | 0 <= k < |g| && !(low <= k < high) :: g'[k] == g[k]
  }

  method SwapEdges(g: array<Word>, base: nat, n: nat, j: nat)
    requires base + 2 * n <= g.Length && 0 < j < n
    modifies g
    ensures EdgesAt(g[..], base, n) == SwapDown(old(EdgesAt(g[..], base, n)), j)
    ensures SameOutside(old(g[..]), g[..], base, base + 2 * n)
  {
    ghost var e := EdgesAt(g[..], base, n);
    var a := base + 2 * (j - 1);
    g[a], g[a + 1], g[a + 2], g[a + 3] := g[a + 2], g[a + 3], g[a], g[a + 1];
    forall i | 0 <= i < n ensures EdgeAt(g[..], base, i) == SwapDown(e, j)[i] {
    }
  }

  method SinkEdge(g: array<Word>, base: nat, n: nat, i: nat)
    requires base + 2 * n <= g.Length && i < n && SortedEdges(EdgesAt(g[..], base, n), i)
    modifies g
    ensures SortedEdges(EdgesAt(g[..], base, n), i + 1)
    ensures multiset(EdgesAt(g[..], base, n)) == multiset(old(EdgesAt(g[..], base, n)))
    ensures SameOutside(old(g[..]), g[..], base, base + 2 * n)
  {
    var j := i;
    while j > 0 && g[base + 2 * j] < g[base + 2 * (j - 1)]
      invariant 0 <= j <= i && SortedButOne(EdgesAt(g[..], base, n), i + 1, j)
      invariant multiset(EdgesAt(g[..], base, n)) == multiset(old(EdgesAt(g[..], base, n)))
      invariant SameOutside(old(g[..]), g[..], base, base + 2 * n)
    {
      SwapDownSinks(EdgesAt(g[..], base, n), i + 1, j);
      SwapDownIsPermutation(EdgesAt(g[..], base, n), j);
      SwapEdges(g, base, n, j);
      j := j - 1;
    }
    ghost var e := EdgesAt(g[..], base, n);
    assert j > 0 ==> e[j - 1].symbol <= e[j].symbol;
    forall p, q | 0 <= p < q < i + 1 ensures e[p].symbol <= e[q].symbol {
      if q == j && p < j - 1 {
        assert e[p].symbol <= e[j - 1].symbol;
      }
    }
  }

  method SortEdges(g: array<Word>, base: nat, n: nat)
    requires base + 2 * n <= g.Length
    modifies g
    ensures SortedEdges(EdgesAt(g[..], base, n), n)
    ensures multiset(EdgesAt(g[..], base, n)) == multiset(old(EdgesAt(g[..], base, n)))
    ensures SameOutside(old(g[..]), g[..], base, base + 2 * n)
  {
    var i := 0;
    while i < n
      invariant i <= n && SortedEdges(EdgesAt(g[..], base, n), i)
      invariant multiset(EdgesAt(g[..], base, n)) == multiset(old(EdgesAt(g[..], base, n)))
      invariant SameOutside(old(g[..]), g[..], base, base + 2 * n)
    {
      SinkEdge(g, base, n, i);
      i := i + 1;
    }
  }

  predicate DistinctSymbols(e: seq<Edge>) {
    forall i, j | 0 <= i < j < |e| :: e[i].symbol != e[j].symbol
  }

  /** Sorting edges of distinct symbols puts them in strict order. */
  lemma SortedIsAscending(wanted: seq<Edge>, e: seq<Edge>)
    requires DistinctSymbols(wanted) && multiset(e) == multiset(wanted) && SortedEdges(e, |e|)
    ensures AscendingEdges(e)
  {
    PermutationIsDistinct(wanted, e);
    PermutationKeepsMembers(wanted, e);
    forall i, j | 0 <= i < j < |e| ensures e[i].symbol < e[j].symbol {
      assert e[i] in wanted && e[j] in wanted;
    }
  }
}

/** Trees that hold the same routes are the same but for the order of children: they compile to the same size. */
module Sizes {
  import opened Permutations
  import opened RouteTree
  import opened Bytes
  import opened Insertion
  import opened Compatibility
  import opened GraphLayout
  import Wrappers

  // ---- Sums that ignore order ----

  function TotalOf(pairs: seq<(Text, nat)>): nat {
    if pairs == [] then 0 else TotalOf(pairs[..|pairs| - 1]) + pairs[|pairs| - 1].1
  }

  lemma {:induction false} TotalRemove(a: seq<(Text, nat)>, i: nat)
    requires i < |a|
    ensures TotalOf(a) == TotalOf(Without(a, i)) + a[i].1
    decreases |a|
  {
    var n := |a| - 1;
    if i < n {
      TotalRemove(a[..n], i);
      assert Without(a, i)[..n - 1] == Without(a[..n], i);
      assert Without(a, i)[n - 1] == a[n];
    } else {
      assert Without(a, i) == a[..n];
    }
  }

  lemma {:induction false} TotalOfPermutation(a: seq<(Text, nat)>, b: seq<(Text, nat)>)
    requires multiset(a) == multiset(b)
    ensures TotalOf(a) == TotalOf(b)
    decreases |a|
  {
    PermutationKeepsMembers(a, b);
    if a != [] {
      var i := PermutationWithoutLast(a, b);
      TotalOfPermutation(a[..|a| - 1], Without(b, i));
      TotalRemove(b, i);
    }
  }

  function SizesOf(kids: seq<Kid>): (pairs: seq<(Text, nat)>)
    ensures |pairs| == |kids| && forall i | 0 <= i < |kids| :: pairs[i] == (kids[i].text, Size(kids[i].tree))
  {
    seq(|kids|, i requires 0 <= i < |kids| => (kids[i].text, Size(kids[i].tree)))
  }

  lemma {:induction false} KidsSizeIsTotal(kids: seq<Kid>, n: nat)
    requires n <= |kids|
    ensures KidsSize(kids, n) == TotalOf(SizesOf(kids)[..n])
    decreases n
  {
    if n > 0 {
      KidsSizeIsTotal(kids, n - 1);
      assert SizesOf(kids)[..n][..n - 1] == SizesOf(kids)[..n - 1];
    }
  }

  // ---- The same routes below ----

  ghost predicate SameRoutes(s: Tree, t: Tree) {
    forall q :: Lookup(s, q) == Lookup(t, q)
  }

  /** Where one of two trees with the same routes has a child, the other has it too, with the same routes. */
  lemma SameBelow(s: Tree, t: Tree, st: Step)
    requires Sound(s) && Sound(t) && SameRoutes(s, t) && Down(s, st).Some?
    ensures Down(t, st).Some? && SameRoutes(Down(s, st).value, Down(t, st).value)
    ensures Sound(Down(s, st).value) && Sound(Down(t, st).value)
  {
    DownIsSound(s, st);
    var d := Down(s, st).value;
    var q := SomeRouteBelow(d);
    LookupBelow(s, st, q);
    assert Lookup(t, Under(st, q)).Some?;
    DownIsSound(t, st);
    forall q ensures Lookup(d, q) == Lookup(Down(t, st).value, q) {
      LookupBelow(s, st, q);
      LookupBelow(t, st, q);
      assert Lookup(s, Under(st, q)) == Lookup(t, Under(st, q));
    }
  }

  lemma SameRoutesIsSymmetric(s: Tree, t: Tree)
    requires SameRoutes(s, t)
    ensures SameRoutes(t, s)
  {
  }

  function Under(st: Step, q: Pattern): Pattern { q.(steps := [st] + q.steps) }

  lemma LookupBelow(t: Tree, st: Step, q: Pattern)
    ensures Lookup(t, Under(st, q)) == if Down(t, st).Some? then Lookup(Down(t, st).value, q) else Wrappers.None
  {
    assert Rest(Under(st, q)) == q;
  }

  lemma SameHere(s: Tree, t: Tree)
    requires SameRoutes(s, t)
    ensures s.terminal == t.terminal && s.trailing == t.trailing
    ensures s.special.WildcardEdge? <==> t.special.WildcardEdge?
  {
    assert Lookup(s, Pattern([], AtEnd)) == Lookup(t, Pattern([], AtEnd));
    assert Lookup(s, Pattern([], AtTrailing)) == Lookup(t, Pattern([], AtTrailing));
    assert Lookup(s, Pattern([], AtWildcard)) == Lookup(t, Pattern([], AtWildcard));
  }

  lemma SameParams(s: Tree, t: Tree)
    requires Sound(s) && Sound(t) && SameRoutes(s, t)
    ensures s.special.ParamEdge? <==> t.special.ParamEdge?
  {
    if s.special.ParamEdge? {
      SameBelow(s, t, Par(s.special.name));
    }
    if t.special.ParamEdge? {
      SameBelow(t, s, Par(t.special.name));
    }
  }

  lemma PairOf(kids: seq<Kid>, x: Text)
    requires Find(kids, x).Some?
    ensures (x, Size(kids[Find(kids, x).value].tree)) in SizesOf(kids)
  {
    assert SizesOf(kids)[Find(kids, x).value] == (x, Size(kids[Find(kids, x).value].tree));
  }

  lemma PairIsFound(kids: seq<Kid>, y: (Text, nat))
    requires DistinctTexts(kids) && y in SizesOf(kids)
    ensures Find(kids, y.0).Some? && y.1 == Size(kids[Find(kids, y.0).value].tree)
  {
    var i :| 0 <= i < |kids| && SizesOf(kids)[i] == y;
    FindInDistinct(kids, i);
  }

  /** The children of both have the same texts and sizes. */
  lemma {:induction false} SameSizes(s: Tree, t: Tree)
    requires Sound(s) && Sound(t) && SameRoutes(s, t)
    ensures forall y :: y in SizesOf(s.kids) <==> y in SizesOf(t.kids)
    decreases s, 0
  {
    hide Size, SizesOf, SameRoutes, Find;
    SameRoutesIsSymmetric(s, t);
    forall y | y in SizesOf(s.kids) ensures y in SizesOf(t.kids) {
      PairIsFound(s.kids, y);
      SameBelow(s, t, Lit(y.0));
      SameSize(s.kids[Find(s.kids, y.0).value].tree, t.kids[Find(t.kids, y.0).value].tree);
      PairOf(t.kids, y.0);
    }
    forall y | y in SizesOf(t.kids) ensures y in SizesOf(s.kids) {
      PairIsFound(t.kids, y);
      SameBelow(t, s, Lit(y.0));
      SameSize(s.kids[Find(s.kids, y.0).value].tree, t.kids[Find(t.kids, y.0).value].tree);
      PairOf(s.kids, y.0);
    }
  }

  lemma SizesAreDistinct(kids: seq<Kid>)
    requires DistinctTexts(kids)
    ensures Distinct(SizesOf(kids))
  {
  }

  lemma SameTotals(a: seq<Kid>, b: seq<Kid>)
    requires DistinctTexts(a) && DistinctTexts(b) && forall y :: y in SizesOf(a) <==> y in SizesOf(b)
    ensures |a| == |b| && KidsSize(a, |a|) == KidsSize(b, |b|)
  {
    hide Size, KidsSize, TotalOf, DistinctTexts, Distinct;
    SizesAreDistinct(a);
    SizesAreDistinct(b);
    SameMembersArePermutation(SizesOf(a), SizesOf(b));
    PermutationKeepsMembers(SizesOf(a), SizesOf(b));
    TotalOfPermutation(SizesOf(a), SizesOf(b));
    KidsSizeIsTotal(a, |a|);
    KidsSizeIsTotal(b, |b|);
    assert SizesOf(a)[..|a|] == SizesOf(a) && SizesOf(b)[..|b|] == SizesOf(b);
  }

  /** Sound trees that hold the same routes have the same size. */
  lemma {:induction false} SameSize(s: Tree, t: Tree)
    requires Sound(s) && Sound(t) && SameRoutes(s, t)
    ensures Size(s) == Size(t)
    decreases s, 1
  {
    SameHere(s, t);
    SameParams(s, t);
    if s.special.ParamEdge? {
      SameBelow(s, t, Par(s.special.name));
      SameSize(s.special.sub, t.special.sub);
    }
    SameSizes(s, t);
    SameTotals(s.kids, t.kids);
  }
}

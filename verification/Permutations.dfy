/** Distinct sequences and their rearrangements. */
module Permutations {

  predicate Distinct<T(==)>(s: seq<T>) {
    forall i, j | 0 <= i < j < |s| :: s[i] != s[j]
  }

  lemma {:induction false} MultiplicityInDistinct<T>(a: seq<T>, x: T)
    requires Distinct(a)
    ensures multiset(a)[x] <= 1
  {
    if a != [] {
      var n := |a| - 1;
      assert a == a[..n] + [a[n]];
      MultiplicityInDistinct(a[..n], x);
      assert x == a[n] ==> x !in a[..n];
    }
  }

  lemma PermutationIsDistinct<T>(a: seq<T>, b: seq<T>)
    requires Distinct(a) && multiset(a) == multiset(b)
    ensures Distinct(b)
  {
    forall i, j | 0 <= i < j < |b| ensures b[i] != b[j] {
      MultiplicityInDistinct(a, b[j]);
      assert b == b[..j] + [b[j]] + b[j + 1..];
      assert multiset(b) == multiset(b[..j]) + multiset{b[j]} + multiset(b[j + 1..]);
      assert b[i] in b[..j];
      assert b[i] in multiset(b[..j]);
    }
  }

  lemma PermutationKeepsMembers<T>(a: seq<T>, b: seq<T>)
    requires multiset(a) == multiset(b)
    ensures |a| == |b|
    ensures forall x | x in a :: x in b
    ensures forall x | x in b :: x in a
  {
    assert |a| == |multiset(a)| == |multiset(b)| == |b|;
    forall x | x in a ensures x in b {
      assert x in multiset(a);
    }
    forall x | x in b ensures x in a {
      assert x in multiset(b);
    }
  }

  function Without<T>(s: seq<T>, i: nat): seq<T>
    requires i < |s|
  {
    s[..i] + s[i + 1..]
  }

  lemma WithoutOne<T>(s: seq<T>, i: nat)
    requires i < |s|
    ensures multiset(s) == multiset(Without(s, i)) + multiset{s[i]}
  {
    assert s == s[..i] + [s[i]] + s[i + 1..];
  }

  /** Where the last element of a permutation is in the other. */
  lemma PermutationWithoutLast<T>(a: seq<T>, b: seq<T>) returns (i: nat)
    requires a != [] && multiset(a) == multiset(b)
    ensures i < |b| && b[i] == a[|a| - 1]
    ensures multiset(a[..|a| - 1]) == multiset(Without(b, i))
  {
    var n := |a| - 1;
    PermutationKeepsMembers(a, b);
    assert a[n] in a;
    i :| 0 <= i < |b| && b[i] == a[n];
    WithoutOne(b, i);
    assert a == a[..n] + [a[n]];
    assert multiset(a) == multiset(a[..n]) + multiset{a[n]};
    assert multiset(a[..n]) == multiset(a) - multiset{a[n]} == multiset(Without(b, i));
  }

  /** Two distinct sequences of the same members are rearrangements of one another. */
  lemma SameMembersArePermutation<T>(a: seq<T>, b: seq<T>)
    requires Distinct(a) && Distinct(b) && forall x :: x in a <==> x in b
    ensures multiset(a) == multiset(b)
  {
    forall x ensures multiset(a)[x] == multiset(b)[x] {
      MultiplicityInDistinct(a, x);
      MultiplicityInDistinct(b, x);
      assert x in a <==> x in multiset(a);
      assert x in b <==> x in multiset(b);
    }
  }

  lemma {:induction false} DistinctFits<T>(s: seq<T>, universe: set<T>)
    requires Distinct(s) && forall i | 0 <= i < |s| :: s[i] in universe
    ensures |s| <= |universe|
  {
    if s != [] {
      var n := |s| - 1;
      DistinctFits(s[..n], universe - {s[n]});
    }
  }

  lemma {:induction false} SetFits<T>(universe: set<T>, s: seq<T>)
    requires forall x | x in universe :: x in s
    ensures |universe| <= |s|
    decreases |s|
  {
    if s != [] {
      var n := |s| - 1;
      var rest := universe - {s[n]};
      forall x | x in rest ensures x in s[..n] {
        assert x in s;
      }
      SetFits(rest, s[..n]);
    } else {
      assert universe == {};
    }
  }

  lemma {:induction false} SubsetIsSmaller<T>(a: set<T>, b: set<T>)
    requires a <= b
    ensures |a| <= |b|
    decreases |a|
  {
    if x :| x in a {
      SubsetIsSmaller(a - {x}, b - {x});
    }
  }
}

/** Whole lists of registrations: which are accepted in full, and what their tree then holds. */
module Acceptance {
  import opened Wrappers
  import opened Bytes
  import opened Tokens
  import opened Permutations
  import opened RouteTree
  import opened Insertion
  import opened Compatibility
  import Prelexing

  datatype Registration = Registration(pattern: Option<CString>, route: Route)

  /** The builder's state, as far as it decides what happens next. */
  datatype Build = Build(corrupted: bool, tree: Tree, literals: seq<Text>, params: seq<Text>)

  const START := Build(false, EMPTY, [], [])

  function TokensOf(syn: Prelexing.Syntax, reg: Registration): seq<Token> {
    Prelexing.Run(syn, Prelexing.Loaded(reg.pattern), 0)
  }

  function Add(b: Build, syn: Prelexing.Syntax, reg: Registration): (Error, Build) {
    if b.corrupted then (BuilderCorrupted, b)
    else
      var o := Insert(b.tree, b.literals, b.params, TokensOf(syn, reg), reg.route);
      (o.error, Build(o.error != Ok, o.tree, o.literals, o.params))
  }

  function AddAll(syn: Prelexing.Syntax, regs: seq<Registration>): Build {
    if regs == [] then START else Add(AddAll(syn, regs[..|regs| - 1]), syn, regs[|regs| - 1]).1
  }

  predicate Accepted(syn: Prelexing.Syntax, regs: seq<Registration>) {
    !AddAll(syn, regs).corrupted
  }

  predicate AllParse(syn: Prelexing.Syntax, regs: seq<Registration>) {
    forall i | 0 <= i < |regs| :: Prelexing.Parse(syn, regs[i].pattern).Some?
  }

  function Entries(syn: Prelexing.Syntax, regs: seq<Registration>): (entries: seq<Entry>)
    requires AllParse(syn, regs)
    ensures |entries| == |regs|
    ensures forall i | 0 <= i < |regs| ::
              entries[i] == Entry(Prelexing.Parse(syn, regs[i].pattern).value, regs[i].route)
  {
    seq(|regs|, i requires 0 <= i < |regs| => Entry(Prelexing.Parse(syn, regs[i].pattern).value, regs[i].route))
  }

  predicate PairwiseCompatible(entries: seq<Entry>) {
    forall i, j | 0 <= i < j < |entries| :: Compatible(entries[i].pattern, entries[j].pattern)
  }

  /** The tree holds these pairs and no others. */
  ghost predicate Holds(t: Tree, entries: seq<Entry>) {
    forall q, r :: Lookup(t, q) == Some(r) <==> Entry(q, r) in entries
  }

  lemma {:induction false} RunGivesTexts(syn: Prelexing.Syntax, s: CString, c: nat)
    requires c <= |s|
    ensures TextsGiven(Prelexing.Run(syn, s, c))
    decreases |s| - c
  {
    var tok, next := Prelexing.Next(syn, s, c).0, Prelexing.Next(syn, s, c).1;
    if tok.Literal? || tok.Param? {
      RunGivesTexts(syn, s, next);
      var run := Prelexing.Run(syn, s, c);
      assert run[1..] == Prelexing.Run(syn, s, next);
      forall i | 0 <= i < |run| && (run[i].Literal? || run[i].Param?) ensures run[i].text != [] {
        if i > 0 {
          assert run[i] == run[1..][i - 1];
        }
      }
    }
  }

  // ---- Lists ----

  lemma LastEntry(syn: Prelexing.Syntax, regs: seq<Registration>)
    requires regs != []
    ensures var n := |regs| - 1;
            && (AllParse(syn, regs) <==> AllParse(syn, regs[..n]) && Prelexing.Parse(syn, regs[n].pattern).Some?)
            && (AllParse(syn, regs) ==>
                  Entries(syn, regs) ==
                  Entries(syn, regs[..n]) + [Entry(Prelexing.Parse(syn, regs[n].pattern).value, regs[n].route)])
  {
    var n := |regs| - 1;
    assert forall i | 0 <= i < n :: regs[..n][i] == regs[i];
    assert AllParse(syn, regs[..n]) && Prelexing.Parse(syn, regs[n].pattern).Some? ==> AllParse(syn, regs) by {
      if AllParse(syn, regs[..n]) && Prelexing.Parse(syn, regs[n].pattern).Some? {
        forall i | 0 <= i < |regs| ensures Prelexing.Parse(syn, regs[i].pattern).Some? {
          if i < n {
            assert regs[..n][i] == regs[i];
          }
        }
      }
    }
  }

  lemma HoldsAfterInsert(t: Tree, t': Tree, entries: seq<Entry>, p: Pattern, r: Route)
    requires Holds(t, entries) && Lookup(t, p) == None
    requires forall q :: Lookup(t', q) == if q == p then Some(r) else Lookup(t, q)
    ensures Holds(t', entries + [Entry(p, r)])
  {
  }

  /** After an accepted list the tree is sound and holds exactly the list's pairs. */
  lemma {:induction false} AcceptedTreeHolds(syn: Prelexing.Syntax, regs: seq<Registration>)
    requires Accepted(syn, regs)
    ensures AllParse(syn, regs)
    ensures Sound(AddAll(syn, regs).tree)
    ensures Holds(AddAll(syn, regs).tree, Entries(syn, regs))
    decreases |regs|
  {
    if regs == [] {
      forall q, r ensures Lookup(EMPTY, q) != Some(r) {
        EmptyHoldsNothing(q);
      }
    } else {
      var n := |regs| - 1;
      var b := AddAll(syn, regs[..n]);
      var toks := TokensOf(syn, regs[n]);
      AcceptedTreeHolds(syn, regs[..n]);
      LastEntry(syn, regs);
      RunGivesTexts(syn, Prelexing.Loaded(regs[n].pattern), 0);
      InsertKeepsSound(b.tree, b.literals, b.params, toks, regs[n].route);
      InsertAddsOneForAll(b.tree, b.literals, b.params, toks, regs[n].route);
      var t' := Insert(b.tree, b.literals, b.params, toks, regs[n].route).tree;
      HoldsAfterInsert(b.tree, t', Entries(syn, regs[..n]), Prelexing.PatternOf(toks).value, regs[n].route);
    }
  }

  lemma InsertAddsOneForAll(t: Tree, literals: seq<Text>, params: seq<Text>, toks: seq<Token>, r: Route)
    requires Insert(t, literals, params, toks, r).error == Ok
    ensures Prelexing.PatternOf(toks).Some?
    ensures Lookup(t, Prelexing.PatternOf(toks).value) == None
    ensures forall q :: Lookup(Insert(t, literals, params, toks, r).tree, q) ==
                        if q == Prelexing.PatternOf(toks).value then Some(r) else Lookup(t, q)
  {
    forall q
      ensures Prelexing.PatternOf(toks).Some? && Lookup(t, Prelexing.PatternOf(toks).value) == None
      ensures Lookup(Insert(t, literals, params, toks, r).tree, q) ==
              if q == Prelexing.PatternOf(toks).value then Some(r) else Lookup(t, q)
    {
      InsertAddsOne(t, literals, params, toks, r, q);
    }
    InsertAddsOne(t, literals, params, toks, r, Pattern([], AtEnd));
  }

  lemma AddAcceptsIffCompatible(b: Build, syn: Prelexing.Syntax, reg: Registration, entries: seq<Entry>)
    requires !b.corrupted && Sound(b.tree) && Holds(b.tree, entries)
    requires Prelexing.Parse(syn, reg.pattern).Some?
    requires Add(b, syn, reg).0 != OutOfRange
    ensures Add(b, syn, reg).0 == Ok <==>
            forall i | 0 <= i < |entries| :: Compatible(entries[i].pattern, Prelexing.Parse(syn, reg.pattern).value)
  {
    var p := Prelexing.Parse(syn, reg.pattern).value;
    var toks := TokensOf(syn, reg);
    if Add(b, syn, reg).0 == Ok {
      forall i | 0 <= i < |entries| ensures Compatible(entries[i].pattern, p) {
        var e := entries[i];
        assert Entry(e.pattern, e.route) in entries;
        AcceptedIsCompatible(b.tree, b.literals, b.params, toks, reg.route, p, e.pattern);
        CompatibleIsSymmetric(p, e.pattern);
      }
    } else {
      var q := RefusedHasConflict(b.tree, b.literals, b.params, toks, reg.route, p);
      var r := Lookup(b.tree, q).value;
      assert Entry(q, r) in entries;
      var i :| 0 <= i < |entries| && entries[i] == Entry(q, r);
      CompatibleIsSymmetric(p, q);
    }
  }

  lemma PairwiseExtends(front: seq<Entry>, last: Entry)
    ensures PairwiseCompatible(front + [last]) <==>
            PairwiseCompatible(front) && forall i | 0 <= i < |front| :: Compatible(front[i].pattern, last.pattern)
  {
    var all := front + [last];
    if PairwiseCompatible(all) {
      forall i, j | 0 <= i < j < |front| ensures Compatible(front[i].pattern, front[j].pattern) {
        assert all[i] == front[i] && all[j] == front[j];
      }
      forall i | 0 <= i < |front| ensures Compatible(front[i].pattern, last.pattern) {
        assert all[i] == front[i] && all[|front|] == last;
      }
    }
  }

  // ---- Order ----

  lemma {:induction false} NotCompatibleWithItself(p: Pattern)
    ensures !Compatible(p, p)
    decreases |p.steps|
  {
    if p.steps != [] {
      NotCompatibleWithItself(Rest(p));
    }
  }

  lemma CompatibilityIgnoresOrder(a: seq<Entry>, b: seq<Entry>)
    requires multiset(a) == multiset(b) && PairwiseCompatible(a)
    ensures PairwiseCompatible(b)
  {
    assert Distinct(a) by {
      forall i, j | 0 <= i < j < |a| ensures a[i] != a[j] {
        NotCompatibleWithItself(a[i].pattern);
      }
    }
    PermutationIsDistinct(a, b);
    PermutationKeepsMembers(a, b);
    forall i, j | 0 <= i < j < |b| ensures Compatible(b[i].pattern, b[j].pattern) {
      assert b[i] in a && b[j] in a;
      var k :| 0 <= k < |a| && a[k] == b[i];
      var l :| 0 <= l < |a| && a[l] == b[j];
      CompatibleIsSymmetric(b[i].pattern, b[j].pattern);
    }
  }

  lemma EntriesWithout(syn: Prelexing.Syntax, regs: seq<Registration>, i: nat)
    requires AllParse(syn, regs) && i < |regs|
    ensures AllParse(syn, Without(regs, i))
    ensures Entries(syn, Without(regs, i)) == Without(Entries(syn, regs), i)
  {
    var rest := Without(regs, i);
    forall k | 0 <= k < |rest| ensures rest[k] == regs[if k < i then k else k + 1] {
    }
  }

  lemma PermutationParses(syn: Prelexing.Syntax, a: seq<Registration>, b: seq<Registration>)
    requires multiset(a) == multiset(b) && AllParse(syn, a)
    ensures AllParse(syn, b)
  {
    PermutationKeepsMembers(a, b);
    forall i | 0 <= i < |b| ensures Prelexing.Parse(syn, b[i].pattern).Some? {
      assert b[i] in a;
    }
  }

  lemma {:induction false} EntriesOfPermutation(syn: Prelexing.Syntax, a: seq<Registration>, b: seq<Registration>)
    requires multiset(a) == multiset(b) && AllParse(syn, a) && AllParse(syn, b)
    ensures multiset(Entries(syn, a)) == multiset(Entries(syn, b))
    decreases |a|
  {
    PermutationKeepsMembers(a, b);
    if a != [] {
      var i := PermutationWithoutLast(a, b);
      var n := |a| - 1;
      EntriesWithout(syn, a, n);
      EntriesWithout(syn, b, i);
      assert Without(a, n) == a[..n];
      EntriesOfPermutation(syn, Without(a, n), Without(b, i));
      WithoutOne(Entries(syn, a), n);
      WithoutOne(Entries(syn, b), i);
    }
  }

  lemma SameEntriesSameLookups(s: Tree, t: Tree, a: seq<Entry>, b: seq<Entry>)
    requires Holds(s, a) && Holds(t, b) && (forall e | e in a :: e in b) && (forall e | e in b :: e in a)
    ensures forall q :: Lookup(s, q) == Lookup(t, q)
  {
  }
}

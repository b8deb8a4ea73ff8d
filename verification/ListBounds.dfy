/** Reserves, overruns and sizes, read off the list of patterns instead of the tree. */
module ListBounds {
  import opened Wrappers
  import opened Bytes
  import Permutations
  import opened RouteTree
  import opened Compatibility
  import opened Acceptance
  import opened Lexing
  import opened Resolution
  import opened ParamBounds
  import Prelexing

  // ---- The reserve ----

  /** The slots that a pattern's own match takes. */
  function Need(p: Pattern): nat {
    ParamDepth(p.steps) + if p.final.AtWildcard? then 1 else 0
  }

  /** The most that any pattern of the list takes. */
  function ListReserve(entries: seq<Entry>): nat {
    if entries == [] then 0 else Max(ListReserve(entries[..|entries| - 1]), Need(entries[|entries| - 1].pattern))
  }

  lemma {:induction false} NeedWithinReserve(entries: seq<Entry>, i: nat)
    requires i < |entries|
    ensures Need(entries[i].pattern) <= ListReserve(entries)
    decreases |entries|
  {
    if i < |entries| - 1 {
      NeedWithinReserve(entries[..|entries| - 1], i);
    }
  }

  lemma {:induction false} ReserveIsSomeNeed(entries: seq<Entry>) returns (i: nat)
    requires ListReserve(entries) > 0
    ensures i < |entries| && Need(entries[i].pattern) == ListReserve(entries)
    decreases |entries|
  {
    i := |entries| - 1;
    if Need(entries[i].pattern) != ListReserve(entries) {
      i := ReserveIsSomeNeed(entries[..i]);
    }
  }

  lemma {:induction false} DepthOfPrefix(p: Path, q: Path)
    requires IsPrefix(p, q)
    ensures ParamDepth(p) <= ParamDepth(q)
    decreases |p|
  {
    if p != [] {
      assert q[1..][..|p| - 1] == q[..|p|][1..];
      DepthOfPrefix(p[1..], q[1..]);
    }
  }

  /** Something that the tree needs, a pattern of the list needs too. */
  lemma NeedOfSomePattern(t: Tree, entries: seq<Entry>, p: Path, m: nat)
    requires Sound(t) && Holds(t, entries) && NeededAt(t, p, m)
    ensures m <= ListReserve(entries)
  {
    if m > ParamDepth(p) {
      var q := Pattern(p, AtWildcard);
      var e := Entry(q, Lookup(t, q).value);
      var i :| 0 <= i < |entries| && entries[i] == e;
      NeedWithinReserve(entries, i);
    } else if p != [] {
      var e := EntryThrough(t, entries, p);
      var i :| 0 <= i < |entries| && entries[i] == e;
      DepthOfPrefix(p, e.pattern.steps);
      NeedWithinReserve(entries, i);
    }
  }

  /** The compiled reserve is the most that any pattern of the list takes, in whatever order they came. */
  lemma ReserveIsListReserve(t: Tree, entries: seq<Entry>)
    requires Sound(t) && Holds(t, entries)
    ensures Reserve(t, 0) == ListReserve(entries)
  {
    ReserveIsMaximum(t);
    var p :| NeededAt(t, p, Reserve(t, 0));
    NeedOfSomePattern(t, entries, p, Reserve(t, 0));
    if ListReserve(entries) > 0 {
      var i := ReserveIsSomeNeed(entries);
      var e := entries[i];
      EntryIsInTree(t, entries, e, 0);
      assert NeededAt(t, e.pattern.steps, Need(e.pattern));
    }
  }

  lemma ListReserveWithin(a: seq<Entry>, b: seq<Entry>)
    requires forall e | e in a :: e in b
    ensures ListReserve(a) <= ListReserve(b)
  {
    if ListReserve(a) > 0 {
      var i := ReserveIsSomeNeed(a);
      assert a[i] in b;
      var j :| 0 <= j < |b| && b[j] == a[i];
      NeedWithinReserve(b, j);
    }
  }

  lemma ListReserveIgnoresOrder(a: seq<Entry>, b: seq<Entry>)
    requires multiset(a) == multiset(b)
    ensures ListReserve(a) == ListReserve(b)
  {
    Permutations.PermutationKeepsMembers(a, b);
    ListReserveWithin(a, b);
    ListReserveWithin(b, a);
  }

  // ---- Overruns ----

  /** A request of these segments takes one slot more than the reserve: the list leads as far as `deep`, which is as
    * deep in parameters as the reserve, and a wildcard catches what sticks there. */
  ghost predicate Overruns(entries: seq<Entry>, segs: seq<Seg>) {
    exists deep :: OverrunsAt(entries, segs, deep)
  }

  ghost predicate OverrunsAt(entries: seq<Entry>, segs: seq<Seg>, deep: Path) {
    && Leads(entries, segs, deep) && |deep| < |segs|
    && (exists e :: e in entries && Catches(e.pattern, segs, |deep|))
    && ParamDepth(deep) == ListReserve(entries)
  }

  lemma CaughtIffRemembered(t: Tree, entries: seq<Entry>, segs: seq<Seg>)
    requires Sound(t) && Holds(t, entries) && |Trail(t, segs)| < |segs|
    ensures LastWild(t, segs, None).Some? <==> exists e :: e in entries && Catches(e.pattern, segs, |Trail(t, segs)|)
  {
    var p := Trail(t, segs);
    var k := LastWildIsDeepest(t, segs, None);
    if k > 0 {
      var e := WildcardIsCatcher(t, entries, segs, k - 1);
    }
    if e :| e in entries && Catches(e.pattern, segs, |p|) {
      CatcherIsOnTrail(t, entries, segs, e);
      assert p[..|e.pattern.steps|] == e.pattern.steps;
    }
  }

  /** For every request: more slots are in use than the router reserves iff the list says that the request overruns. */
  lemma OverrunsIff(t: Tree, entries: seq<Entry>, segs: seq<Seg>)
    requires Sound(t) && Holds(t, entries)
    ensures Peak(t, segs, None, 0) > Reserve(t, 0) <==> Overruns(entries, segs)
  {
    hide Sound, Holds, Leads, Catches;
    var p := Trail(t, segs);
    PeakExceedsReserveIff(t, segs);
    ReserveIsListReserve(t, entries);
    LeadsIsTrail(t, entries, segs, p);
    if |p| < |segs| {
      CaughtIffRemembered(t, entries, segs);
    }
    assert Peak(t, segs, None, 0) > Reserve(t, 0) <==> OverrunsAt(entries, segs, p);
    if deep :| OverrunsAt(entries, segs, deep) {
      LeadsIsTrail(t, entries, segs, deep);
    }
  }

  /** A wildcard's prefix begins p, which is as deep in parameters as the reserve; no pattern goes on from p with x; and
    * a request that goes along p to x is not too long. */
  ghost predicate CanOverrun(entries: seq<Entry>, p: Path, x: Text) {
    && OnTheWay(entries, p) && LegalPath(p) && ParamDepth(p) >= ListReserve(entries)
    && (exists e :: e in entries && e.pattern.final.AtWildcard? && IsPrefix(e.pattern.steps, p))
    && x != [] && IsLegalSegment(x) && !OnTheWay(entries, p + [Lit(x)])
    && ShortestLength(p) + 1 + |x| <= 4080
  }

  lemma WildcardAbove(t: Tree, entries: seq<Entry>, p: Path, k: nat)
    requires Holds(t, entries) && k <= |p|
    ensures SubAt(t, p[..k]).Some? && SubAt(t, p[..k]).value.special.WildcardEdge? <==>
            exists e :: e in entries && e.pattern == Pattern(p[..k], AtWildcard)
  {
    var q := Pattern(p[..k], AtWildcard);
    if Lookup(t, q).Some? {
      assert Entry(q, Lookup(t, q).value) in entries;
    }
    if e :| e in entries && e.pattern == q {
      assert Entry(q, e.route) in entries;
      assert Lookup(t, q) == Some(e.route);
    }
  }

  lemma NoWayOnIff(t: Tree, p: Path, x: Text)
    requires SubAt(t, p).Some?
    ensures SubAt(t, p + [Lit(x)]) == None <==> Find(SubAt(t, p).value.kids, x) == None
  {
    SubAtConcat(t, p, [Lit(x)]);
    SubAtOne(SubAt(t, p).value, Lit(x));
  }

  lemma CanStickIff(t: Tree, entries: seq<Entry>, p: Path, x: Text)
    requires Sound(t) && Holds(t, entries)
    ensures (exists k: nat :: CanStick(t, p, k, x)) <==> CanOverrun(entries, p, x)
  {
    hide Sound, Holds, Reserve, ListReserve, OnTheWay, LegalPath;
    ReserveIsListReserve(t, entries);
    OnTheWayIff(t, entries, p);
    OnTheWayIff(t, entries, p + [Lit(x)]);
    if SubAt(t, p).Some? {
      NoWayOnIff(t, p, x);
    }
    if k: nat :| CanStick(t, p, k, x) {
      WildcardAbove(t, entries, p, k);
    }
    if CanOverrun(entries, p, x) {
      var e :| e in entries && e.pattern.final.AtWildcard? && IsPrefix(e.pattern.steps, p);
      var k := |e.pattern.steps|;
      assert e.pattern == Pattern(p[..k], AtWildcard);
      WildcardAbove(t, entries, p, k);
      assert CanStick(t, p, k, x);
    }
  }

  /** Some request overruns iff, somewhere below a wildcard, the patterns are as deep in parameters as the reserve and a
    * request of legal length can leave them. */
  lemma SomeRequestOverrunsIff(t: Tree, entries: seq<Entry>)
    requires Sound(t) && Holds(t, entries)
    ensures (exists s :: Loadable(s) && Overruns(entries, Segments(s, 0))) <==> exists p, x :: CanOverrun(entries, p, x)
  {
    hide Sound, Holds, CanOverrun, Overruns, CanStick;
    if s :| Loadable(s) && Overruns(entries, Segments(s, 0)) {
      OverrunsIff(t, entries, Segments(s, 0));
      var p, k, x := MoreIsTakenSticking(t, s);
      CanStickIff(t, entries, p, x);
    }
    if p, x :| CanOverrun(entries, p, x) {
      CanStickIff(t, entries, p, x);
      var k: nat :| CanStick(t, p, k, x);
      var s := StickingTakesMore(t, p, k, x);
      OverrunsIff(t, entries, Segments(s, 0));
    }
  }
}

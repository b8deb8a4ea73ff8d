/** Small lists and requests that show what the wildcards' parameters come to. */
module Examples {
  import opened Wrappers
  import opened Bytes
  import opened Tokens
  import opened Permutations
  import opened RouteTree
  import opened Compatibility
  import opened Acceptance
  import opened Capacity
  import opened Lexing
  import opened Resolution
  import opened ParamBounds
  import opened ListBounds
  import Prelexing

  // ---- A request that takes one slot too many ----

  const WILD := Pattern([], AtWildcard)
  const DEEP := Pattern([Lit(Ascii("x")), Par(Ascii("a")), Par(Ascii("b"))], AtEnd)

  const WILD_TEXT: CString := Ascii("/*")
  const DEEP_TEXT: CString := Ascii("/x/:a/:b")
  const LONG_PATH: Text := Ascii("/x/1/2/3")

  /** The registrations of the example, in colon syntax. */
  function ExampleRoutes(wild: Route, r: Route): seq<Registration> {
    [Registration(Some(WILD_TEXT), wild), Registration(Some(DEEP_TEXT), r)]
  }

  lemma ExampleIsWellFormed()
    ensures Prelexing.WellFormedPattern(Prelexing.ColonSyntax, WILD)
    ensures Prelexing.WellFormedPattern(Prelexing.ColonSyntax, DEEP)
  {
  }

  lemma WildRenders()
    ensures Prelexing.Render(Prelexing.ColonSyntax, WILD) == WILD_TEXT
  {
  }

  lemma ExampleParses()
    ensures Prelexing.Parse(Prelexing.ColonSyntax, Some(WILD_TEXT)) == Some(WILD)
    ensures Prelexing.Parse(Prelexing.ColonSyntax, Some(DEEP_TEXT)) == Some(DEEP)
  {
    hide Prelexing.Parse, Prelexing.Render, Prelexing.WellFormedPattern, WILD, DEEP, WILD_TEXT, DEEP_TEXT;
    ExampleIsWellFormed();
    WildRenders();
    Prelexing.RenderThenLex(Prelexing.ColonSyntax, WILD);
    DeepRenders();
    Prelexing.RenderThenLex(Prelexing.ColonSyntax, DEEP);
  }

  lemma DeepRenders()
    ensures Prelexing.Render(Prelexing.ColonSyntax, DEEP) == DEEP_TEXT
  {
    var syn := Prelexing.ColonSyntax;
    var steps := DEEP.steps;
    assert steps[1..] == [Par(Ascii("a")), Par(Ascii("b"))] && steps[1..][1..] == [Par(Ascii("b"))]
           && steps[1..][1..][1..] == [];
    assert Prelexing.RenderSteps(syn, steps[1..][1..]) == Ascii("/:b");
    assert Prelexing.RenderSteps(syn, steps[1..]) == Ascii("/:a/:b");
    assert Prelexing.RenderSteps(syn, steps) == Ascii("/x/:a/:b");
  }

  lemma ExampleEntries(wild: Route, r: Route)
    ensures AllParse(Prelexing.ColonSyntax, ExampleRoutes(wild, r))
    ensures Entries(Prelexing.ColonSyntax, ExampleRoutes(wild, r)) == [Entry(WILD, wild), Entry(DEEP, r)]
  {
    hide Prelexing.Parse;
    ExampleParses();
  }

  lemma ExampleFits()
    ensures WithinCapacity({WILD, DEEP})
  {
    var u := {WILD, DEEP};
    forall x | x in LiteralTexts(u) ensures x in [Ascii("x")] {
      var q :| q in u && x in Literals(q.steps);
    }
    SetFits(LiteralTexts(u), [Ascii("x")]);
    forall x | x in ParamNames(u) ensures x in [Ascii("a"), Ascii("b")] {
      var q :| q in u && x in Names(q.steps);
    }
    SetFits(ParamNames(u), [Ascii("a"), Ascii("b")]);
    FewLiteralsAreRoomy(u);
  }

  lemma ExampleIsAccepted(wild: Route, r: Route)
    ensures Accepted(Prelexing.ColonSyntax, ExampleRoutes(wild, r))
  {
    hide Accepted, Roomy, LiteralTexts, ParamNames;
    ExampleEntries(wild, r);
    var entries := Entries(Prelexing.ColonSyntax, ExampleRoutes(wild, r));
    assert entries == [Entry(WILD, wild), Entry(DEEP, r)];
    assert PatternsOf(entries) == {WILD, DEEP};
    ExampleFits();
    WithinOrFull({WILD, DEEP});
    AcceptedIffCompatible(Prelexing.ColonSyntax, ExampleRoutes(wild, r));
  }

  lemma JoinedOneMore(x: Text, rest: seq<Text>)
    ensures JoinedTexts([x] + rest) == [SLASH] + x + JoinedTexts(rest)
  {
    assert ([x] + rest)[1..] == rest;
  }

  lemma PathJoins(texts: seq<Text>)
    requires texts == [Ascii("x")] + ([Ascii("1")] + ([Ascii("2")] + ([Ascii("3")] + [])))
    ensures JoinedTexts(texts) == LONG_PATH
  {
    hide JoinedTexts;
    var none: seq<Text> := [];
    assert JoinedTexts(none) == [] by {
      NothingJoins();
    }
    JoinedOneMore(Ascii("3"), none);
    JoinedOneMore(Ascii("2"), [Ascii("3")] + none);
    JoinedOneMore(Ascii("1"), [Ascii("2")] + ([Ascii("3")] + none));
    JoinedOneMore(Ascii("x"), [Ascii("1")] + ([Ascii("2")] + ([Ascii("3")] + none)));
  }

  lemma NothingJoins()
    ensures JoinedTexts([]) == []
  {
  }

  lemma ExamplePath()
    ensures Loadable(LONG_PATH) && Last(LONG_PATH, 0) == End
    ensures Texts(Segments(LONG_PATH, 0)) == [Ascii("x"), Ascii("1"), Ascii("2"), Ascii("3")]
  {
    hide JoinedTexts, Segments, Last, Texts;
    var texts := [Ascii("x"), Ascii("1"), Ascii("2"), Ascii("3")];
    PathJoins(texts);
    assert JoinedTexts(texts) + [] == LONG_PATH;
    JoinThenLex(LONG_PATH, texts, []);
  }

  lemma ExampleOverruns(wild: Route, r: Route, segs: seq<Seg>)
    requires Texts(segs) == [Ascii("x"), Ascii("1"), Ascii("2"), Ascii("3")]
    ensures ListReserve([Entry(WILD, wild), Entry(DEEP, r)]) == 2
    ensures Overruns([Entry(WILD, wild), Entry(DEEP, r)], segs)
  {
    var entries, deep := [Entry(WILD, wild), Entry(DEEP, r)], DEEP.steps;
    TextsAt(segs);
    assert deep[1..] == [Par(Ascii("a")), Par(Ascii("b"))] && deep[1..][1..] == [Par(Ascii("b"))]
           && deep[1..][1..][1..] == [];
    assert ParamDepth(deep) == 2;
    assert entries[..1] == [Entry(WILD, wild)] && ListReserve(entries[..1]) == 1;
    assert entries[0] in entries && Catches(WILD, segs, 3);
    assert entries[1] in entries && IsPrefix(deep, DEEP.steps);
    assert OverrunsAt(entries, segs, deep);
  }

  /** The routes "/" with a star and "/x/:a/:b" reserve two slots; the request "/x/1/2/3" takes three: a, b, and the
    * wildcard's own. */
  lemma OneMoreIsRecorded(wild: Route, r: Route)
    ensures var regs := [Registration(Some(WILD_TEXT), wild), Registration(Some(DEEP_TEXT), r)];
            var t := AddAll(Prelexing.ColonSyntax, regs).tree;
            && Accepted(Prelexing.ColonSyntax, regs) && Loadable(LONG_PATH)
            && Reserve(t, 0) == 2 && PeakFor(t, LONG_PATH) == 3
  {
    hide Accepted, AddAll, Sound, Holds, Overruns, Peak, Reserve, Segments, WILD_TEXT, DEEP_TEXT, LONG_PATH;
    var regs := ExampleRoutes(wild, r);
    ExampleIsAccepted(wild, r);
    ExampleEntries(wild, r);
    AcceptedTreeHolds(Prelexing.ColonSyntax, regs);
    var t, entries := AddAll(Prelexing.ColonSyntax, regs).tree, Entries(Prelexing.ColonSyntax, regs);
    ExamplePath();
    var segs := Segments(LONG_PATH, 0);
    ExampleOverruns(wild, r, segs);
    ReserveIsListReserve(t, entries);
    OverrunsIff(t, entries, segs);
    PeakExceedsReserveIff(t, segs);
  }

  // ---- A request that records more than its pattern's parameters ----

  const SHALLOW := Pattern([Lit(Ascii("x")), Par(Ascii("a"))], AtEnd)
  const OTHER := Pattern([Lit(Ascii("y")), Par(Ascii("b")), Par(Ascii("c"))], AtEnd)

  const SHALLOW_TEXT: CString := Ascii("/x/:a")
  const OTHER_TEXT: CString := Ascii("/y/:b/:c")
  const SHORT_PATH: Text := Ascii("/x/1/2")

  function MoreRoutes(wild: Route, r: Route, s: Route): seq<Registration> {
    [Registration(Some(WILD_TEXT), wild), Registration(Some(SHALLOW_TEXT), r), Registration(Some(OTHER_TEXT), s)]
  }

  function MoreEntries(wild: Route, r: Route, s: Route): seq<Entry> {
    [Entry(WILD, wild), Entry(SHALLOW, r), Entry(OTHER, s)]
  }

  lemma ShallowRenders()
    ensures Prelexing.Render(Prelexing.ColonSyntax, SHALLOW) == SHALLOW_TEXT
  {
    var syn, steps := Prelexing.ColonSyntax, SHALLOW.steps;
    assert steps[1..] == [Par(Ascii("a"))] && steps[1..][1..] == [];
    assert Prelexing.RenderSteps(syn, steps[1..]) == Ascii("/:a");
    assert Prelexing.RenderSteps(syn, steps) == Ascii("/x/:a");
  }

  lemma OtherRenders()
    ensures Prelexing.Render(Prelexing.ColonSyntax, OTHER) == OTHER_TEXT
  {
    var syn, steps := Prelexing.ColonSyntax, OTHER.steps;
    assert steps[1..] == [Par(Ascii("b")), Par(Ascii("c"))] && steps[1..][1..] == [Par(Ascii("c"))]
           && steps[1..][1..][1..] == [];
    assert Prelexing.RenderSteps(syn, steps[1..][1..]) == Ascii("/:c");
    assert Prelexing.RenderSteps(syn, steps[1..]) == Ascii("/:b/:c");
    assert Prelexing.RenderSteps(syn, steps) == Ascii("/y/:b/:c");
  }

  lemma MoreAreWellFormed()
    ensures Prelexing.WellFormedPattern(Prelexing.ColonSyntax, SHALLOW)
    ensures Prelexing.WellFormedPattern(Prelexing.ColonSyntax, OTHER)
  {
  }

  lemma MoreParse(wild: Route, r: Route, s: Route)
    ensures AllParse(Prelexing.ColonSyntax, MoreRoutes(wild, r, s))
    ensures Entries(Prelexing.ColonSyntax, MoreRoutes(wild, r, s)) == MoreEntries(wild, r, s)
  {
    hide Prelexing.Parse, Prelexing.Render, Prelexing.WellFormedPattern, WILD, SHALLOW, OTHER;
    hide WILD_TEXT, SHALLOW_TEXT, OTHER_TEXT;
    ExampleParses();
    MoreAreWellFormed();
    ShallowRenders();
    OtherRenders();
    Prelexing.RenderThenLex(Prelexing.ColonSyntax, SHALLOW);
    Prelexing.RenderThenLex(Prelexing.ColonSyntax, OTHER);
  }

  lemma MoreFit()
    ensures WithinCapacity({WILD, SHALLOW, OTHER})
  {
    var u := {WILD, SHALLOW, OTHER};
    forall x | x in LiteralTexts(u) ensures x in [Ascii("x"), Ascii("y")] {
      var q :| q in u && x in Literals(q.steps);
    }
    SetFits(LiteralTexts(u), [Ascii("x"), Ascii("y")]);
    forall x | x in ParamNames(u) ensures x in [Ascii("a"), Ascii("b"), Ascii("c")] {
      var q :| q in u && x in Names(q.steps);
    }
    SetFits(ParamNames(u), [Ascii("a"), Ascii("b"), Ascii("c")]);
    FewLiteralsAreRoomy(u);
  }

  lemma MoreAreCompatible(wild: Route, r: Route, s: Route)
    ensures PairwiseCompatible(MoreEntries(wild, r, s))
  {
    assert Ascii("x")[0] != Ascii("y")[0];
  }

  lemma MoreAreAccepted(wild: Route, r: Route, s: Route)
    ensures Accepted(Prelexing.ColonSyntax, MoreRoutes(wild, r, s))
  {
    hide Accepted, AllParse, WithinCapacity, AtMostFull, PairwiseCompatible, LiteralTexts,
         ParamNames, NotExactlyFull;
    MoreParse(wild, r, s);
    assert PatternsOf(MoreEntries(wild, r, s)) == {WILD, SHALLOW, OTHER} by {
      var entries := MoreEntries(wild, r, s);
      assert entries[0].pattern == WILD && entries[1].pattern == SHALLOW && entries[2].pattern == OTHER;
    }
    MoreFit();
    WithinOrFull({WILD, SHALLOW, OTHER});
    MoreAreCompatible(wild, r, s);
    AcceptedIffCompatible(Prelexing.ColonSyntax, MoreRoutes(wild, r, s));
  }

  lemma ShortPath()
    ensures Loadable(SHORT_PATH) && Last(SHORT_PATH, 0) == End
    ensures Texts(Segments(SHORT_PATH, 0)) == [Ascii("x"), Ascii("1"), Ascii("2")]
  {
    hide JoinedTexts, Segments, Last, Texts;
    var none: seq<Text> := [];
    var texts := [Ascii("x")] + ([Ascii("1")] + ([Ascii("2")] + none));
    NothingJoins();
    JoinedOneMore(Ascii("2"), none);
    JoinedOneMore(Ascii("1"), [Ascii("2")] + none);
    JoinedOneMore(Ascii("x"), [Ascii("1")] + ([Ascii("2")] + none));
    assert texts == [Ascii("x"), Ascii("1"), Ascii("2")];
    assert JoinedTexts(texts) + [] == SHORT_PATH;
    JoinThenLex(SHORT_PATH, texts, []);
  }

  lemma ShortSegments()
    ensures Segments(SHORT_PATH, 0) == [Seg(1, Ascii("x")), Seg(3, Ascii("1")), Seg(5, Ascii("2"))]
  {
    hide Segments, Last;
    var segs := Segments(SHORT_PATH, 0);
    ShortPath();
    TextsAt(segs);
    SegmentsLie(SHORT_PATH, 0);
    assert LiesIn(SHORT_PATH, segs[0]) && LiesIn(SHORT_PATH, segs[1]) && LiesIn(SHORT_PATH, segs[2]);
    OneByte(SHORT_PATH, segs[0], 1);
    OneByte(SHORT_PATH, segs[1], 3);
    OneByte(SHORT_PATH, segs[2], 5);
  }

  /** A segment of one byte lies where that byte is. */
  lemma OneByte(s: Text, g: Seg, k: nat)
    requires LiesIn(s, g) && |g.text| == 1 && k < |s|
    requires forall i | 0 <= i < |s| && s[i] == g.text[0] :: i == k
    ensures g.start == k
  {
    assert s[g.start] == s[g.start..g.start + 1][0];
  }

  lemma LeadsToShallow(wild: Route, r: Route, s: Route, segs: seq<Seg>)
    requires segs == [Seg(1, Ascii("x")), Seg(3, Ascii("1")), Seg(5, Ascii("2"))]
    ensures Leads(MoreEntries(wild, r, s), segs, SHALLOW.steps)
  {
    var entries := MoreEntries(wild, r, s);
    assert entries[1] in entries && IsPrefix(SHALLOW.steps, entries[1].pattern.steps);
    assert OTHER.steps[..3][0] == Lit(Ascii("y")) && Ascii("x")[0] != Ascii("y")[0];
  }

  lemma OneMoreNeed(front: seq<Entry>, e: Entry)
    ensures ListReserve(front + [e]) == Max(ListReserve(front), Need(e.pattern))
  {
    assert (front + [e])[..|front|] == front;
  }

  lemma MoreNeeds()
    ensures ParamDepth(SHALLOW.steps) == 1 && Need(WILD) == 1 && Need(SHALLOW) == 1 && Need(OTHER) == 2
  {
    assert SHALLOW.steps[1..] == [Par(Ascii("a"))] && SHALLOW.steps[1..][1..] == [];
    var steps := OTHER.steps;
    assert steps[1..] == [Par(Ascii("b")), Par(Ascii("c"))] && steps[1..][1..] == [Par(Ascii("c"))]
           && steps[1..][1..][1..] == [];
    assert ParamDepth(steps) == 2;
  }

  lemma MoreReserve(wild: Route, r: Route, s: Route)
    ensures ListReserve(MoreEntries(wild, r, s)) == 2
  {
    hide Need, WILD, SHALLOW, OTHER;
    var none: seq<Entry> := [];
    MoreNeeds();
    assert MoreEntries(wild, r, s) == none + [Entry(WILD, wild)] + [Entry(SHALLOW, r)] + [Entry(OTHER, s)];
    assert ListReserve(none) == 0;
    OneMoreNeed(none, Entry(WILD, wild));
    OneMoreNeed(none + [Entry(WILD, wild)], Entry(SHALLOW, r));
    OneMoreNeed(none + [Entry(WILD, wild)] + [Entry(SHALLOW, r)], Entry(OTHER, s));
  }

  lemma ScanKeepsOne(wild: Route, r: Route, s: Route, segs: seq<Seg>)
    requires segs == [Seg(1, Ascii("x")), Seg(3, Ascii("1")), Seg(5, Ascii("2"))]
    ensures var m := Found(wild, [Capture(Ascii("a"), 3, 1), Capture(WILDCARD_PARAM, 1, 5)]);
            ScanAlong(MoreEntries(wild, r, s), segs, End, 6, SHALLOW.steps, m)
  {
    var entries := MoreEntries(wild, r, s);
    LeadsToShallow(wild, r, s, segs);
    assert SHALLOW.steps[1..] == [Par(Ascii("a"))] && SHALLOW.steps[1..][1..] == [];
    assert Captures(SHALLOW.steps, segs) == [Capture(Ascii("a"), 3, 1)];
    assert entries[0] in entries && BestCatcher(entries, segs, SHALLOW.steps, entries[0]);
  }

  /** With the routes "/" with a star, "/x/:a" and "/y/:b/:c", the request "/x/1/2" takes no more slots than reserved.
    * It matches the wildcard, which has no parameters of its own, and records `a` before the wildcard's own. */
  lemma ForeignParamIsRecorded(wild: Route, r: Route, s: Route)
    ensures var regs := [Registration(Some(WILD_TEXT), wild), Registration(Some(SHALLOW_TEXT), r),
                         Registration(Some(OTHER_TEXT), s)];
            && AllParse(Prelexing.ColonSyntax, regs) && Accepted(Prelexing.ColonSyntax, regs) && Loadable(SHORT_PATH)
            && var entries, segs := Entries(Prelexing.ColonSyntax, regs), Segments(SHORT_PATH, 0);
               && !Overruns(entries, segs)
               && forall m ::
                    Scan(entries, segs, Last(SHORT_PATH, 0), |SHORT_PATH|, m) <==>
                    m == Found(wild, [Capture(Ascii("a"), 3, 1), Capture(WILDCARD_PARAM, 1, 5)])
  {
    hide Accepted, AddAll, Sound, Holds, Segments, Walk, Leads, WILD_TEXT, SHALLOW_TEXT, OTHER_TEXT;
    var regs, entries, segs := MoreRoutes(wild, r, s), MoreEntries(wild, r, s), Segments(SHORT_PATH, 0);
    MoreParse(wild, r, s);
    MoreAreAccepted(wild, r, s);
    AcceptedTreeHolds(Prelexing.ColonSyntax, regs);
    var t := AddAll(Prelexing.ColonSyntax, regs).tree;
    ShortPath();
    ShortSegments();
    ScanKeepsOne(wild, r, s, segs);
    MoreReserve(wild, r, s);
    MoreNeeds();
    LeadsToShallow(wild, r, s, segs);
    LeadsIsTrail(t, entries, segs, SHALLOW.steps);
    forall deep | Leads(entries, segs, deep) ensures deep == SHALLOW.steps {
      LeadsIsTrail(t, entries, segs, deep);
    }
    var m := Found(wild, [Capture(Ascii("a"), 3, 1), Capture(WILDCARD_PARAM, 1, 5)]);
    assert Scan(entries, segs, End, |SHORT_PATH|, m);
    forall m' ensures Scan(entries, segs, End, |SHORT_PATH|, m') <==> m' == m {
      WalkIsScan(t, entries, segs, End, |SHORT_PATH|, m);
      WalkIsScan(t, entries, segs, End, |SHORT_PATH|, m');
    }
  }
}

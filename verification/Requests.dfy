/** Requests as texts: which a list answers, and with what. */
module Requests {
  import opened Wrappers
  import opened Bytes
  import opened Tokens
  import opened RouteTree
  import opened Acceptance
  import opened Lexing
  import opened Resolution
  import Compatibility
  import Spellings
  import Prelexing

  /** These texts can stand for the steps: any plain text for a parameter, its own for a literal. */
  predicate StandFor(steps: Path, texts: seq<Text>) {
    && |texts| == |steps|
    && forall i | 0 <= i < |steps| :: Spellings.Plain(texts[i]) && (steps[i].Lit? ==> texts[i] == steps[i].text)
  }

  /** The request of a pattern without a wildcard, with these texts for its steps. */
  function RequestFor(p: Pattern, texts: seq<Text>): Text {
    JoinedTexts(texts) + if p.final.AtTrailing? || texts == [] then [47] else []
  }

  /** Which parameter gets which text. */
  function Bindings(steps: Path, texts: seq<Text>): seq<(Text, Text)>
    requires |texts| == |steps|
    decreases |steps|
  {
    if steps == [] then []
    else (if steps[0].Par? then [(steps[0].name, texts[0])] else []) + Bindings(steps[1..], texts[1..])
  }

  /** What the recorded parameters say of the request. */
  function ValuesOf(s: Text, captures: seq<Capture>): seq<(Text, Text)>
    requires AllSlices(s, captures)
  {
    if captures == [] then []
    else [(captures[0].name, s[captures[0].start..captures[0].start + captures[0].length])]
         + ValuesOf(s, captures[1..])
  }

  lemma PlainIsLegal(x: Text)
    ensures Spellings.Plain(x) <==> x != [] && IsLegalSegment(x)
  {
    forall i | 0 <= i < |x| ensures Spellings.PlainByte(x[i]) <==> x[i] != SLASH && !IsIllegal(x[i]) {
      Spellings.ClassesAgree(x[i]);
    }
  }

  lemma PlainAreLegal(texts: seq<Text>)
    ensures (forall i | 0 <= i < |texts| :: Spellings.Plain(texts[i])) <==> LegalTexts(texts)
  {
    forall i | 0 <= i < |texts| ensures Spellings.Plain(texts[i]) <==> texts[i] != [] && IsLegalSegment(texts[i]) {
      PlainIsLegal(texts[i]);
    }
  }

  lemma ValuesOfConcat(s: Text, a: seq<Capture>, b: seq<Capture>)
    requires AllSlices(s, a) && AllSlices(s, b)
    ensures AllSlices(s, a + b) && ValuesOf(s, a + b) == ValuesOf(s, a) + ValuesOf(s, b)
  {
    if a == [] {
      assert a + b == b;
    } else {
      assert (a + b)[1..] == a[1..] + b;
      ValuesOfConcat(s, a[1..], b);
    }
  }

  /** The parameters that are recorded along a path are bound to the segments' texts. */
  lemma {:induction false} CapturesBind(s: Text, p: Path, segs: seq<Seg>)
    requires |p| <= |segs| && forall g | g in segs :: LiesIn(s, g)
    ensures |Texts(segs)| == |segs| && AllSlices(s, Captures(p, segs))
    ensures ValuesOf(s, Captures(p, segs)) == Bindings(p, Texts(segs)[..|p|])
    decreases |p|
  {
    hide LiesIn, AllSlices, ValuesOf;
    TextsAt(segs);
    if p != [] {
      CapturesBind(s, p[1..], segs[1..]);
      assert Texts(segs)[..|p|][1..] == Texts(segs[1..])[..|p| - 1];
      assert Texts(segs)[..|p|][0] == segs[0].text;
      var first := if p[0].Par? then [Capture(p[0].name, segs[0].start, |segs[0].text|)] else [];
      FirstBinds(s, p[0], segs[0]);
      ValuesOfConcat(s, first, Captures(p[1..], segs[1..]));
    } else {
      NoValues(s);
    }
  }

  lemma NoValues(s: Text)
    ensures AllSlices(s, []) && ValuesOf(s, []) == []
  {
  }

  lemma FirstBinds(s: Text, st: RouteTree.Step, g: Seg)
    requires LiesIn(s, g)
    ensures var first := if st.Par? then [Capture(st.name, g.start, |g.text|)] else [];
            AllSlices(s, first) && ValuesOf(s, first) == if st.Par? then [(st.name, g.text)] else []
  {
    NoValues(s);
    if st.Par? {
      OneValue(s, Capture(st.name, g.start, |g.text|));
    }
  }

  /** The scan of an accepted list has one result. */
  lemma ScanHasOne(syn: Prelexing.Syntax, regs: seq<Registration>, s: Text, m: Match)
    requires Accepted(syn, regs) && AtBoundary(s, 0)
    ensures AllParse(syn, regs)
    ensures Scan(Entries(syn, regs), Lexing.Segments(s, 0), Last(s, 0), |s|, m) ==>
              forall m' :: Scan(Entries(syn, regs), Lexing.Segments(s, 0), Last(s, 0), |s|, m') <==> m' == m
    ensures exists m' :: Scan(Entries(syn, regs), Lexing.Segments(s, 0), Last(s, 0), |s|, m')
  {
    hide AddAll, Walk, Scan, Compatibility.Sound, Holds;
    AcceptedTreeHolds(syn, regs);
    var t, entries, segs := AddAll(syn, regs).tree, Entries(syn, regs), Lexing.Segments(s, 0);
    var walked := Walk(t, segs, Last(s, 0), |s|, None, []);
    forall m' ensures Scan(entries, segs, Last(s, 0), |s|, m') <==> m' == walked {
      WalkIsScan(t, entries, segs, Last(s, 0), |s|, m');
    }
    assert Scan(entries, segs, Last(s, 0), |s|, walked);
  }

  // ---- A list answers its own requests ----

  lemma RequestIsLexed(p: Pattern, texts: seq<Text>)
    requires StandFor(p.steps, texts) && !p.final.AtWildcard? && (p.final.AtTrailing? ==> p.steps != [])
    requires |RequestFor(p, texts)| <= 4080
    ensures var s := RequestFor(p, texts);
            && Loaded(Some(s)) == s && AtBoundary(s, 0) && s != []
            && Texts(Lexing.Segments(s, 0)) == texts
            && Last(s, 0) == if p.final.AtTrailing? then Trailing else End
  {
    hide Segments, Rest;
    var s := RequestFor(p, texts);
    PlainAreLegal(texts);
    JoinThenLex(s, texts, if p.final.AtTrailing? || texts == [] then [47] else []);
    if texts != [] {
      assert |s| > 1;
    }
  }

  lemma OwnIsScanned(entries: seq<Entry>, e: Entry, segs: seq<Seg>, last: Token, length: nat)
    requires e in entries && MatchesWhole(e.pattern, segs, last)
    ensures Scan(entries, segs, last, length, Found(e.route, Captures(e.pattern.steps, segs)))
  {
    assert e.pattern.steps[..|e.pattern.steps|] == e.pattern.steps;
    assert ScanAlong(entries, segs, last, length, e.pattern.steps, Found(e.route, Captures(e.pattern.steps, segs)));
  }

  /** Each pattern of an accepted list, unless it ends in a wildcard, is found by every request that is made from it:
    * any plain texts for its parameters, at most 4080 bytes in all. The parameters are bound to those texts. */
  lemma OwnRequestIsFound(syn: Prelexing.Syntax, regs: seq<Registration>, e: Entry, texts: seq<Text>)
    requires Accepted(syn, regs) && AllParse(syn, regs) && e in Entries(syn, regs)
    requires StandFor(e.pattern.steps, texts) && !e.pattern.final.AtWildcard?
    requires |RequestFor(e.pattern, texts)| <= 4080
    ensures var path := RequestFor(e.pattern, texts);
            var s := Loaded(Some(path));
            && (exists m :: Scan(Entries(syn, regs), Lexing.Segments(s, 0), Last(s, 0), |s|, m))
            && forall m :: Scan(Entries(syn, regs), Lexing.Segments(s, 0), Last(s, 0), |s|, m) ==>
                 && m.Found? && m.route == e.route && AllSlices(path, m.captures)
                 && ValuesOf(path, m.captures) == Bindings(e.pattern.steps, texts)
  {
    hide Accepted, Scan, Segments, Last, Loaded, RequestFor, Prelexing.Parse, Prelexing.WellFormedPattern;
    var i :| 0 <= i < |regs| && Entries(syn, regs)[i] == e;
    Prelexing.ParsedIsWellFormed(syn, regs[i].pattern);
    TrailsSomething(syn, e.pattern);
    var s := RequestFor(e.pattern, texts);
    RequestIsLexed(e.pattern, texts);
    var segs := Lexing.Segments(s, 0);
    TextsAt(segs);
    SegmentsLie(s, 0);
    OwnIsScanned(Entries(syn, regs), e, segs, Last(s, 0), |s|);
    ScanHasOne(syn, regs, s, Found(e.route, Captures(e.pattern.steps, segs)));
    CapturesBind(s, e.pattern.steps, segs);
    assert texts[..|texts|] == texts;
  }

  lemma TrailsSomething(syn: Prelexing.Syntax, p: Pattern)
    requires Prelexing.WellFormedPattern(syn, p)
    ensures p.final.AtTrailing? ==> p.steps != []
  {
  }

  // ---- Nothing else is found ----

  /** A request that begins with the texts of a wildcard's steps, and goes on behind a slash. */
  predicate BeginsWith(path: Text, texts: seq<Text>) {
    |path| > |JoinedTexts(texts)| + 1 && path[..|JoinedTexts(texts)| + 1] == JoinedTexts(texts) + [47]
  }

  /** A match of a whole request: its pattern's own request, with the parameters bound to its texts. */
  predicate WholeMatch(path: Text, m: Match, e: Entry, texts: seq<Text>)
    requires m.Found? && StandFor(e.pattern.steps, texts)
  {
    && !e.pattern.final.AtWildcard? && m.route == e.route && path == RequestFor(e.pattern, texts)
    && AllSlices(path, m.captures) && ValuesOf(path, m.captures) == Bindings(e.pattern.steps, texts)
  }

  /** A match of a wildcard: the last parameter recorded is `_`, and its value is the request from behind the slash that
    * follows the wildcard's steps. */
  predicate WildcardMatch(path: Text, m: Match, e: Entry, texts: seq<Text>)
    requires m.Found? && StandFor(e.pattern.steps, texts)
  {
    && e.pattern.final.AtWildcard? && m.route == e.route && BeginsWith(path, texts)
    && m.captures != []
    && var c := m.captures[|m.captures| - 1];
       c.name == [95] && c.start == |JoinedTexts(texts)| + 1 && c.start + c.length == |path|
  }

  lemma FitsStandFor(p: Path, segs: seq<Seg>)
    requires Fits(p, segs) && LegalTexts(Texts(segs))
    ensures |Texts(segs)| == |segs| && StandFor(p, Texts(segs)[..|p|])
  {
    TextsAt(segs);
    PlainAreLegal(Texts(segs));
    forall i | 0 <= i < |p| && p[i].Lit? ensures Texts(segs)[i] == p[i].text {
      assert StepFits(p[i], segs[i].text);
    }
  }

  lemma JoinedOneMoreText(texts: seq<Text>, k: nat)
    requires k < |texts|
    ensures |JoinedTexts(texts[..k])| + 1 < |JoinedTexts(texts)| || texts[k] == []
    ensures |JoinedTexts(texts[..k])| < |JoinedTexts(texts)|
    ensures JoinedTexts(texts)[..|JoinedTexts(texts[..k])| + 1] == JoinedTexts(texts[..k]) + [47]
    decreases k
  {
    if k > 0 {
      assert texts[..k][1..] == texts[1..][..k - 1];
      JoinedOneMoreText(texts[1..], k - 1);
    }
  }

  lemma {:induction false} JoinedBefore(segs: seq<Seg>, k: nat)
    requires k <= |segs|
    ensures |Texts(segs)| == |segs| && Joined(segs[..k]) == JoinedTexts(Texts(segs)[..k])
    decreases k
  {
    TextsAt(segs);
    TextsAt(segs[..k]);
    assert Texts(segs[..k]) == Texts(segs)[..k];
  }

  lemma WholeIsOwn(s: Text, e: Entry, m: Match)
    requires AtBoundary(s, 0) && s != []
    requires var segs := Lexing.Segments(s, 0);
             && MatchesWhole(e.pattern, segs, Last(s, 0)) && m == Found(e.route, Captures(e.pattern.steps, segs))
    ensures var texts := Texts(Lexing.Segments(s, 0));
            StandFor(e.pattern.steps, texts) && WholeMatch(s, m, e, texts)
  {
    hide Segments, Rest, Fits, LegalTexts, NothingMore;
    var segs := Lexing.Segments(s, 0);
    TextsAt(segs);
    LexThenJoin(s);
    FitsStandFor(e.pattern.steps, segs);
    assert Texts(segs)[..|e.pattern.steps|] == Texts(segs);
    LastSaysWhatIsLeft(s);
    SegmentsLie(s, 0);
    CapturesBind(s, e.pattern.steps, segs);
    RootHasNoText(s, Texts(segs));
  }

  /** The lone slash has no segments. */
  lemma RootHasNoText(s: Text, texts: seq<Text>)
    requires AtBoundary(s, 0) && s != [] && texts == Texts(Lexing.Segments(s, 0))
    ensures s == [47] ==> texts == []
    ensures texts != [] || s[Rest(s, 0)..] != []
  {
    StepAtEnd(s, 0);
    assert s[0..] == s;
  }

  lemma CaughtIsOwn(s: Text, entries: seq<Entry>, e: Entry, deep: Path, m: Match)
    requires AtBoundary(s, 0) && s != []
    requires var segs := Lexing.Segments(s, 0);
             && |deep| < |segs| && BestCatcher(entries, segs, deep, e)
             && m == Found(e.route, Captures(deep, segs) + [Suffix(segs[|e.pattern.steps|].start, |s|)])
    ensures var texts := Texts(Lexing.Segments(s, 0));
            |e.pattern.steps| <= |texts| && StandFor(e.pattern.steps, texts[..|e.pattern.steps|])
            && WildcardMatch(s, m, e, texts[..|e.pattern.steps|])
  {
    hide Segments, Rest, Fits, LegalTexts, NothingMore;
    var segs, k := Lexing.Segments(s, 0), |e.pattern.steps|;
    var texts := Texts(segs);
    TextsAt(segs);
    LexThenJoin(s);
    FitsStandFor(e.pattern.steps, segs);
    SegmentStarts(s, 0, k);
    JoinedBefore(segs, k);
    JoinedOneMoreText(texts, k);
    SegmentsLie(s, 0);
    assert LiesIn(s, segs[k]);
    assert s[..|JoinedTexts(texts[..k])| + 1] == JoinedTexts(texts)[..|JoinedTexts(texts[..k])| + 1];
  }

  /** What is found is found for a loaded request, and either is some pattern's own request, or begins with the steps of
    * a wildcard's pattern, whose last parameter is the rest. */
  lemma FoundIsOwn(entries: seq<Entry>, path: Option<Text>, m: Match)
    requires var s := Loaded(path); Scan(entries, Lexing.Segments(s, 0), Last(s, 0), |s|, m) && m.Found?
    ensures path.Some? && path.value != [] && path.value[0] == 47 && |path.value| <= 4080
    ensures exists e, texts ::
              && e in entries && StandFor(e.pattern.steps, texts)
              && (WholeMatch(path.value, m, e, texts) || WildcardMatch(path.value, m, e, texts))
  {
    hide Segments, Last, StandFor, WholeMatch, WildcardMatch, Captures;
    var s := Loaded(path);
    NothingIsLexed();
    var segs := Lexing.Segments(s, 0);
    var deep :| ScanAlong(entries, segs, Last(s, 0), |s|, deep, m);
    if |deep| == |segs| {
      var e :| e in entries && MatchesWhole(e.pattern, segs, Last(s, 0))
               && m == Found(e.route, Captures(e.pattern.steps, segs));
      WholeIsOwn(s, e, m);
    } else {
      var e :| BestCatcher(entries, segs, deep, e)
               && m == Found(e.route, Captures(deep, segs) + [Suffix(segs[|e.pattern.steps|].start, |s|)]);
      CaughtIsOwn(s, entries, e, deep, m);
    }
  }

  lemma NothingIsLexed()
    ensures Lexing.Segments([], 0) == [] && Last([], 0) == Illegal
  {
  }

  // ---- What a wildcard takes ----

  lemma {:induction false} BeginningIsLexed(s: Text, c: nat, texts: seq<Text>, back: Text)
    requires LaidOut(s, c, texts, back) && LegalTexts(texts) && AtBoundary(s, c) && (back == [] || back[0] == SLASH)
    ensures var segs := Lexing.Segments(s, c);
            |texts| <= |segs| && forall i | 0 <= i < |texts| :: segs[i].text == texts[i]
    decreases |texts|
  {
    if texts != [] {
      StepReadsLaidOut(s, c, texts, back);
      BeginningIsLexed(s, c + 1 + |texts[0]|, texts[1..], back);
      forall i | 0 <= i < |texts| ensures Lexing.Segments(s, c)[i].text == texts[i] {
        if i > 0 {
          assert texts[i] == texts[1..][i - 1];
        }
      }
    }
  }

  /** The walk goes along a wildcard's steps and sticks there, if no pattern goes on with the next segment. */
  lemma SticksAtWildcard(t: Tree, entries: seq<Entry>, e: Entry, segs: seq<Seg>)
    requires Compatibility.Sound(t) && Holds(t, entries) && e in entries && e.pattern.final.AtWildcard?
    requires var p := e.pattern.steps;
             |p| < |segs| && Fits(p, segs) && !OnTheWay(entries, p + [Lit(segs[|p|].text)])
    ensures Leads(entries, segs, e.pattern.steps)
  {
    hide Compatibility.Sound, Holds, OnTheWay, Leads, Trail, Fits;
    var p, trail := e.pattern.steps, Trail(t, segs);
    assert p[..|p|] == p;
    PassesAll(p, segs);
    PassesAlongTrail(t, entries, segs, e, |p|);
    TrailIsInTree(t, segs);
    EntryIsInTree(t, entries, e, |p|);
    if |trail| > |p| {
      var x := segs[|p|].text;
      FitsAt(trail, segs, |p|);
      SubAtPrefix(t, trail, |p| + 1);
      assert trail[..|p| + 1] == p + [trail[|p|]];
      SubAtConcat(t, p, [trail[|p|]]);
      SubAtOne(SubAt(t, p).value, trail[|p|]);
      WildcardHasNoParam(t, p);
      OnTheWayIff(t, entries, p + [Lit(x)]);
    }
    assert trail == p;
    LeadsIsTrail(t, entries, segs, p);
  }

  lemma PassesAll(p: Path, segs: seq<Seg>)
    requires Fits(p, segs)
    ensures Passes(p, segs, |p|)
  {
    assert p[..|p|] == p;
  }

  lemma FitsAt(p: Path, segs: seq<Seg>, i: nat)
    requires Fits(p, segs) && i < |p|
    ensures |p| <= |segs| && StepFits(p[i], segs[i].text)
  {
  }

  lemma WildcardHasNoParam(t: Tree, p: Path)
    requires SubAt(t, p).Some? && SubAt(t, p).value.special.WildcardEdge?
    ensures forall n :: Down(SubAt(t, p).value, Par(n)) == None
  {
  }

  /** A wildcard of an accepted list takes every request that begins with its steps and goes on with a plain segment
    * that no pattern has there, whatever follows that. Its parameters are bound, and `_` to the rest. */
  lemma WildcardTakesRest(syn: Prelexing.Syntax, regs: seq<Registration>, e: Entry, texts: seq<Text>, x: Text,
                          back: Text)
    requires Accepted(syn, regs) && AllParse(syn, regs) && e in Entries(syn, regs) && e.pattern.final.AtWildcard?
    requires StandFor(e.pattern.steps, texts) && Spellings.Plain(x) && (back == [] || back[0] == 47)
    requires !OnTheWay(Entries(syn, regs), e.pattern.steps + [Lit(x)])
    requires |JoinedTexts(texts)| + 1 + |x| + |back| <= 4080
    ensures var path := JoinedTexts(texts) + [47] + x + back;
            var s := Loaded(Some(path));
            && (exists m :: Scan(Entries(syn, regs), Lexing.Segments(s, 0), Last(s, 0), |s|, m))
            && forall m :: Scan(Entries(syn, regs), Lexing.Segments(s, 0), Last(s, 0), |s|, m) ==>
                 && m.Found? && m.route == e.route && AllSlices(path, m.captures)
                 && ValuesOf(path, m.captures) == Bindings(e.pattern.steps, texts) + [([95], x + back)]
  {
    hide Accepted, AddAll, Scan, Segments, Last, Compatibility.Sound, Holds, OnTheWay, Captures, ValuesOf, Bindings,
         StandFor, Loaded, Fits, JoinedTexts, IsSlice, Suffix;
    var p, s := e.pattern.steps, JoinedTexts(texts) + [47] + x + back;
    RestIsBound(p, texts, x, back);
    AcceptedTreeHolds(syn, regs);
    var segs := Lexing.Segments(s, 0);
    CaughtIsScanned(AddAll(syn, regs).tree, Entries(syn, regs), e, segs, Last(s, 0), |s|);
    ScanHasOne(syn, regs, s, Found(e.route, Captures(p, segs) + [Suffix(segs[|p|].start, |s|)]));
  }

  lemma RestIsBound(p: Path, texts: seq<Text>, x: Text, back: Text)
    requires StandFor(p, texts) && Spellings.Plain(x) && (back == [] || back[0] == 47)
    requires |JoinedTexts(texts)| + 1 + |x| + |back| <= 4080
    ensures var s := JoinedTexts(texts) + [47] + x + back;
            && Loaded(Some(s)) == s && AtBoundary(s, 0)
            && var segs := Lexing.Segments(s, 0);
               && |p| < |segs| && Fits(p, segs) && segs[|p|].text == x
               && var captures := Captures(p, segs) + [Suffix(segs[|p|].start, |s|)];
                  && AllSlices(s, captures) && ValuesOf(s, captures) == Bindings(p, texts) + [([95], x + back)]
  {
    hide Segments, Captures, ValuesOf, Bindings, Loaded, Spellings.Plain, JoinedTexts, Joined, AtBoundary, LiesIn,
         AllSlices, Last, Rest, Texts;
    var s := JoinedTexts(texts) + [47] + x + back;
    RestIsLexed(texts, x, back);
    var segs := Lexing.Segments(s, 0);
    TextsAt(segs);
    assert Texts(segs)[..|p|] == texts;
    SegmentStarts(s, 0, |p|);
    JoinedBefore(segs, |p|);
    SegmentsLie(s, 0);
    CapturesBind(s, p, segs);
    assert s == JoinedTexts(texts) + [47] + (x + back);
    RestIsValue(s, Captures(p, segs), Suffix(segs[|p|].start, |s|), JoinedTexts(texts), x + back);
  }

  lemma CaughtIsScanned(t: Tree, entries: seq<Entry>, e: Entry, segs: seq<Seg>, last: Token, length: nat)
    requires Compatibility.Sound(t) && Holds(t, entries) && e in entries && e.pattern.final.AtWildcard?
    requires var p := e.pattern.steps;
             |p| < |segs| && Fits(p, segs) && !OnTheWay(entries, p + [Lit(segs[|p|].text)])
    ensures var p := e.pattern.steps;
            Scan(entries, segs, last, length, Found(e.route, Captures(p, segs) + [Suffix(segs[|p|].start, length)]))
  {
    hide Compatibility.Sound, Holds, OnTheWay, Leads, Captures, Scan, Suffix;
    var p := e.pattern.steps;
    SticksAtWildcard(t, entries, e, segs);
    assert BestCatcher(entries, segs, p, e);
    ScanFrom(entries, segs, last, length, p, Found(e.route, Captures(p, segs) + [Suffix(segs[|p|].start, length)]));
  }

  lemma RestIsValue(s: Text, captures: seq<Capture>, c: Capture, front: Text, rest: Text)
    requires AllSlices(s, captures) && s == front + [47] + rest
    requires c.start == |front| + 1 && c.start + c.length == |s|
    ensures AllSlices(s, captures + [c]) && ValuesOf(s, captures + [c]) == ValuesOf(s, captures) + [(c.name, rest)]
  {
    hide ValuesOf, AllSlices;
    assert s[c.start..|s|] == rest;
    OneValue(s, c);
    ValuesOfConcat(s, captures, [c]);
  }

  lemma OneValue(s: Text, c: Capture)
    requires IsSlice(s, c)
    ensures AllSlices(s, [c]) && ValuesOf(s, [c]) == [(c.name, s[c.start..c.start + c.length])]
  {
    assert ValuesOf(s, []) == [];
    assert [c][1..] == [];
  }

  lemma RestIsLexed(texts: seq<Text>, x: Text, back: Text)
    requires (forall i | 0 <= i < |texts| :: Spellings.Plain(texts[i])) && Spellings.Plain(x)
    requires (back == [] || back[0] == 47) && |JoinedTexts(texts)| + 1 + |x| + |back| <= 4080
    ensures var s := JoinedTexts(texts) + [47] + x + back;
            && Loaded(Some(s)) == s && AtBoundary(s, 0)
            && var segs := Lexing.Segments(s, 0);
               |texts| < |segs| && segs[|texts|].text == x && forall i | 0 <= i < |texts| :: segs[i].text == texts[i]
  {
    hide Segments, LaidOut, IsLegalSegment, Spellings.Plain;
    var s, all := JoinedTexts(texts) + [47] + x + back, texts + [x];
    PlainAreLegal(texts);
    PlainIsLegal(x);
    JoinedLast(texts, x);
    assert s == JoinedTexts(all) + back;
    WholeIsLaidOut(all, back);
    BeginningIsLexed(s, 0, all, back);
    forall i | 0 <= i < |texts| ensures Lexing.Segments(s, 0)[i].text == texts[i] {
      assert all[i] == texts[i];
    }
  }

  lemma JoinedLast(texts: seq<Text>, x: Text)
    ensures JoinedTexts(texts + [x]) == JoinedTexts(texts) + [47] + x
    ensures JoinedTexts(texts + [x])[0] == 47
  {
    if texts == [] {
      assert texts + [x] == [x];
    } else {
      assert (texts + [x])[1..] == texts[1..] + [x];
      JoinedLast(texts[1..], x);
    }
  }
}

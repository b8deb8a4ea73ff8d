/** How many parameters a match can record, against how many slots the compiler reserves. */
module ParamBounds {
  import opened Wrappers
  import opened Bytes
  import opened Tokens
  import opened RouteTree
  import opened Compatibility
  import opened Lexing
  import opened Resolution

  function Max(a: nat, b: nat): nat { if a < b then b else a }

  function ParamDepth(p: Path): nat {
    if p == [] then 0 else (if p[0].Par? then 1 else 0) + ParamDepth(p[1..])
  }

  /** The reserve that a subtree at this parameter depth calls for. */
  function Reserve(t: Tree, depth: nat): nat
    decreases t, 1
  {
    Max(ReserveOfSpecial(t, depth), ReserveOfKids(t.kids, |t.kids|, depth))
  }

  function ReserveOfSpecial(t: Tree, depth: nat): nat
    decreases t, 0
  {
    match t.special
    case WildcardEdge(_) => depth + 1
    case ParamEdge(_, sub) => Max(depth + 1, Reserve(sub, depth + 1))
    case _ => 0
  }

  function ReserveOfKids(kids: seq<Kid>, n: nat, depth: nat): nat
    requires n <= |kids|
    decreases kids, n
  {
    if n == 0 then 0 else Max(ReserveOfKids(kids, n - 1, depth), Reserve(kids[n - 1].tree, depth))
  }

  lemma {:induction false} ReserveOfKid(kids: seq<Kid>, n: nat, depth: nat, i: nat)
    requires i < n <= |kids|
    ensures Reserve(kids[i].tree, depth) <= ReserveOfKids(kids, n, depth)
    decreases n
  {
    if i < n - 1 {
      ReserveOfKid(kids, n - 1, depth, i);
    }
  }

  /** Something on path p needs m slots: its parameters, or those and a wildcard's. */
  ghost predicate NeededAt(t: Tree, p: Path, m: nat) {
    && SubAt(t, p).Some?
    && (m == ParamDepth(p) || (m == ParamDepth(p) + 1 && SubAt(t, p).value.special.WildcardEdge?))
  }

  lemma {:induction false} ReserveIsUpperBound(t: Tree, depth: nat, p: Path, m: nat)
    requires NeededAt(t, p, m)
    ensures m == 0 || depth + m <= Reserve(t, depth)
    decreases |p|
  {
    if p != [] {
      var d := Down(t, p[0]).value;
      var more := if p[0].Par? then 1 else 0;
      ReserveIsUpperBound(d, depth + more, p[1..], m - more);
      if p[0].Lit? {
        ReserveOfKid(t.kids, |t.kids|, depth, Find(t.kids, p[0].text).value);
      }
    }
  }

  lemma {:induction false} ReserveIsNeeded(t: Tree, depth: nat) returns (p: Path, m: nat)
    requires Sound(t) && Reserve(t, depth) > 0
    ensures NeededAt(t, p, m) && depth + m == Reserve(t, depth)
    decreases t, 0
  {
    if t.kids != [] && Reserve(t, depth) == ReserveOfKids(t.kids, |t.kids|, depth) {
      var i;
      i, p, m := ReserveOfKidsIsNeeded(t.kids, |t.kids|, depth);
      FindInDistinct(t.kids, i);
      p := [Lit(t.kids[i].text)] + p;
      assert p[1..] == p[1..];
    } else if t.special.ParamEdge? {
      if Reserve(t, depth) == depth + 1 {
        p, m := [Par(t.special.name)], 1;
        assert p[1..] == [];
      } else {
        var p', m' := ReserveIsNeeded(t.special.sub, depth + 1);
        p, m := [Par(t.special.name)] + p', m' + 1;
        assert p[1..] == p';
      }
    } else {
      p, m := [], 1;
    }
  }

  lemma {:induction false} ReserveOfKidsIsNeeded(kids: seq<Kid>, n: nat, depth: nat) returns (i: nat, p: Path, m: nat)
    requires n <= |kids| && (forall j | 0 <= j < |kids| :: Sound(kids[j].tree)) && ReserveOfKids(kids, n, depth) > 0
    ensures i < n && NeededAt(kids[i].tree, p, m) && depth + m == ReserveOfKids(kids, n, depth)
    decreases kids, n
  {
    if ReserveOfKids(kids, n, depth) == ReserveOfKids(kids, n - 1, depth) {
      i, p, m := ReserveOfKidsIsNeeded(kids, n - 1, depth);
    } else {
      i := n - 1;
      p, m := ReserveIsNeeded(kids[n - 1].tree, depth);
    }
  }

  /** The reserve is exactly the most that anything in the tree needs. */
  lemma ReserveIsMaximum(t: Tree)
    requires Sound(t)
    ensures forall p, m: nat :: NeededAt(t, p, m) ==> m <= Reserve(t, 0)
    ensures exists p :: NeededAt(t, p, Reserve(t, 0))
  {
    forall p, m: nat | NeededAt(t, p, m) ensures m <= Reserve(t, 0) {
      ReserveIsUpperBound(t, 0, p, m);
    }
    if Reserve(t, 0) > 0 {
      var p, m := ReserveIsNeeded(t, 0);
    } else {
      assert NeededAt(t, [], 0);
    }
  }

  // ---- What a match records ----

  /** The most slots that the walk has in use, when n are in use already: a walk that sticks with a wildcard remembered
    * takes one more for the wildcard's own parameter, and one that ends not found has taken its slots all the same. */
  function Peak(t: Tree, segs: seq<Seg>, wild: Option<Remembered>, n: nat): nat
    decreases |segs|
  {
    if segs == [] then n
    else
      var w := Remember(t, segs, wild);
      var st := Choose(t, segs[0].text);
      if st.Some? then Peak(Down(t, st.value).value, segs[1..], w, n + |CaptureOf(st.value, segs[0])|)
      else if w.Some? then n + 1 else n
  }

  /** The walk ends on a segment that leads nowhere, with a wildcard remembered. */
  ghost predicate SticksBelowWildcard(t: Tree, segs: seq<Seg>, wild: Option<Remembered>) {
    |Trail(t, segs)| < |segs| && LastWild(t, segs, wild).Some?
  }

  lemma {:induction false} PeakFollowsTrail(t: Tree, segs: seq<Seg>, wild: Option<Remembered>, n: nat)
    ensures Peak(t, segs, wild, n) ==
            n + ParamDepth(Trail(t, segs)) + if SticksBelowWildcard(t, segs, wild) then 1 else 0
    decreases |segs|
  {
    if segs != [] {
      var st := Choose(t, segs[0].text);
      if st.Some? {
        PeakFollowsTrail(Down(t, st.value).value, segs[1..], Remember(t, segs, wild),
                         n + |CaptureOf(st.value, segs[0])|);
        assert Trail(t, segs)[1..] == Trail(Down(t, st.value).value, segs[1..]);
      }
    }
  }

  /** A match that is found leaves as many entries as it had slots in use. */
  lemma {:induction false} FoundAtPeak(t: Tree, segs: seq<Seg>, last: Token, length: nat, wild: Option<Remembered>,
                                       acc: seq<Capture>)
    ensures var m := Walk(t, segs, last, length, wild, acc);
            m.Found? ==> |m.captures| == Peak(t, segs, wild, |acc|)
    decreases |segs|
  {
    if segs != [] {
      var st := Choose(t, segs[0].text);
      if st.Some? {
        var d := Down(t, st.value).value;
        FoundAtPeak(d, segs[1..], last, length, Remember(t, segs, wild), acc + CaptureOf(st.value, segs[0]));
      }
    }
  }

  lemma TrailWithinReserve(t: Tree, segs: seq<Seg>)
    ensures ParamDepth(Trail(t, segs)) <= Reserve(t, 0)
  {
    var p := Trail(t, segs);
    TrailIsInTree(t, segs);
    assert NeededAt(t, p, ParamDepth(p));
    ReserveIsUpperBound(t, 0, p, ParamDepth(p));
  }

  /** For every request: the slots in use exceed the reserve iff the walk sticks below a wildcard at a depth in
    * parameters that is the whole reserve; and then by one. */
  lemma PeakExceedsReserveIff(t: Tree, segs: seq<Seg>)
    ensures Peak(t, segs, None, 0) <= Reserve(t, 0) + 1
    ensures Peak(t, segs, None, 0) > Reserve(t, 0) <==>
            SticksBelowWildcard(t, segs, None) && ParamDepth(Trail(t, segs)) == Reserve(t, 0)
  {
    PeakFollowsTrail(t, segs, None, 0);
    TrailWithinReserve(t, segs);
  }

  // ---- Which trees can have their reserve exceeded ----

  /** A segment at or below a wildcard is as deep in parameters as the whole reserve. */
  ghost predicate DeepUnderWildcard(t: Tree, p: Path, k: nat) {
    && k <= |p| && SubAt(t, p).Some? && SubAt(t, p[..k]).Some?
    && SubAt(t, p[..k]).value.special.WildcardEdge?
    && ParamDepth(p) >= Reserve(t, 0)
  }

  predicate LegalPath(p: Path) {
    forall i | 0 <= i < |p| && p[i].Lit? :: p[i].text != [] && IsLegalSegment(p[i].text)
  }

  /** The length of the shortest request along a path, a byte for each parameter. */
  function ShortestLength(p: Path): nat {
    if p == [] then 0 else 1 + (if p[0].Lit? then |p[0].text| else 1) + ShortestLength(p[1..])
  }

  /** A request can go down p, find no way on for the segment x, and is not too long. */
  ghost predicate CanStick(t: Tree, p: Path, k: nat, x: Text) {
    && DeepUnderWildcard(t, p, k) && LegalPath(p)
    && x != [] && IsLegalSegment(x) && Find(SubAt(t, p).value.kids, x) == None
    && ShortestLength(p) + 1 + |x| <= LEXER_CHAR_LIMIT
  }

  /** The most slots that a request has in use. */
  function PeakFor(t: Tree, s: Text): nat
    requires AtBoundary(s, 0)
  {
    Peak(t, Segments(s, 0), None, 0)
  }

  lemma {:induction false} TrailStops(t: Tree, segs: seq<Seg>, p: Path)
    requires Sound(t) && SubAt(t, p).Some? && Fits(p, segs) && |p| < |segs|
    requires Choose(SubAt(t, p).value, segs[|p|].text) == None
    ensures Trail(t, segs) == p
    decreases |p|
  {
    if p != [] {
      ChoiceIsOnly(t, p[0], segs[0].text);
      DownIsSound(t, p[0]);
      FitsBelow(p, segs);
      assert segs[1..][|p| - 1] == segs[|p|];
      TrailStops(Down(t, p[0]).value, segs[1..], p[1..]);
      assert p == [p[0]] + p[1..];
    }
  }

  /** The texts of a shortest request along p. */
  function Along(p: Path): (texts: seq<Text>)
    ensures |texts| == |p|
    ensures forall i | 0 <= i < |p| :: texts[i] == if p[i].Lit? then p[i].text else [65]
  {
    seq(|p|, i requires 0 <= i < |p| => if p[i].Lit? then p[i].text else [65])
  }

  lemma {:induction false} AlongLength(p: Path, x: Text)
    ensures |JoinedTexts(Along(p) + [x])| == ShortestLength(p) + 1 + |x|
    ensures JoinedTexts(Along(p) + [x])[0] == SLASH
    decreases |p|
  {
    var texts := Along(p) + [x];
    if p == [] {
      assert texts == [x] && texts[1..] == [];
    } else {
      assert texts[1..] == Along(p[1..]) + [x];
      AlongLength(p[1..], x);
    }
  }

  /** Below a node as deep as the reserve there is no parameter. */
  lemma NoParamBelowReserve(t: Tree, p: Path)
    requires Sound(t) && SubAt(t, p).Some? && ParamDepth(p) >= Reserve(t, 0)
    ensures !SubAt(t, p).value.special.ParamEdge?
  {
    var n := SubAt(t, p).value;
    if n.special.ParamEdge? {
      var q := p + [Par(n.special.name)];
      SubAtConcat(t, p, [Par(n.special.name)]);
      assert NeededAt(t, q, ParamDepth(q));
      ReserveIsUpperBound(t, 0, q, ParamDepth(q));
      DepthOfSnoc(p, Par(n.special.name));
    }
  }

  lemma StickingTakesMore(t: Tree, p: Path, k: nat, x: Text) returns (s: Text)
    requires Sound(t) && CanStick(t, p, k, x)
    ensures Loadable(s) && PeakFor(t, s) == Reserve(t, 0) + 1
  {
    var texts := Along(p) + [x];
    s := JoinedTexts(texts) + [];
    AlongLength(p, x);
    JoinThenLex(s, texts, []);
    var segs := Segments(s, 0);
    TextsAt(segs);
    NoParamBelowReserve(t, p);
    assert Fits(p, segs) by {
      forall i | 0 <= i < |p| ensures StepFits(p[i], segs[i].text) {
        assert texts[i] == Along(p)[i];
      }
    }
    TrailStops(t, segs, p);
    var j := LastWildIsDeepest(t, segs, None);
    PeakFollowsTrail(t, segs, None, 0);
    TrailWithinReserve(t, segs);
  }

  lemma {:induction false} DepthOfSnoc(p: Path, st: RouteTree.Step)
    ensures ParamDepth(p + [st]) == ParamDepth(p) + if st.Par? then 1 else 0
    decreases |p|
  {
    if p != [] {
      assert (p + [st])[1..] == p[1..] + [st];
      DepthOfSnoc(p[1..], st);
    } else {
      assert [st][1..] == [];
    }
  }

  lemma {:induction false} FittingLength(p: Path, segs: seq<Seg>)
    requires Fits(p, segs) && |p| < |segs| && forall g | g in segs :: g.text != []
    ensures ShortestLength(p) + 1 + |segs[|p|].text| <= |Joined(segs)|
    decreases |p|
  {
    if p != [] {
      FitsBelow(p, segs);
      assert StepFits(p[0], segs[0].text) && segs[0] in segs;
      FittingLength(p[1..], segs[1..]);
    }
  }

  lemma MoreIsTakenSticking(t: Tree, s: Text) returns (p: Path, k: nat, x: Text)
    requires Sound(t) && Loadable(s) && PeakFor(t, s) > Reserve(t, 0)
    ensures CanStick(t, p, k, x)
  {
    var segs := Segments(s, 0);
    p := Trail(t, segs);
    PeakExceedsReserveIff(t, segs);
    TrailIsInTree(t, segs);
    var j := LastWildIsDeepest(t, segs, None);
    k, x := j - 1, segs[|p|].text;
    SegmentsLie(s, 0);
    RunConsumesSegments(s, 0);
    FittingLength(p, segs);
    forall i | 0 <= i < |p| && p[i].Lit? ensures p[i].text != [] && IsLegalSegment(p[i].text) {
      assert StepFits(p[i], segs[i].text) && segs[i] in segs;
    }
  }

  /** No request exceeds a reserve when no parameter lies below a wildcard. */
  lemma ShallowReserveSuffices(t: Tree, s: Text)
    requires Sound(t) && Loadable(s)
    requires forall p: Path, k: nat | k <= |p| && SubAt(t, p[..k]).Some? && SubAt(t, p).Some? ::
               SubAt(t, p[..k]).value.special.WildcardEdge? ==> ParamDepth(p) == ParamDepth(p[..k])
    ensures PeakFor(t, s) <= Reserve(t, 0)
  {
    if PeakFor(t, s) > Reserve(t, 0) {
      var p, k, x := MoreIsTakenSticking(t, s);
      assert NeededAt(t, p[..k], ParamDepth(p[..k]) + 1);
      ReserveIsUpperBound(t, 0, p[..k], ParamDepth(p[..k]) + 1);
    }
  }

  // ---- What a wildcard match carries ----

  lemma {:induction false} CapturesCount(p: Path, segs: seq<Seg>)
    requires |p| <= |segs|
    ensures |Captures(p, segs)| == ParamDepth(p)
    decreases |p|
  {
    if p != [] {
      CapturesCount(p[1..], segs[1..]);
    }
  }

  /** A wildcard match carries its own pattern's parameters, the rest of the path and nothing more iff the patterns led
    * past no parameter below the wildcard. */
  lemma OwnCapturesOnlyIff(entries: seq<Entry>, segs: seq<Seg>, last: Token, length: nat, deep: Path, m: Match,
                           e: Entry)
    requires ScanAlong(entries, segs, last, length, deep, m) && |deep| < |segs| && m.Found?
    requires BestCatcher(entries, segs, deep, e)
    ensures var start := segs[|e.pattern.steps|].start;
            m.captures == Captures(e.pattern.steps, segs) + [Capture([95], start, length - start)] <==>
            ParamDepth(deep) == ParamDepth(e.pattern.steps)
  {
    var p := e.pattern.steps;
    var e' :| BestCatcher(entries, segs, deep, e') && m.route == e'.route
              && m.captures == Captures(deep, segs) + [Suffix(segs[|e'.pattern.steps|].start, length)];
    BestIsOne(e'.pattern.steps, p, deep, |p|);
    CapturesOfPrefix(p, deep, segs);
    CapturesCount(p, segs);
    CapturesCount(deep, segs);
  }

  /** A wildcard match begins with its own pattern's parameters and ends with the rest of the path, read from the
    * segment at which the pattern's prefix ends. Between the two is what the patterns led past below the wildcard. */
  lemma WildcardCaptures(entries: seq<Entry>, segs: seq<Seg>, last: Token, length: nat, deep: Path, m: Match)
    requires ScanAlong(entries, segs, last, length, deep, m) && |deep| < |segs| && m.Found?
    ensures exists e ::
              && BestCatcher(entries, segs, deep, e) && m.route == e.route
              && |m.captures| == ParamDepth(deep) + 1
              && Captures(e.pattern.steps, segs) <= m.captures[..|m.captures| - 1]
              && var c := m.captures[|m.captures| - 1];
                 c.name == [95] && c.start == segs[|e.pattern.steps|].start && c.start + c.length == length
  {
    var e :| BestCatcher(entries, segs, deep, e) && m.route == e.route
             && m.captures == Captures(deep, segs) + [Suffix(segs[|e.pattern.steps|].start, length)];
    CapturesOfPrefix(e.pattern.steps, deep, segs);
    CapturesCount(deep, segs);
    assert m.captures[..|m.captures| - 1] == Captures(deep, segs);
  }
}

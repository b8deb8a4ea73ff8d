/** Which route a path resolves to: by scanning the list of patterns, and by walking their tree. */
module Resolution {
  import opened Wrappers
  import opened Bytes
  import opened Tokens
  import opened RouteTree
  import opened Compatibility
  import opened Acceptance
  import opened Lexing
  import Permutations
  import Prelexing

  const WILDCARD_PARAM: Text := [UNDERSCORE]

  /** A recorded parameter: its name, and the slice of the path that is its value. */
  datatype Capture = Capture(name: Text, start: nat, length: int)

  datatype Match = NotFound | Found(route: Route, captures: seq<Capture>)

  // ---- The naive scan of the list ----

  predicate StepFits(st: RouteTree.Step, x: Text) { st.Lit? ==> st.text == x }

  predicate Fits(p: Path, segs: seq<Seg>) {
    |p| <= |segs| && forall i | 0 <= i < |p| :: StepFits(p[i], segs[i].text)
  }

  function Captures(p: Path, segs: seq<Seg>): seq<Capture>
    requires |p| <= |segs|
    decreases |p|
  {
    if p == [] then []
    else (if p[0].Par? then [Capture(p[0].name, segs[0].start, |segs[0].text|)] else []) + Captures(p[1..], segs[1..])
  }

  /** The first k segments are on the way of this pattern. */
  predicate Passes(p: Path, segs: seq<Seg>, k: nat) {
    k <= |p| && k <= |segs| && Fits(p[..k], segs)
  }

  /** The list leads through exactly the first d segments, along `deep`. */
  ghost predicate Leads(entries: seq<Entry>, segs: seq<Seg>, deep: Path) {
    && Fits(deep, segs)
    && (deep == [] || exists e :: e in entries && IsPrefix(deep, e.pattern.steps))
    && (|deep| < |segs| ==> forall e | e in entries :: !Passes(e.pattern.steps, segs, |deep| + 1))
  }

  /** The pattern matches the whole path, segment by segment, with the path's own ending. */
  predicate MatchesWhole(p: Pattern, segs: seq<Seg>, last: Token) {
    |p.steps| == |segs| && Fits(p.steps, segs) && ((last.End? && p.final.AtEnd?) || (last.Trailing?
        && p.final.AtTrailing?))
  }

  /** A wildcard pattern that catches what sticks after d segments. */
  predicate Catches(p: Pattern, segs: seq<Seg>, d: nat) {
    p.final.AtWildcard? && |p.steps| <= d && Fits(p.steps, segs)
  }

  ghost predicate ScanWhole(entries: seq<Entry>, segs: seq<Seg>, last: Token, m: Match) {
    match m
    case NotFound => forall e | e in entries :: !MatchesWhole(e.pattern, segs, last)
    case Found(r, c) =>
      exists e :: e in entries && MatchesWhole(e.pattern, segs, last) && r == e.route
                  && c == Captures(e.pattern.steps, segs)
  }

  /** The catching wildcard with the longest prefix; it is on the way. */
  ghost predicate BestCatcher(entries: seq<Entry>, segs: seq<Seg>, deep: Path, e: Entry) {
    && e in entries && Catches(e.pattern, segs, |deep|) && IsPrefix(e.pattern.steps, deep)
    && forall e' | e' in entries && Catches(e'.pattern, segs, |deep|) :: |e'.pattern.steps| <= |e.pattern.steps|
  }

  ghost predicate ScanWildcards(entries: seq<Entry>, segs: seq<Seg>, length: nat, deep: Path, m: Match)
    requires |deep| < |segs|
  {
    match m
    case NotFound => forall e | e in entries :: !Catches(e.pattern, segs, |deep|)
    case Found(r, c) =>
      exists e :: BestCatcher(entries, segs, deep, e) && r == e.route
                  && c == Captures(deep, segs) + [Suffix(segs[|e.pattern.steps|].start, length)]
  }

  /** The wildcard's parameter: the path from a segment to its end. */
  function Suffix(start: nat, length: nat): Capture {
    Capture(WILDCARD_PARAM, start, length - start)
  }

  /** What scanning the list says about a path of these segments, this last token and this length:
    * the pattern that matches the whole path; or else, when the walk sticks on a segment, the
    * wildcard with the longest prefix; or else nothing. */
  ghost predicate Scan(entries: seq<Entry>, segs: seq<Seg>, last: Token, length: nat, m: Match) {
    exists deep :: ScanAlong(entries, segs, last, length, deep, m)
  }

  ghost predicate ScanAlong(entries: seq<Entry>, segs: seq<Seg>, last: Token, length: nat, deep: Path, m: Match) {
    && Leads(entries, segs, deep)
    && if |deep| == |segs| then ScanWhole(entries, segs, last, m)
       else ScanWildcards(entries, segs, length, deep, m)
  }

  lemma ScanFrom(entries: seq<Entry>, segs: seq<Seg>, last: Token, length: nat, deep: Path, m: Match)
    requires ScanAlong(entries, segs, last, length, deep, m)
    ensures Scan(entries, segs, last, length, m)
  {
  }

  // ---- The walk of the tree ----

  /** The most specific wildcard seen, with the start of the segment read at it. */
  datatype Remembered = Remembered(route: Route, start: nat)

  function Remember(t: Tree, segs: seq<Seg>, wild: Option<Remembered>): Option<Remembered> {
    if t.special.WildcardEdge? && segs != [] then Some(Remembered(t.special.route, segs[0].start)) else wild
  }

  /** Where a segment leads from here. */
  function Choose(t: Tree, x: Text): (r: Option<RouteTree.Step>)
    ensures r.Some? ==> Down(t, r.value).Some? && StepFits(r.value, x)
  {
    if Find(t.kids, x).Some? then Some(Lit(x))
    else if t.special.ParamEdge? then Some(Par(t.special.name))
    else None
  }

  function CaptureOf(st: RouteTree.Step, g: Seg): seq<Capture> {
    if st.Par? then [Capture(st.name, g.start, |g.text|)] else []
  }

  function AtLast(t: Tree, last: Token): Option<Route> {
    if last.End? then t.terminal else if last.Trailing? then t.trailing else None
  }

  function Walk(t: Tree, segs: seq<Seg>, last: Token, length: nat, wild: Option<Remembered>, acc: seq<Capture>): Match
    decreases |segs|
  {
    var w := Remember(t, segs, wild);
    if segs == [] then
      var r := AtLast(t, last);
      if r.Some? then Found(r.value, acc) else NotFound
    else
      var st := Choose(t, segs[0].text);
      if st.Some? then
        Walk(Down(t, st.value).value, segs[1..], last, length, w, acc + CaptureOf(st.value, segs[0]))
      else if w.Some? then Found(w.value.route, acc + [Suffix(w.value.start, length)])
      else NotFound
  }

  /** The steps that the walk takes. */
  function Trail(t: Tree, segs: seq<Seg>): (p: Path)
    ensures |p| <= |segs|
    decreases |segs|
  {
    if segs == [] then []
    else
      var st := Choose(t, segs[0].text);
      if st.Some? then [st.value] + Trail(Down(t, st.value).value, segs[1..]) else []
  }

  function LastWild(t: Tree, segs: seq<Seg>, wild: Option<Remembered>): Option<Remembered>
    decreases |segs|
  {
    var w := Remember(t, segs, wild);
    if segs == [] then w
    else
      var st := Choose(t, segs[0].text);
      if st.Some? then LastWild(Down(t, st.value).value, segs[1..], w) else w
  }

  lemma {:induction false} TrailIsInTree(t: Tree, segs: seq<Seg>)
    ensures SubAt(t, Trail(t, segs)).Some? && Fits(Trail(t, segs), segs)
    ensures var d := |Trail(t, segs)|;
            d < |segs| ==> Choose(SubAt(t, Trail(t, segs)).value, segs[d].text) == None
    decreases |segs|
  {
    if segs != [] {
      var st := Choose(t, segs[0].text);
      if st.Some? {
        TrailIsInTree(Down(t, st.value).value, segs[1..]);
        assert Trail(t, segs)[1..] == Trail(Down(t, st.value).value, segs[1..]);
      }
    }
  }

  lemma ChoiceIsOnly(t: Tree, st: RouteTree.Step, x: Text)
    requires Sound(t) && Down(t, st).Some? && StepFits(st, x)
    ensures Choose(t, x) == Some(st)
  {
  }

  lemma FitsBelow(p: Path, segs: seq<Seg>)
    requires Fits(p, segs) && p != []
    ensures Fits(p[1..], segs[1..])
  {
  }

  /** In a sound tree every path that fits the segments is the beginning of the trail. */
  lemma {:induction false} TrailIsOnly(t: Tree, segs: seq<Seg>, p: Path)
    requires Sound(t) && SubAt(t, p).Some? && Fits(p, segs)
    ensures IsPrefix(p, Trail(t, segs))
    decreases |p|
  {
    if p != [] {
      ChoiceIsOnly(t, p[0], segs[0].text);
      DownIsSound(t, p[0]);
      FitsBelow(p, segs);
      TrailIsOnly(Down(t, p[0]).value, segs[1..], p[1..]);
      assert p == [p[0]] + p[1..];
    }
  }

  lemma {:induction false} WalkFollowsTrail(t: Tree, segs: seq<Seg>, last: Token, length: nat,
                                            wild: Option<Remembered>, acc: seq<Capture>)
    ensures SubAt(t, Trail(t, segs)).Some?
    ensures var p, n, w := Trail(t, segs), SubAt(t, Trail(t, segs)).value, LastWild(t, segs, wild);
            Walk(t, segs, last, length, wild, acc) ==
            if |p| == |segs| then
              (if AtLast(n, last).Some? then Found(AtLast(n, last).value, acc + Captures(p, segs)) else NotFound)
            else if w.Some? then
              Found(w.value.route, acc + Captures(p, segs) + [Suffix(w.value.start, length)])
            else NotFound
    decreases |segs|
  {
    TrailIsInTree(t, segs);
    if segs != [] {
      var st := Choose(t, segs[0].text);
      if st.Some? {
        var d := Down(t, st.value).value;
        var more := CaptureOf(st.value, segs[0]);
        WalkFollowsTrail(d, segs[1..], last, length, Remember(t, segs, wild), acc + more);
        var p' := Trail(d, segs[1..]);
        assert Trail(t, segs)[1..] == p';
        assert Captures(Trail(t, segs), segs) == more + Captures(p', segs[1..]);
        assert acc + more + Captures(p', segs[1..]) == acc + (more + Captures(p', segs[1..]));
      }
    }
  }

  /** The remembered wildcard belongs to the deepest wildcard segment on the trail. */
  lemma {:induction false} LastWildIsDeepest(t: Tree, segs: seq<Seg>, wild: Option<Remembered>) returns (k: nat)
    requires |Trail(t, segs)| < |segs|
    ensures k <= |Trail(t, segs)| + 1
    ensures forall j | k <= j <= |Trail(t, segs)| ::
              var n := SubAt(t, Trail(t, segs)[..j]); n.Some? && !n.value.special.WildcardEdge?
    ensures k == 0 ==> LastWild(t, segs, wild) == wild
    ensures k > 0 ==>
              var n := SubAt(t, Trail(t, segs)[..k - 1]);
              n.Some? && n.value.special.WildcardEdge?
              && LastWild(t, segs, wild) == Some(Remembered(n.value.special.route, segs[k - 1].start))
    decreases |segs|
  {
    var p := Trail(t, segs);
    assert p[..0] == [];
    var st := Choose(t, segs[0].text);
    if st.Some? {
      var d := Down(t, st.value).value;
      var p' := Trail(d, segs[1..]);
      var k' := LastWildIsDeepest(d, segs[1..], Remember(t, segs, wild));
      assert forall j | 1 <= j <= |p| :: p[..j][1..] == p'[..j - 1] && p[..j][0] == st.value;
      k := if k' > 0 then k' + 1 else if t.special.WildcardEdge? then 1 else 0;
      forall j | k <= j <= |p|
        ensures var n := SubAt(t, p[..j]); n.Some? && !n.value.special.WildcardEdge?
      {
        if j > 0 {
          assert SubAt(t, p[..j]) == SubAt(d, p'[..j - 1]);
        }
      }
    } else {
      k := if t.special.WildcardEdge? then 1 else 0;
    }
  }

  // ---- The walk is the scan ----

  lemma {:induction false} SubAtBears(t: Tree, p: Path)
    requires Sound(t) && SubAt(t, p).Some?
    ensures Sound(SubAt(t, p).value) && (p != [] ==> Bears(SubAt(t, p).value))
    decreases |p|
  {
    if p != [] {
      DownIsSound(t, p[0]);
      SubAtBears(Down(t, p[0]).value, p[1..]);
    }
  }

  lemma EntryThrough(t: Tree, entries: seq<Entry>, p: Path) returns (e: Entry)
    requires Sound(t) && Holds(t, entries) && SubAt(t, p).Some? && p != []
    ensures e in entries && IsPrefix(p, e.pattern.steps)
  {
    SubAtBears(t, p);
    var q := SomeRouteBelow(SubAt(t, p).value);
    SubAtConcat(t, p, q.steps);
    var whole := Pattern(p + q.steps, q.final);
    e := Entry(whole, Lookup(t, whole).value);
    assert (p + q.steps)[..|p|] == p;
  }

  lemma EntryIsInTree(t: Tree, entries: seq<Entry>, e: Entry, k: nat)
    requires Holds(t, entries) && e in entries && k <= |e.pattern.steps|
    ensures SubAt(t, e.pattern.steps).Some? && RouteAt(SubAt(t, e.pattern.steps).value, e.pattern.final) ==
            Some(e.route)
    ensures SubAt(t, e.pattern.steps[..k]).Some?
  {
    assert Entry(e.pattern, e.route) in entries;
    assert Lookup(t, e.pattern) == Some(e.route);
    SubAtPrefix(t, e.pattern.steps, k);
  }

  /** Some pattern of the list begins with p. */
  ghost predicate OnTheWay(entries: seq<Entry>, p: Path) {
    p == [] || exists e :: e in entries && IsPrefix(p, e.pattern.steps)
  }

  lemma OnTheWayIff(t: Tree, entries: seq<Entry>, p: Path)
    requires Sound(t) && Holds(t, entries)
    ensures OnTheWay(entries, p) <==> SubAt(t, p).Some?
  {
    if SubAt(t, p).Some? && p != [] {
      var e := EntryThrough(t, entries, p);
    }
    if p != [] {
      if e :| e in entries && IsPrefix(p, e.pattern.steps) {
        EntryIsInTree(t, entries, e, |p|);
      }
    }
  }

  lemma PassesAlongTrail(t: Tree, entries: seq<Entry>, segs: seq<Seg>, e: Entry, k: nat)
    requires Sound(t) && Holds(t, entries) && e in entries && Passes(e.pattern.steps, segs, k)
    ensures k <= |Trail(t, segs)| && e.pattern.steps[..k] == Trail(t, segs)[..k]
  {
    EntryIsInTree(t, entries, e, k);
    TrailIsOnly(t, segs, e.pattern.steps[..k]);
  }

  lemma FitsPrefix(p: Path, segs: seq<Seg>, k: nat)
    requires Fits(p, segs) && k <= |p|
    ensures Fits(p[..k], segs)
  {
  }

  lemma TrailLeads(t: Tree, entries: seq<Entry>, segs: seq<Seg>)
    requires Sound(t) && Holds(t, entries)
    ensures Leads(entries, segs, Trail(t, segs))
  {
    var p := Trail(t, segs);
    TrailIsInTree(t, segs);
    if p != [] {
      var e := EntryThrough(t, entries, p);
    }
    forall e | e in entries && |p| < |segs| ensures !Passes(e.pattern.steps, segs, |p| + 1) {
      if Passes(e.pattern.steps, segs, |p| + 1) {
        PassesAlongTrail(t, entries, segs, e, |p| + 1);
      }
    }
  }

  lemma BeginningOfTrailLeadsOn(t: Tree, entries: seq<Entry>, segs: seq<Seg>, k: nat) returns (e: Entry)
    requires Sound(t) && Holds(t, entries) && 0 < k <= |Trail(t, segs)|
    ensures e in entries && Passes(e.pattern.steps, segs, k)
  {
    var p := Trail(t, segs);
    TrailIsInTree(t, segs);
    SubAtPrefix(t, p, k);
    e := EntryThrough(t, entries, p[..k]);
    FitsPrefix(p, segs, k);
  }

  /** The list leads along the trail of its tree, and along nothing else. */
  lemma LeadsIsTrail(t: Tree, entries: seq<Entry>, segs: seq<Seg>, deep: Path)
    requires Sound(t) && Holds(t, entries)
    ensures Leads(entries, segs, deep) <==> deep == Trail(t, segs)
  {
    var p := Trail(t, segs);
    TrailLeads(t, entries, segs);
    if Leads(entries, segs, deep) {
      if deep != [] {
        var e :| e in entries && IsPrefix(deep, e.pattern.steps);
        PassesAlongTrail(t, entries, segs, e, |deep|);
      }
      if |deep| < |p| {
        var e := BeginningOfTrailLeadsOn(t, entries, segs, |deep| + 1);
      }
      assert deep == p[..|deep|] == p;
    }
  }

  lemma WholeMatchIsTrail(t: Tree, entries: seq<Entry>, segs: seq<Seg>, last: Token, e: Entry)
    requires Sound(t) && Holds(t, entries) && e in entries && MatchesWhole(e.pattern, segs, last)
    ensures e.pattern.steps == Trail(t, segs)
    ensures SubAt(t, Trail(t, segs)).Some? && AtLast(SubAt(t, Trail(t, segs)).value, last) == Some(e.route)
  {
    EntryIsInTree(t, entries, e, 0);
    TrailIsOnly(t, segs, e.pattern.steps);
    assert Trail(t, segs)[..|segs|] == Trail(t, segs);
  }

  lemma TrailEndIsEntry(t: Tree, entries: seq<Entry>, segs: seq<Seg>, last: Token) returns (e: Entry)
    requires Sound(t) && Holds(t, entries) && |Trail(t, segs)| == |segs|
    requires SubAt(t, Trail(t, segs)).Some? && AtLast(SubAt(t, Trail(t, segs)).value, last).Some?
    ensures e in entries && MatchesWhole(e.pattern, segs, last)
    ensures e.pattern.steps == Trail(t, segs) && Some(e.route) == AtLast(SubAt(t, Trail(t, segs)).value, last)
  {
    TrailIsInTree(t, segs);
    var q := Pattern(Trail(t, segs), if last.End? then AtEnd else AtTrailing);
    e := Entry(q, Lookup(t, q).value);
  }

  lemma WholeWalkIsScan(t: Tree, entries: seq<Entry>, segs: seq<Seg>, last: Token, length: nat, m: Match)
    requires Sound(t) && Holds(t, entries) && |Trail(t, segs)| == |segs|
    ensures ScanWhole(entries, segs, last, m) <==> m == Walk(t, segs, last, length, None, [])
  {
    WalkFollowsTrail(t, segs, last, length, None, []);
    var n := SubAt(t, Trail(t, segs)).value;
    forall e | e in entries && MatchesWhole(e.pattern, segs, last)
      ensures e.pattern.steps == Trail(t, segs) && AtLast(n, last) == Some(e.route)
    {
      WholeMatchIsTrail(t, entries, segs, last, e);
    }
    assert [] + Captures(Trail(t, segs), segs) == Captures(Trail(t, segs), segs);
    if AtLast(n, last).Some? {
      var e := TrailEndIsEntry(t, entries, segs, last);
    }
  }

  lemma CatcherIsOnTrail(t: Tree, entries: seq<Entry>, segs: seq<Seg>, e: Entry)
    requires Sound(t) && Holds(t, entries) && e in entries && Catches(e.pattern, segs, |Trail(t, segs)|)
    ensures IsPrefix(e.pattern.steps, Trail(t, segs))
    ensures var n := SubAt(t, e.pattern.steps);
            n.Some? && n.value.special == WildcardEdge(e.route)
  {
    EntryIsInTree(t, entries, e, 0);
    TrailIsOnly(t, segs, e.pattern.steps);
  }

  lemma WildcardIsCatcher(t: Tree, entries: seq<Entry>, segs: seq<Seg>, j: nat) returns (e: Entry)
    requires Holds(t, entries) && j <= |Trail(t, segs)|
    requires var n := SubAt(t, Trail(t, segs)[..j]); n.Some? && n.value.special.WildcardEdge?
    ensures e in entries && Catches(e.pattern, segs, |Trail(t, segs)|) && e.pattern.steps == Trail(t, segs)[..j]
    ensures SubAt(t, Trail(t, segs)[..j]).value.special == WildcardEdge(e.route)
  {
    var q := Pattern(Trail(t, segs)[..j], AtWildcard);
    e := Entry(q, Lookup(t, q).value);
    TrailIsInTree(t, segs);
  }

  lemma StuckWalkIsScan(t: Tree, entries: seq<Entry>, segs: seq<Seg>, last: Token, length: nat, m: Match)
    requires Sound(t) && Holds(t, entries) && |Trail(t, segs)| < |segs|
    ensures ScanWildcards(entries, segs, length, Trail(t, segs), m) <==> m == Walk(t, segs, last, length, None, [])
  {
    var p := Trail(t, segs);
    WalkFollowsTrail(t, segs, last, length, None, []);
    assert [] + Captures(p, segs) == Captures(p, segs);
    var k := LastWildIsDeepest(t, segs, None);
    forall e | e in entries && Catches(e.pattern, segs, |p|)
      ensures IsPrefix(e.pattern.steps, p) && |e.pattern.steps| < k
      ensures SubAt(t, e.pattern.steps).Some? && SubAt(t, e.pattern.steps).value.special == WildcardEdge(e.route)
    {
      CatcherIsOnTrail(t, entries, segs, e);
      var j := |e.pattern.steps|;
      assert p[..j] == e.pattern.steps;
    }
    if k > 0 {
      var e := WildcardIsCatcher(t, entries, segs, k - 1);
      assert BestCatcher(entries, segs, p, e);
      if ScanWildcards(entries, segs, length, p, m) {
        var e' :| BestCatcher(entries, segs, p, e') && m.route == e'.route
                  && m.captures == Captures(p, segs) + [Suffix(segs[|e'.pattern.steps|].start, length)];
        BestIsOne(e'.pattern.steps, e.pattern.steps, p, k - 1);
      }
    }
  }

  lemma BestIsOne(a: Path, b: Path, p: Path, n: nat)
    requires IsPrefix(a, p) && IsPrefix(b, p) && |a| == n == |b|
    ensures a == b
  {
  }

  /** For every path, the walk of the tree is what the scan of the list says, and the only thing it says. */
  lemma WalkIsScan(t: Tree, entries: seq<Entry>, segs: seq<Seg>, last: Token, length: nat, m: Match)
    requires Sound(t) && Holds(t, entries)
    ensures Scan(entries, segs, last, length, m) <==> m == Walk(t, segs, last, length, None, [])
  {
    var p := Trail(t, segs);
    LeadsIsTrail(t, entries, segs, p);
    if |p| == |segs| {
      WholeWalkIsScan(t, entries, segs, last, length, m);
    } else {
      StuckWalkIsScan(t, entries, segs, last, length, m);
    }
    assert ScanAlong(entries, segs, last, length, p, m) <==> m == Walk(t, segs, last, length, None, []);
    if Scan(entries, segs, last, length, m) {
      var deep :| ScanAlong(entries, segs, last, length, deep, m);
      LeadsIsTrail(t, entries, segs, deep);
    }
  }

  // ---- What is captured ----

  /** A capture's value is a slice of the path. */
  predicate IsSlice(s: Text, c: Capture) {
    0 <= c.length && c.start + c.length <= |s|
  }

  predicate AllSlices(s: Text, captures: seq<Capture>) {
    forall i | 0 <= i < |captures| :: IsSlice(s, captures[i])
  }

  /** Every value that a walk captures lies within the path. */
  lemma {:induction false} WalkCapturesSlices(t: Tree, s: Text, segs: seq<Seg>, last: Token, wild: Option<Remembered>,
                                              acc: seq<Capture>)
    requires forall g | g in segs :: LiesIn(s, g)
    requires AllSlices(s, acc) && (wild.Some? ==> wild.value.start <= |s|)
    ensures var m := Walk(t, segs, last, |s|, wild, acc); m.Found? ==> AllSlices(s, m.captures)
    decreases |segs|
  {
    if segs != [] {
      assert LiesIn(s, segs[0]);
      var st := Choose(t, segs[0].text);
      if st.Some? {
        WalkCapturesSlices(Down(t, st.value).value, s, segs[1..], last, Remember(t, segs, wild),
                           acc + CaptureOf(st.value, segs[0]));
      }
    }
  }

  /** What a beginning of a path captures is the beginning of what the path captures. */
  lemma {:induction false} CapturesOfPrefix(p: Path, deep: Path, segs: seq<Seg>)
    requires IsPrefix(p, deep) && |deep| <= |segs|
    ensures Captures(p, segs) <= Captures(deep, segs)
    decreases |p|
  {
    if p != [] {
      assert deep[0] == p[0] && deep[1..][..|p| - 1] == deep[..|p|][1..];
      CapturesOfPrefix(p[1..], deep[1..], segs[1..]);
    }
  }

  /** However an accepted list is arranged, every path resolves to the same one result. */
  lemma AllOrdersResolveAlike(syn: Prelexing.Syntax, a: seq<Registration>, b: seq<Registration>, segs: seq<Seg>,
                              last: Token, length: nat)
    requires multiset(a) == multiset(b) && Accepted(syn, a) && Accepted(syn, b)
    ensures AllParse(syn, a) && AllParse(syn, b)
    ensures exists m :: Scan(Entries(syn, a), segs, last, length, m)
    ensures forall m, m' ::
              Scan(Entries(syn, a), segs, last, length, m) && Scan(Entries(syn, b), segs, last, length, m') ==> m == m'
    ensures forall m :: Scan(Entries(syn, a), segs, last, length, m) <==> Scan(Entries(syn, b), segs, last, length, m)
  {
    hide Scan, Walk, Sound, AddAll;
    AcceptedTreeHolds(syn, a);
    AcceptedTreeHolds(syn, b);
    EntriesOfPermutation(syn, a, b);
    Permutations.PermutationKeepsMembers(Entries(syn, a), Entries(syn, b));
    var t := AddAll(syn, a).tree;
    forall m
      ensures Scan(Entries(syn, a), segs, last, length, m) <==> m == Walk(t, segs, last, length, None, [])
      ensures Scan(Entries(syn, b), segs, last, length, m) <==> m == Walk(t, segs, last, length, None, [])
    {
      WalkIsScan(t, Entries(syn, a), segs, last, length, m);
      WalkIsScan(t, Entries(syn, b), segs, last, length, m);
    }
    assert Scan(Entries(syn, a), segs, last, length, Walk(t, segs, last, length, None, []));
  }
}

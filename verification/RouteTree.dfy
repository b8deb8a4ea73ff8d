/** Patterns, routes, and the immutable tree that the builder's segments stand for. */
module RouteTree {
  import opened Wrappers
  import opened Bytes

  const NODE_MAX_CHILD_COUNT := 4095

  datatype Route = Route(handler: nat, ctx: nat)

  datatype Step = Lit(text: Text) | Par(name: Text)

  datatype Final = AtEnd | AtTrailing | AtWildcard

  datatype Pattern = Pattern(steps: seq<Step>, final: Final)

  datatype Entry = Entry(pattern: Pattern, route: Route)

  type Path = seq<Step>

  datatype Tree = Node(terminal: Option<Route>, trailing: Option<Route>, special: Special, kids: seq<Kid>)

  // HalfParam is the special edge that a refused parameter symbol leaves without a segment.
  datatype Special = NoSpecial | ParamEdge(name: Text, sub: Tree) | WildcardEdge(route: Route) | HalfParam

  datatype Kid = Kid(text: Text, tree: Tree)

  const EMPTY := Node(None, None, NoSpecial, [])

  /** Index of the first child with this text. */
  function Find(kids: seq<Kid>, x: Text): (r: Option<nat>)
    ensures r.Some? ==> r.value < |kids| && kids[r.value].text == x
    ensures r == None ==> forall i | 0 <= i < |kids| :: kids[i].text != x
    ensures forall i | 0 <= i < |kids| && kids[i].text == x :: r.Some? && r.value <= i
  {
    FindFrom(kids, x, 0)
  }

  function FindFrom(kids: seq<Kid>, x: Text, i: nat): (r: Option<nat>)
    requires i <= |kids|
    ensures r.Some? ==> i <= r.value < |kids| && kids[r.value].text == x
    ensures r == None ==> forall j | i <= j < |kids| :: kids[j].text != x
    ensures forall j | i <= j < |kids| && kids[j].text == x :: r.Some? && r.value <= j
    decreases |kids| - i
  {
    if i == |kids| then None else if kids[i].text == x then Some(i) else FindFrom(kids, x, i + 1)
  }

  predicate DistinctTexts(kids: seq<Kid>) {
    forall i, j | 0 <= i < j < |kids| :: kids[i].text != kids[j].text
  }

  /** The subtree one step down. */
  function Down(t: Tree, st: Step): Option<Tree> {
    match st
    case Lit(x) =>
      var i := Find(t.kids, x);
      if i.Some? then Some(t.kids[i.value].tree) else None
    case Par(n) =>
      if t.special.ParamEdge? && t.special.name == n then Some(t.special.sub) else None
  }

  function SubAt(t: Tree, p: Path): Option<Tree>
    decreases |p|
  {
    if p == [] then Some(t)
    else
      var d := Down(t, p[0]);
      if d.Some? then SubAt(d.value, p[1..]) else None
  }

  function RouteAt(t: Tree, f: Final): Option<Route> {
    match f
    case AtEnd => t.terminal
    case AtTrailing => t.trailing
    case AtWildcard => if t.special.WildcardEdge? then Some(t.special.route) else None
  }

  /** The route that a tree holds for a pattern: its abstract meaning. */
  function Lookup(t: Tree, p: Pattern): Option<Route> {
    var sub := SubAt(t, p.steps);
    if sub.Some? then RouteAt(sub.value, p.final) else None
  }

  /** Put s in place of the subtree one step down. */
  function ReplaceDown(t: Tree, st: Step, s: Tree): Tree
    requires Down(t, st).Some?
  {
    match st
    case Lit(x) => t.(kids := t.kids[Find(t.kids, x).value := Kid(x, s)])
    case Par(n) => t.(special := ParamEdge(n, s))
  }

  function Replace(t: Tree, p: Path, s: Tree): Tree
    requires SubAt(t, p).Some?
    decreases |p|
  {
    if p == [] then s else ReplaceDown(t, p[0], Replace(Down(t, p[0]).value, p[1..], s))
  }

  /** A new empty child at the end of the list. */
  function WithKid(t: Tree, x: Text): (t': Tree)
    requires Find(t.kids, x) == None
    ensures forall st :: Down(t', st) == if st == Lit(x) then Some(EMPTY) else Down(t, st)
  {
    var t' := t.(kids := t.kids + [Kid(x, EMPTY)]);
    assert t'.kids[|t.kids|].text == x;
    assert forall i | 0 <= i < |t.kids| :: t'.kids[i] == t.kids[i];
    t'
  }

  /** A new empty segment behind a parameter edge. */
  function WithParam(t: Tree, n: Text): (t': Tree)
    requires !t.special.ParamEdge?
    ensures forall st :: Down(t', st) == if st == Par(n) then Some(EMPTY) else Down(t, st)
  {
    t.(special := ParamEdge(n, EMPTY))
  }

  lemma DownAfterReplaceDown(t: Tree, st: Step, s: Tree, st': Step)
    requires Down(t, st).Some?
    ensures Down(ReplaceDown(t, st, s), st') == if st' == st then Some(s) else Down(t, st')
  {
    if st.Lit? && st'.Lit? {
      var kids' := ReplaceDown(t, st, s).kids;
      assert forall i | 0 <= i < |t.kids| :: kids'[i].text == t.kids[i].text;
    }
  }

  /** What is at a place of the tree, without the subtrees below it. */
  datatype View = View(terminal: Option<Route>, trailing: Option<Route>, special: SpecialView, texts: seq<Text>)

  datatype SpecialView = NoneView | ParamView(name: Text) | WildcardView(route: Route) | HalfView

  function KidTexts(kids: seq<Kid>): (texts: seq<Text>)
    ensures |texts| == |kids| && forall i | 0 <= i < |kids| :: texts[i] == kids[i].text
  {
    seq(|kids|, i requires 0 <= i < |kids| => kids[i].text)
  }

  function ViewOf(t: Tree): View {
    View(t.terminal, t.trailing,
         match t.special {
           case NoSpecial => NoneView
           case ParamEdge(n, _) => ParamView(n)
           case WildcardEdge(r) => WildcardView(r)
           case HalfParam => HalfView
         },
         KidTexts(t.kids))
  }

  lemma ViewWithKid(t: Tree, x: Text)
    requires Find(t.kids, x) == None
    ensures ViewOf(WithKid(t, x)) == ViewOf(t).(texts := KidTexts(t.kids) + [x])
  {
  }

  function ViewAt(t: Tree, p: Path): Option<View> {
    var sub := SubAt(t, p);
    if sub.Some? then Some(ViewOf(sub.value)) else None
  }

  predicate IsPrefix(p: Path, q: Path) { |p| <= |q| && q[..|p|] == p }

  lemma {:induction false} SubAtConcat(t: Tree, p: Path, q: Path)
    requires SubAt(t, p).Some?
    ensures SubAt(t, p + q) == SubAt(SubAt(t, p).value, q)
    decreases |p|
  {
    if p == [] {
      assert p + q == q;
    } else {
      assert (p + q)[0] == p[0] && (p + q)[1..] == p[1..] + q;
      SubAtConcat(Down(t, p[0]).value, p[1..], q);
    }
  }

  lemma SubAtPrefix(t: Tree, p: Path, k: nat)
    requires k <= |p| && SubAt(t, p).Some?
    ensures SubAt(t, p[..k]).Some?
    decreases k
  {
    if k > 0 {
      assert p[..k][1..] == p[1..][..k - 1];
      SubAtPrefix(Down(t, p[0]).value, p[1..], k - 1);
    }
  }

  /** Replacing a subtree is seen at and below its place, and nowhere else. */
  lemma {:induction false} SubAtReplaceBelow(t: Tree, p: Path, s: Tree, q: Path)
    requires SubAt(t, p).Some?
    ensures SubAt(Replace(t, p, s), p + q) == SubAt(s, q)
    decreases |p|
  {
    if p == [] {
      assert p + q == q;
    } else {
      assert (p + q)[0] == p[0] && (p + q)[1..] == p[1..] + q;
      var d := Down(t, p[0]).value;
      DownAfterReplaceDown(t, p[0], Replace(d, p[1..], s), p[0]);
      SubAtReplaceBelow(d, p[1..], s, q);
    }
  }

  lemma {:induction false} ViewAtReplaceElsewhere(t: Tree, p: Path, s: Tree, q: Path)
    requires SubAt(t, p).Some? && !IsPrefix(p, q)
    ensures ViewAt(Replace(t, p, s), q) == ViewAt(t, q)
    decreases |p|
  {
    var d := Down(t, p[0]).value;
    var s' := Replace(d, p[1..], s);
    if q == [] {
      if p[0].Lit? {
        assert KidTexts(ReplaceDown(t, p[0], s').kids) == KidTexts(t.kids);
      }
    } else {
      DownAfterReplaceDown(t, p[0], s', q[0]);
      if q[0] == p[0] {
        ViewAtReplaceElsewhere(d, p[1..], s, q[1..]);
      }
    }
  }

  /** Replacing twice at one place keeps the second; replacing below nests. */
  lemma {:induction false} ReplaceReplace(t: Tree, p: Path, q: Path, s: Tree)
    requires SubAt(t, p).Some? && SubAt(SubAt(t, p).value, q).Some?
    ensures SubAt(t, p + q).Some?
    ensures Replace(t, p + q, s) == Replace(t, p, Replace(SubAt(t, p).value, q, s))
    decreases |p|
  {
    SubAtConcat(t, p, q);
    if p == [] {
      assert p + q == q;
    } else {
      assert (p + q)[0] == p[0] && (p + q)[1..] == p[1..] + q;
      ReplaceReplace(Down(t, p[0]).value, p[1..], q, s);
    }
  }

  /** Changing a segment's own fields shows at its own place only. */
  lemma ReplaceLocally(t: Tree, p: Path, s: Tree, q: Path)
    requires SubAt(t, p).Some? && forall st :: Down(s, st) == Down(SubAt(t, p).value, st)
    ensures ViewAt(Replace(t, p, s), q) == if q == p then Some(ViewOf(s)) else ViewAt(t, q)
  {
    if IsPrefix(p, q) {
      var rest := q[|p|..];
      assert q == p + rest;
      SubAtReplaceBelow(t, p, s, rest);
      SubAtConcat(t, p, rest);
      if rest != [] {
        assert Down(s, rest[0]) == Down(SubAt(t, p).value, rest[0]);
      }
    } else {
      ViewAtReplaceElsewhere(t, p, s, q);
    }
  }

  /** A new empty child shows at its own place and in its parent's. */
  lemma ReplaceGrowing(t: Tree, p: Path, s: Tree, st: Step, q: Path)
    requires SubAt(t, p).Some? && Down(SubAt(t, p).value, st) == None
    requires forall st' :: Down(s, st') == if st' == st then Some(EMPTY) else Down(SubAt(t, p).value, st')
    ensures ViewAt(Replace(t, p, s), q) ==
            if q == p then Some(ViewOf(s)) else if q == p + [st] then Some(ViewOf(EMPTY)) else ViewAt(t, q)
  {
    if IsPrefix(p, q) {
      var rest := q[|p|..];
      assert q == p + rest;
      SubAtReplaceBelow(t, p, s, rest);
      SubAtConcat(t, p, rest);
      if rest != [] {
        assert rest[0] != st ==> Down(s, rest[0]) == Down(SubAt(t, p).value, rest[0]);
        if rest[0] == st {
          assert rest == [st] + rest[1..];
          EmptyHasNothingBelow(rest[1..]);
        }
      }
    } else {
      ViewAtReplaceElsewhere(t, p, s, q);
    }
  }

  lemma EmptyHasNothingBelow(p: Path)
    ensures SubAt(EMPTY, p) == if p == [] then Some(EMPTY) else None
  {
  }

  lemma ReplaceDownTwice(t: Tree, st: Step, a: Tree, b: Tree)
    requires Down(t, st).Some?
    ensures Down(ReplaceDown(t, st, a), st) == Some(a)
    ensures ReplaceDown(ReplaceDown(t, st, a), st, b) == ReplaceDown(t, st, b)
  {
    DownAfterReplaceDown(t, st, a, st);
    if st.Lit? {
      var t' := ReplaceDown(t, st, a);
      var i := Find(t.kids, st.text).value;
      assert forall k | 0 <= k < |t.kids| :: t'.kids[k].text == t.kids[k].text;
      assert Find(t'.kids, st.text) == Some(i);
      assert t'.kids[i := Kid(st.text, b)] == t.kids[i := Kid(st.text, b)];
    }
  }

  lemma {:induction false} ReplaceTwice(t: Tree, p: Path, a: Tree, b: Tree)
    requires SubAt(t, p).Some?
    ensures SubAt(Replace(t, p, a), p) == Some(a)
    ensures Replace(Replace(t, p, a), p, b) == Replace(t, p, b)
    decreases |p|
  {
    if p != [] {
      var d := Down(t, p[0]).value;
      ReplaceTwice(d, p[1..], a, b);
      ReplaceDownTwice(t, p[0], Replace(d, p[1..], a), Replace(d, p[1..], b));
    }
  }

  lemma {:induction false} ReplaceSelf(t: Tree, p: Path)
    requires SubAt(t, p).Some?
    ensures Replace(t, p, SubAt(t, p).value) == t
    decreases |p|
  {
    if p != [] {
      var d := Down(t, p[0]).value;
      ReplaceSelf(d, p[1..]);
      if p[0].Lit? {
        var i := Find(t.kids, p[0].text).value;
        assert t.kids[i := t.kids[i]] == t.kids;
      }
    }
  }

  lemma SubAtOne(t: Tree, st: Step)
    ensures SubAt(t, [st]) == Down(t, st)
  {
  }
}

/** Walking the flat graph along a request: the dispatcher's route match. */
module Matching {
  import opened Wrappers
  import opened Bytes
  import opened Tokens
  import opened Lexing
  import Permutations
  import opened RouteTree
  import opened SymbolLists
  import opened GraphLayout
  import TerminalDictionary
  import opened Routers
  import opened Resolution
  import ParamBounds

  // ---- The tree walk, token by token ----

  /** The walk of t along what is left of the request. */
  function WalkFrom(t: Tree, s: Text, c: nat, wild: Option<Remembered>, acc: seq<Capture>): Match
    requires AtBoundary(s, c)
  {
    Walk(t, Lexing.Segments(s, c), Last(s, c), |s|, wild, acc)
  }

  lemma WalkAtLiteral(t: Tree, s: Text, c: nat, wild: Option<Remembered>, acc: seq<Capture>)
    requires AtBoundary(s, c) && Lexing.Step(s, c).0.Literal?
    ensures var (tok, next) := Lexing.Step(s, c);
            var w := if t.special.WildcardEdge? then Some(Remembered(t.special.route, tok.ptr)) else wild;
            var st := Choose(t, tok.text);
            WalkFrom(t, s, c, wild, acc) ==
            if st.Some? then
              WalkFrom(Down(t, st.value).value, s, next, w, acc + CaptureOf(st.value, Seg(tok.ptr, tok.text)))
            else if w.Some? then Found(w.value.route, acc + [Suffix(w.value.start, |s|)])
            else NotFound
  {
  }

  lemma WalkAtRest(t: Tree, s: Text, c: nat, wild: Option<Remembered>, acc: seq<Capture>)
    requires AtBoundary(s, c) && !Lexing.Step(s, c).0.Literal?
    ensures WalkFrom(t, s, c, wild, acc) ==
            var r := AtLast(t, Lexing.Step(s, c).0);
            if r.Some? then Found(r.value, acc) else NotFound
  {
  }

  /** The most slots in use along what is left of the request. */
  function PeakFrom(t: Tree, s: Text, c: nat, wild: Option<Remembered>, n: nat): nat
    requires AtBoundary(s, c)
  {
    ParamBounds.Peak(t, Lexing.Segments(s, c), wild, n)
  }

  lemma PeakAtLiteral(t: Tree, s: Text, c: nat, wild: Option<Remembered>, n: nat)
    requires AtBoundary(s, c) && Lexing.Step(s, c).0.Literal?
    ensures var (tok, next) := Lexing.Step(s, c);
            var w := if t.special.WildcardEdge? then Some(Remembered(t.special.route, tok.ptr)) else wild;
            var st := Choose(t, tok.text);
            PeakFrom(t, s, c, wild, n) ==
            if st.Some? then
              PeakFrom(Down(t, st.value).value, s, next, w, n + |CaptureOf(st.value, Seg(tok.ptr, tok.text))|)
            else if w.Some? then n + 1
            else n
  {
    var tok, next := Lexing.Step(s, c).0, Lexing.Step(s, c).1;
    assert Lexing.Segments(s, c) == [Seg(tok.ptr, tok.text)] + Lexing.Segments(s, next);
  }

  lemma PeakAtRest(t: Tree, s: Text, c: nat, wild: Option<Remembered>, n: nat)
    requires AtBoundary(s, c) && !Lexing.Step(s, c).0.Literal?
    ensures PeakFrom(t, s, c, wild, n) == n
  {
  }

  lemma LiteralHasNoNul(s: Text, c: nat)
    requires AtBoundary(s, c) && Lexing.Step(s, c).0.Literal?
    ensures 0 !in Lexing.Step(s, c).0.text
  {
  }

  // ---- What a node's words say ----

  lemma HeadSays(d: Dictionaries, terms: seq<Terminal>, g: seq<Word>, o: nat, t: Tree)
    requires Encodes(d, terms, g, o, t) && Compilable(d, t)
    ensures NodeOk(d, terms, g, o, t) && o < o + EdgeBase(t) <= |g| && LiteralCount(g[o]) == |t.kids|
    ensures HasFlag(g[o], NODE_FLAG_TERMINAL) <==> t.terminal.Some?
    ensures HasFlag(g[o], NODE_FLAG_HAS_PARAM) <==> t.special.ParamEdge?
    ensures HasFlag(g[o], NODE_FLAG_HAS_WILDCARD) <==> t.special.WildcardEdge?
    ensures HasFlag(g[o], NODE_FLAG_HAS_TRAILING) <==> t.trailing.Some?
    ensures t.special.ParamEdge? ==>
              o + 2 < |g| && g[o + 1] == SymbolOf(d.params, t.special.name) && g[o + 2] == SpecialOffset(t, o)
    ensures t.special.WildcardEdge? ==> Terminal(g[o + 1], t.special.route) in terms
    ensures t.trailing.Some? ==> Terminal(g[o + 1 + SpecialWords(t)], t.trailing.value) in terms
    ensures t.terminal.Some? ==> Terminal(o, t.terminal.value) in terms
  {
    hide SpecialOffset, TrailingOffset, Size, EdgesOk;
    NodeWordUnpacks(t);
  }

  /** Where the special edge leads, the tree goes on. */
  lemma ParamIsBelow(d: Dictionaries, terms: seq<Terminal>, g: seq<Word>, o: nat, t: Tree)
    requires Encodes(d, terms, g, o, t) && Compilable(d, t) && t.special.ParamEdge?
    ensures Encodes(d, terms, g, SpecialOffset(t, o), t.special.sub) && Compilable(d, t.special.sub)
    ensures t.special.name in d.params && o < SpecialOffset(t, o)
  {
    SpecialAfterHeader(t, o);
  }

  lemma KidIsBelow(d: Dictionaries, terms: seq<Terminal>, g: seq<Word>, o: nat, t: Tree, i: nat)
    requires Encodes(d, terms, g, o, t) && Compilable(d, t) && i < |t.kids|
    ensures Encodes(d, terms, g, KidOffset(t, o, i), t.kids[i].tree) && Compilable(d, t.kids[i].tree)
    ensures o < KidOffset(t, o, i)
  {
    KidExtent(t, o, i);
  }

  lemma WantedFindsKid(d: Dictionaries, o: nat, t: Tree, x: Text, e: Edge)
    requires Compilable(d, t) && e in WantedEdges(d, t, o) && e.symbol == SymbolOf(d.literals, x) != 0
    ensures Find(t.kids, x).Some? && e.target == KidOffset(t, o, Find(t.kids, x).value)
  {
    hide KidOffset;
    var wanted := WantedEdges(d, t, o);
    var i :| 0 <= i < |wanted| && wanted[i] == e;
    assert t.kids[i].text in d.literals;
    assert t.kids[i].text == x;
  }

  lemma KidIsWanted(d: Dictionaries, o: nat, t: Tree, x: Text) returns (e: Edge)
    requires Compilable(d, t) && Find(t.kids, x).Some?
    ensures e in WantedEdges(d, t, o) && e.symbol == SymbolOf(d.literals, x) != 0
  {
    hide KidOffset;
    var i := Find(t.kids, x).value;
    assert t.kids[i].text in d.literals;
    e := WantedEdges(d, t, o)[i];
  }

  /** The edge with a text's symbol leads to the child with that text; without the edge there is no such child. */
  lemma EdgeFindsKid(d: Dictionaries, terms: seq<Terminal>, g: seq<Word>, o: nat, t: Tree, x: Text)
    requires NodeOk(d, terms, g, o, t) && Compilable(d, t)
    ensures var edges := EdgesAt(g, o + EdgeBase(t), |t.kids|);
            forall e | e in edges && e.symbol == SymbolOf(d.literals, x) && e.symbol != 0 ::
              Find(t.kids, x).Some? && e.target == KidOffset(t, o, Find(t.kids, x).value)
    ensures var edges := EdgesAt(g, o + EdgeBase(t), |t.kids|);
            Find(t.kids, x).Some? ==>
              SymbolOf(d.literals, x) != 0 && exists e :: e in edges && e.symbol == SymbolOf(d.literals, x)
  {
    hide KidOffset, Size, HeadOk, OwnTerminals, Compilable, SymbolOf, AscendingEdges;
    var edges, wanted := EdgesAt(g, o + EdgeBase(t), |t.kids|), WantedEdges(d, t, o);
    Permutations.PermutationKeepsMembers(wanted, edges);
    forall e | e in edges && e.symbol == SymbolOf(d.literals, x) && e.symbol != 0
      ensures Find(t.kids, x).Some? && e.target == KidOffset(t, o, Find(t.kids, x).value)
    {
      WantedFindsKid(d, o, t, x, e);
    }
    if Find(t.kids, x).Some? {
      var e := KidIsWanted(d, o, t, x);
    }
  }

  /** The edge with a symbol, by bisection among many edges, which are in order, else one by one. */
  method FindEdge(g: array<Word>, base: nat, n: nat, symbol: nat) returns (target: Option<nat>)
    requires base + 2 * n <= g.Length
    requires n > 16 ==> AscendingEdges(EdgesAt(g[..], base, n))
    ensures target.Some? ==> Edge(symbol, target.value) in EdgesAt(g[..], base, n)
    ensures target == None ==> forall e | e in EdgesAt(g[..], base, n) :: e.symbol != symbol
  {
    ghost var edges := EdgesAt(g[..], base, n);
    if n > 16 {
      var low, high := 0, n;
      while low < high
        invariant low <= high <= n
        invariant forall i | 0 <= i < low || high <= i < n :: edges[i].symbol != symbol
      {
        var mid := low + (high - low) / 2;
        assert edges[mid] == Edge(g[base + mid * 2], g[base + mid * 2 + 1]);
        var cond := symbol - g[base + mid * 2];
        if cond < 0 {
          high := mid;
        } else if cond > 0 {
          low := mid + 1;
        } else {
          return Some(g[base + mid * 2 + 1]);
        }
      }
    } else {
      var i := 0;
      while i < n
        invariant i <= n && forall k | 0 <= k < i :: edges[k].symbol != symbol
      {
        assert edges[i] == Edge(g[base + i * 2], g[base + i * 2 + 1]);
        if g[base + i * 2] == symbol {
          return Some(g[base + i * 2 + 1]);
        }
        i := i + 1;
      }
    }
    return None;
  }

  /** Finds where a literal leads from a node: to the child with exactly this text, if there is one. */
  method FollowLiteral(router: Router, base: nat, n: nat, text: Text, ghost d: Dictionaries, ghost o: nat,
                       ghost t: Tree)
    returns (target: Option<nat>)
    requires router.literals.Holds(d.literals) && 0 !in text && Compilable(d, t)
    requires NodeOk(d, router.terminals.Entries(), router.graph[..], o, t)
    requires base == o + EdgeBase(t) && n == |t.kids|
    ensures target == if Find(t.kids, text).Some? then Some(KidOffset(t, o, Find(t.kids, text).value)) else None
  {
    hide Symbols.Holds, Compilable, Size, KidOffset, EdgeBase, HeadOk, OwnTerminals, SymbolOf;
    EdgeFindsKid(d, router.terminals.Entries(), router.graph[..], o, t, text);
    if n > 0 {
      var symbol := router.literals.NResolve(text, d.literals);
      if symbol != 0 {
        target := FindEdge(router.graph, base, n, symbol);
        return;
      }
    }
    return None;
  }

  /** Every terminating offset finds its own route. */
  method RouteOf(router: Router, ref: nat, ghost route: Route) returns (r: Option<Route>)
    requires router.terminals.Valid() && Increasing(router.terminals.Entries())
    requires Terminal(ref, route) in router.terminals.Entries()
    ensures r == Some(route)
  {
    r := router.terminals.Lookup(ref);
    TerminalDictionary.RefHasOneRoute(router.terminals.Entries(), ref, route, if r.Some? then r.value else route);
  }

  /** The symbol stored at a parameter edge gives the parameter's name back. */
  method ParamName(router: Router, symbol: nat, ghost names: seq<Text>, ghost x: Text) returns (name: Text)
    requires router.params.Holds(names) && x in names && symbol == SymbolOf(names, x)
    ensures name == x
  {
    router.params.ResolveThenLookup(names, x);
    name := router.params.Lookup(symbol).value;
  }

  // ---- The names that are recorded ----

  /** Every name can be stored with a terminator. */
  predicate NamesEnd(captures: seq<Capture>) {
    forall i | 0 <= i < |captures| :: 0 !in captures[i].name
  }

  lemma {:induction false} WalkCapturesNames(d: Dictionaries, t: Tree, segs: seq<Seg>, last: Token, length: nat,
                                             wild: Option<Remembered>, acc: seq<Capture>)
    requires Compilable(d, t) && NamesEnd(acc)
    ensures var m := Walk(t, segs, last, length, wild, acc); m.Found? ==> NamesEnd(m.captures)
    decreases |segs|
  {
    if segs != [] {
      var st := Choose(t, segs[0].text);
      if st.Some? {
        CompilableParts(d, t);
        WalkCapturesNames(d, Down(t, st.value).value, segs[1..], last, length, Remember(t, segs, wild),
                          acc + CaptureOf(st.value, segs[0]));
      }
    }
  }
}

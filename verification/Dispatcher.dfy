/** The reusable dispatcher: matches one request after another against a compiled router. */
module Dispatchers {
  import opened Wrappers
  import opened Bytes
  import opened Tokens
  import opened Lexing
  import opened RouteTree
  import opened SymbolLists
  import opened Compatibility
  import opened Ledgers
  import opened GraphLayout
  import opened ParamBounds
  import opened ListBounds
  import opened Routers
  import opened Resolution
  import opened Matching
  import Acceptance

  /** What a match comes to, with the parameters left behind. */
  function Outcome(route: Option<Route>, params: seq<Capture>): Match {
    if route.Some? then Found(route.value, params) else NotFound
  }

  /** The wildcard edge that is remembered, and the start of the segment read at it. */
  ghost predicate WildOk(g: seq<Word>, terms: seq<Terminal>, wEdge: Option<nat>, wParam: nat,
                         wild: Option<Remembered>) {
    && (wEdge.Some? <==> wild.Some?)
    && (wild.Some? ==>
      wEdge.value < |g| && Terminal(g[wEdge.value], wild.value.route) in terms && wParam == wild.value.start)
  }

  class Dispatcher {
    const router: Router
    const lx: Lexer
    const base: array<Capture>          // as many slots as the router reserves
    var count: nat
    ghost var written: seq<Capture>     // what has been written into the slots in use, also past the last
    ghost var peak: nat                 // the most slots that the request has had in use
    ghost var overran: bool             // some write, for this or an earlier request, has left the buffer

    /** Every slot in use that there is holds what was written into it. */
    ghost predicate SlotsOk()
      reads this, base
    {
      forall i | 0 <= i < |written| && i < base.Length :: base[i] == written[i]
    }

    ghost predicate Valid()
      reads this, base, lx, router
    {
      lx.Valid() && base.Length == router.maxParams && count == |written| && SlotsOk()
    }

    /** The recorded parameters. */
    function Params(): (params: seq<Capture>)
      reads this, base
      ensures count <= base.Length ==> params == base[..count]
    {
      if count <= base.Length then base[..count] else base[..]
    }

    constructor (router: Router)
      ensures this.router == router && Valid() && fresh(lx) && fresh(base)
      ensures count == 0 && !overran
    {
      this.router := router;
      lx := new Lexer();
      base := new Capture[router.maxParams](_ => Capture([], 0, 0));
      count, written, peak, overran := 0, [], 0, false;
    }

    /** Takes the next slot. There is no check: past the last slot the write is lost to the buffer and leaves it. */
    method ParamNext(c: Capture)
      requires Valid()
      modifies `count, `written, `peak, `overran, base
      ensures Valid() && written == old(written) + [c] && count == old(count) + 1
      ensures peak == Max(old(peak), count)
      ensures overran <==> old(overran) || count > base.Length
    {
      if count < base.Length {
        base[count] := c;
      } else {
        overran := true;
      }
      written := written + [c];
      count := count + 1;
      peak := Max(peak, count);
    }

    /** The loop's cursor stands on the node of this subtree, and the remembered wildcard is this one. */
    ghost predicate Stands(d: Dictionaries, cursor: nat, wEdge: Option<nat>, wParam: nat, here: Tree,
                           wild: Option<Remembered>)
      reads router, router.graph, router.terminals, router.terminals.refs, router.terminals.base
    {
      && Encodes(d, router.terminals.Entries(), router.graph[..], cursor, here) && Compilable(d, here)
      && WildOk(router.graph[..], router.terminals.Entries(), wEdge, wParam, wild)
    }

    /** No route: the parameters are dropped. */
    method Miss() returns (route: Option<Route>)
      requires Valid()
      modifies `count, `written
      ensures Valid() && Outcome(route, written) == NotFound && written == []
    {
      count, written := 0, [];
      return None;
    }

    /** Stops at the remembered wildcard, with the rest of the path as its parameter. */
    method AtWildcard(wEdge: nat, wParam: nat, ghost d: Dictionaries, ghost t: Tree, ghost w: Remembered)
      returns (route: Option<Route>)
      requires router.Ready(d, t) && Valid() && peak == count
      requires WildOk(router.graph[..], router.terminals.Entries(), Some(wEdge), wParam, Some(w))
      modifies `count, `written, `peak, `overran, base
      ensures Valid() && count == peak == old(peak) + 1 && (overran <==> old(overran) || peak > base.Length)
      ensures route == Some(w.route) && written == old(written) + [Suffix(w.start, |lx.str|)]
    {
      hide Encodes, Compilable, Sound, TerminalsOf, Size, Reserve, Sum, Symbols.Holds, Increasing, Dispatcher.SlotsOk;
      ParamNext(Capture(WILDCARD_PARAM, wParam, |lx.str| - wParam));
      TerminalsIncrease(t, 0);
      route := RouteOf(router, router.graph[wEdge], w.route);
    }

    /** Goes down an edge or stops, for a literal token read at a node. */
    method AtLiteral(tok: Token, node: nat, edges: nat, wEdge: Option<nat>, wParam: nat, ghost d: Dictionaries,
                     ghost t: Tree, ghost here: Tree, ghost w: Option<Remembered>)
      returns (more: bool, route: Option<Route>, cursor: nat, ghost below: Tree)
      requires router.Ready(d, t) && Stands(d, node, wEdge, wParam, here, w) && Valid()
      requires edges == node + EdgeBase(here) && tok.Literal? && 0 !in tok.text
      requires peak == count && (count > base.Length ==> overran)
      modifies `count, `written, `peak, `overran, base
      ensures Valid() && old(peak) <= peak && (overran <==> old(overran) || peak > base.Length)
      ensures var st := Choose(here, tok.text);
              && (more <==> st.Some?)
              && (more ==>
                    && below == Down(here, st.value).value && Stands(d, cursor, wEdge, wParam, below, w)
                      && node < cursor
                    && written == old(written) + CaptureOf(st.value, Seg(tok.ptr, tok.text)) && peak == count)
              && (!more ==>
                    && Outcome(route, written) ==
                       (if w.Some? then Found(w.value.route, old(written) + [Suffix(w.value.start,
                           |lx.str|)]) else NotFound)
                    && peak == old(peak) + (if w.Some? then 1 else 0) && count <= peak
                    && (route == None ==> written == []))
    {
      hide Encodes, Compilable, Sound, TerminalsOf, Size, Header, KidOffset, SpecialOffset, TrailingOffset, Reserve,
           Sum, Symbols.Holds, Increasing, LiteralCount, HasFlag, NodeOk, SymbolOf, EdgeBase, Dispatcher.SlotsOk;
      ghost var g, terms := router.graph[..], router.terminals.Entries();
      below, cursor, route, more := here, node, None, true;
      HeadSays(d, terms, g, node, here);
      var word := router.graph[node];
      var target := FollowLiteral(router, edges, LiteralCount(word), tok.text, d, node, here);
      if target.Some? {
        KidIsBelow(d, terms, g, node, here, Find(here.kids, tok.text).value);
        cursor, below := target.value, here.kids[Find(here.kids, tok.text).value].tree;
        return;
      }
      if HasFlag(word, NODE_FLAG_HAS_PARAM) {
        ParamIsBelow(d, terms, g, node, here);
        var name := ParamName(router, router.graph[node + 1], d.params, here.special.name);
        ParamNext(Capture(name, tok.ptr, |tok.text|));
        cursor, below := router.graph[node + 2], here.special.sub;
        return;
      }
      more := false;
      if wEdge != None {
        route := AtWildcard(wEdge.value, wParam, d, t, w.value);
        return;
      }
      route := Miss();
    }

    /** Reads the edges before the literals off the node at the cursor. */
    method ReadHead(tok: Token, node: nat, wEdge: Option<nat>, wParam: nat, ghost d: Dictionaries, ghost here: Tree,
                    ghost wild: Option<Remembered>)
      returns (edges: nat, wEdge': Option<nat>, wParam': nat, tEdge: Option<nat>, ghost wild': Option<Remembered>)
      requires Stands(d, node, wEdge, wParam, here, wild)
      ensures Stands(d, node, wEdge', wParam', here, wild')
      ensures tok.Literal? ==>
                wild' == if here.special.WildcardEdge? then Some(Remembered(here.special.route, tok.ptr)) else wild
      ensures edges == node + EdgeBase(here)
      ensures tEdge.Some? <==> here.trailing.Some?
      ensures tEdge.Some? ==> tEdge.value < router.graph.Length
                              && Terminal(router.graph[tEdge.value], here.trailing.value) in router.terminals.Entries()
    {
      hide Encodes, Compilable, Size, Header, SpecialOffset, TrailingOffset, HasFlag, LiteralCount, NodeOk, SymbolOf;
      HeadSays(d, router.terminals.Entries(), router.graph[..], node, here);
      wEdge', wParam', tEdge, wild' := wEdge, wParam, None, wild;
      var word := router.graph[node];
      edges := node + 1;
      if HasFlag(word, NODE_FLAG_HAS_PARAM) {
        edges := edges + 2;
      }
      if HasFlag(word, NODE_FLAG_HAS_WILDCARD) {
        wEdge', wParam' := Some(edges), if tok.Literal? then tok.ptr else 0;
        wild' := Some(Remembered(here.special.route, wParam'));
        edges := edges + 1;
      }
      if HasFlag(word, NODE_FLAG_HAS_TRAILING) {
        tEdge := Some(edges);
        edges := edges + 1;
      }
    }

    /** Stops at a node, for a token that is no literal: at its own route, its trailing node's, or none. */
    method AtRest(tok: Token, node: nat, tEdge: Option<nat>, ghost wEdge: Option<nat>, ghost wParam: nat,
                  ghost d: Dictionaries, ghost t: Tree, ghost here: Tree, ghost wild: Option<Remembered>)
      returns (route: Option<Route>)
      requires router.Ready(d, t) && Valid() && !tok.Literal? && Stands(d, node, wEdge, wParam, here, wild)
      requires tEdge.Some? <==> here.trailing.Some?
      requires tEdge.Some? ==> tEdge.value < router.graph.Length
                               && Terminal(router.graph[tEdge.value], here.trailing.value) in router.terminals.Entries()
      modifies `count, `written
      ensures Valid() && count <= old(count)
      ensures Outcome(route, written) ==
              if AtLast(here, tok).Some? then Found(AtLast(here, tok).value, old(written)) else NotFound
      ensures route == None ==> written == []
    {
      hide Encodes, Compilable, Sound, TerminalsOf, Size, Reserve, Sum, Symbols.Holds, Increasing, NodeOk, EdgeBase,
           HasFlag, LiteralCount, SymbolOf, SpecialWords, SpecialOffset, Dispatcher.SlotsOk;
      HeadSays(d, router.terminals.Entries(), router.graph[..], node, here);
      TerminalsIncrease(t, 0);
      if tok.Trailing? && tEdge != None {
        route := RouteOf(router, router.graph[tEdge.value], here.trailing.value);
      } else if tok.End? && HasFlag(router.graph[node], NODE_FLAG_TERMINAL) {
        route := RouteOf(router, node, here.terminal.value);
      } else {
        route := Miss();
      }
    }

    /** One turn of the loop: the next token, read at the node under the cursor. */
    method Turn(cursor: nat, wEdge: Option<nat>, wParam: nat, ghost d: Dictionaries, ghost t: Tree, ghost here: Tree,
                ghost wild: Option<Remembered>)
      returns (more: bool, route: Option<Route>, cursor': nat, wEdge': Option<nat>, wParam': nat, ghost here': Tree,
               ghost wild': Option<Remembered>)
      requires router.Ready(d, t) && Stands(d, cursor, wEdge, wParam, here, wild) && Valid()
      requires peak == count && (count > base.Length ==> overran)
      modifies `count, `written, `peak, `overran, base, lx`cursor
      ensures Valid() && lx.str == old(lx.str)
      ensures old(peak) <= peak && count <= peak && (overran <==> old(overran) || peak > base.Length)
      ensures more ==>
                && Stands(d, cursor', wEdge', wParam', here', wild') && peak == count
                && old(lx.cursor) < lx.cursor && cursor < cursor'
                && WalkFrom(here', lx.str, lx.cursor, wild', written) ==
                  old(WalkFrom(here, lx.str, lx.cursor, wild, written))
                && PeakFrom(here', lx.str, lx.cursor, wild', count) ==
                  old(PeakFrom(here, lx.str, lx.cursor, wild, count))
      ensures !more ==>
                && Outcome(route, written) == old(WalkFrom(here, lx.str, lx.cursor, wild, written))
                && peak == old(PeakFrom(here, lx.str, lx.cursor, wild, count))
                && (route == None ==> written == [])
    {
      hide WalkFrom, PeakFrom, Encodes, Compilable, Sound, TerminalsOf, Size, Header, KidOffset, SpecialOffset,
           TrailingOffset, Reserve, Sum, Symbols.Holds, Increasing, NodeOk, EdgeBase, HasFlag, LiteralCount, SymbolOf,
           SpecialWords, WildOk, AtBoundary, Choose, Remember, Dispatcher.SlotsOk, Dispatcher.Stands, Router.Ready;
      var tok := lx.Next();
      var edges, tEdge;
      edges, wEdge', wParam', tEdge, wild' := ReadHead(tok, cursor, wEdge, wParam, d, here, wild);
      more, route, cursor', here' := false, None, cursor, here;
      if tok.Literal? {
        WalkAtLiteral(here, lx.str, old(lx.cursor), wild, written);
        PeakAtLiteral(here, lx.str, old(lx.cursor), wild, count);
        LiteralHasNoNul(lx.str, old(lx.cursor));
        more, route, cursor', here' := AtLiteral(tok, cursor, edges, wEdge', wParam', d, t, here, wild');
      } else {
        WalkAtRest(here, lx.str, old(lx.cursor), wild, written);
        PeakAtRest(here, lx.str, old(lx.cursor), wild, count);
        route := AtRest(tok, cursor, tEdge, wEdge', wParam', d, t, here, wild');
      }
    }

    /** Matches what is loaded: exactly the walk of the tree that the graph was compiled from, as long as no write
      * leaves the buffer; a write leaves it iff the walk needs more slots than are reserved. */
    method RouteMatch(ghost d: Dictionaries, ghost t: Tree) returns (route: Option<Route>)
      requires router.Ready(d, t) && Valid()
      modifies `count, `written, `peak, `overran, base, lx`cursor
      ensures Valid() && lx.str == old(lx.str)
      ensures peak == old(PeakFrom(t, lx.str, lx.cursor, None, 0))
      ensures overran <==> old(overran) || peak > base.Length
      ensures !overran ==> Outcome(route, Params()) == old(WalkFrom(t, lx.str, lx.cursor, None, []))
      ensures !overran ==> count <= base.Length && (route == None ==> count == 0)
    {
      hide WalkFrom, PeakFrom, Encodes, Compilable, Sound, TerminalsOf, Size, Reserve, Sum, Symbols.Holds, LiteralCount;
      count, written, peak, route := 0, [], 0, None;
      var cursor: nat, wEdge: Option<nat>, wParam: nat := 0, None, 0;
      ghost var here, wild := t, None;
      var more := true;
      while more
        invariant Valid() && lx.str == old(lx.str) && (overran <==> old(overran) || peak > base.Length)
        invariant more ==> Stands(d, cursor, wEdge, wParam, here, wild) && peak == count
        invariant more ==>
                    WalkFrom(here, lx.str, lx.cursor, wild, written) == old(WalkFrom(t, lx.str, lx.cursor, None, []))
        invariant more ==>
                    PeakFrom(here, lx.str, lx.cursor, wild, count) == old(PeakFrom(t, lx.str, lx.cursor, None, 0))
        invariant !more ==> Outcome(route, written) == old(WalkFrom(t, lx.str, lx.cursor, None, []))
        invariant !more ==> peak == old(PeakFrom(t, lx.str, lx.cursor, None, 0)) && count <= peak
        invariant !more && route == None ==> written == []
        decreases more, |lx.str| - lx.cursor
      {
        more, route, cursor, wEdge, wParam, here, wild := Turn(cursor, wEdge, wParam, d, t, here, wild);
      }
      assert !overran ==> Params() == written;
    }

    /** Loads a path and matches it, on a fresh or a reused dispatcher alike. A write leaves the buffer iff the list of
      * patterns says that the path overruns. Unless that has happened, the answer is what a scan of the list says and
      * nothing else. */
    method Match(path: Option<Text>, ghost d: Dictionaries, ghost t: Tree, ghost entries: seq<Entry>)
      returns (route: Option<Route>)
      requires router.Serves(d, t, entries) && Valid()
      modifies `count, `written, `peak, `overran, base, lx
      ensures Valid() && lx.str == Loaded(path)
      ensures overran <==> old(overran) || Overruns(entries, Lexing.Segments(Loaded(path), 0))
      ensures peak <= router.maxParams + 1
      ensures !overran ==>
                var s := Loaded(path);
                forall m :: Scan(entries, Lexing.Segments(s, 0), Last(s, 0), |s|, m) <==> m == Outcome(route, Params())
      ensures !overran ==>
                && count <= base.Length && (route == None ==> count == 0)
                && AllSlices(Loaded(path), Params()) && NamesEnd(Params())
    {
      hide Scan, Walk, Sound, Acceptance.Holds, Reserve, Compilable, Encodes, TerminalsOf, Size, Sum, Overruns, Peak;
      lx.Load(path);
      ghost var s := Loaded(path);
      ghost var segs := Lexing.Segments(s, 0);
      route := RouteMatch(d, t);
      OverrunsIff(t, entries, segs);
      PeakExceedsReserveIff(t, segs);
      forall m ensures Scan(entries, segs, Last(s, 0), |s|, m) <==> m == Walk(t, segs, Last(s, 0), |s|, None, []) {
        WalkIsScan(t, entries, segs, Last(s, 0), |s|, m);
      }
      SegmentsLie(s, 0);
      WalkCapturesSlices(t, s, segs, Last(s, 0), None, []);
      WalkCapturesNames(d, t, segs, Last(s, 0), |s|, None, []);
    }

    /** Resolves a path to the context of its route, or of the fallback. */
    method Resolve(path: Option<Text>, ghost d: Dictionaries, ghost t: Tree, ghost entries: seq<Entry>)
      returns (ctx: nat)
      requires router.Serves(d, t, entries) && Valid()
      modifies `count, `written, `peak, `overran, base, lx
      ensures Valid() && (overran <==> old(overran) || Overruns(entries, Lexing.Segments(Loaded(path), 0)))
      ensures !overran ==>
                var s := Loaded(path);
                forall m :: Scan(entries, Lexing.Segments(s, 0), Last(s, 0), |s|, m) ==>
                  ctx == (if m.Found? then m.route else router.fallback).ctx
                  && Params() == if m.Found? then m.captures else []
    {
      hide Scan, Overruns, Router.Serves;
      var route := Match(path, d, t, entries);
      if route == None {
        return router.fallback.ctx;
      }
      return route.value.ctx;
    }

    /** The call that dispatching a path makes: the handler with its context, unless it is null (0). */
    method Dispatch(path: Option<Text>, ghost d: Dictionaries, ghost t: Tree, ghost entries: seq<Entry>)
      returns (call: Option<Route>)
      requires router.Serves(d, t, entries) && Valid()
      modifies `count, `written, `peak, `overran, base, lx
      ensures Valid() && (overran <==> old(overran) || Overruns(entries, Lexing.Segments(Loaded(path), 0)))
      ensures !overran ==>
                var s := Loaded(path);
                forall m :: Scan(entries, Lexing.Segments(s, 0), Last(s, 0), |s|, m) ==>
                  var r := if m.Found? then m.route else router.fallback;
                  call == (if r.handler != 0 then Some(r) else None)
                  && Params() == if m.Found? then m.captures else []
    {
      hide Scan, Overruns, Router.Serves;
      var route := Match(path, d, t, entries);
      if route == None {
        route := Some(router.fallback);
      }
      return if route.value.handler != 0 then route else None;
    }
  }
}

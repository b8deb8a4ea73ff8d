/** The compiled router, and the compilation of its graph. */
module Routers {
  import opened Wrappers
  import opened RouteTree
  import Compatibility
  import SymbolTables
  import opened SymbolLists
  import opened Segments
  import opened SegmentWalks
  import opened Ledgers
  import opened GraphLayout
  import opened TerminalDictionary
  import opened EdgeSort
  import ParamBounds
  import Acceptance

  /** A tree that can be compiled with these dictionaries: every text has a symbol, every node fits a word. */
  ghost predicate Compilable(d: Dictionaries, t: Tree) {
    && DistinctTexts(t.kids) && |t.kids| <= NODE_MAX_CHILD_COUNT && !t.special.HalfParam?
    && (forall i | 0 <= i < |t.kids| ::
          t.kids[i].text in d.literals && 0 !in t.kids[i].text && Compilable(d, t.kids[i].tree))
    && (t.special.ParamEdge? ==>
          t.special.name in d.params && 0 !in t.special.name && Compilable(d, t.special.sub))
  }

  lemma CompilableParts(d: Dictionaries, t: Tree)
    requires Compilable(d, t)
    ensures DistinctTexts(t.kids) && |t.kids| <= NODE_MAX_CHILD_COUNT && !t.special.HalfParam?
    ensures forall i | 0 <= i < |t.kids| :: Compilable(d, t.kids[i].tree)
    ensures t.special.ParamEdge? ==> 0 !in t.special.name && Compilable(d, t.special.sub)
  {
  }

  /** What there is to start compiling a child from. */
  lemma KidToCompile(d: Dictionaries, terms: seq<Terminal>, g: seq<Word>, capacity: nat, o: nat, t: Tree, i: nat)
    requires i < |t.kids| && KidsCompiled(d, terms, g, capacity, o, t, i)
    ensures var cur, size := KidOffset(t, o, i), Size(t.kids[i].tree);
            && o + EdgeBase(t) + 2 * i + 1 < o + Header(t) <= cur && cur + size == KidOffset(t, o, i + 1) <= |g|
            && ZeroIn(g, cur, cur + size)
    ensures |terms| + Sum(t.kids[i].tree, EACH) <= capacity
  {
    hide KidsEncoded, EdgesWritten, Size, KidOffset, Header, EdgeBase;
    KidExtent(t, o, i);
    EdgeBeforeKids(t, o, i);
    KidSumGrows(t.kids, i + 1, |t.kids|, EACH);
  }

  lemma KidsStart(d: Dictionaries, terms: seq<Terminal>, g: seq<Word>, capacity: nat, o: nat, t: Tree)
    requires o + Size(t) <= |g| && EdgesWritten(d, g, o, t, 0) && ZeroIn(g, o + Header(t), o + Size(t))
    requires |terms| + KidSum(t.kids, |t.kids|, EACH) <= capacity
    ensures KidOffset(t, o, 0) == o + Header(t)
    ensures KidsCompiled(d, terms, g, capacity, o, t, 0)
  {
  }

  lemma NoKids(d: Dictionaries, terms: seq<Terminal>, g: seq<Word>, o: nat, t: Tree)
    requires t.kids == [] && o + Header(t) <= |g|
    ensures SpecialOffset(t, o) == o + EdgeBase(t)
    ensures LiteralsCompiled(d, terms, g, o, t)
    ensures KidsTerminals(t, o, 0) == []
  {
  }

  lemma WantedEdgesAreDistinct(d: Dictionaries, t: Tree, o: nat)
    requires Compilable(d, t)
    ensures DistinctSymbols(WantedEdges(d, t, o))
  {
  }

  lemma SpecialInHead(t: Tree, o: nat)
    ensures t.special.ParamEdge? ==>
              o + 2 < o + EdgeBase(t) && TrailingOffset(t, o) == SpecialOffset(t, o) + Size(t.special.sub)
    ensures t.special.WildcardEdge? ==> o + 1 < o + EdgeBase(t) && TrailingOffset(t, o) == SpecialOffset(t, o) + 1
    ensures SpecialWords(t) == 0 ==> TrailingOffset(t, o) == SpecialOffset(t, o)
  {
  }

  /** Sorting the written edges finishes the literals of a node. */
  lemma SortFinishesLiterals(d: Dictionaries, terms: seq<Terminal>, g: seq<Word>, g': seq<Word>, capacity: nat,
                             o: nat, t: Tree)
    requires Compilable(d, t) && KidsCompiled(d, terms, g, capacity, o, t, |t.kids|)
    requires o + Header(t) <= |g| && SameOutside(g, g', o + EdgeBase(t), o + Header(t))
    requires SortedEdges(EdgesAt(g', o + EdgeBase(t), |t.kids|), |t.kids|)
    requires multiset(EdgesAt(g', o + EdgeBase(t), |t.kids|)) == multiset(EdgesAt(g, o + EdgeBase(t), |t.kids|))
    ensures LiteralsCompiled(d, terms, g', o, t)
  {
    hide Compilable, KidsEncoded, KidOffset, Size, Encodes;
    var wanted, edges := WantedEdges(d, t, o), EdgesAt(g, o + EdgeBase(t), |t.kids|);
    assert edges == wanted;
    WantedEdgesAreDistinct(d, t, o);
    SortedIsAscending(wanted, EdgesAt(g', o + EdgeBase(t), |t.kids|));
    SpecialAfterHeader(t, o);
    KidsEncodedKept(d, terms, terms, g, g', o, t, |t.kids|);
  }

  lemma {:induction false} KidSumGrows(kids: seq<Kid>, i: nat, j: nat, w: Weight)
    requires i <= j <= |kids|
    ensures KidSum(kids, i, w) <= KidSum(kids, j, w)
    decreases j
  {
    if i < j {
      KidSumGrows(kids, i, j - 1, w);
    }
  }

  /** Writing the parts of a node changes nothing outside its extent. */
  lemma PartsChangeNoMore(g0: seq<Word>, g1: seq<Word>, g2: seq<Word>, g3: seq<Word>, g4: seq<Word>, o: nat, t: Tree)
    requires SameOutside(g0, g1, o, o + EdgeBase(t))
    requires ChangedOnly(g1, g2, -1, o + EdgeBase(t), SpecialOffset(t, o))
    requires ChangedOnly(g2, g3, if SpecialWords(t) > 0 then SpecialEdge(t, o) else -1, SpecialOffset(t, o),
                         TrailingOffset(t, o))
    requires ChangedOnly(g3, g4, if t.trailing.Some? then TrailingEdge(t, o) else -1, TrailingOffset(t, o), o + Size(t))
    ensures SameOutside(g0, g4, o, o + Size(t))
  {
  }

  /** What lies behind the written part stays blank. */
  lemma BlankKept(g: seq<Word>, g': seq<Word>, edge: int, low: nat, next: nat, high: nat)
    requires ZeroIn(g, low, high) && ChangedOnly(g, g', edge, low, next) && edge < low <= next <= high
    ensures ZeroIn(g', next, high)
  {
  }

  lemma BlankStart(g: seq<Word>, low: nat, next: nat, high: nat)
    requires ZeroIn(g, low, high) && low <= next <= high
    ensures ZeroIn(g, low, next)
  {
  }

  lemma HeadChangesOnly(g: seq<Word>, g': seq<Word>, o: nat, next: nat, high: nat)
    requires ZeroIn(g, o, high) && o <= next <= high && SameOutside(g, g', o, next)
    ensures ZeroIn(g', next, high)
  {
  }

  // ---- References taken ----

  /** Compiling a subtree retains each context once for each route, if the callback is set. */
  ghost predicate Retained(retain: bool, before: multiset<nat>, after: multiset<nat>, t: Tree) {
    forall c :: after[c] == before[c] + (if retain then Sum(t, Carries(c)) else 0)
  }

  ghost predicate RetainedKids(retain: bool, before: multiset<nat>, after: multiset<nat>, kids: seq<Kid>, n: nat)
    requires n <= |kids|
  {
    forall c :: after[c] == before[c] + (if retain then KidSum(kids, n, Carries(c)) else 0)
  }

  lemma NoKidsRetained(retain: bool, r: multiset<nat>, kids: seq<Kid>)
    ensures RetainedKids(retain, r, r, kids, 0)
  {
  }

  ghost predicate RetainedSpecial(retain: bool, before: multiset<nat>, after: multiset<nat>, t: Tree) {
    forall c :: after[c] == before[c] + (if retain then SpecialSum(t, Carries(c)) else 0)
  }

  ghost predicate RetainedOne(retain: bool, before: multiset<nat>, after: multiset<nat>, r: Option<Route>) {
    forall c :: after[c] == before[c] + (if retain then Of(r, Carries(c)) else 0)
  }

  /** The references for the special edge's routes and the trailing slash's. */
  ghost predicate RetainedTail(retain: bool, before: multiset<nat>, after: multiset<nat>, t: Tree) {
    forall c :: after[c] == before[c] + (if retain then SpecialSum(t, Carries(c)) + Of(t.trailing, Carries(c)) else 0)
  }

  lemma RetainedTailParts(retain: bool, r2: multiset<nat>, r3: multiset<nat>, r4: multiset<nat>, t: Tree)
    requires RetainedSpecial(retain, r2, r3, t) && RetainedOne(retain, r3, r4, t.trailing)
    ensures RetainedTail(retain, r2, r4, t)
  {
  }

  lemma RetainedParts(retain: bool, r0: multiset<nat>, r1: multiset<nat>, r2: multiset<nat>, r4: multiset<nat>, t: Tree)
    requires RetainedOne(retain, r0, r1, t.terminal)
    requires RetainedKids(retain, r1, r2, t.kids, |t.kids|)
    requires RetainedTail(retain, r2, r4, t)
    ensures Retained(retain, r0, r4, t)
  {
  }

  class Router {
    var graph: array<Word>
    var literals: Symbols
    var params: Symbols
    var terminals: Terminals
    var maxParams: nat
    var numRoutes: nat
    var graphSize: nat
    const fallback: Route
    const ledger: Ledger
    const retain: bool
    const release: bool

    constructor (fallback: Route, ledger: Ledger, retain: bool, release: bool)
      ensures this.fallback == fallback && this.ledger == ledger && this.retain == retain && this.release == release
      ensures fresh(terminals) && terminals.Valid() && terminals.count == 0
    {
      this.fallback, this.ledger, this.retain, this.release := fallback, ledger, retain, release;
      literals, params := Symbols([], []), Symbols([], []);
      graph := new Word[0];
      terminals := new Terminals(0);
      maxParams, numRoutes, graphSize := 0, 0, 0;
    }

    /** The parts that compilation works with. */
    ghost predicate Equipped(d: Dictionaries)
      reads this, terminals
    {
      && literals.Holds(d.literals) && params.Holds(d.params)
      && terminals.Valid()
      && graph.Length <= SymbolTables.UINT16_MAX
      && terminals.refs != graph
    }

    method Retain(ctx: nat)
      modifies ledger`retained
      ensures ledger.retained == old(ledger.retained) + if retain then multiset{ctx} else multiset{}
    {
      if retain {
        ledger.Retain(ctx);
      }
    }

    /** Sets the terminal flag, copies the route into the dictionary, and retains its context. */
    method TerminateNode(node: nat, route: Route, w: nat)
      requires node < graph.Length && graph.Length <= SymbolTables.UINT16_MAX && terminals.refs != graph
      requires terminals.Valid() && terminals.count < terminals.refs.Length
      requires graph[node] == w && SetFlag(w, NODE_FLAG_TERMINAL) < 65536
      modifies graph, terminals`count, terminals.refs, terminals.base, ledger`retained
      ensures graph[..] == old(graph[..])[node := SetFlag(w, NODE_FLAG_TERMINAL)]
      ensures terminals.Valid() && terminals.Entries() == old(terminals.Entries()) + [Terminal(node, route)]
      ensures ledger.retained == old(ledger.retained) + if retain then multiset{route.ctx} else multiset{}
    {
      graph[node] := SetFlag(graph[node], NODE_FLAG_TERMINAL);
      terminals.Append(node, route);
      Retain(route.ctx);
    }

    /** Sets the flags of the special and trailing edges, and leaves room for the edges. */
    method MarkEdges(seg: Segment, ghost d: Dictionaries, node: nat, ghost t: Tree) returns (next: nat)
      requires params.Holds(d.params) && node + EdgeBase(t) <= graph.Length
      requires seg.specType == (match t.special
                                case ParamEdge(_, _) => SpecParam
                                case WildcardEdge(_) => SpecWildcard
                                case _ => SpecNone)
      requires t.special.ParamEdge? ==> seg.param != null && seg.param.str == t.special.name && 0 !in t.special.name
      requires seg.trailing == t.trailing && |t.kids| <= NODE_MAX_CHILD_COUNT
      requires graph[node] == |t.kids| + Flag(t.terminal.Some?, NODE_FLAG_TERMINAL)
      modifies graph
      ensures next == node + EdgeBase(t) && HeadWritten(d, graph[..], node, t)
      ensures SameOutside(old(graph[..]), graph[..], node, next)
    {
      hide Symbols.Holds, SetFlag;
      FlagsBuildNodeWord(t);
      next := node + 1;
      match seg.specType {
        case SpecParam =>
          graph[node] := SetFlag(graph[node], NODE_FLAG_HAS_PARAM);
          var symbol := params.Resolve(seg.param.str, d.params);
          graph[next] := symbol;
          next := next + 2;
        case SpecWildcard =>
          graph[node] := SetFlag(graph[node], NODE_FLAG_HAS_WILDCARD);
          next := next + 1;
        case SpecNone =>
      }
      if seg.trailing != None {
        graph[node] := SetFlag(graph[node], NODE_FLAG_HAS_TRAILING);
        next := next + 1;
      }
    }

    /** Appends the node's word, its own terminal, and room for its special and trailing edges. */
    method WriteHead(seg: Segment, ghost d: Dictionaries, ghost h: Layout, ghost root: Tree, ghost p: Path,
                     ghost t: Tree, cur: nat)
      returns (next: nat)
      requires Equipped(d) && Roots(seg, h, root, p, t)
      requires Compilable(d, t)
      requires cur + EdgeBase(t) <= graph.Length && ZeroIn(graph[..], cur, cur + EdgeBase(t))
      requires t.terminal.Some? ==> terminals.count < terminals.refs.Length
      modifies graph, terminals`count, terminals.refs, terminals.base, ledger`retained
      ensures Equipped(d) && next == cur + EdgeBase(t)
      ensures HeadWritten(d, graph[..], cur, t)
      ensures SameOutside(old(graph[..]), graph[..], cur, next)
      ensures terminals.Entries() == old(terminals.Entries()) + OneTerminal(cur, t.terminal)
      ensures RetainedOne(retain, old(ledger.retained), ledger.retained, t.terminal)
    {
      hide Roots, Symbols.Holds, SetFlag;
      RootFields(seg, h, root, p, t);
      FlagsBuildNodeWord(t);
      graph[cur] := seg.childCount;   // the word was zero
      if seg.terminal != None {
        TerminateNode(cur, seg.terminal.value, seg.childCount);
      }
      next := MarkEdges(seg, d, cur, t);
    }

    /** Writes the symbols of the literal edges, in list order; their targets come later. */
    method WriteSymbols(seg: Segment, ghost d: Dictionaries, ghost h: Layout, ghost root: Tree, ghost p: Path,
                        ghost t: Tree, base: nat)
      requires literals.Holds(d.literals) && Roots(seg, h, root, p, t)
      requires Compilable(d, t)
      requires base + 2 * |t.kids| <= graph.Length
      modifies graph
      ensures forall i | 0 <= i < |t.kids| :: graph[base + 2 * i] == SymbolOf(d.literals, t.kids[i].text)
      ensures SameOutside(old(graph[..]), graph[..], base, base + 2 * |t.kids|)
    {
      hide Roots, Symbols.Holds, SymbolOf;
      RootFields(seg, h, root, p, t);
      ghost var i := 0;
      var child, next := seg.head, base;
      while child != null
        invariant i <= |t.kids| && child == KidOrNull(h, p, i) && next == base + 2 * i
        invariant forall j | 0 <= j < i :: graph[base + 2 * j] == SymbolOf(d.literals, t.kids[j].text)
        invariant forall k | 0 <= k < graph.Length && !(base <= k < base + 2 * |t.kids|) :: graph[k] == old(graph[k])
        decreases |t.kids| - i
      {
        RootOfKid(seg, h, root, p, t, i);
        var symbol := literals.Resolve(child.str, d.literals);
        graph[next] := symbol;
        next := next + 2;
        child := child.next;
        i := i + 1;
      }
    }

    /** A final node for a wildcard or a trailing slash: its word, the edge to it, its terminal. */
    method AppendLeaf(edge: nat, cur: nat, route: Route) returns (next: nat)
      requires edge < cur < graph.Length <= SymbolTables.UINT16_MAX && terminals.refs != graph
      requires terminals.Valid() && terminals.count < terminals.refs.Length
      requires graph[cur] == 0
      modifies graph, terminals`count, terminals.refs, terminals.base, ledger`retained
      ensures next == cur + 1
      ensures graph[..] == old(graph[..])[cur := NODE_FLAG_TERMINAL][edge := cur]
      ensures terminals.Valid() && terminals.Entries() == old(terminals.Entries()) + [Terminal(cur, route)]
      ensures ledger.retained == old(ledger.retained) + if retain then multiset{route.ctx} else multiset{}
    {
      graph[cur] := SetFlag(graph[cur], NODE_FLAG_TERMINAL);
      graph[edge] := cur;
      terminals.Append(cur, route);
      Retain(route.ctx);
      next := cur + 1;
    }

    /** The first n children are compiled. */
    ghost predicate KidsDone(d: Dictionaries, o: nat, t: Tree, n: nat)
      reads this, graph, terminals, terminals.refs, terminals.base
      requires n <= |t.kids|
    {
      Equipped(d) && KidsCompiled(d, terminals.Entries(), graph[..], terminals.refs.Length, o, t, n)
    }

    /** Compiles the children one behind the other, and points the literal edges at them. */
    method CompileKids(seg: Segment, ghost d: Dictionaries, ghost h: Layout, ghost root: Tree, ghost p: Path,
                       ghost t: Tree, base: nat, cur: nat, ghost o: nat)
      returns (next: nat)
      requires Roots(seg, h, root, p, t) && Compilable(d, t)
      requires base == o + EdgeBase(t) <= cur == KidOffset(t, o, 0) && KidsDone(d, o, t, 0)
      modifies graph, terminals`count, terminals.refs, terminals.base, ledger`retained
      ensures next == SpecialOffset(t, o) && KidsDone(d, o, t, |t.kids|)
      ensures forall k | 0 <= k < graph.Length && !(base <= k < next) :: graph[k] == old(graph[k])
      ensures terminals.Entries() == old(terminals.Entries()) + KidsTerminals(t, o, |t.kids|)
      ensures RetainedKids(retain, old(ledger.retained), ledger.retained, t.kids, |t.kids|)
      decreases t, 1
    {
      hide Roots, Router.KidsDone, KidOffset, Compilable, KidsTerminals, TerminalsOf;
      RootFields(seg, h, root, p, t);
      ghost var before := terminals.Entries();
      KidsTerminalsNone(before, t, o);
      next := cur;
      var child, i := seg.head, 0;
      while child != null
        invariant i <= |t.kids| && child == KidOrNull(h, p, i) && next == KidOffset(t, o, i)
        invariant KidsDone(d, o, t, i)
        invariant forall k | 0 <= k < graph.Length && !(base <= k < next) :: graph[k] == old(graph[k])
        invariant base <= next && terminals.Entries() == before + KidsTerminals(t, o, i)
        invariant RetainedKids(retain, old(ledger.retained), ledger.retained, t.kids, i)
        decreases |t.kids| - i
      {
        CompilableParts(d, t);
        RootOfKid(seg, h, root, p, t, i);
        KidsTerminalsOneMore(before, t, o, i);
        next := CompileKid(child, d, h, root, p, t, base, next, o, i);
        child := child.next;
        i := i + 1;
      }
    }

    /** Compiles one child, and points its edge at it. */
    method CompileKid(child: Segment, ghost d: Dictionaries, ghost h: Layout, ghost root: Tree, ghost p: Path,
                      ghost t: Tree, base: nat, cur: nat, ghost o: nat, i: nat)
      returns (next: nat)
      requires i < |t.kids| && Roots(child, h, root, p + [Lit(t.kids[i].text)], t.kids[i].tree)
      requires Compilable(d, t.kids[i].tree)
      requires base == o + EdgeBase(t) && cur == KidOffset(t, o, i) && KidsDone(d, o, t, i)
      modifies graph, terminals`count, terminals.refs, terminals.base, ledger`retained
      ensures next == KidOffset(t, o, i + 1) && KidsDone(d, o, t, i + 1)
      ensures cur <= next && forall k | 0 <= k < graph.Length && !(base <= k < next) :: graph[k] == old(graph[k])
      ensures terminals.Entries() == old(terminals.Entries()) + TerminalsOf(t.kids[i].tree, cur)
      ensures Retained(retain, old(ledger.retained), ledger.retained, t.kids[i].tree)
      decreases t, 0
    {
      hide Roots, Compilable, Encodes, KidsCompiled, Symbols.Holds, TerminalsOf, Size, KidOffset, Header, Retained;
      ghost var kid, g, terms := t.kids[i].tree, graph[..], terminals.Entries();
      KidToCompile(d, terms, g, terminals.refs.Length, o, t, i);
      var node;
      node, next := GraphCompile(child, d, h, root, p + [Lit(t.kids[i].text)], kid, cur);
      ghost var g1 := graph[..];
      graph[base + 2 * i + 1] := node;
      KidsCompiledOneMore(d, terms, terminals.Entries(), g, g1, graph[..], terminals.refs.Length, o, t, i,
                          base + 2 * i + 1);
    }

    method SortLiterals(ghost d: Dictionaries, ghost t: Tree, base: nat, n: nat, ghost o: nat)
      requires Compilable(d, t) && KidsDone(d, o, t, |t.kids|) && base == o + EdgeBase(t) && n == |t.kids|
      modifies graph
      ensures Equipped(d) && LiteralsCompiled(d, terminals.Entries(), graph[..], o, t)
      ensures forall k | 0 <= k < graph.Length && !(base <= k < base + 2 * n) :: graph[k] == old(graph[k])
    {
      hide Compilable, Symbols.Holds, KidsEncoded, Size, Encodes, KidOffset, LiteralsCompiled, EdgesWritten;
      SpecialAfterHeader(t, o);
      ghost var g := graph[..];
      SortEdges(graph, base, n);
      SortFinishesLiterals(d, terminals.Entries(), g, graph[..], terminals.refs.Length, o, t);
    }

    /** Compiles the literal edges of a node and the children they lead to, then sorts the edges. */
    method CompileLiterals(seg: Segment, ghost d: Dictionaries, ghost h: Layout, ghost root: Tree, ghost p: Path,
                           ghost t: Tree, base: nat, ghost o: nat)
      returns (next: nat)
      requires Equipped(d) && Roots(seg, h, root, p, t) && Compilable(d, t)
      requires base == o + EdgeBase(t) && o + Size(t) <= graph.Length && ZeroIn(graph[..], base, o + Size(t))
      requires terminals.count + KidSum(t.kids, |t.kids|, EACH) <= terminals.refs.Length
      modifies graph, terminals`count, terminals.refs, terminals.base, ledger`retained
      ensures Equipped(d) && next == SpecialOffset(t, o)
      ensures LiteralsCompiled(d, terminals.Entries(), graph[..], o, t)
      ensures ChangedOnly(old(graph[..]), graph[..], -1, base, next)
      ensures terminals.Entries() == old(terminals.Entries()) + KidsTerminals(t, o, |t.kids|)
      ensures RetainedKids(retain, old(ledger.retained), ledger.retained, t.kids, |t.kids|)
      decreases t, 2
    {
      hide Roots, Compilable, Symbols.Holds, KidOffset, KidsCompiled, Size, Encodes, KidsTerminals, LiteralsCompiled,
           KidSum, RetainedKids;
      RootFields(seg, h, root, p, t);
      SpecialAfterHeader(t, o);
      if seg.childCount > 0 {
        WriteSymbols(seg, d, h, root, p, t, base);
        KidsStart(d, terminals.Entries(), graph[..], terminals.refs.Length, o, t);
        next := CompileKids(seg, d, h, root, p, t, base, base + 2 * seg.childCount, o);
        SortLiterals(d, t, base, seg.childCount, o);
      } else {
        NoKids(d, terminals.Entries(), graph[..], o, t);
        NoKidsRetained(retain, ledger.retained, t.kids);
        next := base;
      }
    }

    /** Compiles the parameter's subtree, and points the parameter edge at it. */
    method CompileParam(param: Segment, ghost d: Dictionaries, ghost h: Layout, ghost root: Tree, ghost q: Path,
                        ghost t: Tree, o: nat, cur: nat)
      returns (next: nat)
      requires t.special.ParamEdge? && Equipped(d) && Roots(param, h, root, q, t.special.sub)
               && Compilable(d, t.special.sub)
      requires o + 2 < cur == SpecialOffset(t, o) && cur + Size(t.special.sub) <= graph.Length
      requires ZeroIn(graph[..], cur, cur + Size(t.special.sub))
      requires terminals.count + Sum(t.special.sub, EACH) <= terminals.refs.Length
      modifies graph, terminals`count, terminals.refs, terminals.base, ledger`retained
      ensures Equipped(d) && next == cur + Size(t.special.sub)
      ensures SpecialCompiled(d, terminals.Entries(), graph[..], o, t)
      ensures ChangedOnly(old(graph[..]), graph[..], o + 2, cur, next)
      ensures terminals.Entries() == old(terminals.Entries()) + TerminalsOf(t.special.sub, cur)
      ensures Retained(retain, old(ledger.retained), ledger.retained, t.special.sub)
      decreases t, 1
    {
      hide Roots, Compilable, Symbols.Holds, SpecialOffset, Size, Encodes, TerminalsOf, Retained;
      ghost var sub := t.special.sub;
      var node;
      node, next := GraphCompile(param, d, h, root, q, sub, cur);
      ghost var g := graph[..];
      graph[o + 2] := node;
      EncodesKept(d, terminals.Entries(), terminals.Entries(), g, graph[..], cur, sub);
    }

    /** Compiles what the special edge leads to, and points the edge at it. */
    method CompileSpecial(seg: Segment, ghost d: Dictionaries, ghost h: Layout, ghost root: Tree, ghost p: Path,
                          ghost t: Tree, o: nat, cur: nat)
      returns (next: nat)
      requires Equipped(d) && Roots(seg, h, root, p, t) && Compilable(d, t)
      requires cur == SpecialOffset(t, o) && o + Size(t) <= graph.Length && ZeroIn(graph[..], cur, o + Size(t))
      requires terminals.count + SpecialSum(t, EACH) <= terminals.refs.Length
      modifies graph, terminals`count, terminals.refs, terminals.base, ledger`retained
      ensures Equipped(d) && next == TrailingOffset(t, o)
      ensures SpecialCompiled(d, terminals.Entries(), graph[..], o, t)
      ensures ChangedOnly(old(graph[..]), graph[..], if SpecialWords(t) > 0 then SpecialEdge(t, o) else -1, cur, next)
      ensures terminals.Entries() == old(terminals.Entries()) + SpecialTerminals(t, o)
      ensures RetainedSpecial(retain, old(ledger.retained), ledger.retained, t)
      decreases t, 2
    {
      hide Roots, Compilable, Symbols.Holds, SpecialOffset, Size, Encodes, TerminalsOf, EdgeBase, Header;
      CompilableParts(d, t);
      RootFields(seg, h, root, p, t);
      SpecialAfterHeader(t, o);
      SpecialInHead(t, o);
      match seg.specType {
        case SpecParam =>
          next := CompileParam(seg.param, d, h, root, p + [Par(t.special.name)], t, o, cur);
        case SpecWildcard =>
          next := AppendLeaf(o + 1, cur, seg.wildcard.value);
        case SpecNone =>
          next := cur;
      }
    }

    /** Appends the trailing-slash node, if there is one. */
    method CompileTrailing(seg: Segment, ghost d: Dictionaries, ghost t: Tree, edge: nat, cur: nat, ghost o: nat)
      returns (next: nat)
      requires Equipped(d) && seg.trailing == t.trailing
      requires t.trailing.Some? ==> edge == TrailingEdge(t, o)
      requires cur == TrailingOffset(t, o) && o + Size(t) <= graph.Length && ZeroIn(graph[..], cur, o + Size(t))
      requires terminals.count + Of(t.trailing, EACH) <= terminals.refs.Length
      modifies graph, terminals`count, terminals.refs, terminals.base, ledger`retained
      ensures Equipped(d) && next == o + Size(t)
      ensures t.trailing.Some? ==> TrailingEdge(t, o) < graph.Length && graph[TrailingEdge(t, o)] == cur
      ensures ChangedOnly(old(graph[..]), graph[..], if t.trailing.Some? then TrailingEdge(t, o) else -1, cur, next)
      ensures terminals.Entries() == old(terminals.Entries()) + OneTerminal(cur, t.trailing)
      ensures RetainedOne(retain, old(ledger.retained), ledger.retained, t.trailing)
    {
      hide Symbols.Holds, SpecialOffset, TrailingOffset, Size, EdgeBase, Header;
      SpecialAfterHeader(t, o);
      next := cur;
      if seg.trailing != None {
        next := AppendLeaf(edge, cur, seg.trailing.value);
      }
    }

    /** Compiles what follows the literals: the special edge's part, then the trailing slash's. */
    method CompileTail(seg: Segment, ghost d: Dictionaries, ghost h: Layout, ghost root: Tree, ghost p: Path,
                       ghost t: Tree, o: nat, edge: nat, cur: nat)
      returns (next: nat, ghost g3: seq<Word>, ghost terms3: seq<Terminal>)
      requires Equipped(d) && Roots(seg, h, root, p, t) && Compilable(d, t)
      requires t.trailing.Some? ==> edge == TrailingEdge(t, o)
      requires cur == SpecialOffset(t, o) && o + Size(t) <= graph.Length && ZeroIn(graph[..], cur, o + Size(t))
      requires terminals.count + SpecialSum(t, EACH) + Of(t.trailing, EACH) <= terminals.refs.Length
      modifies graph, terminals`count, terminals.refs, terminals.base, ledger`retained
      ensures Equipped(d) && next == o + Size(t)
      ensures SpecialCompiled(d, terms3, g3, o, t) && terms3 == old(terminals.Entries()) + SpecialTerminals(t, o)
      ensures ChangedOnly(old(graph[..]), g3, if SpecialWords(t) > 0 then SpecialEdge(t, o) else -1,
                          SpecialOffset(t, o), TrailingOffset(t, o))
      ensures t.trailing.Some? ==>
                TrailingEdge(t, o) < graph.Length && graph[TrailingEdge(t, o)] == TrailingOffset(t, o)
      ensures ChangedOnly(g3, graph[..], if t.trailing.Some? then TrailingEdge(t, o) else -1, TrailingOffset(t, o),
                          next)
      ensures terminals.Entries() == terms3 + OneTerminal(TrailingOffset(t, o), t.trailing)
      ensures RetainedTail(retain, old(ledger.retained), ledger.retained, t)
      decreases t, 3
    {
      hide Roots, Compilable, Symbols.Holds, SpecialOffset, TrailingOffset, Size, Encodes, TerminalsOf,
           SpecialTerminals, EdgeBase, Header, SpecialCompiled, RetainedSpecial, RetainedOne, RetainedTail,
           SpecialSum, OneTerminal, Linked, ChangedOnly, ZeroIn;
      RootFields(seg, h, root, p, t);
      CompilableParts(d, t);
      SpecialAfterHeader(t, o);
      SpecialCount(t, o);
      ghost var g2, r2 := graph[..], ledger.retained;
      next := CompileSpecial(seg, d, h, root, p, t, o, cur);
      BlankKept(g2, graph[..], if SpecialWords(t) > 0 then SpecialEdge(t, o) else -1, cur, next, o + Size(t));
      g3, terms3 := graph[..], terminals.Entries();
      ghost var r3 := ledger.retained;
      next := CompileTrailing(seg, d, t, edge, next, o);
      RetainedTailParts(retain, r2, r3, ledger.retained, t);
    }

    /** Compiles a subtree from the cursor on. */
    method GraphCompile(seg: Segment, ghost d: Dictionaries, ghost h: Layout, ghost root: Tree, ghost p: Path,
                        ghost t: Tree, cur: nat)
      returns (node: nat, next: nat)
      requires Equipped(d) && Roots(seg, h, root, p, t) && Compilable(d, t)
      requires cur + Size(t) <= graph.Length && ZeroIn(graph[..], cur, cur + Size(t))
      requires terminals.count + Sum(t, EACH) <= terminals.refs.Length
      modifies graph, terminals`count, terminals.refs, terminals.base, ledger`retained
      ensures Equipped(d) && node == cur && next == cur + Size(t)
      ensures Encodes(d, terminals.Entries(), graph[..], cur, t)
      ensures SameOutside(old(graph[..]), graph[..], cur, next)
      ensures terminals.Entries() == old(terminals.Entries()) + TerminalsOf(t, cur)
      ensures Retained(retain, old(ledger.retained), ledger.retained, t)
      decreases t, 4
    {
      hide Roots, Compilable, Symbols.Holds, SpecialOffset, TrailingOffset, Size, Encodes, TerminalsOf, KidsTerminals,
           SpecialTerminals, EdgeBase, Header, HeadWritten, LiteralsCompiled, SpecialCompiled, RetainedKids,
           RetainedTail, RetainedSpecial, RetainedOne, Retained, Sum, KidSum, SpecialSum, OneTerminal, Linked,
           ChangedOnly, SameOutside, ZeroIn, Flag, NodeWord, SymbolOf, EdgesOk, OwnTerminals, Terminals.Entries;
      CompilableParts(d, t);
      RootFields(seg, h, root, p, t);
      SpecialAfterHeader(t, cur);
      PartCounts(t, cur);
      PartsInOrder(terminals.Entries(), t, cur);
      ghost var before, g0, r0 := terminals.Entries(), graph[..], ledger.retained;
      node := cur;
      BlankStart(g0, cur, cur + EdgeBase(t), cur + Size(t));
      var base := WriteHead(seg, d, h, root, p, t, cur);
      ghost var g1, r1 := graph[..], ledger.retained;
      HeadChangesOnly(g0, g1, cur, base, cur + Size(t));
      next := CompileLiterals(seg, d, h, root, p, t, base, cur);
      BlankKept(g1, graph[..], -1, base, next, cur + Size(t));
      ghost var g2, terms2, r2 := graph[..], terminals.Entries(), ledger.retained;
      ghost var g3, terms3;
      next, g3, terms3 := CompileTail(seg, d, h, root, p, t, cur, base - 1, next);
      NodeAssembled(d, before, terms2, terms3, g1, g2, g3, graph[..], cur, t);
      PartsChangeNoMore(g0, g1, g2, g3, graph[..], cur, t);
      RetainedParts(retain, r0, r1, r2, ledger.retained, t);
    }

    /** Compiled from t: the graph and the dictionary are full, and say what t says. */
    ghost predicate Ready(d: Dictionaries, t: Tree)
      reads this, graph, terminals, terminals.refs, terminals.base
    {
      && Equipped(d) && Compatibility.Sound(t) && Compilable(d, t)
      && graph.Length == graphSize == Size(t) && Encodes(d, terminals.Entries(), graph[..], 0, t)
      && terminals.count == terminals.refs.Length == numRoutes == Sum(t, EACH)
      && terminals.Entries() == TerminalsOf(t, 0)
      && maxParams == ParamBounds.Reserve(t, 0)
    }

    /** Ready, with a tree that holds these pairs of pattern and route and no others. */
    ghost predicate Serves(d: Dictionaries, t: Tree, entries: seq<Entry>)
      reads this, graph, terminals, terminals.refs, terminals.base
    {
      Ready(d, t) && Acceptance.Holds(t, entries) && numRoutes == |entries|
    }

    /** Releases the fallback's context and that of every terminal. */
    method Free()
      requires terminals.Valid()
      modifies ledger`released
      ensures forall c :: ledger.released[c] == old(ledger.released)[c] +
                (if release then Of(Some(fallback), Carries(c)) + TermSum(terminals.Entries(), Carries(c)) else 0)
    {
      if release {
        ledger.Release(fallback.ctx);
        ghost var entries := terminals.Entries();
        var i := 0;
        while i < terminals.count
          invariant i <= terminals.count
          invariant forall c :: ledger.released[c] == old(ledger.released)[c] + Of(Some(fallback), Carries(c))
                                                      + TermSum(entries[..i], Carries(c))
        {
          TermSumOneMore(entries, i);
          ledger.Release(terminals.base[i].ctx);
          i := i + 1;
        }
        assert entries[..|entries|] == entries;
      }
    }
  }

  lemma TermSumOneMore(entries: seq<Terminal>, i: nat)
    requires i < |entries|
    ensures forall c ::
              TermSum(entries[..i + 1], Carries(c)) == TermSum(entries[..i], Carries(c)) + Carries(c)(entries[i].route)
  {
    forall c ensures TermSum(entries[..i + 1], Carries(c)) ==
      TermSum(entries[..i], Carries(c)) + Carries(c)(entries[i].route) {
      assert entries[..i + 1] == entries[..i] + [entries[i]];
      TermSumConcat(entries[..i], [entries[i]], Carries(c));
      assert [entries[i]][1..] == [];
    }
  }
}

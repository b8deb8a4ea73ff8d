/** Where a tree goes in the flat graph, and what the words there must be. */
module GraphLayout {
  import opened Wrappers
  import opened Bytes
  import opened RouteTree
  import opened SymbolLists
  import opened Ledgers

  const NODE_FLAG_TERMINAL := 4096
  const NODE_FLAG_HAS_PARAM := 8192
  const NODE_FLAG_HAS_WILDCARD := 16384
  const NODE_FLAG_HAS_TRAILING := 32768

  // ---- Node words: a count below four flag bits ----

  function Flag(set_: bool, flag: nat): nat { if set_ then flag else 0 }

  function NodeWord(t: Tree): nat {
    |t.kids| + Flag(t.terminal.Some?, NODE_FLAG_TERMINAL) + Flag(t.special.ParamEdge?, NODE_FLAG_HAS_PARAM)
    + Flag(t.special.WildcardEdge?, NODE_FLAG_HAS_WILDCARD) + Flag(t.trailing.Some?, NODE_FLAG_HAS_TRAILING)
  }

  predicate HasFlag(w: nat, flag: nat)
    requires flag > 0
  {
    (w / flag) % 2 == 1
  }

  /** The word with a single flag bit set. */
  function SetFlag(w: nat, flag: nat): nat
    requires flag > 0
  {
    if HasFlag(w, flag) then w else w + flag
  }

  function LiteralCount(w: nat): nat { w % (NODE_MAX_CHILD_COUNT + 1) }

  /** Unpacking a node word gives back the count and each flag. */
  lemma NodeWordUnpacks(t: Tree)
    requires |t.kids| <= NODE_MAX_CHILD_COUNT
    ensures NodeWord(t) < 65536 && NodeWord(t) % 4096 == |t.kids|
    ensures (NodeWord(t) / 4096) % 2 == 1 <==> t.terminal.Some?
    ensures (NodeWord(t) / 8192) % 2 == 1 <==> t.special.ParamEdge?
    ensures (NodeWord(t) / 16384) % 2 == 1 <==> t.special.WildcardEdge?
    ensures NodeWord(t) / 32768 == 1 <==> t.trailing.Some?
    ensures LiteralCount(NodeWord(t)) == |t.kids|
    ensures HasFlag(NodeWord(t), NODE_FLAG_TERMINAL) <==> t.terminal.Some?
    ensures HasFlag(NodeWord(t), NODE_FLAG_HAS_PARAM) <==> t.special.ParamEdge?
    ensures HasFlag(NodeWord(t), NODE_FLAG_HAS_WILDCARD) <==> t.special.WildcardEdge?
    ensures HasFlag(NodeWord(t), NODE_FLAG_HAS_TRAILING) <==> t.trailing.Some?
  {
  }

  /** Setting the flags one after the other builds the node word. */
  lemma FlagsBuildNodeWord(t: Tree)
    requires |t.kids| <= NODE_MAX_CHILD_COUNT
    ensures var own := |t.kids| + Flag(t.terminal.Some?, NODE_FLAG_TERMINAL);
            && (t.terminal.Some? ==> SetFlag(|t.kids|, NODE_FLAG_TERMINAL) == own)
            && SetFlag(own, NODE_FLAG_HAS_PARAM) == own + NODE_FLAG_HAS_PARAM
            && SetFlag(own, NODE_FLAG_HAS_WILDCARD) == own + NODE_FLAG_HAS_WILDCARD
            && SetFlag(own, NODE_FLAG_HAS_TRAILING) == own + NODE_FLAG_HAS_TRAILING
            && SetFlag(own + NODE_FLAG_HAS_PARAM, NODE_FLAG_HAS_TRAILING) ==
              own + NODE_FLAG_HAS_PARAM + NODE_FLAG_HAS_TRAILING
            && SetFlag(own + NODE_FLAG_HAS_WILDCARD, NODE_FLAG_HAS_TRAILING) ==
              own + NODE_FLAG_HAS_WILDCARD + NODE_FLAG_HAS_TRAILING
            && own + NODE_FLAG_HAS_PARAM + NODE_FLAG_HAS_TRAILING < 65536
            && own + NODE_FLAG_HAS_WILDCARD + NODE_FLAG_HAS_TRAILING < 65536
  {
  }

  // ---- Sizes and offsets ----

  function SpecialWords(t: Tree): nat {
    if t.special.ParamEdge? then 2 else if t.special.WildcardEdge? then 1 else 0
  }

  function TrailingWords(t: Tree): nat {
    if t.trailing.Some? then 1 else 0
  }

  /** Words before the literal edges. */
  function EdgeBase(t: Tree): nat { 1 + SpecialWords(t) + TrailingWords(t) }

  function Header(t: Tree): nat { EdgeBase(t) + 2 * |t.kids| }

  function Size(t: Tree): nat
    decreases t, 1
  {
    Header(t) + KidsSize(t.kids, |t.kids|) + SpecialSize(t) + TrailingWords(t)
  }

  function KidsSize(kids: seq<Kid>, n: nat): nat
    requires n <= |kids|
    decreases kids, n
  {
    if n == 0 then 0 else KidsSize(kids, n - 1) + Size(kids[n - 1].tree)
  }

  function SpecialSize(t: Tree): nat
    decreases t, 0
  {
    match t.special
    case ParamEdge(_, sub) => Size(sub)
    case WildcardEdge(_) => 1
    case _ => 0
  }

  function KidOffset(t: Tree, o: nat, i: nat): nat
    requires i <= |t.kids|
  {
    o + Header(t) + KidsSize(t.kids, i)
  }

  function SpecialOffset(t: Tree, o: nat): nat { KidOffset(t, o, |t.kids|) }

  function TrailingOffset(t: Tree, o: nat): nat { SpecialOffset(t, o) + SpecialSize(t) }

  lemma {:induction false} KidsSizeGrows(kids: seq<Kid>, i: nat, j: nat)
    requires i <= j <= |kids|
    ensures KidsSize(kids, i) <= KidsSize(kids, j)
    decreases j
  {
    if i < j {
      KidsSizeGrows(kids, i, j - 1);
    }
  }

  lemma KidExtent(t: Tree, o: nat, i: nat)
    requires i < |t.kids|
    ensures o <= o + Header(t) <= KidOffset(t, o, i)
    ensures KidOffset(t, o, i) + Size(t.kids[i].tree) == KidOffset(t, o, i + 1) <= SpecialOffset(t, o)
    ensures SpecialOffset(t, o) <= TrailingOffset(t, o) <= o + Size(t)
  {
    KidsSizeGrows(t.kids, i + 1, |t.kids|);
  }

  lemma FirstKidOffset(t: Tree, o: nat)
    ensures KidOffset(t, o, 0) == o + Header(t)
  {
  }

  lemma LastKidOffset(t: Tree, o: nat)
    ensures KidOffset(t, o, |t.kids|) == SpecialOffset(t, o)
  {
  }

  /** Each child's extent follows its elder's, behind the header; the special subtree comes after, then the
    * trailing node: extents are disjoint, contiguous, and fill the node's own. */
  lemma ExtentsTile(t: Tree, o: nat)
    ensures KidOffset(t, o, 0) == o + Header(t)
    ensures forall i | 0 <= i < |t.kids| :: KidOffset(t, o, i) + Size(t.kids[i].tree) == KidOffset(t, o, i + 1)
    ensures forall i | 0 <= i <= |t.kids| :: o < KidOffset(t, o, i) <= SpecialOffset(t, o)
    ensures SpecialOffset(t, o) <= TrailingOffset(t, o)
    ensures TrailingOffset(t, o) + TrailingWords(t) == o + Size(t)
  {
    hide KidOffset, Size, Header, SpecialOffset, TrailingOffset;
    SpecialAfterHeader(t, o);
    FirstKidOffset(t, o);
    forall i | 0 <= i < |t.kids| ensures KidOffset(t, o, i) + Size(t.kids[i].tree) == KidOffset(t, o, i + 1) {
      KidExtent(t, o, i);
    }
    forall i | 0 <= i <= |t.kids| ensures o < KidOffset(t, o, i) <= SpecialOffset(t, o) {
      if i < |t.kids| {
        KidExtent(t, o, i);
      } else {
        LastKidOffset(t, o);
      }
    }
  }

  lemma KidBefore(t: Tree, o: nat, i: nat, n: nat)
    requires i < n <= |t.kids|
    ensures o <= o + Header(t) <= KidOffset(t, o, i)
    ensures KidOffset(t, o, i) + Size(t.kids[i].tree) <= KidOffset(t, o, n)
  {
    KidsSizeGrows(t.kids, i + 1, n);
  }

  lemma ParamExtent(t: Tree, o: nat)
    requires t.special.ParamEdge?
    ensures o <= o + Header(t) <= SpecialOffset(t, o)
    ensures SpecialOffset(t, o) + Size(t.special.sub) == TrailingOffset(t, o) <= o + Size(t)
  {
  }

  // ---- Terminals ----

  datatype Terminal = Terminal(ref: nat, route: Route)

  function OneTerminal(ref: nat, r: Option<Route>): seq<Terminal> {
    if r.Some? then [Terminal(ref, r.value)] else []
  }

  /** The terminals of a subtree at offset o, in the order the compiler emits them. */
  function TerminalsOf(t: Tree, o: nat): seq<Terminal>
    decreases t, 1
  {
    OneTerminal(o, t.terminal) + KidsTerminals(t, o, |t.kids|) + SpecialTerminals(t, o)
    + OneTerminal(TrailingOffset(t, o), t.trailing)
  }

  function KidsTerminals(t: Tree, o: nat, n: nat): seq<Terminal>
    requires n <= |t.kids|
    decreases t, 0, n
  {
    if n == 0 then [] else KidsTerminals(t, o, n - 1) + TerminalsOf(t.kids[n - 1].tree, KidOffset(t, o, n - 1))
  }

  lemma KidsTerminalsOneMore(before: seq<Terminal>, t: Tree, o: nat, n: nat)
    requires n < |t.kids|
    ensures before + KidsTerminals(t, o, n) + TerminalsOf(t.kids[n].tree, KidOffset(t, o, n)) ==
            before + KidsTerminals(t, o, n + 1)
  {
  }

  lemma KidsTerminalsNone(before: seq<Terminal>, t: Tree, o: nat)
    ensures before + KidsTerminals(t, o, 0) == before
  {
  }

  function SpecialTerminals(t: Tree, o: nat): seq<Terminal>
    decreases t, 0
  {
    match t.special
    case ParamEdge(_, sub) => TerminalsOf(sub, SpecialOffset(t, o))
    case WildcardEdge(r) => [Terminal(SpecialOffset(t, o), r)]
    case _ => []
  }

  predicate Increasing(terms: seq<Terminal>) {
    forall i, j | 0 <= i < j < |terms| :: terms[i].ref < terms[j].ref
  }

  predicate Within(terms: seq<Terminal>, low: nat, high: nat) {
    forall i | 0 <= i < |terms| :: low <= terms[i].ref < high
  }

  lemma IncreasingConcat(a: seq<Terminal>, b: seq<Terminal>, low: nat, mid: nat, high: nat)
    requires Increasing(a) && Within(a, low, mid) && Increasing(b) && Within(b, mid, high) && low <= mid <= high
    ensures Increasing(a + b) && Within(a + b, low, high)
  {
  }

  /** Refs come out strictly increasing, inside the subtree's extent, purely from the order of emission. */
  lemma {:induction false} TerminalsIncrease(t: Tree, o: nat)
    ensures Increasing(TerminalsOf(t, o)) && Within(TerminalsOf(t, o), o, o + Size(t))
    decreases t, 1
  {
    ExtentsTile(t, o);
    var own := OneTerminal(o, t.terminal);
    var kids := KidsTerminals(t, o, |t.kids|);
    KidsTerminalsIncrease(t, o, |t.kids|);
    IncreasingConcat(own, kids, o, o + Header(t), SpecialOffset(t, o));
    if t.special.ParamEdge? {
      TerminalsIncrease(t.special.sub, SpecialOffset(t, o));
    }
    IncreasingConcat(own + kids, SpecialTerminals(t, o), o, SpecialOffset(t, o), TrailingOffset(t, o));
    IncreasingConcat(own + kids + SpecialTerminals(t, o), OneTerminal(TrailingOffset(t, o), t.trailing),
                     o, TrailingOffset(t, o), o + Size(t));
  }

  lemma {:induction false} KidsTerminalsIncrease(t: Tree, o: nat, n: nat)
    requires n <= |t.kids|
    ensures Increasing(KidsTerminals(t, o, n)) && Within(KidsTerminals(t, o, n), o + Header(t), KidOffset(t, o, n))
    decreases t, 0, n
  {
    if n > 0 {
      KidExtent(t, o, n - 1);
      KidsTerminalsIncrease(t, o, n - 1);
      TerminalsIncrease(t.kids[n - 1].tree, KidOffset(t, o, n - 1));
      IncreasingConcat(KidsTerminals(t, o, n - 1), TerminalsOf(t.kids[n - 1].tree, KidOffset(t, o, n - 1)),
                       o + Header(t), KidOffset(t, o, n - 1), KidOffset(t, o, n));
    }
  }

  function TermSum(terms: seq<Terminal>, w: Weight): nat {
    if terms == [] then 0 else w(terms[0].route) + TermSum(terms[1..], w)
  }

  lemma {:induction false} TermSumConcat(a: seq<Terminal>, b: seq<Terminal>, w: Weight)
    ensures TermSum(a + b, w) == TermSum(a, w) + TermSum(b, w)
    decreases |a|
  {
    if a == [] {
      assert a + b == b;
    } else {
      assert (a + b)[1..] == a[1..] + b;
      TermSumConcat(a[1..], b, w);
    }
  }

  lemma NoTerminals(w: Weight)
    ensures TermSum([], w) == 0
  {
  }

  lemma OneTerminalSum(ref: nat, r: Option<Route>, w: Weight)
    ensures TermSum(OneTerminal(ref, r), w) == Of(r, w)
  {
  }

  lemma FourTermSums(a: seq<Terminal>, b: seq<Terminal>, c: seq<Terminal>, d: seq<Terminal>, w: Weight)
    ensures TermSum(a + b + c + d, w) == TermSum(a, w) + TermSum(b, w) + TermSum(c, w) + TermSum(d, w)
  {
    TermSumConcat(a, b, w);
    TermSumConcat(a + b, c, w);
    TermSumConcat(a + b + c, d, w);
  }

  /** The emitted terminals weigh what the tree's routes weigh: none is lost or doubled. */
  lemma {:induction false} TerminalsSum(t: Tree, o: nat, w: Weight)
    ensures TermSum(TerminalsOf(t, o), w) == Sum(t, w)
    decreases t, 2
  {
    OneTerminalSum(o, t.terminal, w);
    KidsTerminalsSum(t, o, |t.kids|, w);
    SpecialTerminalsSum(t, o, w);
    OneTerminalSum(TrailingOffset(t, o), t.trailing, w);
    FourTermSums(OneTerminal(o, t.terminal), KidsTerminals(t, o, |t.kids|), SpecialTerminals(t, o),
                 OneTerminal(TrailingOffset(t, o), t.trailing), w);
  }

  lemma {:induction false} SpecialTerminalsSum(t: Tree, o: nat, w: Weight)
    ensures TermSum(SpecialTerminals(t, o), w) == SpecialSum(t, w)
    decreases t, 1
  {
    match t.special
    case ParamEdge(_, sub) => TerminalsSum(sub, SpecialOffset(t, o), w);
    case WildcardEdge(r) => OneTerminalSum(SpecialOffset(t, o), Some(r), w);
    case _ =>
  }

  lemma {:induction false} KidsTerminalsSum(t: Tree, o: nat, n: nat, w: Weight)
    requires n <= |t.kids|
    ensures TermSum(KidsTerminals(t, o, n), w) == KidSum(t.kids, n, w)
    decreases t, 0, n
  {
    hide Size, KidOffset, Sum, TermSum;
    NoTerminals(w);
    if n > 0 {
      KidsTerminalsSum(t, o, n - 1, w);
      TerminalsSum(t.kids[n - 1].tree, KidOffset(t, o, n - 1), w);
      TermSumConcat(KidsTerminals(t, o, n - 1), TerminalsOf(t.kids[n - 1].tree, KidOffset(t, o, n - 1)), w);
    }
  }

  lemma {:induction false} TermSumCounts(terms: seq<Terminal>)
    ensures TermSum(terms, EACH) == |terms|
  {
    if terms != [] {
      TermSumCounts(terms[1..]);
    }
  }

  // ---- The encoding ----

  datatype Dictionaries = Dictionaries(literals: seq<Text>, params: seq<Text>)

  datatype Edge = Edge(symbol: nat, target: nat)

  function EdgeAt(g: seq<Word>, base: nat, i: nat): Edge
    requires base + 2 * i + 1 < |g|
  {
    Edge(g[base + 2 * i], g[base + 2 * i + 1])
  }

  function EdgesAt(g: seq<Word>, base: nat, n: nat): (edges: seq<Edge>)
    requires base + 2 * n <= |g|
    ensures |edges| == n && forall i | 0 <= i < n :: edges[i] == EdgeAt(g, base, i)
  {
    seq(n, i requires 0 <= i < n => EdgeAt(g, base, i))
  }

  /** The edges of a node's children, in list order. */
  function WantedEdges(d: Dictionaries, t: Tree, o: nat): (edges: seq<Edge>)
    ensures |edges| == |t.kids|
    ensures forall i | 0 <= i < |t.kids| :: edges[i] == Edge(SymbolOf(d.literals, t.kids[i].text), KidOffset(t, o, i))
  {
    seq(|t.kids|, i requires 0 <= i < |t.kids| => Edge(SymbolOf(d.literals, t.kids[i].text), KidOffset(t, o, i)))
  }

  predicate AscendingEdges(edges: seq<Edge>) {
    forall i, j | 0 <= i < j < |edges| :: edges[i].symbol < edges[j].symbol
  }

  /** The literal edges are those of the children, sorted. */
  predicate EdgesOk(d: Dictionaries, g: seq<Word>, o: nat, t: Tree)
    requires o + Header(t) <= |g|
  {
    var edges := EdgesAt(g, o + EdgeBase(t), |t.kids|);
    AscendingEdges(edges) && multiset(edges) == multiset(WantedEdges(d, t, o))
  }

  /** The words before the literal edges. */
  predicate HeadOk(d: Dictionaries, g: seq<Word>, o: nat, t: Tree)
    requires o + Header(t) <= |g|
  {
    && g[o] == NodeWord(t)
    && (t.special.ParamEdge? ==>
          g[o + 1] == SymbolOf(d.params, t.special.name) && g[o + 2] == SpecialOffset(t, o))
    && (t.special.WildcardEdge? ==> g[o + 1] == SpecialOffset(t, o))
    && (t.trailing.Some? ==> g[o + 1 + SpecialWords(t)] == TrailingOffset(t, o))
  }

  predicate HasTerminal(terms: seq<Terminal>, ref: nat, r: Option<Route>) {
    r.Some? ==> Terminal(ref, r.value) in terms
  }

  predicate OwnTerminals(terms: seq<Terminal>, o: nat, t: Tree) {
    && HasTerminal(terms, o, t.terminal)
    && (t.special.WildcardEdge? ==> Terminal(SpecialOffset(t, o), t.special.route) in terms)
    && HasTerminal(terms, TrailingOffset(t, o), t.trailing)
  }

  /** The graph from o on, and the terminals, say what the tree says. */
  ghost predicate Encodes(d: Dictionaries, terms: seq<Terminal>, g: seq<Word>, o: nat, t: Tree)
    decreases t
  {
    && NodeOk(d, terms, g, o, t)
    && (forall i | 0 <= i < |t.kids| :: Encodes(d, terms, g, KidOffset(t, o, i), t.kids[i].tree))
    && (t.special.ParamEdge? ==> Encodes(d, terms, g, SpecialOffset(t, o), t.special.sub))
  }

  predicate SameIn(g: seq<Word>, g': seq<Word>, low: nat, high: nat) {
    high <= |g| && high <= |g'| && forall k | low <= k < high :: g'[k] == g[k]
  }

  lemma EdgesKept(d: Dictionaries, g: seq<Word>, g': seq<Word>, o: nat, t: Tree)
    requires o + Header(t) <= |g| && SameIn(g, g', o, o + Header(t)) && EdgesOk(d, g, o, t)
    ensures EdgesOk(d, g', o, t)
  {
    assert EdgesAt(g', o + EdgeBase(t), |t.kids|) == EdgesAt(g, o + EdgeBase(t), |t.kids|);
  }

  /** Everything about a node but its subtrees. */
  predicate NodeOk(d: Dictionaries, terms: seq<Terminal>, g: seq<Word>, o: nat, t: Tree) {
    && o + Size(t) <= |g| && o + Header(t) <= |g|
    && HeadOk(d, g, o, t) && EdgesOk(d, g, o, t) && OwnTerminals(terms, o, t)
  }

  lemma NodeKept(d: Dictionaries, terms: seq<Terminal>, terms': seq<Terminal>, g: seq<Word>, g': seq<Word>, o: nat,
                 t: Tree)
    requires NodeOk(d, terms, g, o, t) && SameIn(g, g', o, o + Size(t))
    requires forall x | x in terms :: x in terms'
    ensures NodeOk(d, terms', g', o, t)
  {
    EdgesKept(d, g, g', o, t);
  }

  /** Writing elsewhere and appending terminals disturbs no encoded subtree. */
  lemma {:induction false} EncodesKept(d: Dictionaries, terms: seq<Terminal>, terms': seq<Terminal>, g: seq<Word>,
                                       g': seq<Word>, o: nat, t: Tree)
    requires Encodes(d, terms, g, o, t) && SameIn(g, g', o, o + Size(t))
    requires forall x | x in terms :: x in terms'
    ensures Encodes(d, terms', g', o, t)
    decreases t
  {
    hide NodeOk, Size, KidOffset, SpecialOffset, Header;
    NodeKept(d, terms, terms', g, g', o, t);
    forall i | 0 <= i < |t.kids| ensures Encodes(d, terms', g', KidOffset(t, o, i), t.kids[i].tree) {
      KidExtent(t, o, i);
      EncodesKept(d, terms, terms', g, g', KidOffset(t, o, i), t.kids[i].tree);
    }
    if t.special.ParamEdge? {
      ParamExtent(t, o);
      EncodesKept(d, terms, terms', g, g', SpecialOffset(t, o), t.special.sub);
    }
  }

  /** The first n children are encoded. */
  ghost predicate KidsEncoded(d: Dictionaries, terms: seq<Terminal>, g: seq<Word>, o: nat, t: Tree, n: nat)
    requires n <= |t.kids|
  {
    forall i | 0 <= i < n :: Encodes(d, terms, g, KidOffset(t, o, i), t.kids[i].tree)
  }

  lemma KidsEncodedKept(d: Dictionaries, terms: seq<Terminal>, terms': seq<Terminal>, g: seq<Word>, g': seq<Word>,
                        o: nat, t: Tree, n: nat)
    requires n <= |t.kids| && KidsEncoded(d, terms, g, o, t, n)
    requires SameIn(g, g', o + Header(t), KidOffset(t, o, n))
    requires forall x | x in terms :: x in terms'
    ensures KidsEncoded(d, terms', g', o, t, n)
  {
    hide Encodes, Size, Header, KidOffset;
    forall i | 0 <= i < n ensures Encodes(d, terms', g', KidOffset(t, o, i), t.kids[i].tree) {
      KidBefore(t, o, i, n);
      EncodesKept(d, terms, terms', g, g', KidOffset(t, o, i), t.kids[i].tree);
    }
  }

  lemma KidsEncodedOneMore(d: Dictionaries, terms: seq<Terminal>, g: seq<Word>, o: nat, t: Tree, n: nat)
    requires n < |t.kids| && KidsEncoded(d, terms, g, o, t, n)
    requires Encodes(d, terms, g, KidOffset(t, o, n), t.kids[n].tree)
    ensures KidsEncoded(d, terms, g, o, t, n + 1)
  {
  }

  // ---- A node whose children are being compiled ----

  predicate ZeroIn(g: seq<Word>, low: nat, high: nat) {
    high <= |g| && forall k | low <= k < high :: g[k] == 0
  }

  /** The symbols of all literal edges are written, and the targets of the first n. */
  predicate EdgesWritten(d: Dictionaries, g: seq<Word>, o: nat, t: Tree, n: nat)
    requires n <= |t.kids|
  {
    && o + Header(t) <= |g|
    && (forall i | 0 <= i < |t.kids| :: g[o + EdgeBase(t) + 2 * i] == SymbolOf(d.literals, t.kids[i].text))
    && (forall i | 0 <= i < n :: g[o + EdgeBase(t) + 2 * i + 1] == KidOffset(t, o, i))
  }

  /** The first n children are compiled; what follows is still blank and has room in the dictionary. */
  ghost predicate KidsCompiled(d: Dictionaries, terms: seq<Terminal>, g: seq<Word>, capacity: nat, o: nat, t: Tree,
                               n: nat)
    requires n <= |t.kids|
  {
    && o + Size(t) <= |g|
    && EdgesWritten(d, g, o, t, n)
    && KidsEncoded(d, terms, g, o, t, n)
    && ZeroIn(g, KidOffset(t, o, n), o + Size(t))
    && |terms| + KidSum(t.kids, |t.kids|, EACH) <= capacity + KidSum(t.kids, n, EACH)
  }

  lemma TerminalsCount(t: Tree, o: nat)
    ensures |TerminalsOf(t, o)| == Sum(t, EACH)
  {
    TermSumCounts(TerminalsOf(t, o));
    TerminalsSum(t, o, EACH);
  }

  lemma EdgesWrittenOneMore(d: Dictionaries, g: seq<Word>, g': seq<Word>, o: nat, t: Tree, i: nat)
    requires i < |t.kids| && EdgesWritten(d, g, o, t, i) && o + Header(t) <= |g'|
    requires forall k | o <= k < o + Header(t) && k != o + EdgeBase(t) + 2 * i + 1 :: g'[k] == g[k]
    requires g'[o + EdgeBase(t) + 2 * i + 1] == KidOffset(t, o, i)
    ensures EdgesWritten(d, g', o, t, i + 1)
  {
  }

  lemma EdgeBeforeKids(t: Tree, o: nat, i: nat)
    requires i < |t.kids|
    ensures o < o + EdgeBase(t) + 2 * i + 1 < o + Header(t)
  {
  }

  /** One more child: compiled behind the others, then its edge patched. */
  lemma KidsCompiledOneMore(d: Dictionaries, terms: seq<Terminal>, terms': seq<Terminal>, g: seq<Word>, g1: seq<Word>,
                            g2: seq<Word>, capacity: nat, o: nat, t: Tree, i: nat, edge: nat)
    requires i < |t.kids| && KidsCompiled(d, terms, g, capacity, o, t, i)
    requires edge == o + EdgeBase(t) + 2 * i + 1 && |g| == |g1| && edge < |g1|
    requires KidOffset(t, o, i) < 65536 && g2 == g1[edge := KidOffset(t, o, i)]
    requires forall k | 0 <= k < |g| && !(KidOffset(t, o, i) <= k < KidOffset(t, o, i + 1)) :: g1[k] == g[k]
    requires Encodes(d, terms', g1, KidOffset(t, o, i), t.kids[i].tree)
    requires terms' == terms + TerminalsOf(t.kids[i].tree, KidOffset(t, o, i))
    ensures KidsCompiled(d, terms', g2, capacity, o, t, i + 1)
  {
    hide Encodes, Size, Header, KidOffset, EdgeBase, KidsEncoded, EdgesWritten, TerminalsOf, Sum;
    var cur, kid := KidOffset(t, o, i), t.kids[i].tree;
    KidExtent(t, o, i);
    EdgeBeforeKids(t, o, i);
    EdgesWrittenOneMore(d, g, g2, o, t, i);
    KidsEncodedKept(d, terms, terms', g, g2, o, t, i);
    EncodesKept(d, terms', terms', g1, g2, cur, kid);
    KidsEncodedOneMore(d, terms', g2, o, t, i);
    TerminalsCount(kid, cur);
  }

  // ---- Putting a node together ----

  /** Where the special edge's target is stored: behind the parameter's symbol, or alone. */
  function SpecialEdge(t: Tree, o: nat): nat { o + SpecialWords(t) }

  function TrailingEdge(t: Tree, o: nat): nat { o + 1 + SpecialWords(t) }

  /** The node word, and the parameter's symbol; the edges to the special and trailing nodes come later. */
  predicate HeadWritten(d: Dictionaries, g: seq<Word>, o: nat, t: Tree) {
    && o + EdgeBase(t) <= |g|
    && g[o] == NodeWord(t)
    && (t.special.ParamEdge? ==> g[o + 1] == SymbolOf(d.params, t.special.name))
  }

  /** The literal edges are sorted, and the children encoded. */
  ghost predicate LiteralsCompiled(d: Dictionaries, terms: seq<Terminal>, g: seq<Word>, o: nat, t: Tree) {
    o + Header(t) <= |g| && EdgesOk(d, g, o, t) && KidsEncoded(d, terms, g, o, t, |t.kids|)
  }

  /** The special edge leads to what it should. */
  ghost predicate SpecialCompiled(d: Dictionaries, terms: seq<Terminal>, g: seq<Word>, o: nat, t: Tree) {
    && (t.special.ParamEdge? ==> o + 2 < |g| && g[o + 2] == SpecialOffset(t, o)
                                 && Encodes(d, terms, g, SpecialOffset(t, o), t.special.sub))
    && (t.special.WildcardEdge? ==> o + 1 < |g| && g[o + 1] == SpecialOffset(t, o))
  }

  predicate ChangedOnly(g: seq<Word>, g': seq<Word>, edge: int, low: nat, high: nat) {
    |g'| == |g| && forall k | 0 <= k < |g| && k != edge && !(low <= k < high) :: g'[k] == g[k]
  }

  lemma OwnTerminalsEmitted(t: Tree, o: nat, before: seq<Terminal>)
    ensures OwnTerminals(before + TerminalsOf(t, o), o, t)
  {
  }

  lemma LiteralsKept(d: Dictionaries, terms: seq<Terminal>, terms': seq<Terminal>, g: seq<Word>, g': seq<Word>,
                     o: nat, t: Tree)
    requires LiteralsCompiled(d, terms, g, o, t)
    requires SameIn(g, g', o + EdgeBase(t), SpecialOffset(t, o))
    requires forall x | x in terms :: x in terms'
    ensures LiteralsCompiled(d, terms', g', o, t)
  {
    hide KidsEncoded, KidOffset;
    KidsSizeGrows(t.kids, 0, |t.kids|);
    SpecialAfterHeader(t, o);
    assert EdgesAt(g', o + EdgeBase(t), |t.kids|) == EdgesAt(g, o + EdgeBase(t), |t.kids|);
    KidsEncodedKept(d, terms, terms', g, g', o, t, |t.kids|);
  }

  lemma SpecialAfterHeader(t: Tree, o: nat)
    ensures o < o + EdgeBase(t) <= o + Header(t) <= SpecialOffset(t, o) <= TrailingOffset(t, o)
    ensures TrailingOffset(t, o) + TrailingWords(t) == o + Size(t)
    ensures SpecialEdge(t, o) < o + EdgeBase(t) && (t.trailing.Some? ==> TrailingEdge(t, o) == o + EdgeBase(t) - 1)
  {
  }

  lemma SpecialKept(d: Dictionaries, terms: seq<Terminal>, terms': seq<Terminal>, g: seq<Word>, g': seq<Word>, o: nat,
                    t: Tree)
    requires SpecialCompiled(d, terms, g, o, t) && |g'| == |g|
    requires SameIn(g, g', SpecialOffset(t, o), TrailingOffset(t, o))
    requires !t.special.NoSpecial? && !t.special.HalfParam? ==>
               SpecialEdge(t, o) < |g| && g'[SpecialEdge(t, o)] == g[SpecialEdge(t, o)]
    requires forall x | x in terms :: x in terms'
    ensures SpecialCompiled(d, terms', g', o, t)
  {
    hide Encodes, Size, KidOffset, SpecialOffset;
    if t.special.ParamEdge? {
      ParamExtent(t, o);
      EncodesKept(d, terms, terms', g, g', SpecialOffset(t, o), t.special.sub);
    }
  }

  /** Head, literals, special and trailing parts, written one after the other, make the node. */
  lemma NodeAssembled(d: Dictionaries, before: seq<Terminal>, terms2: seq<Terminal>, terms3: seq<Terminal>,
                      g1: seq<Word>, g2: seq<Word>, g3: seq<Word>, g4: seq<Word>, o: nat, t: Tree)
    requires o + Size(t) <= |g1| && HeadWritten(d, g1, o, t)
    requires LiteralsCompiled(d, terms2, g2, o, t) && ChangedOnly(g1, g2, -1, o + EdgeBase(t), SpecialOffset(t, o))
    requires SpecialCompiled(d, terms3, g3, o, t)
    requires ChangedOnly(g2, g3, if SpecialWords(t) > 0 then SpecialEdge(t, o) else -1, SpecialOffset(t, o),
                         TrailingOffset(t, o))
    requires ChangedOnly(g3, g4, if t.trailing.Some? then TrailingEdge(t, o) else -1, TrailingOffset(t, o), o + Size(t))
    requires t.trailing.Some? ==> TrailingEdge(t, o) < |g4| && g4[TrailingEdge(t, o)] == TrailingOffset(t, o)
    requires forall x | x in terms2 :: x in terms3
    requires forall x | x in terms3 :: x in before + TerminalsOf(t, o)
    ensures Encodes(d, before + TerminalsOf(t, o), g4, o, t)
  {
    hide LiteralsCompiled, SpecialCompiled, Size, SpecialOffset, TrailingOffset, TerminalsOf, OwnTerminals, NodeWord,
         SymbolOf;
    var terms := before + TerminalsOf(t, o);
    SpecialAfterHeader(t, o);
    OwnTerminalsEmitted(t, o, before);
    LiteralsKept(d, terms2, terms, g2, g4, o, t);
    SpecialKept(d, terms3, terms, g3, g4, o, t);
    NodeIsEncoded(d, terms, g4, o, t);
  }

  lemma NodeIsEncoded(d: Dictionaries, terms: seq<Terminal>, g: seq<Word>, o: nat, t: Tree)
    requires o + Size(t) <= |g| && HeadWritten(d, g, o, t) && OwnTerminals(terms, o, t)
    requires LiteralsCompiled(d, terms, g, o, t) && SpecialCompiled(d, terms, g, o, t)
    requires t.trailing.Some? ==> g[TrailingEdge(t, o)] == TrailingOffset(t, o)
    ensures Encodes(d, terms, g, o, t)
  {
    hide EdgesOk, NodeWord, SymbolOf, SpecialOffset, TrailingOffset, OwnTerminals, Size, KidOffset;
  }

  lemma PartCounts(t: Tree, o: nat)
    ensures |OneTerminal(o, t.terminal)| == Of(t.terminal, EACH)
    ensures |KidsTerminals(t, o, |t.kids|)| == KidSum(t.kids, |t.kids|, EACH)
    ensures |SpecialTerminals(t, o)| == SpecialSum(t, EACH)
    ensures Sum(t, EACH) == Of(t.terminal, EACH) + KidSum(t.kids, |t.kids|, EACH) + SpecialSum(t,
        EACH) + Of(t.trailing, EACH)
  {
    KidsTerminalsSum(t, o, |t.kids|, EACH);
    TermSumCounts(KidsTerminals(t, o, |t.kids|));
    SpecialCount(t, o);
  }

  lemma SpecialCount(t: Tree, o: nat)
    ensures |SpecialTerminals(t, o)| == SpecialSum(t, EACH)
  {
    SpecialTerminalsSum(t, o, EACH);
    TermSumCounts(SpecialTerminals(t, o));
  }

  lemma FourParts(before: seq<Terminal>, a: seq<Terminal>, b: seq<Terminal>, c: seq<Terminal>, e: seq<Terminal>)
    ensures before + a + b + c + e == before + (a + b + c + e)
  {
  }

  lemma PartsInOrder(before: seq<Terminal>, t: Tree, o: nat)
    ensures before + OneTerminal(o, t.terminal) + KidsTerminals(t, o, |t.kids|) + SpecialTerminals(t, o)
            + OneTerminal(TrailingOffset(t, o), t.trailing)
            == before + TerminalsOf(t, o)
  {
    hide KidsTerminals, SpecialTerminals, OneTerminal, TrailingOffset;
    FourParts(before, OneTerminal(o, t.terminal), KidsTerminals(t, o, |t.kids|), SpecialTerminals(t, o),
              OneTerminal(TrailingOffset(t, o), t.trailing));
  }
}

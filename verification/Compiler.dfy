/** From a builder to a router: the range check, and the steps of compilation in their order. */
module Compiler {
  import opened Wrappers
  import opened Tokens
  import opened RouteTree
  import opened SymbolTables
  import opened SymbolLists
  import opened Compatibility
  import opened Regularity
  import opened Acceptance
  import Conservation
  import opened Segments
  import opened SegmentWalks
  import opened Ledgers
  import opened GraphLayout
  import opened ParamBounds
  import opened GraphStats
  import TerminalDictionary
  import opened Routers
  import KnownTexts
  import GraphWords
  import opened Builders

  /** Every node offset, and the number of terminals, must fit 16 bits. */
  predicate InRange(t: Tree) {
    Size(t) <= UINT16_MAX && Sum(t, EACH) <= UINT16_MAX
  }

  function LedgerOf(builder: Builder?): set<object> {
    if builder == null then {} else {builder.ledger}
  }

  lemma BuilderRoots(builder: Builder)
    requires builder.Valid()
    ensures Roots(builder.root, builder.h, builder.tree, [], builder.tree) && builder.objects == builder.h.at.Values
    ensures builder.literals.Valid() && builder.params.Valid() && NulFree(builder.literals.base)
            && NulFree(builder.params.base)
    ensures Build(builder.corrupted, builder.tree, builder.literals.base, builder.params.base) ==
            AddAll(builder.syntax, builder.regs)
  {
    hide Linked, Regular, AddAll;
  }

  lemma UncorruptedIsSound(builder: Builder)
    requires builder.Valid() && !builder.corrupted
    ensures Accepted(builder.syntax, builder.regs)
    ensures Sound(builder.tree) && Regular(builder.tree) && NoHalf(builder.tree)
    ensures AllParse(builder.syntax, builder.regs)
    ensures Acceptance.Holds(builder.tree, Entries(builder.syntax, builder.regs))
    ensures Sum(builder.tree, EACH) == |builder.regs|
  {
    hide AddAll, Sound, Regular, NoHalf, Acceptance.Holds, Entries, Linked, SymbolTable.Valid;
    AcceptedTreeHolds(builder.syntax, builder.regs);
    Conservation.AcceptedCount(builder.syntax, builder.regs);
    SoundIsRegular(builder.tree);
  }

  /** The range check is one of the list. */
  lemma InRangeIff(builder: Builder)
    requires builder.Valid() && !builder.corrupted
    ensures InRange(builder.tree) <==> GraphWords.GraphFits(builder.syntax, builder.regs)
  {
    hide AddAll, Sound, Size, Sum, Regular, Acceptance.Holds, GraphWords.ListWords, Entries, Linked;
    UncorruptedIsSound(builder);
    BuilderRoots(builder);
    GraphWords.SizeIsListWords(builder.syntax, builder.regs);
  }

  /** Compiles the symbols and allocates the dictionary and the graph, both at their exact sizes. */
  method Equip(builder: Builder, router: Router, terminals: nat, size: nat) returns (ghost d: Dictionaries)
    requires builder.literals.Valid() && builder.params.Valid() && size <= UINT16_MAX
    modifies router
    ensures router.Equipped(d)
    ensures multiset(d.literals) == multiset(builder.literals.base)
    ensures multiset(d.params) == multiset(builder.params.base)
    ensures fresh(router.terminals) && fresh(router.terminals.refs) && fresh(router.terminals.base)
            && fresh(router.graph)
    ensures router.terminals.count == 0 && router.terminals.refs.Length == terminals && router.terminals.Entries() == []
    ensures router.graph.Length == size && ZeroIn(router.graph[..], 0, size)
    ensures unchanged(router`maxParams) && unchanged(router`numRoutes) && unchanged(router`graphSize)
  {
    hide SymbolTable.Valid, Symbols.Holds;
    ghost var literals, params;
    var sym;
    sym, literals := CompileSymbols(builder.literals);
    router.literals := sym;
    sym, params := CompileSymbols(builder.params);
    router.params := sym;
    d := Dictionaries(literals, params);
    router.terminals := new TerminalDictionary.Terminals(terminals);
    router.graph := new Word[size](_ => 0);
  }

  /** Everything after the range check. */
  method Fill(builder: Builder, router: Router) returns (ghost d: Dictionaries)
    requires builder.Valid() && !builder.corrupted && InRange(builder.tree)
    requires router.numRoutes == Sum(builder.tree, EACH) && router.graphSize == Size(builder.tree)
    requires router.maxParams == Reserve(builder.tree, 0)
    modifies router, router.ledger`retained
    ensures router.Ready(d, builder.tree)
    ensures AllParse(builder.syntax, builder.regs)
    ensures router.Serves(d, builder.tree, Entries(builder.syntax, builder.regs))
    ensures Retained(router.retain, old(router.ledger.retained), router.ledger.retained, builder.tree)
    ensures fresh(router.terminals)
  {
    hide Builder.Sturdy, Builder.Valid, SymbolTable.Valid, Symbols.Holds, Sound, Regular, NoHalf, Compilable, Size,
         Sum, Encodes, TerminalsOf, Reserve, AddAll, Retained, Roots, Linked, AllParse, Entries, Acceptance.Holds;
    BuilderRoots(builder);
    UncorruptedIsSound(builder);
    d := Equip(builder, router, router.numRoutes, router.graphSize);
    KnownTexts.AcceptedIsCompilable(builder.syntax, builder.regs, d);
    var node, end := router.GraphCompile(builder.root, d, builder.h, builder.tree, [], builder.tree, 0);
    TerminalsCount(builder.tree, 0);
  }

  /** What a compiled router owes the ledger: its fallback's context, and each route's. */
  ghost predicate Owed(callback: bool, before: multiset<nat>, after: multiset<nat>, fallback: Route, t: Tree) {
    forall c :: after[c] == before[c] + (if callback then Of(Some(fallback), Carries(c)) + Sum(t, Carries(c)) else 0)
  }

  lemma OwedParts(callback: bool, r0: multiset<nat>, r1: multiset<nat>, r2: multiset<nat>, fallback: Route, t: Tree)
    requires RetainedOne(callback, r0, r1, Some(fallback)) && Retained(callback, r1, r2, t)
    ensures Owed(callback, r0, r2, fallback, t)
  {
  }

  /** Takes the counts of the builder's tree into the router. */
  method Survey(builder: Builder, router: Router)
    requires builder.Valid() && !builder.corrupted
    modifies router`numRoutes, router`maxParams, router`graphSize
    ensures router.numRoutes == Sum(builder.tree, EACH) && router.graphSize == Size(builder.tree)
    ensures router.maxParams == Reserve(builder.tree, 0)
  {
    hide Builder.Sturdy, Builder.Valid, Sound, Regular, NoHalf, Size, Sum, Reserve, AddAll, Roots;
    BuilderRoots(builder);
    UncorruptedIsSound(builder);
    var stats := new Stats();
    stats.Count(builder.root, builder.h, builder.tree, [], builder.tree);
    router.numRoutes := stats.terminals;
    router.maxParams := stats.maxParams;
    router.graphSize := stats.size;
  }

  /** A router with the builder's options, the fallback's context retained, and the counts taken. */
  method Start(builder: Builder) returns (router: Router)
    requires builder.Valid() && !builder.corrupted
    modifies builder.ledger`retained
    ensures fresh(router) && router.terminals.Valid() && router.terminals.count == 0
    ensures router.fallback == builder.fallback && router.ledger == builder.ledger
    ensures router.retain == builder.retain && router.release == builder.release
    ensures router.numRoutes == Sum(builder.tree, EACH) && router.graphSize == Size(builder.tree)
    ensures router.maxParams == Reserve(builder.tree, 0)
    ensures RetainedOne(builder.retain, old(builder.ledger.retained), builder.ledger.retained, Some(builder.fallback))
  {
    hide Builder.Valid, Size, Sum, Reserve;
    router := new Router(builder.fallback, builder.ledger, builder.retain, builder.release);
    router.Retain(router.fallback.ctx);
    Survey(builder, router);
  }

  /** Frees a router that has no terminals yet. */
  method Discard(router: Router)
    requires router.terminals.Valid() && router.terminals.count == 0
    modifies router.ledger`released
    ensures RetainedOne(router.release, old(router.ledger.released), router.ledger.released, Some(router.fallback))
  {
    assert router.terminals.Entries() == [];
    router.Free();
  }

  /** Compiles the builder's routes, or says why not; a refused compilation leaves nothing retained. */
  method Compile(builder: Builder?) returns (router: Router?, err: Error, ghost d: Dictionaries)
    requires builder != null ==> builder.Valid()
    modifies LedgerOf(builder)
    ensures err == (if builder == null then NullArgument
                    else if builder.corrupted then BuilderCorrupted
                    else if !GraphWords.GraphFits(builder.syntax, builder.regs) then OutOfRange
                    else Ok)
    ensures router != null <==> err == Ok
    ensures err == BuilderCorrupted ==>
              builder.ledger.retained == old(builder.ledger.retained)
              && builder.ledger.released == old(builder.ledger.released)
    ensures err == OutOfRange ==>
              && RetainedOne(builder.retain, old(builder.ledger.retained), builder.ledger.retained,
                             Some(builder.fallback))
              && RetainedOne(builder.release, old(builder.ledger.released), builder.ledger.released,
                             Some(builder.fallback))
    ensures router != null ==>
              && fresh(router) && fresh(router.terminals)
              && AllParse(builder.syntax, builder.regs)
              && router.Serves(d, builder.tree, Entries(builder.syntax, builder.regs))
              && router.fallback == builder.fallback && router.ledger == builder.ledger
              && router.retain == builder.retain && router.release == builder.release
              && builder.ledger.released == old(builder.ledger.released)
              && Owed(builder.retain, old(builder.ledger.retained), builder.ledger.retained, builder.fallback,
                      builder.tree)
  {
    hide Builder.Sturdy, Builder.Valid, Sound, Size, Sum, Reserve, AddAll, Router.Ready, Router.Serves, Retained,
         RetainedOne, Owed, AllParse, Entries, TerminalDictionary.Terminals.Valid, GraphWords.GraphFits;
    d := Dictionaries([], []);
    if builder == null {
      return null, NullArgument, d;
    }
    if builder.corrupted {
      return null, BuilderCorrupted, d;
    }
    ghost var r0 := builder.ledger.retained;
    router := Start(builder);
    ghost var r1 := router.ledger.retained;
    InRangeIff(builder);
    if router.graphSize > UINT16_MAX || router.numRoutes > UINT16_MAX {
      Discard(router);
      return null, OutOfRange, d;
    }
    d := Fill(builder, router);
    OwedParts(router.retain, r0, r1, router.ledger.retained, router.fallback, builder.tree);
    err := Ok;
  }

  lemma FallbackThenOwed(callback: bool, r0: multiset<nat>, r1: multiset<nat>, r2: multiset<nat>, fallback: Route,
                         t: Tree, first: bool)
    requires if first then RetainedOne(callback, r0, r1, Some(fallback)) else r1 == r0
    requires Owed(callback, r1, r2, fallback, t)
    ensures forall c :: r2[c] == r0[c] + if callback then
              (if first then 2 else 1) * Of(Some(fallback), Carries(c)) + Sum(t, Carries(c)) else 0
  {
  }

  /** Compiles the builder and frees it, whatever compilation says. */
  method Consume(builder: Builder?) returns (router: Router?, err: Error, ghost d: Dictionaries)
    requires builder != null ==> builder.Valid() && (builder.release ==> NoHalf(builder.tree))
    modifies LedgerOf(builder)
    ensures err == (if builder == null then NullArgument
                    else if builder.corrupted then BuilderCorrupted
                    else if !GraphWords.GraphFits(builder.syntax, builder.regs) then OutOfRange
                    else Ok)
    ensures router != null <==> err == Ok
    ensures router != null ==>
              && fresh(router) && fresh(router.terminals)
              && AllParse(builder.syntax, builder.regs)
              && router.Serves(d, builder.tree, Entries(builder.syntax, builder.regs))
              && router.fallback == builder.fallback && router.ledger == builder.ledger
              && router.retain == builder.retain && router.release == builder.release
              && Owed(builder.retain, old(builder.ledger.retained), builder.ledger.retained, builder.fallback,
                      builder.tree)
    ensures err == BuilderCorrupted ==> builder.ledger.retained == old(builder.ledger.retained)
    ensures err == OutOfRange ==>
              RetainedOne(builder.retain, old(builder.ledger.retained), builder.ledger.retained, Some(builder.fallback))
    ensures builder != null ==> forall c ::
              builder.ledger.released[c] == old(builder.ledger.released)[c] + (if builder.release then
              (if err == OutOfRange then 2 else 1) * Of(Some(builder.fallback), Carries(c))
              + Sum(builder.tree, Carries(c)) else 0)
  {
    hide Builder.Sturdy, Builder.Valid, Sound, Size, Sum, Reserve, AddAll, Router.Ready, Router.Serves, AllParse,
         Entries, NoHalf, GraphWords.GraphFits;
    if builder == null {
      return null, NullArgument, Dictionaries([], []);
    }
    router, err, d := Compile(builder);
    ghost var r1 := builder.ledger.released;
    builder.Free();
    FallbackThenOwed(builder.release, old(builder.ledger.released), r1, builder.ledger.released, builder.fallback,
                     builder.tree, err == OutOfRange);
  }
}

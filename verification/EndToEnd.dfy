/** The whole way: patterns in, routes out, on a dispatcher that has served other requests before. */
module EndToEnd {
  import opened Wrappers
  import opened Bytes
  import opened Tokens
  import opened Lexing
  import opened RouteTree
  import Ledgers
  import opened Acceptance
  import opened GraphLayout
  import opened Routers
  import opened Builders
  import opened Compiler
  import opened Resolution
  import opened ListBounds
  import ParamBounds
  import Compatibility
  import Capacity
  import GraphWords
  import opened Sizes
  import opened Dispatchers
  import Prelexing

  /** All accepted orders of a list compile to graphs of the same size, with the same reserve: one fits iff the
    * others do. */
  lemma AllOrdersCompileAlike(syn: Prelexing.Syntax, a: seq<Registration>, b: seq<Registration>)
    requires multiset(a) == multiset(b) && Accepted(syn, a) && Accepted(syn, b)
    ensures var s, t := AddAll(syn, a).tree, AddAll(syn, b).tree;
            && Size(s) == Size(t) && ParamBounds.Reserve(s, 0) == ParamBounds.Reserve(t, 0)
            && (GraphWords.GraphFits(syn, a) <==> GraphWords.GraphFits(syn, b))
  {
    hide AddAll, Compatibility.Sound, Size, ParamBounds.Reserve, Ledgers.Sum, Holds;
    AcceptedTreeHolds(syn, a);
    AcceptedTreeHolds(syn, b);
    Capacity.AcceptedOrdersHoldAlike(syn, a, b);
    SameSize(AddAll(syn, a).tree, AddAll(syn, b).tree);
    GraphWords.SizeIsListWords(syn, a);
    GraphWords.SizeIsListWords(syn, b);
    assert |a| == |multiset(a)| == |multiset(b)| == |b|;
    ReserveIsListReserve(AddAll(syn, a).tree, Entries(syn, a));
    ReserveIsListReserve(AddAll(syn, b).tree, Entries(syn, b));
    EntriesOfPermutation(syn, a, b);
    ListReserveIgnoresOrder(Entries(syn, a), Entries(syn, b));
  }

  method AddPatterns(builder: Builder, regs: seq<Registration>)
    requires builder.Valid() && builder.regs == []
    modifies builder`h, builder`tree, builder`regs, builder`corrupted, builder`objects, builder.objects
    modifies builder.literals, builder.literals.arena, builder.params, builder.params.arena, builder.ledger`retained
    ensures builder.Valid() && builder.regs == regs
  {
    hide Builder.Valid, Acceptance.Add, Builder.State;
    var i := 0;
    while i < |regs|
      invariant i <= |regs| && builder.Valid() && builder.regs == regs[..i]
      invariant fresh(builder.objects - old(builder.objects))
    {
      var err := builder.AddRoute(regs[i].pattern, regs[i].route);
      i := i + 1;
    }
    assert regs[..i] == regs;
  }

  lemma StateIsBuilt(builder: Builder)
    requires builder.Valid()
    ensures builder.corrupted == AddAll(builder.syntax, builder.regs).corrupted
    ensures builder.tree == AddAll(builder.syntax, builder.regs).tree
  {
  }

  /** Some of these paths overruns. */
  ghost predicate AnyOverruns(entries: seq<Entry>, paths: seq<Option<Text>>) {
    exists i | 0 <= i < |paths| :: Overruns(entries, Lexing.Segments(Loaded(paths[i]), 0))
  }

  method ServeEach(dispatcher: Dispatcher, paths: seq<Option<Text>>, ghost d: Dictionaries, ghost t: Tree,
                   ghost entries: seq<Entry>)
    requires dispatcher.router.Serves(d, t, entries) && dispatcher.Valid() && !dispatcher.overran
    modifies dispatcher, dispatcher.base, dispatcher.lx
    ensures dispatcher.Valid() && (dispatcher.overran <==> AnyOverruns(entries, paths))
  {
    hide Router.Serves, Overruns, Dispatcher.Valid, Scan;
    var i := 0;
    while i < |paths|
      invariant i <= |paths| && dispatcher.router.Serves(d, t, entries) && dispatcher.Valid()
      invariant dispatcher.overran <==> AnyOverruns(entries, paths[..i])
    {
      var route := dispatcher.Match(paths[i], d, t, entries);
      assert paths[..i + 1] == paths[..i] + [paths[i]];
      OneMorePath(entries, paths[..i], paths[i]);
      i := i + 1;
    }
    assert paths[..i] == paths;
  }

  lemma OneMorePath(entries: seq<Entry>, paths: seq<Option<Text>>, path: Option<Text>)
    ensures AnyOverruns(entries, paths + [path]) <==>
            AnyOverruns(entries, paths) || Overruns(entries, Lexing.Segments(Loaded(path), 0))
  {
    hide Overruns;
    var all := paths + [path];
    assert all[|paths|] == path && forall i | 0 <= i < |paths| :: all[i] == paths[i];
  }

  method MakeRouter(syntax: Prelexing.Syntax, fallback: Route, regs: seq<Registration>)
    returns (router: Router?, err: Error, ghost d: Dictionaries)
    ensures err == (if !Accepted(syntax, regs) then BuilderCorrupted
                    else if !GraphWords.GraphFits(syntax, regs) then OutOfRange
                    else Ok)
    ensures router != null <==> err == Ok
    ensures router != null ==>
              AllParse(syntax, regs) && router.Serves(d, AddAll(syntax, regs).tree, Entries(syntax, regs))
                && fresh(router)
  {
    hide Builder.Valid, Builder.Sturdy, AddAll, GraphWords.GraphFits, Entries, AllParse, Router.Serves, Owed,
         RetainedOne;
    var ledger := new Ledgers.Ledger();
    var builder := new Builder(syntax, fallback, ledger, true, true);
    AddPatterns(builder, regs);
    StateIsBuilt(builder);
    router, err, d := Compiler.Compile(builder);
  }

  method RouteCount(router: Router, ghost d: Dictionaries, ghost t: Tree, ghost entries: seq<Entry>) returns (n: nat)
    requires router.Serves(d, t, entries)
    ensures n == |entries|
  {
    n := router.numRoutes;
  }

  /** Builds, compiles, serves the earlier paths, then this one. Compilation succeeds iff every pattern was accepted and
    * the graph fits. Some write leaves the parameter buffer iff the list says so of one of the paths; unless that
    * happens, the answer is what a scan of the list of patterns says, and nothing else. */
  method BuildAndServe(syntax: Prelexing.Syntax, fallback: Route, regs: seq<Registration>, earlier: seq<Option<Text>>,
                       path: Option<Text>)
    returns (err: Error, routes: nat, route: Option<Route>, params: seq<Capture>, ghost overran: bool)
    ensures err == (if !Accepted(syntax, regs) then BuilderCorrupted
                    else if !GraphWords.GraphFits(syntax, regs) then OutOfRange
                    else Ok)
    ensures err == Ok ==>
              && AllParse(syntax, regs) && routes == |regs|
              && (overran <==> AnyOverruns(Entries(syntax, regs), earlier + [path]))
    ensures err == Ok && !AnyOverruns(Entries(syntax, regs), earlier + [path]) ==>
              var s := Loaded(path);
              forall m ::
                Scan(Entries(syntax, regs), Lexing.Segments(s, 0), Last(s, 0), |s|, m) <==> m == Outcome(route, params)
  {
    hide AddAll, GraphWords.GraphFits, Entries, AllParse, Scan, Overruns, AnyOverruns, Router.Serves;
    var router;
    ghost var d, t := Dictionaries([], []), AddAll(syntax, regs).tree;
    router, err, d := MakeRouter(syntax, fallback, regs);
    routes, route, params, overran := 0, None, [], false;
    if router == null {
      return;
    }
    ghost var entries := Entries(syntax, regs);
    routes := RouteCount(router, d, t, entries);
    var dispatcher := new Dispatcher(router);
    ServeEach(dispatcher, earlier, d, t, entries);
    route := dispatcher.Match(path, d, t, entries);
    OneMorePath(entries, earlier, path);
    params, overran := dispatcher.Params(), dispatcher.overran;
  }
}

/** Whole lives of a builder and its routers: every context that is retained is released once. */
module Lifetimes {
  import opened Wrappers
  import opened Bytes
  import opened Tokens
  import opened RouteTree
  import opened Regularity
  import opened Ledgers
  import opened Acceptance
  import Conservation
  import opened GraphLayout
  import TerminalDictionary
  import opened Routers
  import opened Builders
  import opened Compiler
  import Prelexing

  datatype Event =
    | AddRoute(pattern: Option<CString>, route: Route)
    | Compile
    | FreeBuilder
    | FreeRouter(index: nat)

  /** The registrations that reach the builder: those before it is freed. */
  function Additions(events: seq<Event>): seq<Registration> {
    if events == [] || events[0].FreeBuilder? then [] else Added(events[0]) + Additions(events[1..])
  }

  function Added(e: Event): seq<Registration> {
    match e case AddRoute(p, r) => [Registration(p, r)] case _ => []
  }

  // ---- What is held ----

  /** A builder, or a router, holds its fallback's context and each of its routes'. */
  function Holding(fallback: Route, t: Tree, c: nat): nat {
    Of(Some(fallback), Carries(c)) + Sum(t, Carries(c))
  }

  function AllHolding(fallback: Route, trees: seq<Tree>, c: nat): nat {
    if trees == [] then 0 else Holding(fallback, trees[0], c) + AllHolding(fallback, trees[1..], c)
  }

  lemma {:induction false} HoldingWithout(fallback: Route, trees: seq<Tree>, i: nat, c: nat)
    requires i < |trees|
    ensures AllHolding(fallback, trees, c) ==
            AllHolding(fallback, trees[..i] + trees[i + 1..], c) + Holding(fallback, trees[i], c)
    decreases i
  {
    if i == 0 {
      assert trees[..0] + trees[1..] == trees[1..];
    } else {
      var rest := trees[..i] + trees[i + 1..];
      assert rest[1..] == trees[1..][..i - 1] + trees[1..][i..];
      HoldingWithout(fallback, trees[1..], i - 1, c);
    }
  }

  lemma {:induction false} HoldingWithMore(fallback: Route, trees: seq<Tree>, t: Tree, c: nat)
    ensures AllHolding(fallback, trees + [t], c) == AllHolding(fallback, trees, c) + Holding(fallback, t, c)
  {
    HoldingWithout(fallback, trees + [t], |trees|, c);
    assert (trees + [t])[..|trees|] + (trees + [t])[|trees| + 1..] == trees;
  }

  /** What was retained was either released or is still held. */
  ghost predicate Balanced(callbacks: bool, retained: multiset<nat>, released: multiset<nat>, fallback: Route,
                           building: Option<Tree>, trees: seq<Tree>) {
    forall c ::
      retained[c] == released[c] +
      (if callbacks
       then (if building.Some? then Holding(fallback, building.value, c) else 0) + AllHolding(fallback, trees, c)
       else 0)
  }

  lemma AdditionsFrom(events: seq<Event>, n: nat)
    requires n <= |events|
    ensures Additions(events[n..]) ==
            if n == |events| || events[n].FreeBuilder? then [] else Added(events[n]) + Additions(events[n + 1..])
  {
    if n < |events| {
      assert events[n..][1..] == events[n + 1..];
    }
  }

  lemma Regroup(a: seq<Registration>, b: seq<Registration>, c: seq<Registration>)
    ensures (a + b) + c == a + (b + c)
    ensures b == [] ==> a + b == a
  {
  }

  /** The dictionary holds the routes of this tree. */
  ghost predicate ToFree(router: Router, t: Tree)
    reads router, router.terminals, router.terminals.refs, router.terminals.base
  {
    router.terminals.Valid() && router.terminals.Entries() == TerminalsOf(t, 0)
  }

  lemma ReadyToFree(router: Router, d: Dictionaries, t: Tree)
    requires router.Ready(d, t)
    ensures ToFree(router, t)
  {
  }

  lemma AddBalanced(callbacks: bool, r0: multiset<nat>, r1: multiset<nat>, released: multiset<nat>, fallback: Route,
                    b: Build, syn: Prelexing.Syntax, reg: Registration, trees: seq<Tree>)
    requires Balanced(callbacks, r0, released, fallback, Some(b.tree), trees)
    requires r1 == r0 + if Acceptance.Add(b, syn, reg).0 == Ok && callbacks then multiset{reg.route.ctx} else multiset{}
    ensures Balanced(callbacks, r1, released, fallback, Some(Acceptance.Add(b, syn, reg).1.tree), trees)
  {
    hide Acceptance.Add, Sum;
    forall c
      ensures Holding(fallback, Acceptance.Add(b, syn, reg).1.tree, c) == Holding(fallback, b.tree, c)
              + if Acceptance.Add(b, syn, reg).0 == Ok then Carries(c)(reg.route) else 0
    {
      Conservation.AddSum(b, syn, reg, Carries(c));
    }
  }

  lemma CompileBalanced(callbacks: bool, r0: multiset<nat>, r1: multiset<nat>, released: multiset<nat>,
                        fallback: Route, t: Tree, trees: seq<Tree>)
    requires Balanced(callbacks, r0, released, fallback, Some(t), trees) && Owed(callbacks, r0, r1, fallback, t)
    ensures Balanced(callbacks, r1, released, fallback, Some(t), trees + [t])
  {
    hide Sum;
    forall c ensures AllHolding(fallback, trees + [t], c) == AllHolding(fallback, trees, c) + Holding(fallback, t, c) {
      HoldingWithMore(fallback, trees, t, c);
    }
  }

  lemma RefusedBalanced(callbacks: bool, r0: multiset<nat>, r1: multiset<nat>, f0: multiset<nat>, f1: multiset<nat>,
                        fallback: Route, building: Option<Tree>, trees: seq<Tree>)
    requires Balanced(callbacks, r0, f0, fallback, building, trees)
    requires RetainedOne(callbacks, r0, r1, Some(fallback)) && RetainedOne(callbacks, f0, f1, Some(fallback))
    ensures Balanced(callbacks, r1, f1, fallback, building, trees)
  {
  }

  lemma FreeBuilderBalanced(callbacks: bool, retained: multiset<nat>, f0: multiset<nat>, f1: multiset<nat>,
                            fallback: Route, t: Tree, trees: seq<Tree>)
    requires Balanced(callbacks, retained, f0, fallback, Some(t), trees) && Owed(callbacks, f0, f1, fallback, t)
    ensures Balanced(callbacks, retained, f1, fallback, None, trees)
  {
  }

  lemma FreeRouterBalanced(callbacks: bool, retained: multiset<nat>, f0: multiset<nat>, f1: multiset<nat>,
                           fallback: Route, building: Option<Tree>, trees: seq<Tree>, i: nat)
    requires Balanced(callbacks, retained, f0, fallback, building, trees) && i < |trees|
    requires forall c ::
               f1[c] == f0[c] + if callbacks
                                then Of(Some(fallback), Carries(c)) + TermSum(TerminalsOf(trees[i], 0), Carries(c))
                                else 0
    ensures Balanced(callbacks, retained, f1, fallback, building, trees[..i] + trees[i + 1..])
  {
    hide Sum, TerminalsOf, TermSum;
    forall c
      ensures AllHolding(fallback, trees, c) ==
              AllHolding(fallback, trees[..i] + trees[i + 1..], c)
              + Of(Some(fallback), Carries(c)) + TermSum(TerminalsOf(trees[i], 0), Carries(c))
    {
      HoldingWithout(fallback, trees, i, c);
      TerminalsSum(trees[i], 0, Carries(c));
    }
  }

  lemma StartBalanced(callbacks: bool, retained: multiset<nat>, fallback: Route)
    requires retained == multiset{} + if callbacks then multiset{fallback.ctx} else multiset{}
    ensures Balanced(callbacks, retained, multiset{}, fallback, Some(EMPTY), [])
  {
  }

  lemma EndBalanced(callbacks: bool, retained: multiset<nat>, released: multiset<nat>, fallback: Route)
    requires Balanced(callbacks, retained, released, fallback, None, [])
    ensures retained == released
  {
  }

  /** Frees one of the routers and takes it off the list. */
  method FreeOne(routers: seq<Router>, i: nat, ledger: Ledger, callbacks: bool, ghost fallback: Route,
                 ghost building: Option<Tree>, ghost trees: seq<Tree>)
    returns (routers': seq<Router>, ghost trees': seq<Tree>)
    requires i < |routers| == |trees|
    requires forall k | 0 <= k < |routers| ::
               && ToFree(routers[k], trees[k]) && routers[k].ledger == ledger
               && routers[k].release == callbacks && routers[k].fallback == fallback
    requires Balanced(callbacks, ledger.retained, ledger.released, fallback, building, trees)
    modifies ledger`released
    ensures |routers'| == |trees'| == |routers| - 1
    ensures forall k | 0 <= k < |routers'| ::
               && ToFree(routers'[k], trees'[k]) && routers'[k].ledger == ledger
               && routers'[k].release == callbacks && routers'[k].fallback == fallback
    ensures Balanced(callbacks, ledger.retained, ledger.released, fallback, building, trees')
  {
    hide Balanced, TerminalsOf, TermSum, TerminalDictionary.Terminals.Entries;
    ghost var f0 := ledger.released;
    routers[i].Free();
    FreeRouterBalanced(callbacks, ledger.retained, f0, ledger.released, fallback, building, trees, i);
    routers', trees' := routers[..i] + routers[i + 1..], trees[..i] + trees[i + 1..];
  }

  /** Adding a route touches no router. */
  method AddOne(builder: Builder, pattern: Option<CString>, route: Route, ghost routers: seq<Router>,
                ghost trees: seq<Tree>)
    requires builder.Valid() && |routers| == |trees| && builder.retain == builder.release
    requires forall k | 0 <= k < |routers| :: ToFree(routers[k], trees[k])
    requires Balanced(builder.release, builder.ledger.retained, builder.ledger.released, builder.fallback,
                      Some(builder.tree), trees)
    modifies builder`h, builder`tree, builder`regs, builder`corrupted, builder`objects, builder.objects
    modifies builder.literals, builder.literals.arena, builder.params, builder.params.arena, builder.ledger`retained
    ensures builder.Valid() && fresh(builder.objects - old(builder.objects))
    ensures builder.regs == old(builder.regs) + [Registration(pattern, route)]
    ensures forall k | 0 <= k < |routers| :: ToFree(routers[k], trees[k])
    ensures Balanced(builder.release, builder.ledger.retained, builder.ledger.released, builder.fallback,
                     Some(builder.tree), trees)
  {
    hide Builder.Valid, Acceptance.Add, TerminalsOf, ToFree, Balanced;
    ghost var b, r0 := builder.State(), builder.ledger.retained;
    var err := builder.AddRoute(pattern, route);
    AddBalanced(builder.release, r0, builder.ledger.retained, builder.ledger.released, builder.fallback, b,
                builder.syntax,
                Registration(pattern, route), trees);
    forall k | 0 <= k < |routers| ensures ToFree(routers[k], trees[k]) {
      assert old(ToFree(routers[k], trees[k]));
    }
  }

  /** Compiles the builder; a new router joins the list. */
  method CompileOne(builder: Builder, routers: seq<Router>, ghost trees: seq<Tree>)
    returns (routers': seq<Router>, ghost trees': seq<Tree>)
    requires builder.Valid() && |routers| == |trees| && builder.retain == builder.release
    requires forall k | 0 <= k < |routers| ::
               && ToFree(routers[k], trees[k]) && routers[k].ledger == builder.ledger
               && routers[k].release == builder.release && routers[k].fallback == builder.fallback
    requires Balanced(builder.release, builder.ledger.retained, builder.ledger.released, builder.fallback,
                      Some(builder.tree), trees)
    modifies builder.ledger
    ensures |routers'| == |trees'|
    ensures forall k | 0 <= k < |routers'| ::
               && ToFree(routers'[k], trees'[k]) && routers'[k].ledger == builder.ledger
               && routers'[k].release == builder.release && routers'[k].fallback == builder.fallback
    ensures Balanced(builder.release, builder.ledger.retained, builder.ledger.released, builder.fallback,
                     Some(builder.tree), trees')
  {
    hide Builder.Valid, Router.Ready, ToFree, RetainedOne, Owed, Balanced, Entries, AllParse, Acceptance.Holds;
    ghost var r0, f0 := builder.ledger.retained, builder.ledger.released;
    routers', trees' := routers, trees;
    var router, err, d := Compiler.Compile(builder);
    if router != null {
      ReadyToFree(router, d, builder.tree);
      CompileBalanced(builder.release, r0, builder.ledger.retained, builder.ledger.released, builder.fallback,
                      builder.tree, trees);
      routers', trees' := routers + [router], trees + [builder.tree];
    } else if err == OutOfRange {
      RefusedBalanced(builder.release, r0, builder.ledger.retained, f0, builder.ledger.released, builder.fallback,
                      Some(builder.tree), trees);
    }
  }

  /** Frees the routers that the events name, then those that are left. */
  method FreeRouters(routers: seq<Router>, events: seq<Event>, ledger: Ledger, callbacks: bool, ghost fallback: Route,
                     ghost trees: seq<Tree>)
    requires |routers| == |trees|
    requires forall k | 0 <= k < |routers| ::
               && ToFree(routers[k], trees[k]) && routers[k].ledger == ledger
               && routers[k].release == callbacks && routers[k].fallback == fallback
    requires Balanced(callbacks, ledger.retained, ledger.released, fallback, None, trees)
    modifies ledger`released
    ensures ledger.retained == ledger.released
  {
    hide Balanced, ToFree;
    var left, n := routers, 0;
    ghost var held := trees;
    while n < |events| || left != []
      invariant n <= |events| && |left| == |held|
      invariant forall k | 0 <= k < |left| ::
                  && ToFree(left[k], held[k]) && left[k].ledger == ledger
                  && left[k].release == callbacks && left[k].fallback == fallback
      invariant Balanced(callbacks, ledger.retained, ledger.released, fallback, None, held)
      decreases |events| - n, |left|
    {
      var i := if n < |events| && events[n].FreeRouter? then events[n].index else 0;
      if i < |left| && (n == |events| || events[n].FreeRouter?) {
        left, held := FreeOne(left, i, ledger, callbacks, fallback, None, held);
      }
      if n < |events| {
        n := n + 1;
      }
    }
    assert held == [];
    EndBalanced(callbacks, ledger.retained, ledger.released, fallback);
  }

  lemma BuilderState(builder: Builder)
    requires builder.Valid()
    ensures builder.tree == AddAll(builder.syntax, builder.regs).tree
  {
    hide Builder.Sturdy, AddAll;
  }

  /** Frees a builder that has no half-made segment to release. */
  method FreeBuilt(builder: Builder, ghost trees: seq<Tree>)
    requires builder.Valid() && builder.retain == builder.release
    requires builder.release ==> NoHalf(AddAll(builder.syntax, builder.regs).tree)
    requires Balanced(builder.release, builder.ledger.retained, builder.ledger.released, builder.fallback,
                      Some(builder.tree), trees)
    modifies builder.ledger`released
    ensures Balanced(builder.release, builder.ledger.retained, builder.ledger.released, builder.fallback, None, trees)
  {
    hide Builder.Valid, Balanced, AddAll, NoHalf;
    ghost var f0 := builder.ledger.released;
    BuilderState(builder);
    builder.Free();
    FreeBuilderBalanced(builder.release, builder.ledger.retained, f0, builder.ledger.released, builder.fallback,
                        builder.tree, trees);
  }

  /** Runs a builder through the events up to its own free, and frees it then. */
  method Build(builder: Builder, events: seq<Event>) returns (n: nat, routers: seq<Router>, ghost trees: seq<Tree>)
    requires builder.Valid() && builder.regs == [] && builder.retain == builder.release
    requires builder.release ==> NoHalf(AddAll(builder.syntax, Additions(events)).tree)
    requires Balanced(builder.release, builder.ledger.retained, builder.ledger.released, builder.fallback,
                      Some(builder.tree), [])
    modifies builder`h, builder`tree, builder`regs, builder`corrupted, builder`objects, builder.objects
    modifies builder.literals, builder.literals.arena, builder.params, builder.params.arena, builder.ledger
    ensures n <= |events| && |routers| == |trees|
    ensures forall k | 0 <= k < |routers| ::
               && ToFree(routers[k], trees[k]) && routers[k].ledger == builder.ledger
               && routers[k].release == builder.release && routers[k].fallback == builder.fallback
    ensures Balanced(builder.release, builder.ledger.retained, builder.ledger.released, builder.fallback, None, trees)
  {
    hide Builder.Valid, ToFree, Balanced, AddAll, Additions, NoHalf;
    assert events[0..] == events;
    n, routers, trees := 0, [], [];
    while n < |events| && !events[n].FreeBuilder?
      invariant n <= |events| && |trees| == |routers|
      invariant builder.Valid() && builder.regs + Additions(events[n..]) == Additions(events)
      invariant fresh(builder.objects - old(builder.objects))
      invariant forall i | 0 <= i < |routers| ::
                  && ToFree(routers[i], trees[i]) && routers[i].ledger == builder.ledger
                  && routers[i].release == builder.release && routers[i].fallback == builder.fallback
      invariant Balanced(builder.release, builder.ledger.retained, builder.ledger.released, builder.fallback,
                         Some(builder.tree), trees)
    {
      AdditionsFrom(events, n);
      Regroup(builder.regs, Added(events[n]), Additions(events[n + 1..]));
      match events[n] {
        case AddRoute(pattern, route) =>
          AddOne(builder, pattern, route, routers, trees);
        case Compile =>
          routers, trees := CompileOne(builder, routers, trees);
        case FreeRouter(i) =>
          if i < |routers| {
            routers, trees := FreeOne(routers, i, builder.ledger, builder.release, builder.fallback,
                                      Some(builder.tree), trees);
          }
      }
      n := n + 1;
    }
    AdditionsFrom(events, n);
    assert builder.regs + [] == builder.regs;
    FreeBuilt(builder, trees);
  }

  /** Runs a builder and its routers through any events, then frees all that is left. Unless a refused parameter has
    * left a half-made segment (HalfMade.HalfMadeIff), every context is released exactly as often as it was retained,
    * whatever the order of the frees. */
  method Live(syntax: Prelexing.Syntax, fallback: Route, callbacks: bool, events: seq<Event>) returns (ledger: Ledger)
    requires callbacks ==> NoHalf(AddAll(syntax, Additions(events)).tree)
    ensures ledger.retained == ledger.released
  {
    hide Builder.Valid, ToFree, Balanced, AddAll, Additions, NoHalf;
    ledger := new Ledger();
    var builder := new Builder(syntax, fallback, ledger, callbacks, callbacks);
    StartBalanced(callbacks, ledger.retained, fallback);
    var n, routers;
    ghost var trees;
    n, routers, trees := Build(builder, events);
    FreeRouters(routers, events[n..], ledger, callbacks, fallback, trees);
  }
}

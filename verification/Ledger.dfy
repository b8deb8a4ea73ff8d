/** The caller's reference counting, as the two callbacks see it. */
module Ledgers {
  import opened Wrappers
  import opened RouteTree

  class Ledger {
    var retained: multiset<nat>
    var released: multiset<nat>

    constructor ()
      ensures retained == multiset{} && released == multiset{}
    {
      retained, released := multiset{}, multiset{};
    }

    method Retain(ctx: nat)
      modifies this`retained
      ensures retained == old(retained) + multiset{ctx}
    {
      retained := retained + multiset{ctx};
    }

    method Release(ctx: nat)
      modifies this`released
      ensures released == old(released) + multiset{ctx}
    {
      released := released + multiset{ctx};
    }
  }

  // ---- Sums over the routes of a tree ----

  type Weight = Route -> nat

  /** Counts the routes that carry this context. */
  function Carries(ctx: nat): Weight {
    (r: Route) => if r.ctx == ctx then 1 else 0
  }

  /** Counts all routes. */
  const EACH: Weight := (r: Route) => 1

  function Of(r: Option<Route>, w: Weight): nat {
    if r.Some? then w(r.value) else 0
  }

  function Sum(t: Tree, w: Weight): nat
    decreases t, 1
  {
    Of(t.terminal, w) + Of(t.trailing, w) + SpecialSum(t, w) + KidSum(t.kids, |t.kids|, w)
  }

  function SpecialSum(t: Tree, w: Weight): nat
    decreases t, 0
  {
    match t.special
    case ParamEdge(_, sub) => Sum(sub, w)
    case WildcardEdge(r) => w(r)
    case _ => 0
  }

  function KidSum(kids: seq<Kid>, n: nat, w: Weight): nat
    requires n <= |kids|
    decreases kids, n
  {
    if n == 0 then 0 else KidSum(kids, n - 1, w) + Sum(kids[n - 1].tree, w)
  }
}

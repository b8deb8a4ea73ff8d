/** Routes are neither lost nor doubled on their way into the tree. */
module Conservation {
  import Regularity
  import Ledgers
  import opened Acceptance
  import Prelexing

  /** What the routes of these registrations weigh. */
  function RegSum(regs: seq<Registration>, w: Ledgers.Weight): nat {
    if regs == [] then 0 else RegSum(regs[..|regs| - 1], w) + w(regs[|regs| - 1].route)
  }

  lemma {:induction false} RegSumCounts(regs: seq<Registration>)
    ensures RegSum(regs, Ledgers.EACH) == |regs|
    decreases |regs|
  {
    if regs != [] {
      RegSumCounts(regs[..|regs| - 1]);
    }
  }

  /** An accepted addition puts in the route's weight, a refused one nothing. */
  lemma AddSum(b: Build, syn: Prelexing.Syntax, reg: Registration, w: Ledgers.Weight)
    ensures var (error, b') := Acceptance.Add(b, syn, reg);
            Ledgers.Sum(b'.tree, w) == Ledgers.Sum(b.tree, w) + if error.Ok? then w(reg.route) else 0
  {
    Regularity.InsertSum(b.tree, b.literals, b.params, TokensOf(syn, reg), reg.route, w);
  }

  /** The tree of an accepted list weighs what the list weighs. */
  lemma {:induction false} AcceptedSum(syn: Prelexing.Syntax, regs: seq<Registration>, w: Ledgers.Weight)
    requires Accepted(syn, regs)
    ensures Ledgers.Sum(AddAll(syn, regs).tree, w) == RegSum(regs, w)
    decreases |regs|
  {
    if regs != [] {
      AcceptedSum(syn, regs[..|regs| - 1], w);
      AddSum(AddAll(syn, regs[..|regs| - 1]), syn, regs[|regs| - 1], w);
    }
  }

  /** The compiled route count is the number of accepted additions. */
  lemma AcceptedCount(syn: Prelexing.Syntax, regs: seq<Registration>)
    requires Accepted(syn, regs)
    ensures Ledgers.Sum(AddAll(syn, regs).tree, Ledgers.EACH) == |regs|
  {
    AcceptedSum(syn, regs, Ledgers.EACH);
    RegSumCounts(regs);
  }
}

/** The terminal dictionary: node offsets in emission order, and the routes they end at. */
module TerminalDictionary {
  import opened Wrappers
  import opened RouteTree
  import SymbolLists
  import opened GraphLayout

  class Terminals {
    var refs: array<SymbolLists.Word>
    var base: array<Route>
    var count: nat

    ghost predicate Valid()
      reads this
    {
      count <= refs.Length == base.Length
    }

    ghost function Entries(): (entries: seq<Terminal>)
      reads this, refs, base
      ensures Valid() ==> |entries| == count && forall i | 0 <= i < count :: entries[i] == Terminal(refs[i], base[i])
    {
      if !Valid() then [] else
      seq(count, i requires 0 <= i < count reads this, refs, base requires count <= refs.Length == base.Length =>
        Terminal(refs[i], base[i]))
    }

    constructor (n: nat)
      ensures Valid() && count == 0 && refs.Length == n && Entries() == []
      ensures fresh(refs) && fresh(base)
    {
      refs := new SymbolLists.Word[n](_ => 0);
      base := new Route[n](_ => Route(0, 0));
      count := 0;
    }

    method Append(ref: SymbolLists.Word, route: Route)
      requires Valid() && count < refs.Length
      modifies `count, refs, base
      ensures Valid() && count == old(count) + 1
      ensures Entries() == old(Entries()) + [Terminal(ref, route)]
    {
      refs[count] := ref;
      base[count] := route;
      count := count + 1;
    }

    /** Finds the route of a ref: by bisection in a long dictionary, which must be in order, else one by one. */
    method Lookup(ref: nat) returns (route: Option<Route>)
      requires Valid() && (count > 16 ==> Increasing(Entries()))
      ensures route.Some? ==> Terminal(ref, route.value) in Entries()
      ensures route == None ==> forall x | x in Entries() :: x.ref != ref
    {
      ghost var entries := Entries();
      if count > 16 {
        var low, high := 0, count;
        while low < high
          invariant low <= high <= count
          invariant forall i | 0 <= i < low || high <= i < count :: entries[i].ref != ref
        {
          var mid := low + (high - low) / 2;
          var cond := ref - refs[mid];
          assert entries[mid].ref == refs[mid];
          if cond < 0 {
            high := mid;
          } else if cond > 0 {
            low := mid + 1;
          } else {
            assert entries[mid] == Terminal(ref, base[mid]);
            return Some(base[mid]);
          }
        }
      } else {
        var i := 0;
        while i < count
          invariant i <= count && forall k | 0 <= k < i :: entries[k].ref != ref
        {
          if refs[i] == ref {
            assert entries[i] == Terminal(ref, base[i]);
            return Some(base[i]);
          }
          i := i + 1;
        }
      }
      return None;
    }
  }

  /** In an increasing dictionary a ref has one route. */
  lemma RefHasOneRoute(terms: seq<Terminal>, ref: nat, r: Route, s: Route)
    requires Increasing(terms) && Terminal(ref, r) in terms && Terminal(ref, s) in terms
    ensures r == s
  {
  }
}

/** Counting, before compilation, what the compiled graph will take. */
module GraphStats {
  import opened Wrappers
  import opened RouteTree
  import opened Segments
  import opened SegmentWalks
  import opened Regularity
  import opened Ledgers
  import opened GraphLayout
  import opened ParamBounds

  class Stats {
    var terminals: nat
    var size: nat
    var paramDepth: nat
    var maxParams: nat

    constructor ()
      ensures terminals == 0 && size == 0 && paramDepth == 0 && maxParams == 0
    {
      terminals, size, paramDepth, maxParams := 0, 0, 0, 0;
    }

    /** What the special edge adds to the counts, its subtree included. */
    method CountSpecial(seg: Segment, ghost h: Layout, ghost root: Tree, ghost p: Path, ghost t: Tree)
      requires Roots(seg, h, root, p, t) && Regular(t) && NoHalf(t) && paramDepth <= maxParams
      modifies this
      ensures size == old(size) + SpecialWords(t) + SpecialSize(t)
      ensures terminals == old(terminals) + SpecialSum(t, EACH)
      ensures paramDepth == old(paramDepth)
      ensures maxParams == Max(old(maxParams), ReserveOfSpecial(t, paramDepth))
      decreases t, 0
    {
      hide Roots, Size, Sum, Reserve;
      RootFields(seg, h, root, p, t);
      match seg.specType {
        case SpecWildcard =>
          size := size + 2;
          terminals := terminals + 1;
          if paramDepth >= maxParams {
            maxParams := maxParams + 1;
          }
        case SpecParam =>
          size := size + 2;
          paramDepth := paramDepth + 1;
          if paramDepth > maxParams {
            maxParams := maxParams + 1;
          }
          Count(seg.param, h, root, p + [Par(t.special.name)], t.special.sub);
          paramDepth := paramDepth - 1;
        case SpecNone =>
      }
    }

    method CountKids(seg: Segment, ghost h: Layout, ghost root: Tree, ghost p: Path, ghost t: Tree)
      requires Roots(seg, h, root, p, t) && Regular(t) && NoHalf(t) && paramDepth <= maxParams
      modifies this
      ensures size == old(size) + KidsSize(t.kids, |t.kids|)
      ensures terminals == old(terminals) + KidSum(t.kids, |t.kids|, EACH)
      ensures paramDepth == old(paramDepth)
      ensures maxParams == Max(old(maxParams), ReserveOfKids(t.kids, |t.kids|, paramDepth))
      decreases t, 0
    {
      hide Roots, Size, Sum, Reserve;
      RootFields(seg, h, root, p, t);
      ghost var i := 0;
      var child := seg.head;
      while child != null
        invariant i <= |t.kids| && child == KidOrNull(h, p, i)
        invariant size == old(size) + KidsSize(t.kids, i)
        invariant terminals == old(terminals) + KidSum(t.kids, i, EACH)
        invariant paramDepth == old(paramDepth)
        invariant maxParams == Max(old(maxParams), ReserveOfKids(t.kids, i, paramDepth))
        decreases |t.kids| - i
      {
        RootOfKid(seg, h, root, p, t, i);
        Count(child, h, root, p + [Lit(t.kids[i].text)], t.kids[i].tree);
        child := child.next;
        i := i + 1;
      }
    }

    /** Counts a segment and all below it. Bumping the reserve by one at a time yields the maximum. */
    method Count(seg: Segment, ghost h: Layout, ghost root: Tree, ghost p: Path, ghost t: Tree)
      requires Roots(seg, h, root, p, t) && Regular(t) && NoHalf(t) && paramDepth <= maxParams
      modifies this
      ensures size == old(size) + Size(t)
      ensures terminals == old(terminals) + Sum(t, EACH)
      ensures paramDepth == old(paramDepth)
      ensures maxParams == Max(old(maxParams), Reserve(t, paramDepth))
      decreases t, 1
    {
      hide Roots, Regular, Linked, KidsSize, SpecialSize, KidSum, SpecialSum, ReserveOfKids, ReserveOfSpecial;
      RootFields(seg, h, root, p, t);
      size := size + 1;
      if seg.terminal != None {
        terminals := terminals + 1;
      }
      if seg.trailing != None {
        terminals := terminals + 1;
        size := size + 2;
      }
      CountSpecial(seg, h, root, p, t);
      size := size + 2 * seg.childCount;
      CountKids(seg, h, root, p, t);
    }
  }
}

/** Walks over the linked segments: looking a child up, and releasing the routes of a tree. */
module SegmentWalks {
  import opened Wrappers
  import opened Bytes
  import opened RouteTree
  import opened Segments
  import opened Regularity
  import opened Ledgers

  /** The child that a list cursor stands on, or null past the last. */
  ghost function KidOrNull(h: Layout, p: Path, i: nat): Segment? {
    if p in h.kids && i < |h.kids[p]| then h.kids[p][i] else null
  }

  /** A segment's fields, read off the tree. */
  lemma PlaceFields(h: Layout, t: Tree, p: Path)
    requires Linked(h, t) && p in h.at
    ensures SubAt(t, p).Some?
    ensures var s, sub := h.at[p], SubAt(t, p).value;
            && s.terminal == sub.terminal && s.trailing == sub.trailing
            && s.childCount == |sub.kids| && p in h.kids && |h.kids[p]| == |sub.kids|
            && s.head == KidOrNull(h, p, 0)
            && (sub.special.NoSpecial? <==> s.specType.SpecNone?)
            && (sub.special.WildcardEdge? <==> s.specType.SpecWildcard?)
            && (sub.special.WildcardEdge? ==> s.wildcard == Some(sub.special.route))
            && (sub.special.HalfParam? ==> s.param == null)
            && (sub.special.ParamEdge? ==>
                  && p + [Par(sub.special.name)] in h.at && s.param == h.at[p + [Par(sub.special.name)]]
                  && s.param.str == sub.special.name
                  && SubAt(t, p + [Par(sub.special.name)]) == Some(sub.special.sub))
  {
    LinkedPlace(h, t, p);
    var sub := SubAt(t, p).value;
    if sub.special.ParamEdge? {
      SubAtConcat(t, p, [Par(sub.special.name)]);
    }
  }

  lemma ListNext(store: Store, f: Fields, kids: seq<Segment>, texts: seq<Text>, i: nat)
    requires ListOk(store, f, kids, texts) && i < |kids|
    ensures kids[i] in store && store[kids[i]].next == if i + 1 < |kids| then kids[i + 1] else null
  {
  }

  lemma KidFields(h: Layout, t: Tree, p: Path, i: nat)
    requires Linked(h, t) && p in h.at && SubAt(t, p).Some?
    requires DistinctTexts(SubAt(t, p).value.kids) && i < |SubAt(t, p).value.kids|
    ensures p in h.kids && i < |h.kids[p]|
    ensures var kid := SubAt(t, p).value.kids[i];
            var q := p + [Lit(kid.text)];
            && q in h.at && h.at[q] == h.kids[p][i]
            && h.at[q].str == kid.text && h.at[q].next == KidOrNull(h, p, i + 1)
            && SubAt(t, q) == Some(kid.tree)
  {
    LinkedPlace(h, t, p);
    var sub := SubAt(t, p).value;
    var x := sub.kids[i].text;
    assert ViewOf(sub).texts[i] == x;
    assert p + [Lit(x)] in h.at && h.at[p + [Lit(x)]] == h.kids[p][i];
    var s := h.kids[p][i];
    assert Snapshot(h.at.Values)[s] == FieldsOf(s);
    SubAtConcat(t, p, [Lit(x)]);
    assert Find(sub.kids, x) == Some(i);
    assert [Lit(x)][1..] == [];
    assert SubAt(sub, [Lit(x)]) == Some(sub.kids[i].tree);
    assert s.str == x;
    ListNext(Snapshot(h.at.Values), Snapshot(h.at.Values)[h.at[p]], h.kids[p], ViewOf(sub).texts, i);
  }

  /** Segment seg is the place p of the linked tree, and roots the subtree t. */
  ghost predicate Roots(seg: Segment, h: Layout, root: Tree, p: Path, t: Tree)
    reads h.at.Values
  {
    Linked(h, root) && p in h.at && h.at[p] == seg && SubAt(root, p) == Some(t)
  }

  lemma RootFields(seg: Segment, h: Layout, root: Tree, p: Path, t: Tree)
    requires Roots(seg, h, root, p, t)
    ensures seg.terminal == t.terminal && seg.trailing == t.trailing && seg.childCount == |t.kids|
    ensures seg.head == KidOrNull(h, p, 0) && p in h.kids && |h.kids[p]| == |t.kids|
    ensures !t.special.HalfParam? ==>
              seg.specType == (match t.special
                               case ParamEdge(_, _) => SpecParam
                               case WildcardEdge(_) => SpecWildcard
                               case _ => SpecNone)
    ensures t.special.WildcardEdge? ==> seg.wildcard == Some(t.special.route)
    ensures t.special.ParamEdge? ==>
              && seg.param != null && seg.param.str == t.special.name
              && Roots(seg.param, h, root, p + [Par(t.special.name)], t.special.sub)
  {
    PlaceFields(h, root, p);
  }

  lemma RootOfKid(seg: Segment, h: Layout, root: Tree, p: Path, t: Tree, i: nat)
    requires Roots(seg, h, root, p, t) && DistinctTexts(t.kids) && i < |t.kids|
    ensures var kid := KidOrNull(h, p, i);
            && kid != null && kid.str == t.kids[i].text && kid.next == KidOrNull(h, p, i + 1)
            && Roots(kid, h, root, p + [Lit(t.kids[i].text)], t.kids[i].tree)
  {
    KidFields(h, root, p, i);
  }

  /** Walks the child list for a text. */
  method FindChild(cur: Segment, x: Text, ghost h: Layout, ghost t: Tree, ghost p: Path) returns (child: Segment?)
    requires Linked(h, t) && p in h.at && h.at[p] == cur
    requires SubAt(t, p).Some? && DistinctTexts(SubAt(t, p).value.kids)
    ensures child == null <==> Find(SubAt(t, p).value.kids, x) == None
    ensures child != null ==> p + [Lit(x)] in h.at && child == h.at[p + [Lit(x)]]
  {
    PlaceFields(h, t, p);
    ghost var kids := SubAt(t, p).value.kids;
    ghost var i := 0;
    child := cur.head;
    while child != null
      invariant i <= |kids| && child == KidOrNull(h, p, i)
      invariant forall j | 0 <= j < i :: kids[j].text != x
      decreases |kids| - i
    {
      KidFields(h, t, p, i);
      if child.str == x {
        return;
      }
      child := child.next;
      i := i + 1;
    }
  }

  method ReleaseRoute(r: Option<Route>, ledger: Ledger)
    modifies ledger`released
    ensures forall c :: ledger.released[c] == old(ledger.released)[c] + Of(r, Carries(c))
  {
    if r != None {
      ledger.Release(r.value.ctx);
    }
  }

  /** Releases the contexts of all routes at and below a segment, each as often as it occurs. */
  method SegmentRelease(seg: Segment, ledger: Ledger, ghost h: Layout, ghost t: Tree, ghost p: Path, ghost sub: Tree)
    requires Linked(h, t) && p in h.at && h.at[p] == seg && SubAt(t, p) == Some(sub)
    requires Regular(sub) && NoHalf(sub)
    modifies ledger`released
    ensures forall c :: ledger.released[c] == old(ledger.released)[c] + Sum(sub, Carries(c))
    decreases sub, 1
  {
    PlaceFields(h, t, p);
    ReleaseKids(seg, ledger, h, t, p, sub);
    ReleaseSpecial(seg, ledger, h, t, p, sub);
    ReleaseRoute(seg.trailing, ledger);
    ReleaseRoute(seg.terminal, ledger);
  }

  method ReleaseKids(seg: Segment, ledger: Ledger, ghost h: Layout, ghost t: Tree, ghost p: Path, ghost sub: Tree)
    requires Linked(h, t) && p in h.at && h.at[p] == seg && SubAt(t, p) == Some(sub)
    requires Regular(sub) && NoHalf(sub)
    modifies ledger`released
    ensures forall c :: ledger.released[c] == old(ledger.released)[c] + KidSum(sub.kids, |sub.kids|, Carries(c))
    decreases sub, 0
  {
    PlaceFields(h, t, p);
    ghost var i := 0;
    var child := seg.head;
    while child != null
      invariant i <= |sub.kids| && child == KidOrNull(h, p, i)
      invariant forall c :: ledger.released[c] == old(ledger.released)[c] + KidSum(sub.kids, i, Carries(c))
      decreases |sub.kids| - i
    {
      KidFields(h, t, p, i);
      SegmentRelease(child, ledger, h, t, p + [Lit(sub.kids[i].text)], sub.kids[i].tree);
      child := child.next;
      i := i + 1;
    }
  }

  method ReleaseSpecial(seg: Segment, ledger: Ledger, ghost h: Layout, ghost t: Tree, ghost p: Path, ghost sub: Tree)
    requires Linked(h, t) && p in h.at && h.at[p] == seg && SubAt(t, p) == Some(sub)
    requires Regular(sub) && NoHalf(sub)
    modifies ledger`released
    ensures forall c :: ledger.released[c] == old(ledger.released)[c] + SpecialSum(sub, Carries(c))
    decreases sub, 0
  {
    PlaceFields(h, t, p);
    match seg.specType {
      case SpecParam =>
        SegmentRelease(seg.param, ledger, h, t, p + [Par(sub.special.name)], sub.special.sub);
      case SpecWildcard =>
        ReleaseRoute(seg.wildcard, ledger);
      case SpecNone =>
    }
  }
}

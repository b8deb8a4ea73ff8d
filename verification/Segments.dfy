/** The builder's segments: a tree of objects, children in a linked list. */
module Segments {
  import opened Wrappers
  import opened Bytes
  import opened Tokens
  import opened RouteTree

  datatype SpecialType = SpecNone | SpecParam | SpecWildcard

  class Segment {
    var str: Text
    var head: Segment?
    var tail: Segment?
    var next: Segment?
    var terminal: Option<Route>
    var trailing: Option<Route>
    var specType: SpecialType
    var param: Segment?           // the union's arm when specType is SpecParam
    var wildcard: Option<Route>   // the union's arm when specType is SpecWildcard
    var childCount: nat

    constructor (str: Text)
      ensures FieldsOf(this) == Blank(str) && this.str == str
    {
      this.str := str;
      head, tail, next, param := null, null, null, null;
      terminal, trailing, wildcard := None, None, None;
      specType, childCount := SpecNone, 0;
    }
  }

  /** The fields of a segment, as one value. */
  datatype Fields = Fields(
    str: Text, head: Segment?, tail: Segment?, next: Segment?, terminal: Option<Route>, trailing: Option<Route>,
    specType: SpecialType, param: Segment?, wildcard: Option<Route>, childCount: nat)

  ghost function FieldsOf(s: Segment): Fields
    reads s
  {
    Fields(s.str, s.head, s.tail, s.next, s.terminal, s.trailing, s.specType, s.param, s.wildcard, s.childCount)
  }

  ghost function Blank(str: Text): Fields {
    Fields(str, null, null, null, None, None, SpecNone, null, None, 0)
  }

  type Store = map<Segment, Fields>

  ghost function Snapshot(objects: set<Segment>): Store
    reads objects
  {
    map s | s in objects :: FieldsOf(s)
  }

  /** Which object is at which place of the tree, and the children of each place in list order. */
  datatype Layout = Layout(at: map<Path, Segment>, kids: map<Path, seq<Segment>>)

  ghost predicate OwnFieldsOk(f: Fields, v: View) {
    f.terminal == v.terminal && f.trailing == v.trailing
  }

  /** The linked list from f leads through exactly these children. */
  ghost predicate ListOk(store: Store, f: Fields, kids: seq<Segment>, texts: seq<Text>) {
    && |kids| == |texts| == f.childCount
    && f.head == (if kids == [] then null else kids[0])
    && (kids != [] ==> f.tail == kids[|kids| - 1])
    && forall i | 0 <= i < |kids| ::
         && kids[i] in store && store[kids[i]].str == texts[i]
         && store[kids[i]].next == if i + 1 < |kids| then kids[i + 1] else null
  }

  ghost predicate KidsAt(at: map<Path, Segment>, p: Path, kids: seq<Segment>, texts: seq<Text>) {
    |kids| == |texts| && forall i | 0 <= i < |texts| :: p + [Lit(texts[i])] in at && at[p + [Lit(texts[i])]] == kids[i]
  }

  ghost predicate SpecialOk(at: map<Path, Segment>, store: Store, p: Path, f: Fields, v: SpecialView) {
    match v
    case NoneView => f.specType == SpecNone
    case ParamView(n) =>
      var q := p + [Par(n)];
      f.specType == SpecParam && q in at && f.param == at[q] && at[q] in store && store[at[q]].str == n
    case WildcardView(r) => f.specType == SpecWildcard && f.wildcard == Some(r)
    case HalfView => f.specType == SpecParam && f.param == null
  }

  /** The place p holds what the view says. */
  ghost predicate PlaceOk(h: Layout, store: Store, p: Path, v: View) {
    && p in h.at && p in h.kids && h.at[p] in store
    && OwnFieldsOk(store[h.at[p]], v)
    && ListOk(store, store[h.at[p]], h.kids[p], v.texts)
    && KidsAt(h.at, p, h.kids[p], v.texts)
    && SpecialOk(h.at, store, p, store[h.at[p]], v.special)
  }

  ghost predicate Injective(at: map<Path, Segment>) {
    forall p, q | p in at && q in at && p != q :: at[p] != at[q]
  }

  ghost predicate PlaceIn(h: Layout, store: Store, t: Tree, p: Path) {
    p in h.at && ViewAt(t, p).Some? && PlaceOk(h, store, p, ViewAt(t, p).value)
  }

  ghost predicate Shape(h: Layout, store: Store, t: Tree) {
    && store.Keys == h.at.Values
    && Injective(h.at)
    && (forall p {:trigger ViewAt(t, p)} | ViewAt(t, p).Some? :: p in h.at)
    && (forall p {:trigger PlaceIn(h, store, t, p)} | p in h.at :: PlaceIn(h, store, t, p))
  }

  /** The objects are the tree. */
  ghost predicate Linked(h: Layout, t: Tree)
    reads h.at.Values
  {
    Shape(h, Snapshot(h.at.Values), t)
  }

  // ---- Changes to one place ----

  /** Nothing that other places look at has changed: names and list links. */
  ghost predicate LinksKept(store: Store, store': Store) {
    forall s | s in store :: s in store' && store'[s].str == store[s].str && store'[s].next == store[s].next
  }

  lemma PlaceKept(h: Layout, store: Store, store': Store, q: Path, v: View)
    requires PlaceOk(h, store, q, v) && LinksKept(store, store')
    requires store'[h.at[q]] == store[h.at[q]]
    ensures PlaceOk(h, store', q, v)
  {
  }

  ghost predicate ChangesTo(h: Layout, store: Store, t: Tree, p: Path, s: Tree, f: Fields) {
    && p in h.at && SubAt(t, p).Some? && h.at[p] in store
    && (forall st :: Down(s, st) == Down(SubAt(t, p).value, st))
    && f.str == store[h.at[p]].str && f.next == store[h.at[p]].next
    && PlaceOk(h, store[h.at[p] := f], p, ViewOf(s))
  }

  lemma ChangePlace(h: Layout, store: Store, t: Tree, p: Path, s: Tree, f: Fields, q: Path)
    requires Shape(h, store, t) && ChangesTo(h, store, t, p, s, f)
    ensures ViewAt(Replace(t, p, s), q).Some? <==> q in h.at
    ensures q in h.at ==> PlaceIn(h, store[h.at[p] := f], Replace(t, p, s), q)
  {
    ReplaceLocally(t, p, s, q);
    if q in h.at && q != p {
      assert PlaceIn(h, store, t, q);
      PlaceKept(h, store, store[h.at[p] := f], q, ViewAt(t, q).value);
    }
  }

  /** A segment's own fields change; its children do not. */
  lemma ChangeLocally(h: Layout, store: Store, t: Tree, p: Path, s: Tree, f: Fields)
    requires Shape(h, store, t) && ChangesTo(h, store, t, p, s, f)
    ensures Shape(h, store[h.at[p] := f], Replace(t, p, s))
  {
    forall q | ViewAt(Replace(t, p, s), q).Some? ensures q in h.at {
      ChangePlace(h, store, t, p, s, f, q);
    }
    forall q | q in h.at ensures PlaceIn(h, store[h.at[p] := f], Replace(t, p, s), q) {
      ChangePlace(h, store, t, p, s, f, q);
    }
  }

  lemma SnocDiffers(p: Path, q: Path, a: RouteTree.Step, b: RouteTree.Step)
    requires p + [a] == q + [b]
    ensures p == q && a == b
  {
    assert (p + [a])[..|p|] == p && (q + [b])[..|q|] == q;
    assert (p + [a])[|p|] == a && (q + [b])[|q|] == b;
  }

  /** The layout with a new childless segment one step below p. */
  ghost function Grown(h: Layout, p: Path, st: RouteTree.Step, child: Segment): Layout
    requires p in h.kids
  {
    Layout(h.at[p + [st] := child], h.kids[p := h.kids[p] + if st.Lit? then [child] else []][p + [st] := []])
  }

  /** Only the list link of p's last child changes, and the new child comes in. */
  ghost predicate LinksGrow(h: Layout, store: Store, store': Store, p: Path)
    requires p in h.kids
  {
    forall s | s in store ::
      && s in store' && store'[s].str == store[s].str
      && ((h.kids[p] == [] || s != h.kids[p][|h.kids[p]| - 1]) ==> store'[s].next == store[s].next)
  }

  lemma ListKept(store: Store, store': Store, f: Fields, f': Fields, kids: seq<Segment>, texts: seq<Text>)
    requires ListOk(store, f, kids, texts)
    requires f'.head == f.head && f'.tail == f.tail && f'.childCount == f.childCount
    requires forall i | 0 <= i < |kids| ::
               kids[i] in store' && store'[kids[i]].str == store[kids[i]].str && store'[kids[i]].next ==
                 store[kids[i]].next
    ensures ListOk(store', f', kids, texts)
  {
  }

  lemma KidsAtKept(at: map<Path, Segment>, at': map<Path, Segment>, p: Path, kids: seq<Segment>, texts: seq<Text>)
    requires KidsAt(at, p, kids, texts)
    requires forall q | q in at :: q in at' && at'[q] == at[q]
    ensures KidsAt(at', p, kids, texts)
  {
  }

  lemma KidsOfOthersDiffer(h: Layout, p: Path, q: Path, ptexts: seq<Text>, qtexts: seq<Text>, i: nat, j: nat)
    requires Injective(h.at) && p in h.kids && q in h.kids && p != q
    requires KidsAt(h.at, p, h.kids[p], ptexts) && KidsAt(h.at, q, h.kids[q], qtexts)
    requires i < |h.kids[p]| && j < |h.kids[q]|
    ensures h.kids[p][i] != h.kids[q][j]
  {
    var a, b := p + [Lit(ptexts[i])], q + [Lit(qtexts[j])];
    if a == b {
      SnocDiffers(p, q, Lit(ptexts[i]), Lit(qtexts[j]));
    }
    assert h.at[a] == h.kids[p][i] && h.at[b] == h.kids[q][j];
  }

  /** Other places do not see a new segment, nor the new link in their cousins' list. */
  lemma PlaceKeptGrowing(h: Layout, store: Store, store': Store, p: Path, st: RouteTree.Step, child: Segment,
                         pv: View, q: Path, v: View)
    requires Injective(h.at) && PlaceOk(h, store, p, pv) && PlaceOk(h, store, q, v)
    requires q != p && p + [st] !in h.at && LinksGrow(h, store, store', p)
    requires store'[h.at[q]] == store[h.at[q]].(next := store'[h.at[q]].next)
    ensures PlaceOk(Grown(h, p, st, child), store', q, v)
  {
    var h' := Grown(h, p, st, child);
    var kids := h.kids[q];
    assert h'.kids[q] == kids && h'.at[q] == h.at[q];
    forall i | 0 <= i < |kids| ensures kids[i] in store' && store'[kids[i]].next == store[kids[i]].next {
      if h.kids[p] != [] {
        KidsOfOthersDiffer(h, p, q, pv.texts, v.texts, |h.kids[p]| - 1, i);
      }
    }
    ListKept(store, store', store[h.at[q]], store'[h.at[q]], kids, v.texts);
    KidsAtKept(h.at, h'.at, q, kids, v.texts);
  }

  ghost predicate GrowsTo(h: Layout, store: Store, store': Store, t: Tree, p: Path, s: Tree, st: RouteTree.Step,
                          child: Segment)
  {
    && PlaceIn(h, store, t, p) && SubAt(t, p).Some? && Down(SubAt(t, p).value, st) == None
    && (forall st' :: Down(s, st') == if st' == st then Some(EMPTY) else Down(SubAt(t, p).value, st'))
    && child !in h.at.Values && store'.Keys == store.Keys + {child}
    && LinksGrow(h, store, store', p)
    && (forall q | q in h.at && q != p ::
          h.at[q] in store && h.at[q] in store' && store'[h.at[q]] == store[h.at[q]].(next := store'[h.at[q]].next))
    && PlaceOk(Grown(h, p, st, child), store', p, ViewOf(s))
    && PlaceOk(Grown(h, p, st, child), store', p + [st], ViewOf(EMPTY))
  }

  lemma GrowPlace(h: Layout, store: Store, store': Store, t: Tree, p: Path, s: Tree, st: RouteTree.Step,
                  child: Segment, q: Path)
    requires Shape(h, store, t) && GrowsTo(h, store, store', t, p, s, st, child) && p + [st] !in h.at
    ensures ViewAt(Replace(t, p, s), q).Some? <==> q in Grown(h, p, st, child).at
    ensures q in Grown(h, p, st, child).at ==> PlaceIn(Grown(h, p, st, child), store', Replace(t, p, s), q)
  {
    ReplaceGrowing(t, p, s, st, q);
    if q in h.at && q != p {
      assert PlaceIn(h, store, t, q);
      PlaceKeptGrowing(h, store, store', p, st, child, ViewAt(t, p).value, q, ViewAt(t, q).value);
    }
  }

  /** A segment gets a new empty child. */
  lemma Grow(h: Layout, store: Store, store': Store, t: Tree, p: Path, s: Tree, st: RouteTree.Step, child: Segment)
    requires Shape(h, store, t) && GrowsTo(h, store, store', t, p, s, st, child)
    ensures p + [st] !in h.at
    ensures Shape(Grown(h, p, st, child), store', Replace(t, p, s))
  {
    var h' := Grown(h, p, st, child);
    var t' := Replace(t, p, s);
    NotYetThere(h, store, t, p, st);
    ValuesAfterAdding(h.at, p + [st], child);
    InjectiveAfterAdding(h.at, p + [st], child);
    forall q | ViewAt(t', q).Some? ensures q in h'.at {
      GrowPlace(h, store, store', t, p, s, st, child, q);
    }
    forall q | q in h'.at ensures PlaceIn(h', store', t', q) {
      GrowPlace(h, store, store', t, p, s, st, child, q);
    }
  }

  lemma PlaceHasView(h: Layout, store: Store, t: Tree, p: Path)
    requires Shape(h, store, t) && p in h.at
    ensures PlaceIn(h, store, t, p)
  {
  }

  lemma NotYetThere(h: Layout, store: Store, t: Tree, p: Path, st: RouteTree.Step)
    requires Shape(h, store, t) && SubAt(t, p).Some? && Down(SubAt(t, p).value, st) == None
    ensures p + [st] !in h.at
  {
    SubAtConcat(t, p, [st]);
    if p + [st] in h.at {
      PlaceHasView(h, store, t, p + [st]);
    }
  }

  lemma InjectiveAfterAdding(at: map<Path, Segment>, p: Path, s: Segment)
    requires Injective(at) && s !in at.Values
    ensures Injective(at[p := s])
  {
  }

  lemma ValuesAfterAdding<K, V>(m: map<K, V>, k: K, v: V)
    requires k !in m
    ensures m[k := v].Values == m.Values + {v}
  {
    var m' := m[k := v];
    forall x | x in m.Values + {v} ensures x in m'.Values {
      if x in m.Values {
        var j :| j in m && m[j] == x;
        assert m'[j] == x;
      } else {
        assert m'[k] == x;
      }
    }
  }

  // ---- The operations ----

  /** Put a route at one of a segment's three places. */
  function WithRoute(t: Tree, f: Final, r: Route): Tree {
    match f
    case AtEnd => t.(terminal := Some(r))
    case AtTrailing => t.(trailing := Some(r))
    case AtWildcard => t.(special := WildcardEdge(r))
  }

  lemma LinkedPlace(h: Layout, t: Tree, p: Path)
    requires Linked(h, t) && p in h.at
    ensures SubAt(t, p).Some? && PlaceOk(h, Snapshot(h.at.Values), p, ViewOf(SubAt(t, p).value))
  {
    PlaceHasView(h, Snapshot(h.at.Values), t, p);
  }

  lemma ChangedPlace(h: Layout, store: Store, p: Path, v: View, v': View, f: Fields)
    requires PlaceOk(h, store, p, v) && v'.texts == v.texts
    requires f.(terminal := None, trailing := None, specType := SpecNone, param := null, wildcard := None)
          == store[h.at[p]].(terminal := None, trailing := None, specType := SpecNone, param := null, wildcard := None)
    requires OwnFieldsOk(f, v') && SpecialOk(h.at, store[h.at[p] := f], p, f, v'.special)
    ensures PlaceOk(h, store[h.at[p] := f], p, v')
  {
  }

  lemma StoreChanged(store: Store, store': Store, a: Segment)
    requires store.Keys == store'.Keys && a in store
    requires forall s | s in store && s != a :: store'[s] == store[s]
    ensures store' == store[a := store'[a]]
  {
  }

  lemma StoreUpdated(store: Store, store': Store, a: Segment, b: Segment)
    requires store.Keys == store'.Keys && a in store && b in store
    requires forall s | s in store && s != a && s != b :: store'[s] == store[s]
    ensures store' == store[b := store'[b]][a := store'[a]]
  {
  }

  /** The fields of a segment with a route stored at one of its places. */
  ghost function FieldsWithRoute(fields: Fields, f: Final, r: Route): Fields {
    match f
    case AtEnd => fields.(terminal := Some(r))
    case AtTrailing => fields.(trailing := Some(r))
    case AtWildcard => fields.(specType := SpecWildcard, wildcard := Some(r))
  }

  lemma StoresRoute(h: Layout, store: Store, t: Tree, p: Path, f: Final, r: Route)
    requires Shape(h, store, t) && p in h.at
    requires f.AtWildcard? ==> store[h.at[p]].specType == SpecNone
    ensures SubAt(t, p).Some?
    ensures Shape(h, store[h.at[p] := FieldsWithRoute(store[h.at[p]], f, r)],
                  Replace(t, p, WithRoute(SubAt(t, p).value, f, r)))
  {
    PlaceHasView(h, store, t, p);
    var sub := SubAt(t, p).value;
    var fields := FieldsWithRoute(store[h.at[p]], f, r);
    ChangedPlace(h, store, p, ViewOf(sub), ViewOf(WithRoute(sub, f, r)), fields);
    ChangeLocally(h, store, t, p, WithRoute(sub, f, r), fields);
  }

  method StoreRoute(cur: Segment, f: Final, r: Route, ghost h: Layout, ghost t: Tree, ghost p: Path)
    requires Linked(h, t) && p in h.at && h.at[p] == cur
    requires f.AtWildcard? ==> cur.specType == SpecNone
    modifies cur
    ensures SubAt(t, p).Some? && Linked(h, Replace(t, p, WithRoute(SubAt(t, p).value, f, r)))
  {
    ghost var store := Snapshot(h.at.Values);
    StoresRoute(h, store, t, p, f, r);
    if f.AtEnd? {
      cur.terminal := Some(r);
    } else if f.AtTrailing? {
      cur.trailing := Some(r);
    } else {
      cur.specType := SpecWildcard;
      cur.wildcard := Some(r);
    }
    StoreChanged(store, Snapshot(h.at.Values), cur);
    assert FieldsOf(cur) == FieldsWithRoute(store[cur], f, r);
  }

  lemma MarksHalfParam(h: Layout, store: Store, t: Tree, p: Path)
    requires Shape(h, store, t) && p in h.at && store[h.at[p]].specType == SpecNone
    ensures SubAt(t, p).Some?
    ensures Shape(h, store[h.at[p] := store[h.at[p]].(specType := SpecParam, param := null)],
                  Replace(t, p, SubAt(t, p).value.(special := HalfParam)))
  {
    PlaceHasView(h, store, t, p);
    var sub := SubAt(t, p).value;
    var fields := store[h.at[p]].(specType := SpecParam, param := null);
    ChangedPlace(h, store, p, ViewOf(sub), ViewOf(sub.(special := HalfParam)), fields);
    ChangeLocally(h, store, t, p, sub.(special := HalfParam), fields);
  }

  /** What a refused parameter symbol leaves: the edge is marked, the segment is missing. */
  method MarkHalfParam(cur: Segment, ghost h: Layout, ghost t: Tree, ghost p: Path)
    requires Linked(h, t) && p in h.at && h.at[p] == cur && cur.specType == SpecNone
    modifies cur
    ensures SubAt(t, p).Some? && Linked(h, Replace(t, p, SubAt(t, p).value.(special := HalfParam)))
  {
    ghost var store := Snapshot(h.at.Values);
    MarksHalfParam(h, store, t, p);
    cur.specType := SpecParam;
    cur.param := null;
    StoreChanged(store, Snapshot(h.at.Values), cur);
    assert FieldsOf(cur) == store[cur].(specType := SpecParam, param := null);
  }

  lemma NewPlace(h: Layout, store: Store, p: Path, child: Segment)
    requires p in h.at && h.at[p] == child && p in h.kids && h.kids[p] == []
    requires child in store && store[child] == Blank(store[child].str)
    ensures PlaceOk(h, store, p, ViewOf(EMPTY))
  {
  }

  lemma ParentOfParam(h: Layout, store: Store, store': Store, p: Path, v: View, child: Segment, x: Text)
    requires PlaceOk(h, store, p, v) && child in store' && store'[child].str == x && p + [Par(x)] !in h.at
    requires h.at[p] in store' && store'[h.at[p]] == store[h.at[p]].(specType := SpecParam, param := child)
    requires LinksKept(store, store')
    ensures PlaceOk(Grown(h, p, Par(x), child), store', p, v.(special := ParamView(x)))
  {
    var h' := Grown(h, p, Par(x), child);
    assert p + [Par(x)] != p;
    assert h'.kids[p] == h.kids[p];
    ListKept(store, store', store[h.at[p]], store'[h.at[p]], h.kids[p], v.texts);
    KidsAtKept(h.at, h'.at, p, h.kids[p], v.texts);
  }

  ghost function StoreWithParam(store: Store, cur: Segment, child: Segment, x: Text): Store
    requires cur in store
  {
    store[cur := store[cur].(specType := SpecParam, param := child)][child := Blank(x)]
  }

  lemma AttachesParam(h: Layout, store: Store, t: Tree, p: Path, child: Segment, x: Text)
    requires Shape(h, store, t) && p in h.at && store[h.at[p]].specType == SpecNone && child !in h.at.Values
    ensures SubAt(t, p).Some? && !SubAt(t, p).value.special.ParamEdge? && p in h.kids
    ensures Shape(Grown(h, p, Par(x), child), StoreWithParam(store, h.at[p], child, x),
                  Replace(t, p, WithParam(SubAt(t, p).value, x)))
  {
    PlaceHasView(h, store, t, p);
    var sub := SubAt(t, p).value;
    var store' := StoreWithParam(store, h.at[p], child, x);
    NotYetThere(h, store, t, p, Par(x));
    ParentOfParam(h, store, store', p, ViewOf(sub), child, x);
    NewPlace(Grown(h, p, Par(x), child), store', p + [Par(x)], child);
    Grow(h, store, store', t, p, WithParam(sub, x), Par(x), child);
  }

  lemma SnapshotWith(objects: set<Segment>, child: Segment)
    ensures Snapshot(objects + {child}) == Snapshot(objects)[child := FieldsOf(child)]
  {
  }

  method AttachParam(cur: Segment, child: Segment, ghost h: Layout, ghost t: Tree, ghost p: Path)
    returns (ghost h': Layout)
    requires Linked(h, t) && p in h.at && h.at[p] == cur && cur.specType == SpecNone
    requires FieldsOf(child) == Blank(child.str) && child !in h.at.Values
    modifies cur
    ensures SubAt(t, p).Some? && !SubAt(t, p).value.special.ParamEdge?
    ensures p in h.kids && h' == Grown(h, p, Par(child.str), child)
    ensures h'.at == h.at[p + [Par(child.str)] := child] && h'.at.Values == h.at.Values + {child}
    ensures Linked(h', Replace(t, p, WithParam(SubAt(t, p).value, child.str)))
  {
    ghost var store := Snapshot(h.at.Values);
    AttachesParam(h, store, t, p, child, child.str);
    h' := Grown(h, p, Par(child.str), child);
    assert h'.at.Values == h.at.Values + {child};
    cur.specType := SpecParam;
    cur.param := child;
    StoreChanged(store, Snapshot(h.at.Values), cur);
    assert FieldsOf(cur) == store[cur].(specType := SpecParam, param := child);
    SnapshotWith(h.at.Values, child);
    assert Snapshot(h'.at.Values) == StoreWithParam(store, cur, child, child.str);
  }

  lemma LongerList(store: Store, store': Store, f: Fields, f': Fields, kids: seq<Segment>, texts: seq<Text>,
                   child: Segment, x: Text)
    requires ListOk(store, f, kids, texts) && child in store' && store'[child].str == x && store'[child].next == null
    requires f'.childCount == f.childCount + 1 && f'.tail == child
    requires f'.head == if kids == [] then child else f.head
    requires forall i | 0 <= i < |kids| ::
               && kids[i] in store' && store'[kids[i]].str == store[kids[i]].str
               && store'[kids[i]].next == if i + 1 < |kids| then store[kids[i]].next else child
    ensures ListOk(store', f', kids + [child], texts + [x])
  {
  }

  lemma ParentOfKid(h: Layout, store: Store, store': Store, p: Path, v: View, child: Segment, x: Text)
    requires PlaceOk(h, store, p, v) && p + [Lit(x)] !in h.at
    requires h.at[p] in store' && OwnFieldsOk(store'[h.at[p]], v)
    requires ListOk(store', store'[h.at[p]], h.kids[p] + [child], v.texts + [x])
    requires SpecialOk(h.at, store', p, store'[h.at[p]], v.special)
    ensures PlaceOk(Grown(h, p, Lit(x), child), store', p, v.(texts := v.texts + [x]))
  {
  }

  ghost function FieldsWithKid(f: Fields, child: Segment): Fields {
    f.(head := if f.head == null then child else f.head, tail := child, childCount := f.childCount + 1)
  }

  /** The fields after a child is linked in behind the last one. */
  ghost function StoreWithKid(store: Store, cur: Segment, child: Segment, x: Text): Store
    requires cur in store
  {
    var f := store[cur];
    var relinked: Store :=
      if f.head != null && f.tail != null && f.tail in store
        && f.tail != cur then store[f.tail := store[f.tail].(next := child)]
      else store;
    relinked[cur := FieldsWithKid(f, child)][child := Blank(x)]
  }

  lemma RelinkedLinks(h: Layout, store: Store, p: Path, v: View, child: Segment, x: Text)
    requires PlaceOk(h, store, p, v) && child !in store
    requires Injective(h.at) && p + [Lit(x)] !in h.at
    ensures var store' := StoreWithKid(store, h.at[p], child, x);
            && store'.Keys == store.Keys + {child}
            && LinksGrow(h, store, store', p)
            && (h.kids[p] != [] ==> store'[h.kids[p][|h.kids[p]| - 1]].next == child)
            && (forall s | s in store && s != h.at[p] :: store'[s] == store[s].(next := store'[s].next))
  {
    if h.kids[p] != [] {
      var n := |h.kids[p]| - 1;
      var q := p + [Lit(v.texts[n])];
      assert q in h.at && h.at[q] == h.kids[p][n] && q != p;
    }
  }

  lemma KidsAreApart(h: Layout, p: Path, v: View, store: Store, i: nat, j: nat)
    requires PlaceOk(h, store, p, v) && Injective(h.at) && i < j < |h.kids[p]| && v.texts[i] != v.texts[j]
    ensures h.kids[p][i] != h.kids[p][j]
  {
  }

  lemma ListAfterAppend(h: Layout, store: Store, p: Path, v: View, child: Segment, x: Text)
    requires PlaceOk(h, store, p, v) && child !in store && Injective(h.at) && p + [Lit(x)] !in h.at
    requires forall i, j | 0 <= i < j < |v.texts| :: v.texts[i] != v.texts[j]
    ensures var store' := StoreWithKid(store, h.at[p], child, x);
            h.at[p] in store' && ListOk(store', store'[h.at[p]], h.kids[p] + [child], v.texts + [x])
  {
    var store' := StoreWithKid(store, h.at[p], child, x);
    var kids := h.kids[p];
    RelinkedLinks(h, store, p, v, child, x);
    forall i | 0 <= i < |kids|
      ensures kids[i] in store' && store'[kids[i]].str == store[kids[i]].str
      ensures store'[kids[i]].next == if i + 1 < |kids| then store[kids[i]].next else child
    {
      if i + 1 < |kids| {
        KidsAreApart(h, p, v, store, i, |kids| - 1);
      }
    }
    LongerList(store, store', store[h.at[p]], store'[h.at[p]], kids, v.texts, child, x);
  }

  lemma KidGrows(h: Layout, store: Store, t: Tree, p: Path, child: Segment, x: Text)
    requires Shape(h, store, t) && PlaceIn(h, store, t, p) && child !in h.at.Values
    requires Find(SubAt(t, p).value.kids, x) == None && DistinctTexts(SubAt(t, p).value.kids)
    ensures GrowsTo(h, store, StoreWithKid(store, h.at[p], child, x), t, p, WithKid(SubAt(t, p).value, x), Lit(x),
                    child)
  {
    var sub := SubAt(t, p).value;
    var store' := StoreWithKid(store, h.at[p], child, x);
    NotYetThere(h, store, t, p, Lit(x));
    RelinkedLinks(h, store, p, ViewOf(sub), child, x);
    ListAfterAppend(h, store, p, ViewOf(sub), child, x);
    ParentOfKid(h, store, store', p, ViewOf(sub), child, x);
    ViewWithKid(sub, x);
    NewPlace(Grown(h, p, Lit(x), child), store', p + [Lit(x)], child);
  }

  lemma AppendsKid(h: Layout, store: Store, t: Tree, p: Path, child: Segment, x: Text)
    requires Shape(h, store, t) && p in h.at && child !in h.at.Values
    requires SubAt(t, p).Some? && Find(SubAt(t, p).value.kids, x) == None && DistinctTexts(SubAt(t, p).value.kids)
    ensures p in h.kids
    ensures Shape(Grown(h, p, Lit(x), child), StoreWithKid(store, h.at[p], child, x),
                  Replace(t, p, WithKid(SubAt(t, p).value, x)))
    ensures store[h.at[p]].childCount == |SubAt(t, p).value.kids|
    ensures store[h.at[p]].head != null ==> store[h.at[p]].tail != null && store[h.at[p]].tail in store
    ensures store[h.at[p]].head != null ==> store[h.at[p]].tail != h.at[p]
  {
    PlaceHasView(h, store, t, p);
    var sub := SubAt(t, p).value;
    KidGrows(h, store, t, p, child, x);
    Grow(h, store, StoreWithKid(store, h.at[p], child, x), t, p, WithKid(sub, x), Lit(x), child);
    if store[h.at[p]].head != null {
      var q := p + [Lit(sub.kids[|sub.kids| - 1].text)];
      assert q in h.at && h.at[q] == store[h.at[p]].tail && q != p;
    }
  }

  /** Links a child in behind the last one. */
  method LinkLast(cur: Segment, child: Segment)
    requires cur != child && (cur.head != null ==> cur.tail != null && cur.tail != cur)
    modifies cur, if cur.head != null then cur.tail else cur
    ensures FieldsOf(cur) == old(FieldsOf(cur)).(head := if old(cur.head) == null then child else old(cur.head),
                                                 tail := child, childCount := old(cur.childCount) + 1)
    ensures old(cur.head) != null ==> FieldsOf(old(cur.tail)) == old(FieldsOf(cur.tail)).(next := child)
  {
    if cur.head == null {
      cur.head := child;
      cur.tail := child;
    } else {
      cur.tail.next := child;
      cur.tail := child;
    }
    cur.childCount := cur.childCount + 1;
  }

  method AppendChild(cur: Segment, child: Segment, ghost h: Layout, ghost t: Tree, ghost p: Path)
    returns (err: Error, ghost h': Layout)
    requires Linked(h, t) && p in h.at && h.at[p] == cur
    requires FieldsOf(child) == Blank(child.str) && child !in h.at.Values
    requires SubAt(t, p).Some?
    requires Find(SubAt(t, p).value.kids, child.str) == None && DistinctTexts(SubAt(t, p).value.kids)
    modifies h.at.Values
    ensures p in h.kids
    ensures |SubAt(t, p).value.kids| >= NODE_MAX_CHILD_COUNT ==> err == OutOfRange && h' == h && Linked(h, t)
    ensures |SubAt(t, p).value.kids| < NODE_MAX_CHILD_COUNT ==>
              && err == Ok && h' == Grown(h, p, Lit(child.str), child)
              && h'.at == h.at[p + [Lit(child.str)] := child] && h'.at.Values == h.at.Values + {child}
              && Linked(h', Replace(t, p, WithKid(SubAt(t, p).value, child.str)))
  {
    ghost var store := Snapshot(h.at.Values);
    ghost var x := child.str;
    AppendsKid(h, store, t, p, child, x);
    if cur.childCount >= NODE_MAX_CHILD_COUNT {
      return OutOfRange, h;
    }
    h' := Grown(h, p, Lit(x), child);
    assert h'.at.Values == h.at.Values + {child};
    ghost var last := if cur.head == null then cur else cur.tail;
    LinkLast(cur, child);
    err := Ok;
    assert FieldsOf(cur) == FieldsWithKid(store[cur], child);
    if last == cur {
      StoreChanged(store, Snapshot(h.at.Values), cur);
    } else {
      assert FieldsOf(last) == store[last].(next := child);
      StoreUpdated(store, Snapshot(h.at.Values), cur, last);
    }
    SnapshotWith(h.at.Values, child);
    assert Snapshot(h'.at.Values) == StoreWithKid(store, cur, child, x);
  }
}

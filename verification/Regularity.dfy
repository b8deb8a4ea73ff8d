/** What even a refused insertion leaves in order, and what it does to the contexts in the tree. */
module Regularity {
  import opened Bytes
  import opened Tokens
  import opened RouteTree
  import opened Insertion
  import Compatibility
  import opened Ledgers
  import Prelexing

  /** Siblings are distinct and countable, and no parameter has siblings; segments may bear nothing. */
  predicate Regular(t: Tree) {
    && DistinctTexts(t.kids) && |t.kids| <= NODE_MAX_CHILD_COUNT
    && (forall i | 0 <= i < |t.kids| :: Regular(t.kids[i].tree))
    && match t.special {
         case ParamEdge(_, sub) => t.kids == [] && Regular(sub)
         case HalfParam => t.kids == []
         case _ => true
       }
  }

  predicate NoHalf(t: Tree) {
    && (forall i | 0 <= i < |t.kids| :: NoHalf(t.kids[i].tree))
    && !t.special.HalfParam?
    && (t.special.ParamEdge? ==> NoHalf(t.special.sub))
  }

  lemma {:induction false} SoundIsRegular(t: Tree)
    requires Compatibility.Sound(t)
    ensures Regular(t) && NoHalf(t)
    decreases t
  {
    forall i | 0 <= i < |t.kids| ensures Regular(t.kids[i].tree) && NoHalf(t.kids[i].tree) {
      SoundIsRegular(t.kids[i].tree);
    }
    if t.special.ParamEdge? {
      SoundIsRegular(t.special.sub);
    }
  }

  lemma DownKeeps(t: Tree, st: Step)
    requires Down(t, st).Some?
    ensures Regular(t) ==> Regular(Down(t, st).value)
    ensures NoHalf(t) ==> NoHalf(Down(t, st).value)
  {
  }

  lemma {:induction false} SubAtKeeps(t: Tree, p: Path)
    requires SubAt(t, p).Some?
    ensures Regular(t) ==> Regular(SubAt(t, p).value)
    ensures NoHalf(t) ==> NoHalf(SubAt(t, p).value)
    decreases |p|
  {
    if p != [] {
      DownKeeps(t, p[0]);
      SubAtKeeps(Down(t, p[0]).value, p[1..]);
    }
  }

  lemma ReplaceDownKeeps(t: Tree, st: Step, s: Tree)
    requires Down(t, st).Some?
    ensures Regular(t) && Regular(s) ==> Regular(ReplaceDown(t, st, s))
    ensures NoHalf(t) && NoHalf(s) ==> NoHalf(ReplaceDown(t, st, s))
    ensures NoHalf(ReplaceDown(t, st, s)) ==> NoHalf(s)
  {
    if st.Lit? {
      var t' := ReplaceDown(t, st, s);
      var i := Find(t.kids, st.text).value;
      assert forall k | 0 <= k < |t.kids| :: t'.kids[k].text == t.kids[k].text;
      assert t'.kids[i].tree == s;
    }
  }

  lemma EnterKeeps(t: Tree, literals: seq<Text>, params: seq<Text>, tok: Token)
    requires tok.Literal? || tok.Param?
    ensures var e := Enter(t, literals, params, tok);
            && (Regular(t) ==> Regular(e.tree))
            && (NoHalf(t) && e.error == Ok ==> NoHalf(e.tree))
            && (NoHalf(t) ==> (NoHalf(e.tree) <==> !(tok.Param? && e.error == OutOfRange)))
  {
    var e := Enter(t, literals, params, tok);
    if tok.Literal? && e.tree != t {
      assert e.tree.kids == t.kids + [Kid(tok.text, EMPTY)];
      assert forall i | 0 <= i < |t.kids| :: e.tree.kids[i] == t.kids[i];
    }
  }

  lemma {:induction false} InsertKeepsRegular(t: Tree, literals: seq<Text>, params: seq<Text>, toks: seq<Token>,
                                              r: Route)
    requires Regular(t)
    ensures Regular(Insert(t, literals, params, toks, r).tree)
    decreases |toks|
  {
    if Continues(toks) {
      var st := Prelexing.StepOf(toks[0]);
      var e := Enter(t, literals, params, toks[0]);
      EnterKeeps(t, literals, params, toks[0]);
      if e.error == Ok {
        var d := Down(e.tree, st).value;
        DownKeeps(e.tree, st);
        InsertKeepsRegular(d, e.literals, e.params, toks[1..], r);
        ReplaceDownKeeps(e.tree, st, Insert(d, e.literals, e.params, toks[1..], r).tree);
      }
    }
  }

  /** The insertion comes to a new parameter that a full table refuses. */
  predicate RefusedParam(t: Tree, literals: seq<Text>, params: seq<Text>, toks: seq<Token>)
    decreases |toks|
  {
    && Continues(toks)
    && var e := Enter(t, literals, params, toks[0]);
       if e.error == Ok then
         RefusedParam(Down(e.tree, Prelexing.StepOf(toks[0])).value, e.literals, e.params, toks[1..])
       else toks[0].Param? && e.error == OutOfRange
  }

  /** An insertion leaves a half-made segment iff it comes to a parameter that a full table refuses. */
  lemma {:induction false} InsertLeavesNoHalfIff(t: Tree, literals: seq<Text>, params: seq<Text>, toks: seq<Token>,
                                                 r: Route)
    requires NoHalf(t)
    ensures NoHalf(Insert(t, literals, params, toks, r).tree) <==> !RefusedParam(t, literals, params, toks)
    ensures RefusedParam(t, literals, params, toks) ==> Insert(t, literals, params, toks, r).error == OutOfRange
    decreases |toks|
  {
    if Continues(toks) {
      var st := Prelexing.StepOf(toks[0]);
      var e := Enter(t, literals, params, toks[0]);
      EnterKeeps(t, literals, params, toks[0]);
      if e.error == Ok {
        var d := Down(e.tree, st).value;
        DownKeeps(e.tree, st);
        InsertLeavesNoHalfIff(d, e.literals, e.params, toks[1..], r);
        ReplaceDownKeeps(e.tree, st, Insert(d, e.literals, e.params, toks[1..], r).tree);
      }
    }
  }

  // ---- Sums ----

  lemma {:induction false} KidSumAfterReplace(kids: seq<Kid>, n: nat, i: nat, s: Kid, w: Weight)
    requires i < |kids| && n <= |kids|
    ensures KidSum(kids[i := s], n, w) ==
            KidSum(kids, n, w) + if i < n then Sum(s.tree, w) - Sum(kids[i].tree, w) else 0
    decreases n
  {
    if n > 0 {
      KidSumAfterReplace(kids, n - 1, i, s, w);
    }
  }

  lemma {:induction false} KidSumAgrees(a: seq<Kid>, b: seq<Kid>, n: nat, w: Weight)
    requires n <= |a| && n <= |b| && forall i | 0 <= i < n :: a[i] == b[i]
    ensures KidSum(a, n, w) == KidSum(b, n, w)
    decreases n
  {
    if n > 0 {
      KidSumAgrees(a, b, n - 1, w);
    }
  }

  lemma EnterAddsNone(t: Tree, literals: seq<Text>, params: seq<Text>, tok: Token, w: Weight)
    requires tok.Literal? || tok.Param?
    ensures Sum(Enter(t, literals, params, tok).tree, w) == Sum(t, w)
  {
    var e := Enter(t, literals, params, tok).tree;
    assert Sum(EMPTY, w) == 0;
    if tok.Literal? && e != t {
      assert e.kids == t.kids + [Kid(tok.text, EMPTY)];
      KidSumAgrees(t.kids, e.kids, |t.kids|, w);
    }
  }

  lemma ReplaceDownSum(t: Tree, st: Step, s: Tree, w: Weight)
    requires Down(t, st).Some?
    ensures Sum(ReplaceDown(t, st, s), w) == Sum(t, w) + Sum(s, w) - Sum(Down(t, st).value, w)
  {
    if st.Lit? {
      KidSumAfterReplace(t.kids, |t.kids|, Find(t.kids, st.text).value, Kid(st.text, s), w);
    }
  }

  /** An accepted insertion puts in the new route's weight and no more, a refused one nothing. */
  lemma {:induction false} InsertSum(t: Tree, literals: seq<Text>, params: seq<Text>, toks: seq<Token>, r: Route,
                                     w: Weight)
    ensures var o := Insert(t, literals, params, toks, r);
            Sum(o.tree, w) == Sum(t, w) + if o.error == Ok then w(r) else 0
    decreases |toks|
  {
    if Continues(toks) {
      var st := Prelexing.StepOf(toks[0]);
      var e := Enter(t, literals, params, toks[0]);
      EnterAddsNone(t, literals, params, toks[0], w);
      if e.error == Ok {
        var d := Down(e.tree, st).value;
        InsertSum(d, e.literals, e.params, toks[1..], r, w);
        ReplaceDownSum(e.tree, st, Insert(d, e.literals, e.params, toks[1..], r).tree, w);
      }
    }
  }
}

/** When a pattern is accepted: conflict by conflict, against the patterns already there. */
module Compatibility {
  import opened Wrappers
  import opened Bytes
  import opened Tokens
  import opened RouteTree
  import opened Insertion
  import Prelexing

  /** Something is at or below this segment. */
  predicate Bears(t: Tree) {
    t.terminal.Some? || t.trailing.Some? || t.special.WildcardEdge? || t.special.ParamEdge? || t.kids != []
  }

  /** What every tree of accepted patterns satisfies. */
  predicate Sound(t: Tree) {
    && DistinctTexts(t.kids) && |t.kids| <= NODE_MAX_CHILD_COUNT
    && (forall i | 0 <= i < |t.kids| :: t.kids[i].text != [] && Bears(t.kids[i].tree) && Sound(t.kids[i].tree))
    && match t.special {
         case ParamEdge(n, sub) => t.kids == [] && n != [] && Bears(sub) && Sound(sub)
         case HalfParam => false
         case _ => true
       }
  }

  /** Two patterns may live together: decided where their token sequences first differ. */
  predicate Compatible(p: Pattern, q: Pattern)
    decreases |p.steps|
  {
    if p.steps == [] && q.steps == [] then p.final != q.final
    else if p.steps == [] then p.final.AtWildcard? ==> q.steps[0].Lit?
    else if q.steps == [] then q.final.AtWildcard? ==> p.steps[0].Lit?
    else if p.steps[0] == q.steps[0] then Compatible(Rest(p), Rest(q))
    else p.steps[0].Lit? && q.steps[0].Lit?
  }

  lemma {:induction false} CompatibleIsSymmetric(p: Pattern, q: Pattern)
    ensures Compatible(p, q) == Compatible(q, p)
    decreases |p.steps|
  {
    if p.steps != [] && q.steps != [] && p.steps[0] == q.steps[0] {
      CompatibleIsSymmetric(Rest(p), Rest(q));
    }
  }

  predicate TextsGiven(toks: seq<Token>) {
    forall i | 0 <= i < |toks| :: (toks[i].Literal? || toks[i].Param?) ==> toks[i].text != []
  }

  lemma FindInDistinct(kids: seq<Kid>, i: nat)
    requires DistinctTexts(kids) && i < |kids|
    ensures Find(kids, kids[i].text) == Some(i)
  {
  }

  /** A segment that bears something has a route at or below it. */
  lemma {:induction false} SomeRouteBelow(t: Tree) returns (q: Pattern)
    requires Sound(t) && Bears(t)
    ensures Lookup(t, q).Some?
    decreases t
  {
    if t.terminal.Some? {
      q := Pattern([], AtEnd);
    } else if t.trailing.Some? {
      q := Pattern([], AtTrailing);
    } else if t.special.WildcardEdge? {
      q := Pattern([], AtWildcard);
    } else if t.special.ParamEdge? {
      var q' := SomeRouteBelow(t.special.sub);
      q := q'.(steps := [Par(t.special.name)] + q'.steps);
      assert Rest(q) == q';
      LookupUnfolds(t, q);
    } else {
      var q' := SomeRouteBelow(t.kids[0].tree);
      q := q'.(steps := [Lit(t.kids[0].text)] + q'.steps);
      FindInDistinct(t.kids, 0);
      assert Rest(q) == q';
      LookupUnfolds(t, q);
    }
  }

  lemma DownIsSound(t: Tree, st: Step)
    requires Sound(t) && Down(t, st).Some?
    ensures Sound(Down(t, st).value) && Bears(Down(t, st).value)
  {
  }

  lemma EnterLeadsToSound(t: Tree, literals: seq<Text>, params: seq<Text>, tok: Token)
    requires tok.Literal? || tok.Param?
    requires Sound(t) && Enter(t, literals, params, tok).error == Ok
    ensures Sound(Down(Enter(t, literals, params, tok).tree, Prelexing.StepOf(tok)).value)
  {
  }

  lemma EnterThenReplaceIsSound(t: Tree, literals: seq<Text>, params: seq<Text>, tok: Token, s: Tree)
    requires tok.Literal? || tok.Param?
    requires tok.text != [] && Sound(t) && Sound(s) && Bears(s)
    requires Enter(t, literals, params, tok).error == Ok
    ensures var t' := ReplaceDown(Enter(t, literals, params, tok).tree, Prelexing.StepOf(tok), s);
            Sound(t') && Bears(t')
  {
    var e := Enter(t, literals, params, tok).tree;
    var t' := ReplaceDown(e, Prelexing.StepOf(tok), s);
    if tok.Literal? {
      var i := Find(e.kids, tok.text).value;
      if Find(t.kids, tok.text) == None {
        assert e.kids == t.kids + [Kid(tok.text, EMPTY)];
        assert i == |t.kids|;
      }
      forall k | 0 <= k < |t'.kids|
        ensures t'.kids[k].text == e.kids[k].text && t'.kids[k].text != []
        ensures Bears(t'.kids[k].tree) && Sound(t'.kids[k].tree)
      {
        assert k != i ==> t'.kids[k] == t.kids[k];
      }
      assert forall k | 0 <= k < |t.kids| :: e.kids[k].text == t.kids[k].text;
    }
  }

  /** Accepted insertions keep the tree sound. */
  lemma {:induction false} InsertKeepsSound(t: Tree, literals: seq<Text>, params: seq<Text>, toks: seq<Token>, r: Route)
    requires Sound(t) && TextsGiven(toks)
    requires Insert(t, literals, params, toks, r).error == Ok
    ensures var t' := Insert(t, literals, params, toks, r).tree; Sound(t') && Bears(t')
    decreases |toks|
  {
    if Continues(toks) {
      var st := Prelexing.StepOf(toks[0]);
      var e := Enter(t, literals, params, toks[0]);
      var d := Down(e.tree, st).value;
      EnterLeadsToSound(t, literals, params, toks[0]);
      InsertKeepsSound(d, e.literals, e.params, toks[1..], r);
      EnterThenReplaceIsSound(t, literals, params, toks[0], Insert(d, e.literals, e.params, toks[1..], r).tree);
    }
  }

  /** The routes below the child that a token enters. */
  lemma LookupAfterEnter(t: Tree, literals: seq<Text>, params: seq<Text>, tok: Token, q: Pattern)
    requires tok.Literal? || tok.Param?
    requires Enter(t, literals, params, tok).error == Ok
    requires q.steps != [] && q.steps[0] == Prelexing.StepOf(tok)
    ensures Lookup(t, q) == Lookup(Down(Enter(t, literals, params, tok).tree, q.steps[0]).value, Rest(q))
  {
  }

  /** An accepted pattern is compatible with every pattern that is there. */
  lemma {:induction false} AcceptedIsCompatible(t: Tree, literals: seq<Text>, params: seq<Text>, toks: seq<Token>,
                                                r: Route, p: Pattern, q: Pattern)
    requires Sound(t) && Prelexing.PatternOf(toks) == Some(p)
    requires Insert(t, literals, params, toks, r).error == Ok
    requires Lookup(t, q).Some?
    ensures Compatible(p, q)
    decreases |toks|
  {
    if q.steps != [] {
      LookupUnfolds(t, q);
    }
    if Continues(toks) {
      PatternUnfolds(toks);
      var st := Prelexing.StepOf(toks[0]);
      var e := Enter(t, literals, params, toks[0]);
      var d := Down(e.tree, st).value;
      if q.steps != [] && q.steps[0] == st {
        EnterLeadsToSound(t, literals, params, toks[0]);
        LookupAfterEnter(t, literals, params, toks[0], q);
        AcceptedIsCompatible(d, e.literals, e.params, toks[1..], r, Rest(p), Rest(q));
      }
    } else if q.steps != [] && p.final.AtWildcard? {
      assert toks[0].Wildcard?;
    }
  }

  /** A pattern refused for anything but capacity has a witness that it is incompatible with. */
  lemma {:induction false} RefusedHasConflict(t: Tree, literals: seq<Text>, params: seq<Text>, toks: seq<Token>,
                                              r: Route, p: Pattern)
    returns (q: Pattern)
    requires Sound(t) && Prelexing.PatternOf(toks) == Some(p)
    requires var error := Insert(t, literals, params, toks, r).error; error != Ok && error != OutOfRange
    ensures Lookup(t, q).Some? && !Compatible(p, q)
    decreases |toks|
  {
    if Continues(toks) {
      PatternUnfolds(toks);
      var st := Prelexing.StepOf(toks[0]);
      var e := Enter(t, literals, params, toks[0]);
      if e.error == Ok {
        var d := Down(e.tree, st).value;
        EnterLeadsToSound(t, literals, params, toks[0]);
        var q' := RefusedHasConflict(d, e.literals, e.params, toks[1..], r, Rest(p));
        q := q'.(steps := [st] + q'.steps);
        assert Rest(q) == q';
        LookupAfterEnter(t, literals, params, toks[0], q);
      } else if t.special.WildcardEdge? {
        q := Pattern([], AtWildcard);
      } else {
        q := RouteThroughChild(t);
      }
    } else if p.final.AtEnd? {
      q := Pattern([], AtEnd);
    } else if p.final.AtTrailing? {
      q := Pattern([], AtTrailing);
    } else if t.special.WildcardEdge? {
      q := Pattern([], AtWildcard);
    } else {
      q := RouteThroughChild(t);
    }
  }

  /** A route behind the parameter edge, or else behind the first literal. */
  lemma RouteThroughChild(t: Tree) returns (q: Pattern)
    requires Sound(t) && (t.special.ParamEdge? || t.kids != [])
    ensures Lookup(t, q).Some? && q.steps != []
    ensures q.steps[0] == if t.special.ParamEdge? then Par(t.special.name) else Lit(t.kids[0].text)
  {
    var st := if t.special.ParamEdge? then Par(t.special.name) else Lit(t.kids[0].text);
    if t.kids != [] {
      FindInDistinct(t.kids, 0);
    }
    var q' := SomeRouteBelow(Down(t, st).value);
    q := q'.(steps := [st] + q'.steps);
    assert Rest(q) == q';
    LookupUnfolds(t, q);
  }
}

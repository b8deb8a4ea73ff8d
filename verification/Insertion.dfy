/** What adding a pattern does to the tree: the specification of the builder's loop, and its laws. */
module Insertion {
  import opened Wrappers
  import opened Bytes
  import opened Tokens
  import opened RouteTree
  import opened SymbolTables
  import Prelexing

  datatype Outcome = Outcome(error: Error, tree: Tree, literals: seq<Text>, params: seq<Text>)

  /** One literal or parameter token at a segment: make sure there is a child to go to. */
  function Enter(t: Tree, literals: seq<Text>, params: seq<Text>, tok: Token): (o: Outcome)
    requires tok.Literal? || tok.Param?
    ensures o.error == Ok ==> Down(o.tree, Prelexing.StepOf(tok)).Some?
  {
    if tok.Literal? then
      if t.special.ParamEdge? || t.special.HalfParam? then Outcome(LiteralConflictsWithParam, t, literals, params)
      else if Find(t.kids, tok.text).Some? then Outcome(Ok, t, literals, params)
      else if |literals| >= UINT16_MAX then Outcome(OutOfRange, t, literals, params)
      else if |t.kids| >= NODE_MAX_CHILD_COUNT then Outcome(OutOfRange, t, Intern(literals, tok.text), params)
      else Outcome(Ok, WithKid(t, tok.text), Intern(literals, tok.text), params)
    else if t.special.WildcardEdge? then Outcome(ParamConflictsWithWildcard, t, literals, params)
    else if |t.kids| > 0 then Outcome(ParamConflictsWithLiteral, t, literals, params)
    else if t.special.NoSpecial? then
      if |params| >= UINT16_MAX then Outcome(OutOfRange, t.(special := HalfParam), literals, params)
      else Outcome(Ok, WithParam(t, tok.text), literals, Intern(params, tok.text))
    else if t.special.ParamEdge? && t.special.name == tok.text then Outcome(Ok, t, literals, params)
    else Outcome(ParamNameMismatch, t, literals, params)
  }

  /** The last token, or the two that a wildcard takes, at a segment. */
  function Terminate(t: Tree, toks: seq<Token>, r: Route): (Error, Tree) {
    if toks == [] then (IllegalPattern, t)
    else match toks[0]
      case End => if t.terminal.Some? then (DuplicateRoute, t) else (Ok, t.(terminal := Some(r)))
      case Trailing => if t.trailing.Some? then (DuplicateRoute, t) else (Ok, t.(trailing := Some(r)))
      case Wildcard =>
        if t.special.WildcardEdge? then (DuplicateRoute, t)
        else if t.special.ParamEdge? || t.special.HalfParam? then (WildcardConflictsWithParam, t)
        else if |toks| < 2 || !toks[1].End? then (WildcardNotFinal, t)
        else (Ok, t.(special := WildcardEdge(r)))
      case _ => (IllegalPattern, t)
  }

  predicate Continues(toks: seq<Token>) {
    toks != [] && (toks[0].Literal? || toks[0].Param?)
  }

  function Insert(t: Tree, literals: seq<Text>, params: seq<Text>, toks: seq<Token>, r: Route): Outcome
    decreases |toks|
  {
    if Continues(toks) then
      var st := Prelexing.StepOf(toks[0]);
      var e := Enter(t, literals, params, toks[0]);
      if e.error != Ok then e
      else
        var o := Insert(Down(e.tree, st).value, e.literals, e.params, toks[1..], r);
        o.(tree := ReplaceDown(e.tree, st, o.tree))
    else
      var (error, tree) := Terminate(t, toks, r);
      Outcome(error, tree, literals, params)
  }

  // ---- What an accepted insertion means ----

  lemma EmptyHoldsNothing(q: Pattern)
    ensures Lookup(EMPTY, q) == None
  {
  }

  function Rest(p: Pattern): Pattern
    requires p.steps != []
  {
    p.(steps := p.steps[1..])
  }

  lemma LookupUnfolds(t: Tree, q: Pattern)
    requires q.steps != []
    ensures Lookup(t, q) ==
            var d := Down(t, q.steps[0]); if d.Some? then Lookup(d.value, Rest(q)) else None
  {
  }

  /** Entering adds at most an empty child: no route comes or goes. */
  lemma EnterKeepsLookups(t: Tree, literals: seq<Text>, params: seq<Text>, tok: Token, q: Pattern)
    requires tok.Literal? || tok.Param?
    requires Enter(t, literals, params, tok).error == Ok
    ensures Lookup(Enter(t, literals, params, tok).tree, q) == Lookup(t, q)
  {
    var e := Enter(t, literals, params, tok).tree;
    if q.steps == [] {
      assert SubAt(e, q.steps) == Some(e) && SubAt(t, q.steps) == Some(t);
      assert RouteAt(e, q.final) == RouteAt(t, q.final);
    } else {
      var st := q.steps[0];
      assert Down(e, st) == Down(t, st) || (Down(t, st) == None && Down(e, st) == Some(EMPTY));
      LookupUnfolds(e, q);
      LookupUnfolds(t, q);
      EmptyHoldsNothing(Rest(q));
    }
  }

  lemma PatternUnfolds(toks: seq<Token>)
    requires Continues(toks)
    ensures var p := Prelexing.PatternOf(toks);
            && p.Some? == Prelexing.PatternOf(toks[1..]).Some?
            && (p.Some? ==> p.value.steps != [] && p.value.steps[0] == Prelexing.StepOf(toks[0])
                            && Prelexing.PatternOf(toks[1..]) == Some(Rest(p.value)))
  {
  }

  lemma PatternsEqual(p: Pattern, q: Pattern)
    requires p.steps != [] && q.steps != []
    ensures p == q <==> p.steps[0] == q.steps[0] && Rest(p) == Rest(q)
  {
    assert p.steps == [p.steps[0]] + p.steps[1..] && q.steps == [q.steps[0]] + q.steps[1..];
  }

  /** An accepted insertion adds exactly the new pair and disturbs no other. */
  lemma {:induction false} InsertAddsOne(t: Tree, literals: seq<Text>, params: seq<Text>, toks: seq<Token>, r: Route,
                                         q: Pattern)
    requires Insert(t, literals, params, toks, r).error == Ok
    ensures Prelexing.PatternOf(toks).Some?
    ensures var p := Prelexing.PatternOf(toks).value;
            && Lookup(t, p) == None
            && Lookup(Insert(t, literals, params, toks, r).tree, q) == if q == p then Some(r) else Lookup(t, q)
    decreases |toks|
  {
    if Continues(toks) {
      var st := Prelexing.StepOf(toks[0]);
      var e := Enter(t, literals, params, toks[0]);
      var d := Down(e.tree, st).value;
      var o := Insert(d, e.literals, e.params, toks[1..], r);
      InsertAddsOne(d, e.literals, e.params, toks[1..], r, if q.steps == [] then q else Rest(q));
      PatternUnfolds(toks);
      var p := Prelexing.PatternOf(toks).value;
      EnterKeepsLookups(t, literals, params, toks[0], p);
      EnterKeepsLookups(t, literals, params, toks[0], q);
      LookupUnfolds(e.tree, p);
      if q.steps != [] {
        PatternsEqual(p, q);
        LookupUnfolds(e.tree, q);
        LookupUnfolds(ReplaceDown(e.tree, st, o.tree), q);
        DownAfterReplaceDown(e.tree, st, o.tree, q.steps[0]);
      }
    }
  }

  // ---- Inserting from the middle of the tree ----

  /** What inserting below p makes of the whole tree. */
  function Under(t: Tree, p: Path, o: Outcome): Outcome
    requires SubAt(t, p).Some?
  {
    o.(tree := Replace(t, p, o.tree))
  }

  /** One turn of the loop: entering a child and inserting below it is inserting here. */
  lemma UnderEnter(t: Tree, p: Path, literals: seq<Text>, params: seq<Text>, toks: seq<Token>, r: Route)
    requires SubAt(t, p).Some? && Continues(toks)
    requires Enter(SubAt(t, p).value, literals, params, toks[0]).error == Ok
    ensures var e := Enter(SubAt(t, p).value, literals, params, toks[0]);
            var t', p' := Replace(t, p, e.tree), p + [Prelexing.StepOf(toks[0])];
            && SubAt(t', p') == Down(e.tree, Prelexing.StepOf(toks[0])) && SubAt(t', p').Some?
            && Under(t, p, Insert(SubAt(t, p).value, literals, params, toks, r))
               == Under(t', p', Insert(SubAt(t', p').value, e.literals, e.params, toks[1..], r))
  {
    var st := Prelexing.StepOf(toks[0]);
    var e := Enter(SubAt(t, p).value, literals, params, toks[0]);
    var t' := Replace(t, p, e.tree);
    var o := Insert(Down(e.tree, st).value, e.literals, e.params, toks[1..], r);
    ReplaceTwice(t, p, e.tree, ReplaceDown(e.tree, st, o.tree));
    SubAtOne(e.tree, st);
    SubAtConcat(t', p, [st]);
    ReplaceReplace(t', p, [st], o.tree);
    assert [st][1..] == [];
    assert Replace(e.tree, [st], o.tree) == ReplaceDown(e.tree, st, o.tree);
  }
}

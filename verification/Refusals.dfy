/** Which error an addition is answered with, read off the list of patterns that it comes behind. */
module Refusals {
  import opened Wrappers
  import opened Bytes
  import opened Tokens
  import opened RouteTree
  import opened Insertion
  import opened Compatibility
  import opened Acceptance
  import opened Resolution
  import opened Capacity
  import HalfMade
  import Prelexing

  // ---- On the tree ----

  /** What a segment has against a step. */
  function StepError(n: Tree, st: Step): Error {
    if st.Lit? then (if n.special.ParamEdge? then LiteralConflictsWithParam else Ok)
    else if n.special.WildcardEdge? then ParamConflictsWithWildcard
    else if n.kids != [] then ParamConflictsWithLiteral
    else if n.special.ParamEdge? && n.special.name != st.name then ParamNameMismatch
    else Ok
  }

  predicate OfStep(code: Error) {
    code.LiteralConflictsWithParam? || code.ParamConflictsWithWildcard? || code.ParamConflictsWithLiteral?
    || code.ParamNameMismatch?
  }

  predicate OfEnding(code: Error) {
    code.DuplicateRoute? || code.WildcardConflictsWithParam?
  }

  predicate StepErrorAt(t: Tree, p: Path, k: nat, code: Error) {
    k < |p| && SubAt(t, p[..k]).Some? && StepError(SubAt(t, p[..k]).value, p[k]) == code
  }

  lemma EnteredError(t: Tree, literals: seq<Text>, params: seq<Text>, tok: Token, code: Error)
    requires (tok.Literal? || tok.Param?) && Sound(t) && OfStep(code)
    ensures Enter(t, literals, params, tok).error == code <==> StepError(t, Prelexing.StepOf(tok)) == code
    ensures !OfEnding(Enter(t, literals, params, tok).error)
    ensures var error := Enter(t, literals, params, tok).error; error != IllegalPattern && error != WildcardNotFinal
  {
  }

  /** Nothing stands against a step that is there already. */
  lemma EnteredIfThere(t: Tree, literals: seq<Text>, params: seq<Text>, tok: Token)
    requires (tok.Literal? || tok.Param?) && Sound(t) && Down(t, Prelexing.StepOf(tok)).Some?
    ensures Enter(t, literals, params, tok).error == Ok
  {
  }

  lemma StepErrorHere(t: Tree, p: Path, code: Error)
    requires p != []
    ensures StepErrorAt(t, p, 0, code) <==> StepError(t, p[0]) == code
  {
  }

  lemma StepErrorBelow(t: Tree, p: Path, d: Tree, k: nat, code: Error)
    requires 0 < k < |p| && OfStep(code)
    requires Down(t, p[0]) == Some(d) || (Down(t, p[0]) == None && d == EMPTY)
    ensures StepErrorAt(t, p, k, code) <==> StepErrorAt(d, p[1..], k - 1, code)
  {
    assert p[..k][1..] == p[1..][..k - 1];
    if Down(t, p[0]) == None {
      EmptyHasNothingBelow(p[1..][..k - 1]);
    }
  }

  ghost predicate AnyStepError(t: Tree, p: Path, code: Error) {
    exists k: nat :: StepErrorAt(t, p, k, code)
  }

  lemma AnyErrorBelow(t: Tree, p: Path, d: Tree, code: Error)
    requires p != [] && OfStep(code) && StepError(t, p[0]) != code
    requires Down(t, p[0]) == Some(d) || (Down(t, p[0]) == None && d == EMPTY)
    ensures AnyStepError(t, p, code) <==> AnyStepError(d, p[1..], code)
  {
    hide StepError, Down;
    StepErrorHere(t, p, code);
    if k: nat :| StepErrorAt(t, p, k, code) {
      StepErrorBelow(t, p, d, k, code);
    }
    if k: nat :| StepErrorAt(d, p[1..], k, code) {
      StepErrorBelow(t, p, d, k + 1, code);
    }
  }

  lemma OnlyErrorHere(t: Tree, p: Path, code: Error)
    requires p != [] && Down(t, p[0]) == None
    ensures AnyStepError(t, p, code) <==> StepError(t, p[0]) == code
  {
    hide StepError, Down;
    StepErrorHere(t, p, code);
  }

  lemma NoStepNoError(t: Tree, code: Error)
    ensures !AnyStepError(t, [], code)
  {
  }

  /** A step's error is that of the one segment that has something against its step. */
  lemma {:induction false} StepErrorIff(t: Tree, literals: seq<Text>, params: seq<Text>, toks: seq<Token>, r: Route,
                                        code: Error)
    requires Sound(t) && OfStep(code)
    ensures Insert(t, literals, params, toks, r).error == code <==> AnyStepError(t, Prelexing.StepsOf(toks), code)
    decreases |toks|
  {
    hide AnyStepError, StepError, Enter, Sound, Down;
    if Continues(toks) {
      var e, p := Enter(t, literals, params, toks[0]), Prelexing.StepsOf(toks);
      EnteredError(t, literals, params, toks[0], code);
      if e.error == Ok {
        var sub := Down(e.tree, p[0]).value;
        EnterLeadsToSound(t, literals, params, toks[0]);
        EnterGoesDown(t, literals, params, toks[0]);
        StepErrorIff(sub, e.literals, e.params, toks[1..], r, code);
        AnyErrorBelow(t, p, sub, code);
      } else {
        if Down(t, p[0]).Some? {
          EnteredIfThere(t, literals, params, toks[0]);
        }
        OnlyErrorHere(t, p, code);
      }
    } else {
      NoStepNoError(t, code);
      TerminateError(t, toks, r);
    }
  }

  lemma TerminateError(t: Tree, toks: seq<Token>, r: Route)
    requires !Continues(toks)
    ensures !OfStep(Terminate(t, toks, r).0)
    ensures Terminate(t, toks, r).0 == Ok ==> Prelexing.PatternOf(toks).Some?
    ensures Terminate(t, toks, r).0 == IllegalPattern ==> Prelexing.EndingOf(toks) == None
    ensures Terminate(t, toks, r).0 == WildcardNotFinal ==>
              Prelexing.EndingOf(toks) == Some(AtWildcard) && Prelexing.PatternOf(toks) == None
    ensures t == EMPTY ==> !OfEnding(Terminate(t, toks, r).0)
  {
  }

  /** What the segment at p has against this ending. */
  predicate EndingErrorAt(t: Tree, p: Path, f: Option<Final>, code: Error) {
    && SubAt(t, p).Some? && f.Some?
    && var n := SubAt(t, p).value;
       if code.DuplicateRoute? then RouteAt(n, f.value).Some? else f.value.AtWildcard? && n.special.ParamEdge?
  }

  lemma TerminatedError(t: Tree, toks: seq<Token>, r: Route, code: Error)
    requires !Continues(toks) && Sound(t) && OfEnding(code)
    ensures Terminate(t, toks, r).0 == code <==> EndingErrorAt(t, [], Prelexing.EndingOf(toks), code)
  {
  }

  lemma EndingErrorBelow(t: Tree, p: Path, d: Tree, f: Option<Final>, code: Error)
    requires p != [] && OfEnding(code)
    requires Down(t, p[0]) == Some(d) || (Down(t, p[0]) == None && d == EMPTY)
    ensures EndingErrorAt(t, p, f, code) <==> EndingErrorAt(d, p[1..], f, code)
  {
    if Down(t, p[0]) == None {
      EmptyHasNothingBelow(p[1..]);
    }
  }

  lemma {:induction false} EndingErrorIff(t: Tree, literals: seq<Text>, params: seq<Text>, toks: seq<Token>,
                                          r: Route, code: Error)
    requires Sound(t) && OfEnding(code)
    ensures Insert(t, literals, params, toks, r).error == code <==>
            EndingErrorAt(t, Prelexing.StepsOf(toks), Prelexing.EndingOf(toks), code)
    decreases |toks|
  {
    hide Enter, Sound, EndingErrorAt;
    if Continues(toks) {
      var e, p := Enter(t, literals, params, toks[0]), Prelexing.StepsOf(toks);
      EnteredError(t, literals, params, toks[0], ParamNameMismatch);
      if e.error == Ok {
        var sub := Down(e.tree, p[0]).value;
        EnterLeadsToSound(t, literals, params, toks[0]);
        EnterGoesDown(t, literals, params, toks[0]);
        EndingErrorIff(sub, e.literals, e.params, toks[1..], r, code);
        EndingErrorBelow(t, p, sub, Prelexing.EndingOf(toks), code);
      } else {
        if Down(t, p[0]).Some? {
          EnteredIfThere(t, literals, params, toks[0]);
        }
        NoEndingBelow(t, p, Prelexing.EndingOf(toks), code);
      }
    } else {
      TerminatedError(t, toks, r, code);
    }
  }

  lemma NoEndingBelow(t: Tree, p: Path, f: Option<Final>, code: Error)
    requires p != [] && Down(t, p[0]) == None
    ensures !EndingErrorAt(t, p, f, code)
  {
  }

  lemma {:induction false} OtherErrors(t: Tree, literals: seq<Text>, params: seq<Text>, toks: seq<Token>, r: Route)
    requires Sound(t)
    ensures var error := Insert(t, literals, params, toks, r).error;
            && (error == Ok ==> Prelexing.PatternOf(toks).Some?)
            && (error == IllegalPattern ==> Prelexing.EndingOf(toks) == None)
            && (error == WildcardNotFinal ==>
                  Prelexing.EndingOf(toks) == Some(AtWildcard) && Prelexing.PatternOf(toks) == None)
            && error != NullArgument && error != BuilderCorrupted
    decreases |toks|
  {
    hide Sound;
    if Continues(toks) {
      var e := Enter(t, literals, params, toks[0]);
      EnteredError(t, literals, params, toks[0], ParamNameMismatch);
      if e.error == Ok {
        EnterLeadsToSound(t, literals, params, toks[0]);
        OtherErrors(Down(e.tree, Prelexing.StepOf(toks[0])).value, e.literals, e.params, toks[1..], r);
      }
    } else {
      TerminateError(t, toks, r);
    }
  }

  // ---- Over the list ----

  /** Some pattern goes on from p with this parameter. */
  ghost predicate GoesOnWithParam(entries: seq<Entry>, p: Path, n: Text) {
    OnTheWay(entries, p + [Par(n)])
  }

  ghost predicate GoesOnWithLiteral(entries: seq<Entry>, p: Path, x: Text) {
    OnTheWay(entries, p + [Lit(x)])
  }

  ghost predicate Listed(entries: seq<Entry>, p: Path, f: Final) {
    exists e :: e in entries && e.pattern == Pattern(p, f)
  }

  /** A literal where some pattern has a parameter. */
  ghost predicate LiteralBesideParam(entries: seq<Entry>, p: Path) {
    exists k: nat, n :: k < |p| && p[k].Lit? && GoesOnWithParam(entries, p[..k], n)
  }

  /** A parameter where some pattern ends in a wildcard. */
  ghost predicate ParamBesideWildcard(entries: seq<Entry>, p: Path) {
    exists k: nat :: k < |p| && p[k].Par? && Listed(entries, p[..k], AtWildcard)
  }

  /** A parameter where some pattern has a literal, and none a wildcard. */
  ghost predicate ParamBesideLiteral(entries: seq<Entry>, p: Path) {
    exists k: nat, x :: k < |p| && p[k].Par? && GoesOnWithLiteral(entries, p[..k], x)
                       && !Listed(entries, p[..k], AtWildcard)
  }

  /** A parameter where some pattern has one of another name. */
  ghost predicate ParamBesideOther(entries: seq<Entry>, p: Path) {
    exists k: nat, n :: k < |p| && p[k].Par? && p[k].name != n && GoesOnWithParam(entries, p[..k], n)
  }

  ghost predicate NoRoomFor(entries: seq<Entry>, p: Path) {
    exists k: nat :: k < |p| && HalfMade.StepRefused(entries, p, k)
  }

  /** Some step is refused. */
  ghost predicate StepRefused(entries: seq<Entry>, p: Path) {
    LiteralBesideParam(entries, p) || ParamBesideWildcard(entries, p) || ParamBesideLiteral(entries, p)
    || ParamBesideOther(entries, p) || NoRoomFor(entries, p)
  }

  /** The place is taken, or a wildcard would stand beside a parameter. */
  ghost predicate EndingRefused(entries: seq<Entry>, p: Path, f: Option<Final>) {
    f.Some? && (Listed(entries, p, f.value) || (f.value.AtWildcard? && exists n :: GoesOnWithParam(entries, p, n)))
  }

  lemma ListedIff(t: Tree, entries: seq<Entry>, p: Path, f: Final)
    requires Holds(t, entries)
    ensures Listed(entries, p, f) <==> SubAt(t, p).Some? && RouteAt(SubAt(t, p).value, f).Some?
  {
    var q := Pattern(p, f);
    if Lookup(t, q).Some? {
      assert Entry(q, Lookup(t, q).value) in entries;
    }
    if e :| e in entries && e.pattern == q {
      assert Entry(q, e.route) in entries && Lookup(t, q) == Some(e.route);
    }
  }

  lemma GoesOnIff(t: Tree, entries: seq<Entry>, p: Path, st: Step)
    requires Sound(t) && Holds(t, entries)
    ensures OnTheWay(entries, p + [st]) <==> SubAt(t, p).Some? && Down(SubAt(t, p).value, st).Some?
  {
    hide Sound, Holds, OnTheWay;
    OnTheWayIff(t, entries, p + [st]);
    if SubAt(t, p + [st]).Some? {
      SubAtPrefix(t, p + [st], |p|);
      assert (p + [st])[..|p|] == p;
    }
    if SubAt(t, p).Some? {
      SubAtConcat(t, p, [st]);
      SubAtOne(SubAt(t, p).value, st);
    }
  }

  /** What the segment at p is, as the list has it. */
  lemma SegmentSays(t: Tree, entries: seq<Entry>, p: Path)
    requires Sound(t) && Holds(t, entries)
    ensures Listed(entries, p, AtWildcard) <==> SubAt(t, p).Some? && SubAt(t, p).value.special.WildcardEdge?
    ensures forall n :: GoesOnWithParam(entries, p, n) <==>
                        SubAt(t, p).Some? && SubAt(t, p).value.special.ParamEdge? && SubAt(t, p).value.special.name == n
    ensures (exists x :: GoesOnWithLiteral(entries, p, x)) <==> SubAt(t, p).Some? && SubAt(t, p).value.kids != []
  {
    hide Sound, Holds, OnTheWay, Listed;
    ListedIff(t, entries, p, AtWildcard);
    forall n
      ensures GoesOnWithParam(entries, p, n) <==>
              SubAt(t, p).Some? && SubAt(t, p).value.special.ParamEdge? && SubAt(t, p).value.special.name == n
    {
      GoesOnIff(t, entries, p, Par(n));
    }
    if x :| GoesOnWithLiteral(entries, p, x) {
      GoesOnIff(t, entries, p, Lit(x));
    }
    if SubAt(t, p).Some? && SubAt(t, p).value.kids != [] {
      var x := SubAt(t, p).value.kids[0].text;
      GoesOnIff(t, entries, p, Lit(x));
      assert GoesOnWithLiteral(entries, p, x);
    }
  }

  /** What the list has against the k-th step. */
  ghost predicate ListErrorAt(entries: seq<Entry>, p: Path, k: nat, code: Error)
    requires k < |p|
  {
    match code
    case LiteralConflictsWithParam => p[k].Lit? && exists n :: GoesOnWithParam(entries, p[..k], n)
    case ParamConflictsWithWildcard => p[k].Par? && Listed(entries, p[..k], AtWildcard)
    case ParamConflictsWithLiteral =>
      p[k].Par? && !Listed(entries, p[..k], AtWildcard) && exists x :: GoesOnWithLiteral(entries, p[..k], x)
    case ParamNameMismatch =>
      p[k].Par? && exists n :: GoesOnWithParam(entries, p[..k], n) && n != p[k].name
    case _ => false
  }

  lemma ListErrorIff(t: Tree, entries: seq<Entry>, p: Path, k: nat, code: Error)
    requires Sound(t) && Holds(t, entries) && k < |p| && OfStep(code)
    ensures StepErrorAt(t, p, k, code) <==> ListErrorAt(entries, p, k, code)
  {
    hide Holds, Listed, GoesOnWithParam, GoesOnWithLiteral;
    SegmentSays(t, entries, p[..k]);
    if SubAt(t, p[..k]).Some? {
      SubAtBears(t, p[..k]);
      if SubAt(t, p[..k]).value.special.ParamEdge? {
        assert GoesOnWithParam(entries, p[..k], SubAt(t, p[..k]).value.special.name);
      }
    }
  }

  ghost predicate AnyListError(entries: seq<Entry>, p: Path, code: Error) {
    exists k: nat :: k < |p| && ListErrorAt(entries, p, k, code)
  }

  lemma AnyListErrorIff(t: Tree, entries: seq<Entry>, p: Path, code: Error)
    requires Sound(t) && Holds(t, entries) && OfStep(code)
    ensures AnyStepError(t, p, code) <==> AnyListError(entries, p, code)
  {
    hide Sound, Holds, ListErrorAt, StepErrorAt;
    if k: nat :| StepErrorAt(t, p, k, code) {
      NoErrorPast(t, p, k, code);
      ListErrorIff(t, entries, p, k, code);
    }
    if k: nat :| k < |p| && ListErrorAt(entries, p, k, code) {
      ListErrorIff(t, entries, p, k, code);
    }
  }

  lemma NoErrorPast(t: Tree, p: Path, k: nat, code: Error)
    requires StepErrorAt(t, p, k, code)
    ensures k < |p|
  {
  }

  lemma LiteralBesideParamIff(entries: seq<Entry>, p: Path)
    ensures AnyListError(entries, p, LiteralConflictsWithParam) <==> LiteralBesideParam(entries, p)
  {
    hide Listed, GoesOnWithParam, GoesOnWithLiteral;
    if k: nat :| k < |p| && ListErrorAt(entries, p, k, LiteralConflictsWithParam) {
      var n :| GoesOnWithParam(entries, p[..k], n);
      assert p[k].Lit?;
    }
    if k: nat, n :| k < |p| && p[k].Lit? && GoesOnWithParam(entries, p[..k], n) {
      assert ListErrorAt(entries, p, k, LiteralConflictsWithParam);
    }
  }

  lemma ParamBesideWildcardIff(entries: seq<Entry>, p: Path)
    ensures AnyListError(entries, p, ParamConflictsWithWildcard) <==> ParamBesideWildcard(entries, p)
  {
    hide Listed, GoesOnWithParam, GoesOnWithLiteral;
    if k: nat :| k < |p| && ListErrorAt(entries, p, k, ParamConflictsWithWildcard) {
      assert p[k].Par? && Listed(entries, p[..k], AtWildcard);
    }
    if k: nat :| k < |p| && p[k].Par? && Listed(entries, p[..k], AtWildcard) {
      assert ListErrorAt(entries, p, k, ParamConflictsWithWildcard);
    }
  }

  lemma ParamBesideLiteralIff(entries: seq<Entry>, p: Path)
    ensures AnyListError(entries, p, ParamConflictsWithLiteral) <==> ParamBesideLiteral(entries, p)
  {
    hide Listed, GoesOnWithParam, GoesOnWithLiteral;
    if k: nat :| k < |p| && ListErrorAt(entries, p, k, ParamConflictsWithLiteral) {
      var x :| GoesOnWithLiteral(entries, p[..k], x);
      assert p[k].Par?;
    }
    if k: nat, x :| k < |p| && p[k].Par? && GoesOnWithLiteral(entries, p[..k], x)
                     && !Listed(entries, p[..k], AtWildcard) {
      assert ListErrorAt(entries, p, k, ParamConflictsWithLiteral);
    }
  }

  lemma ParamBesideOtherIff(entries: seq<Entry>, p: Path)
    ensures AnyListError(entries, p, ParamNameMismatch) <==> ParamBesideOther(entries, p)
  {
    hide Listed, GoesOnWithParam, GoesOnWithLiteral;
    if k: nat :| k < |p| && ListErrorAt(entries, p, k, ParamNameMismatch) {
      var n :| GoesOnWithParam(entries, p[..k], n) && n != p[k].name;
      assert p[k].Par?;
    }
    if k: nat, n :| k < |p| && p[k].Par? && p[k].name != n && GoesOnWithParam(entries, p[..k], n) {
      assert ListErrorAt(entries, p, k, ParamNameMismatch);
    }
  }

  lemma StepRefusalIff(syn: Prelexing.Syntax, regs: seq<Registration>, reg: Registration, code: Error)
    requires Accepted(syn, regs) && OfStep(code)
    ensures AllParse(syn, regs)
    ensures Add(AddAll(syn, regs), syn, reg).0 == code <==>
            AnyListError(Entries(syn, regs), Prelexing.StepsOf(TokensOf(syn, reg)), code)
  {
    hide AddAll, Insert, Sound, Holds, AnyStepError, AnyListError;
    AcceptedTreeHolds(syn, regs);
    var b, toks := AddAll(syn, regs), TokensOf(syn, reg);
    StepErrorIff(b.tree, b.literals, b.params, toks, reg.route, code);
    AnyListErrorIff(b.tree, Entries(syn, regs), Prelexing.StepsOf(toks), code);
  }

  lemma EndingRefusalIff(syn: Prelexing.Syntax, regs: seq<Registration>, reg: Registration)
    requires Accepted(syn, regs)
    ensures AllParse(syn, regs)
    ensures var error, entries := Add(AddAll(syn, regs), syn, reg).0, Entries(syn, regs);
            var p, f := Prelexing.StepsOf(TokensOf(syn, reg)), Prelexing.EndingOf(TokensOf(syn, reg));
            && (error == DuplicateRoute <==> f.Some? && Listed(entries, p, f.value))
            && (error == WildcardConflictsWithParam <==>
                  f == Some(AtWildcard) && exists n :: GoesOnWithParam(entries, p, n))
  {
    hide AddAll, Insert, Sound, Holds, Listed, GoesOnWithParam, GoesOnWithLiteral;
    AcceptedTreeHolds(syn, regs);
    var b, entries, toks := AddAll(syn, regs), Entries(syn, regs), TokensOf(syn, reg);
    var p, f := Prelexing.StepsOf(toks), Prelexing.EndingOf(toks);
    EndingErrorIff(b.tree, b.literals, b.params, toks, reg.route, DuplicateRoute);
    EndingErrorIff(b.tree, b.literals, b.params, toks, reg.route, WildcardConflictsWithParam);
    if f.Some? {
      ListedIff(b.tree, entries, p, f.value);
    }
    SegmentSays(b.tree, entries, p);
    if SubAt(b.tree, p).Some? && SubAt(b.tree, p).value.special.ParamEdge? {
      assert GoesOnWithParam(entries, p, SubAt(b.tree, p).value.special.name);
    }
  }

  lemma RoomIff(syn: Prelexing.Syntax, regs: seq<Registration>, reg: Registration)
    requires Accepted(syn, regs)
    ensures AllParse(syn, regs)
    ensures Add(AddAll(syn, regs), syn, reg).0 == OutOfRange <==>
            NoRoomFor(Entries(syn, regs), Prelexing.StepsOf(TokensOf(syn, reg)))
  {
    hide AddAll, Add, HalfMade.StepRefused;
    HalfMade.RefusedBehindIff(syn, regs, reg);
  }

  /** Which error an addition behind an accepted list is answered with: which patterns of the list it conflicts with,
    * else for which of its steps there is no room, else what is wrong with its ending. */
  lemma RefusalIff(syn: Prelexing.Syntax, regs: seq<Registration>, reg: Registration)
    requires Accepted(syn, regs)
    ensures AllParse(syn, regs)
    ensures var error, entries := Add(AddAll(syn, regs), syn, reg).0, Entries(syn, regs);
            var p, f := Prelexing.StepsOf(TokensOf(syn, reg)), Prelexing.EndingOf(TokensOf(syn, reg));
            && (error == DuplicateRoute <==> f.Some? && Listed(entries, p, f.value))
            && (error == WildcardConflictsWithParam <==>
                  f == Some(AtWildcard) && exists n :: GoesOnWithParam(entries, p, n))
            && (error == LiteralConflictsWithParam <==> LiteralBesideParam(entries, p))
            && (error == ParamConflictsWithWildcard <==> ParamBesideWildcard(entries, p))
            && (error == ParamConflictsWithLiteral <==> ParamBesideLiteral(entries, p))
            && (error == ParamNameMismatch <==> ParamBesideOther(entries, p))
            && (error == OutOfRange <==> NoRoomFor(entries, p))
            && (error == IllegalPattern <==> f == None && !StepRefused(entries, p))
            && (error == WildcardNotFinal <==>
                  && f == Some(AtWildcard) && Prelexing.Parse(syn, reg.pattern) == None
                  && !StepRefused(entries, p) && !EndingRefused(entries, p, f))
            && (error == Ok <==>
                  Prelexing.Parse(syn, reg.pattern).Some? && !StepRefused(entries, p) && !EndingRefused(entries, p, f))
            && error != NullArgument && error != BuilderCorrupted
  {
    hide AddAll, Insert, Sound, Holds, AnyListError, Listed, GoesOnWithParam, LiteralBesideParam, ParamBesideWildcard,
         ParamBesideLiteral, ParamBesideOther, NoRoomFor, HalfMade.StepRefused;
    AcceptedTreeHolds(syn, regs);
    var b, toks := AddAll(syn, regs), TokensOf(syn, reg);
    OtherErrors(b.tree, b.literals, b.params, toks, reg.route);
    EndingRefusalIff(syn, regs, reg);
    var entries, p := Entries(syn, regs), Prelexing.StepsOf(toks);
    LiteralBesideParamIff(entries, p);
    ParamBesideWildcardIff(entries, p);
    ParamBesideLiteralIff(entries, p);
    ParamBesideOtherIff(entries, p);
    StepRefusalIff(syn, regs, reg, LiteralConflictsWithParam);
    StepRefusalIff(syn, regs, reg, ParamConflictsWithWildcard);
    StepRefusalIff(syn, regs, reg, ParamConflictsWithLiteral);
    StepRefusalIff(syn, regs, reg, ParamNameMismatch);
    Prelexing.PatternSplits(toks);
    RoomIff(syn, regs, reg);
  }

  /** A pattern that is well-formed is refused for what the list holds, and for nothing else: here is for what. */
  lemma ParsedRefusalIff(syn: Prelexing.Syntax, regs: seq<Registration>, reg: Registration, q: Pattern)
    requires Accepted(syn, regs) && Prelexing.Parse(syn, reg.pattern) == Some(q)
    ensures AllParse(syn, regs)
    ensures var error, entries := Add(AddAll(syn, regs), syn, reg).0, Entries(syn, regs);
            && (error == DuplicateRoute <==> exists e :: e in entries && e.pattern == q)
            && (error == WildcardConflictsWithParam <==>
                  q.final.AtWildcard? && exists n :: GoesOnWithParam(entries, q.steps, n))
            && (error == LiteralConflictsWithParam <==> LiteralBesideParam(entries, q.steps))
            && (error == ParamConflictsWithWildcard <==> ParamBesideWildcard(entries, q.steps))
            && (error == ParamConflictsWithLiteral <==> ParamBesideLiteral(entries, q.steps))
            && (error == ParamNameMismatch <==> ParamBesideOther(entries, q.steps))
            && (error == OutOfRange <==> NoRoomFor(entries, q.steps))
            && error != IllegalPattern && error != WildcardNotFinal
            && error != NullArgument && error != BuilderCorrupted
  {
    hide AddAll, Add, NoRoomFor, GoesOnWithParam, LiteralBesideParam, ParamBesideWildcard, ParamBesideLiteral,
         ParamBesideOther;
    Prelexing.PatternSplits(TokensOf(syn, reg));
    RefusalIff(syn, regs, reg);
    assert q == Pattern(q.steps, q.final);
  }

  /** Behind a list that is not accepted in full, every addition is refused and nothing changes. */
  lemma CorruptedIff(syn: Prelexing.Syntax, regs: seq<Registration>, reg: Registration)
    ensures Add(AddAll(syn, regs), syn, reg).0 == BuilderCorrupted <==> !Accepted(syn, regs)
    ensures !Accepted(syn, regs) ==> AddAll(syn, regs + [reg]) == AddAll(syn, regs)
  {
    hide AddAll, Insert;
    if Accepted(syn, regs) {
      RefusalIff(syn, regs, reg);
    } else {
      AcceptedBefore(syn, regs + [reg]);
      assert (regs + [reg])[..|regs|] == regs;
    }
  }
}

/** Which lists of additions leave a segment that is marked as having a parameter without one. */
module HalfMade {
  import opened Wrappers
  import opened Bytes
  import opened Tokens
  import opened Permutations
  import opened RouteTree
  import opened Insertion
  import opened Compatibility
  import opened Regularity
  import opened Acceptance
  import opened Resolution
  import GraphLayout
  import KnownTexts
  import opened Capacity
  import Prelexing

  // ---- On the tree ----

  /** Step k meets no conflict at the segment that the steps before it lead to, if there is one already. */
  predicate NoConflictAt(t: Tree, p: Path, k: nat)
    requires k < |p|
  {
    SubAt(t, p[..k]).Some? ==>
      var n := SubAt(t, p[..k]).value;
      if p[k].Lit? then !n.special.ParamEdge?
      else !n.special.WildcardEdge? && n.kids == [] && (n.special.ParamEdge? ==> n.special.name == p[k].name)
  }

  /** Step k finds no room, and nothing stops the addition before. */
  ghost predicate RefusedHere(t: Tree, literals: set<Text>, params: set<Text>, p: Path, k: nat) {
    && k < |p| && Blocked(t, literals, params, p, k)
    && (forall j | 0 <= j <= k :: NoConflictAt(t, p, j))
    && (forall j | 0 <= j < k :: !Blocked(t, literals, params, p, j))
  }

  lemma ConflictHere(t: Tree, p: Path)
    requires p != []
    ensures NoConflictAt(t, p, 0) <==>
            if p[0].Lit? then !t.special.ParamEdge?
            else !t.special.WildcardEdge? && t.kids == [] && (t.special.ParamEdge? ==> t.special.name == p[0].name)
  {
    FirstStep(t, p);
  }

  lemma ConflictBelow(t: Tree, p: Path, d: Tree, k: nat)
    requires 0 < k < |p|
    requires Down(t, p[0]) == Some(d) || (Down(t, p[0]) == None && d == EMPTY)
    ensures NoConflictAt(t, p, k) <==> NoConflictAt(d, p[1..], k - 1)
  {
    assert p[..k][1..] == p[1..][..k - 1];
    if Down(t, p[0]) == None {
      EmptyHasNothingBelow(p[1..][..k - 1]);
    }
  }

  /** What entering a segment comes to, in these terms. */
  lemma EnteredIff(t: Tree, literals: seq<Text>, params: seq<Text>, tok: Token, p: Path)
    requires (tok.Literal? || tok.Param?) && p != [] && p[0] == Prelexing.StepOf(tok)
    requires !t.special.HalfParam? && Distinct(literals) && Distinct(params)
    ensures var error := Enter(t, literals, params, tok).error;
            && (error == Ok <==>
                  NoConflictAt(t, p, 0) && !Blocked(t, Members(literals), Members(params), p, 0))
            && (error == OutOfRange <==>
                  NoConflictAt(t, p, 0) && Blocked(t, Members(literals), Members(params), p, 0))
  {
    hide Blocked, NoConflictAt, Members, Distinct;
    ConflictHere(t, p);
    BlockedHere(t, literals, params, p);
  }

  lemma RefusedBelow(t: Tree, literals: set<Text>, params: set<Text>, literals': set<Text>, params': set<Text>,
                     p: Path, d: Tree, k: nat)
    requires p != [] && k > 0
    requires Down(t, p[0]) == Some(d) || (Down(t, p[0]) == None && d == EMPTY)
    requires literals' == literals + Literals(p[..1]) && params' == params + Names(p[..1])
    requires NoConflictAt(t, p, 0) && !Blocked(t, literals, params, p, 0)
    ensures RefusedHere(t, literals, params, p, k) <==> RefusedHere(d, literals', params', p[1..], k - 1)
  {
    hide Blocked, NoConflictAt, Literals, Names, Down;
    if k < |p| {
      forall j | 0 < j <= k
        ensures Blocked(t, literals, params, p, j) <==> Blocked(d, literals', params', p[1..], j - 1)
        ensures NoConflictAt(t, p, j) <==> NoConflictAt(d, p[1..], j - 1)
      {
        BlockedBelow(t, literals, params, literals', params', p, d, j);
        ConflictBelow(t, p, d, j);
      }
      ShiftedAgree(t, literals, params, literals', params', p, d, k);
    }
  }

  lemma ShiftedAgree(t: Tree, literals: set<Text>, params: set<Text>, literals': set<Text>, params': set<Text>,
                     p: Path, d: Tree, k: nat)
    requires 0 < k < |p|
    requires forall j | 0 < j <= k ::
               && (Blocked(t, literals, params, p, j) <==> Blocked(d, literals', params', p[1..], j - 1))
               && (NoConflictAt(t, p, j) <==> NoConflictAt(d, p[1..], j - 1))
    requires NoConflictAt(t, p, 0) && !Blocked(t, literals, params, p, 0)
    ensures RefusedHere(t, literals, params, p, k) <==> RefusedHere(d, literals', params', p[1..], k - 1)
  {
    hide Blocked, NoConflictAt;
    if RefusedHere(t, literals, params, p, k) {
      forall j | 0 <= j <= k - 1
        ensures NoConflictAt(d, p[1..], j) && (j < k - 1 ==> !Blocked(d, literals', params', p[1..], j))
      {
        assert NoConflictAt(t, p, j + 1);
      }
    }
    if RefusedHere(d, literals', params', p[1..], k - 1) {
      forall j | 0 <= j <= k
        ensures NoConflictAt(t, p, j) && (j < k ==> !Blocked(t, literals, params, p, j))
      {
        if j > 0 {
          assert NoConflictAt(d, p[1..], j - 1);
        }
      }
    }
  }

  /** Some step is refused so; a parameter, if only those count. */
  ghost predicate AnyRefused(t: Tree, literals: set<Text>, params: set<Text>, p: Path, onlyParams: bool) {
    exists k: nat :: k < |p| && RefusedHere(t, literals, params, p, k) && (onlyParams ==> p[k].Par?)
  }

  lemma AnyRefusedBelow(t: Tree, literals: set<Text>, params: set<Text>, literals': set<Text>, params': set<Text>,
                        p: Path, d: Tree, onlyParams: bool)
    requires p != []
    requires Down(t, p[0]) == Some(d) || (Down(t, p[0]) == None && d == EMPTY)
    requires literals' == literals + Literals(p[..1]) && params' == params + Names(p[..1])
    requires NoConflictAt(t, p, 0) && !Blocked(t, literals, params, p, 0)
    ensures AnyRefused(t, literals, params, p, onlyParams) <==> AnyRefused(d, literals', params', p[1..], onlyParams)
  {
    hide RefusedHere, Blocked, NoConflictAt, Literals, Names, Down;
    RefusedFirst(t, literals, params, p);
    if k: nat :| k < |p| && RefusedHere(t, literals, params, p, k) && (onlyParams ==> p[k].Par?) {
      RefusedBelow(t, literals, params, literals', params', p, d, k);
    }
    if k: nat :| k < |p[1..]| && RefusedHere(d, literals', params', p[1..], k) && (onlyParams ==> p[1..][k].Par?) {
      RefusedBelow(t, literals, params, literals', params', p, d, k + 1);
    }
  }

  lemma RefusedFirst(t: Tree, literals: set<Text>, params: set<Text>, p: Path)
    requires p != []
    ensures RefusedHere(t, literals, params, p, 0) <==>
            NoConflictAt(t, p, 0) && Blocked(t, literals, params, p, 0)
  {
    hide Blocked, NoConflictAt;
  }

  lemma StoppedFirst(t: Tree, literals: set<Text>, params: set<Text>, p: Path, onlyParams: bool)
    requires p != []
    requires !NoConflictAt(t, p, 0) || Blocked(t, literals, params, p, 0)
    ensures AnyRefused(t, literals, params, p, onlyParams) <==>
            (onlyParams ==> p[0].Par?) && NoConflictAt(t, p, 0) && Blocked(t, literals, params, p, 0)
  {
    hide Blocked, NoConflictAt;
    RefusedFirst(t, literals, params, p);
  }

  lemma NothingRefused(t: Tree, literals: set<Text>, params: set<Text>, onlyParams: bool)
    ensures !AnyRefused(t, literals, params, [], onlyParams)
  {
  }

  lemma RefusedNowIff(t: Tree, d: GraphLayout.Dictionaries, toks: seq<Token>, r: Route)
    requires Continues(toks) && Enter(t, d.literals, d.params, toks[0]).error != Ok
    ensures Insert(t, d.literals, d.params, toks, r).error == Enter(t, d.literals, d.params, toks[0]).error
    ensures RefusedParam(t, d.literals, d.params, toks) <==>
            toks[0].Param? && Enter(t, d.literals, d.params, toks[0]).error == OutOfRange
  {
    hide Enter;
  }

  lemma RefusedLaterIff(t: Tree, d: GraphLayout.Dictionaries, toks: seq<Token>, r: Route)
    requires Continues(toks) && Enter(t, d.literals, d.params, toks[0]).error == Ok
    ensures var e := Enter(t, d.literals, d.params, toks[0]);
            var sub := Down(e.tree, Prelexing.StepOf(toks[0])).value;
            && Insert(t, d.literals, d.params, toks, r).error == Insert(sub, e.literals, e.params, toks[1..], r).error
            && (RefusedParam(t, d.literals, d.params, toks) <==> RefusedParam(sub, e.literals, e.params, toks[1..]))
  {
    hide Enter;
  }

  /** An insertion is refused for range iff one of its steps is refused so, and comes to a refused parameter iff that
    * step is one. */
  lemma {:induction false} RefusedForRoomIff(t: Tree, d: GraphLayout.Dictionaries, toks: seq<Token>, r: Route)
    requires KnownTexts.Known(d, t) && NoHalf(t) && Distinct(d.literals) && Distinct(d.params)
    ensures Insert(t, d.literals, d.params, toks, r).error == OutOfRange <==>
            AnyRefused(t, Members(d.literals), Members(d.params), Prelexing.StepsOf(toks), false)
    ensures RefusedParam(t, d.literals, d.params, toks) <==>
            AnyRefused(t, Members(d.literals), Members(d.params), Prelexing.StepsOf(toks), true)
    decreases |toks|
  {
    hide AnyRefused, Blocked, NoConflictAt, KnownTexts.Known, NoHalf, Members, Literals, Names, Distinct, Enter, Insert,
         RefusedParam;
    var p, L, P := Prelexing.StepsOf(toks), Members(d.literals), Members(d.params);
    if Continues(toks) {
      var e, st := Enter(t, d.literals, d.params, toks[0]), p[0];
      NoHalfHasNoHalf(t);
      EnteredIff(t, d.literals, d.params, toks[0], p);
      if e.error == Ok {
        var d' := GraphLayout.Dictionaries(e.literals, e.params);
        EnterAddsText(t, d, toks[0]);
        EnterKnows(t, d, toks[0]);
        EnterGoesDown(t, d.literals, d.params, toks[0]);
        EnterHasNoHalf(t, d.literals, d.params, toks[0]);
        var sub := Down(e.tree, st).value;
        RefusedForRoomIff(sub, d', toks[1..], r);
        RefusedLaterIff(t, d, toks, r);
        assert p[..1] == [st] && p[1..] == Prelexing.StepsOf(toks[1..]);
        AnyRefusedBelow(t, L, P, Members(d'.literals), Members(d'.params), p, sub, false);
        AnyRefusedBelow(t, L, P, Members(d'.literals), Members(d'.params), p, sub, true);
      } else {
        RefusedNowIff(t, d, toks, r);
        StoppedFirst(t, L, P, p, false);
        StoppedFirst(t, L, P, p, true);
      }
    } else {
      NothingRefused(t, L, P, false);
      NothingRefused(t, L, P, true);
      StepsEnd(t, d, toks, r);
    }
  }

  lemma StepsEnd(t: Tree, d: GraphLayout.Dictionaries, toks: seq<Token>, r: Route)
    requires !Continues(toks)
    ensures Insert(t, d.literals, d.params, toks, r).error != OutOfRange
    ensures !RefusedParam(t, d.literals, d.params, toks)
  {
  }

  lemma NoHalfHasNoHalf(t: Tree)
    requires NoHalf(t)
    ensures !t.special.HalfParam?
  {
  }

  lemma EnterHasNoHalf(t: Tree, literals: seq<Text>, params: seq<Text>, tok: Token)
    requires tok.Literal? || tok.Param?
    requires NoHalf(t) && Enter(t, literals, params, tok).error == Ok
    ensures NoHalf(Down(Enter(t, literals, params, tok).tree, Prelexing.StepOf(tok)).value)
  {
    EnterKeeps(t, literals, params, tok);
    DownKeeps(Enter(t, literals, params, tok).tree, Prelexing.StepOf(tok));
  }

  // ---- Over the list ----

  /** The patterns that share the steps before the k-th go on, or end, so that they admit the k-th. */
  predicate Admit(entries: seq<Entry>, p: Path, k: nat)
    requires k < |p|
  {
    forall e | e in entries && IsPrefix(p[..k], e.pattern.steps) ::
      if |e.pattern.steps| == k then e.pattern.final.AtWildcard? ==> p[k].Lit?
      else e.pattern.steps[k] == p[k] || (e.pattern.steps[k].Lit? && p[k].Lit?)
  }

  /** The k-th step goes where no pattern goes, and there is no room for it. */
  ghost predicate NoRoom(entries: seq<Entry>, p: Path, k: nat) {
    && k < |p| && !OnTheWay(entries, p[..k + 1])
    && (TableIsFull(PatternsOf(entries), p, k)
        || (p[k].Lit? && |NextTexts(PatternsOf(entries), p[..k])| >= 4095))
  }

  /** Behind these patterns, step k is the first that there is no room for; it and the steps before it are admitted. */
  ghost predicate StepRefused(entries: seq<Entry>, p: Path, k: nat) {
    && k < |p| && NoRoom(entries, p, k)
    && (forall j | 0 <= j <= k :: Admit(entries, p, j))
    && (forall j | 0 <= j < k :: !NoRoom(entries, p, j))
  }

  lemma AdmittedAlong(t: Tree, entries: seq<Entry>, p: Path, k: nat, e: Entry)
    requires Sound(t) && Holds(t, entries) && k < |p| && NoConflictAt(t, p, k)
    requires e in entries && IsPrefix(p[..k], e.pattern.steps)
    ensures if |e.pattern.steps| == k then e.pattern.final.AtWildcard? ==> p[k].Lit?
            else e.pattern.steps[k] == p[k] || (e.pattern.steps[k].Lit? && p[k].Lit?)
  {
    hide Sound;
    var q := e.pattern;
    assert Entry(q, e.route) in entries && Lookup(t, q) == Some(e.route);
    SubAtPrefix(t, q.steps, k);
    if |q.steps| > k {
      SubAtPrefix(t, q.steps, k + 1);
      StepBelow(t, q.steps, k);
    } else {
      assert q.steps == p[..k];
    }
  }

  lemma StepBelow(t: Tree, p: Path, k: nat)
    requires k < |p| && SubAt(t, p[..k]).Some?
    ensures SubAt(t, p[..k + 1]) == Down(SubAt(t, p[..k]).value, p[k])
  {
    assert p[..k + 1] == p[..k] + [p[k]];
    SubAtConcat(t, p[..k], [p[k]]);
    SubAtOne(SubAt(t, p[..k]).value, p[k]);
  }

  /** A step that the segment at p takes is some pattern's. */
  lemma StepTaken(t: Tree, entries: seq<Entry>, p: Path, st: Step) returns (e: Entry)
    requires Sound(t) && Holds(t, entries)
    requires SubAt(t, p).Some? && Down(SubAt(t, p).value, st).Some?
    ensures e in entries && |e.pattern.steps| > |p| && IsPrefix(p, e.pattern.steps) && e.pattern.steps[|p|] == st
  {
    hide Sound, Holds;
    SubAtConcat(t, p, [st]);
    SubAtOne(SubAt(t, p).value, st);
    OnTheWayIff(t, entries, p + [st]);
    e :| e in entries && IsPrefix(p + [st], e.pattern.steps);
    assert e.pattern.steps[|p|] == (p + [st])[|p|];
    assert e.pattern.steps[..|p|] == (p + [st])[..|p|] == p;
  }

  lemma AdmitMeansNoConflict(t: Tree, entries: seq<Entry>, p: Path, k: nat)
    requires Sound(t) && Holds(t, entries) && k < |p| && Admit(entries, p, k)
    ensures NoConflictAt(t, p, k)
  {
    hide Sound;
    if SubAt(t, p[..k]).Some? {
      var n := SubAt(t, p[..k]).value;
      if n.special.ParamEdge? {
        var e := StepTaken(t, entries, p[..k], Par(n.special.name));
      }
      if n.special.WildcardEdge? {
        assert Lookup(t, Pattern(p[..k], AtWildcard)) == Some(n.special.route);
        assert IsPrefix(p[..k], p[..k]);
      }
      if n.kids != [] {
        assert Find(n.kids, n.kids[0].text).Some?;
        var e := StepTaken(t, entries, p[..k], Lit(n.kids[0].text));
      }
    }
  }

  lemma AdmitIff(t: Tree, entries: seq<Entry>, p: Path, k: nat)
    requires Sound(t) && Holds(t, entries) && k < |p|
    ensures NoConflictAt(t, p, k) <==> Admit(entries, p, k)
  {
    hide Sound, Holds, NoConflictAt;
    if Admit(entries, p, k) {
      AdmitMeansNoConflict(t, entries, p, k);
    }
    if NoConflictAt(t, p, k) {
      forall e | e in entries && IsPrefix(p[..k], e.pattern.steps)
        ensures if |e.pattern.steps| == k then e.pattern.final.AtWildcard? ==> p[k].Lit?
                else e.pattern.steps[k] == p[k] || (e.pattern.steps[k].Lit? && p[k].Lit?)
      {
        AdmittedAlong(t, entries, p, k, e);
      }
    }
  }

  lemma NodeIsFullIff(t: Tree, entries: seq<Entry>, p: Path)
    requires Sound(t) && Holds(t, entries)
    ensures NodeIsFull(t, p) <==> |NextTexts(PatternsOf(entries), p)| >= NODE_MAX_CHILD_COUNT
  {
    hide Sound, Holds, NextTexts;
    ChildrenFollow(t, entries, p);
    if SubAt(t, p).Some? {
      var texts := KidTexts(SubAt(t, p).value.kids);
      KidTextsAreDistinct(t, p);
      SetFits(NextTexts(PatternsOf(entries), p), texts);
      DistinctFits(texts, NextTexts(PatternsOf(entries), p));
    } else {
      assert NextTexts(PatternsOf(entries), p) == {};
    }
  }

  lemma NoRoomIff(t: Tree, entries: seq<Entry>, p: Path, k: nat)
    requires Sound(t) && Holds(t, entries)
    ensures var u := PatternsOf(entries);
            Blocked(t, LiteralTexts(u), ParamNames(u), p, k) <==> NoRoom(entries, p, k)
  {
    hide Sound, Holds, PatternsOf, LiteralTexts, ParamNames, Literals, Names, OnTheWay, NodeIsFull, NextTexts;
    if k < |p| {
      OnTheWayIff(t, entries, p[..k + 1]);
      NodeIsFullIff(t, entries, p[..k]);
    }
  }

  lemma StepRefusedIff(t: Tree, entries: seq<Entry>, p: Path, k: nat)
    requires Sound(t) && Holds(t, entries)
    ensures var u := PatternsOf(entries);
            RefusedHere(t, LiteralTexts(u), ParamNames(u), p, k) <==> StepRefused(entries, p, k)
  {
    hide Sound, Holds, PatternsOf, LiteralTexts, ParamNames, Blocked, NoRoom, NoConflictAt, Admit;
    var u := PatternsOf(entries);
    forall j: nat | j < |p|
      ensures Blocked(t, LiteralTexts(u), ParamNames(u), p, j) <==> NoRoom(entries, p, j)
      ensures NoConflictAt(t, p, j) <==> Admit(entries, p, j)
    {
      NoRoomIff(t, entries, p, j);
      AdmitIff(t, entries, p, j);
    }
  }

  // ---- Whole lists ----

  /** The registrations before the n-th are accepted in full, and it comes to a parameter that is refused. */
  ghost predicate RefusedAt(syn: Prelexing.Syntax, regs: seq<Registration>, n: nat) {
    && n < |regs| && AllParse(syn, regs[..n])
    && var entries := Entries(syn, regs[..n]);
       var p := Prelexing.StepsOf(TokensOf(syn, regs[n]));
       Acceptable(entries) && exists k: nat :: k < |p| && StepRefused(entries, p, k) && p[k].Par?
  }

  /** Behind an accepted list, an addition is refused for range iff there is no room for one of its steps. */
  lemma RefusedBehindIff(syn: Prelexing.Syntax, regs: seq<Registration>, reg: Registration)
    requires Accepted(syn, regs)
    ensures AllParse(syn, regs)
    ensures var b, entries, p := AddAll(syn, regs), Entries(syn, regs), Prelexing.StepsOf(TokensOf(syn, reg));
            && (Add(b, syn, reg).0 == OutOfRange <==> exists k: nat :: k < |p| && StepRefused(entries, p, k))
            && (RefusedParam(b.tree, b.literals, b.params, TokensOf(syn, reg)) <==>
                  exists k: nat :: k < |p| && StepRefused(entries, p, k) && p[k].Par?)
  {
    hide AddAll, Sound, Holds, StepRefused, RefusedHere, RefusedParam, KnownTexts.Known, Distinct, Members, Insert;
    hide LiteralTexts, ParamNames, PatternsOf, NoHalf;
    AcceptedTreeHolds(syn, regs);
    var b, entries, p := AddAll(syn, regs), Entries(syn, regs), Prelexing.StepsOf(TokensOf(syn, reg));
    SoundIsRegular(b.tree);
    TablesHoldList(syn, regs);
    RefusedForRoomIff(b.tree, GraphLayout.Dictionaries(b.literals, b.params), TokensOf(syn, reg), reg.route);
    forall k: nat
      ensures RefusedHere(b.tree, Members(b.literals), Members(b.params), p, k) <==> StepRefused(entries, p, k)
    {
      StepRefusedIff(b.tree, entries, p, k);
    }
  }

  lemma RefusedAtIff(syn: Prelexing.Syntax, regs: seq<Registration>, n: nat)
    requires n < |regs|
    ensures var b := AddAll(syn, regs[..n]);
            RefusedAt(syn, regs, n) <==>
            !b.corrupted && RefusedParam(b.tree, b.literals, b.params, TokensOf(syn, regs[n]))
  {
    hide AddAll, Add, Acceptable, StepRefused, RefusedParam;
    AcceptedIff(syn, regs[..n]);
    if Accepted(syn, regs[..n]) {
      RefusedBehindIff(syn, regs[..n], regs[n]);
    }
  }

  lemma RefusedEarlier(syn: Prelexing.Syntax, regs: seq<Registration>, n: nat)
    requires n + 1 < |regs|
    ensures RefusedAt(syn, regs, n) <==> RefusedAt(syn, regs[..|regs| - 1], n)
  {
    hide AllParse, Acceptable, StepRefused, Prelexing.StepsOf;
    assert regs[..|regs| - 1][..n] == regs[..n];
  }

  /** Adding once more leaves a half-made segment iff there was one, or a parameter is refused now. */
  lemma HalfMadeByAdd(syn: Prelexing.Syntax, regs: seq<Registration>)
    requires regs != []
    ensures NoHalf(AddAll(syn, regs).tree) <==>
            NoHalf(AddAll(syn, regs[..|regs| - 1]).tree) && !RefusedAt(syn, regs, |regs| - 1)
  {
    hide AddAll, Insert, NoHalf, RefusedParam, RefusedAt, Sound, Regular, Holds;
    var n := |regs| - 1;
    var b := AddAll(syn, regs[..n]);
    AcceptedBefore(syn, regs);
    RefusedAtIff(syn, regs, n);
    if !b.corrupted {
      AcceptedTreeHolds(syn, regs[..n]);
      SoundIsRegular(b.tree);
      InsertLeavesNoHalfIff(b.tree, b.literals, b.params, TokensOf(syn, regs[n]), regs[n].route);
    }
  }

  /** A half-made segment in the tree is the trace of a refused parameter, and there is one after each. */
  lemma {:induction false} HalfMadeIff(syn: Prelexing.Syntax, regs: seq<Registration>)
    ensures NoHalf(AddAll(syn, regs).tree) <==> forall n :: !RefusedAt(syn, regs, n)
    decreases |regs|
  {
    hide RefusedAt;
    if regs == [] {
      assert AddAll(syn, regs).tree == EMPTY;
      forall n: nat ensures !RefusedAt(syn, regs, n) {
        NothingRefusedAt(syn, regs, n);
      }
    } else {
      hide AddAll;
      var last := |regs| - 1;
      HalfMadeIff(syn, regs[..last]);
      HalfMadeByAdd(syn, regs);
      forall n: nat
        ensures RefusedAt(syn, regs, n) <==>
                (n < last && RefusedAt(syn, regs[..last], n)) || (n == last && RefusedAt(syn, regs, last))
      {
        if n < last {
          RefusedEarlier(syn, regs, n);
        } else if n > last {
          NothingRefusedAt(syn, regs, n);
        }
      }
      forall n: nat | n >= last ensures !RefusedAt(syn, regs[..last], n) {
        NothingRefusedAt(syn, regs[..last], n);
      }
    }
  }

  lemma NothingRefusedAt(syn: Prelexing.Syntax, regs: seq<Registration>, n: nat)
    requires n >= |regs|
    ensures !RefusedAt(syn, regs, n)
  {
  }
}

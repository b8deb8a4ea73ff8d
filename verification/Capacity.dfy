/** What the limits of the tables and nodes mean for whole lists of patterns. */
module Capacity {
  import opened Wrappers
  import opened Bytes
  import opened Tokens
  import opened Permutations
  import opened RouteTree
  import opened SymbolTables
  import opened Insertion
  import opened Compatibility
  import opened Acceptance
  import opened Resolution
  import opened GraphLayout
  import opened KnownTexts
  import Prelexing

  // ---- The texts of a path, of a table, of a list ----

  function Literals(p: Path): set<Text> {
    set i | 0 <= i < |p| && p[i].Lit? :: p[i].text
  }

  function Names(p: Path): set<Text> {
    set i | 0 <= i < |p| && p[i].Par? :: p[i].name
  }

  function Members(table: seq<Text>): set<Text> {
    set x | x in table
  }

  lemma MembersCount(table: seq<Text>)
    requires Distinct(table)
    ensures |Members(table)| == |table|
  {
    SetFits(Members(table), table);
    DistinctFits(table, Members(table));
  }

  function PatternsOf(entries: seq<Entry>): set<Pattern> {
    set e | e in entries :: e.pattern
  }

  function LiteralTexts(u: set<Pattern>): set<Text> {
    set q, x | q in u && x in Literals(q.steps) :: x
  }

  function ParamNames(u: set<Pattern>): set<Text> {
    set q, x | q in u && x in Names(q.steps) :: x
  }

  /** The literals that follow p in some pattern. */
  function NextTexts(u: set<Pattern>, p: Path): set<Text> {
    set q | q in u && |p| < |q.steps| && IsPrefix(p, q.steps) && q.steps[|p|].Lit? :: q.steps[|p|].text
  }

  /** No segment gets more literal children than a node can count. */
  ghost predicate Roomy(u: set<Pattern>) {
    forall p :: |NextTexts(u, p)| <= 4095
  }

  /** No more literals than a node can count leave every node room. */
  lemma FewLiteralsAreRoomy(u: set<Pattern>)
    requires |LiteralTexts(u)| <= 4095
    ensures Roomy(u)
  {
    forall p ensures |NextTexts(u, p)| <= 4095 {
      forall x | x in NextTexts(u, p) ensures x in LiteralTexts(u) {
        var q :| q in u && |p| < |q.steps| && q.steps[|p|].Lit? && q.steps[|p|].text == x;
        assert x in Literals(q.steps);
      }
      SubsetIsSmaller(NextTexts(u, p), LiteralTexts(u));
    }
  }

  // ---- Which insertions are refused for range ----

  /** The k-th step needs a new segment that there is no room for: its text would come behind a full table (with the
    * texts of the steps before it), or it would be one child too many. */
  ghost predicate Blocked(t: Tree, literals: set<Text>, params: set<Text>, p: Path, k: nat) {
    && k < |p| && SubAt(t, p[..k + 1]) == None
    && if p[k].Lit? then |literals + Literals(p[..k])| >= UINT16_MAX || NodeIsFull(t, p[..k])
       else |params + Names(p[..k])| >= UINT16_MAX
  }

  predicate NodeIsFull(t: Tree, p: Path) {
    SubAt(t, p).Some? && |SubAt(t, p).value.kids| >= NODE_MAX_CHILD_COUNT
  }

  lemma TextsOfNothing(literals: set<Text>, params: set<Text>)
    ensures literals + Literals([]) == literals && params + Names([]) == params
  {
  }

  lemma FirstStep(t: Tree, p: Path)
    requires p != []
    ensures p[..0] == [] && SubAt(t, p[..0]) == Some(t)
    ensures p[..1] == [p[0]] && SubAt(t, p[..1]) == Down(t, p[0])
  {
    SubAtOne(t, p[0]);
    assert p[..1] == [p[0]];
  }

  lemma BlockedHere(t: Tree, literals: seq<Text>, params: seq<Text>, p: Path)
    requires Distinct(literals) && Distinct(params) && p != []
    ensures Blocked(t, Members(literals), Members(params), p, 0) <==>
            Down(t, p[0]) == None
            && if p[0].Lit? then |literals| >= UINT16_MAX || |t.kids| >= NODE_MAX_CHILD_COUNT
               else |params| >= UINT16_MAX
  {
    hide Literals, Names, Members, SubAt, Down, Distinct;
    FirstStep(t, p);
    TextsOfNothing(Members(literals), Members(params));
    MembersCount(literals);
    MembersCount(params);
  }

  lemma TextsFromFirst(p: Path, k: nat)
    requires 0 < k <= |p|
    ensures Literals(p[..k]) == Literals(p[..1]) + Literals(p[1..][..k - 1])
    ensures Names(p[..k]) == Names(p[..1]) + Names(p[1..][..k - 1])
  {
    forall i | 0 <= i < k ensures p[..k][i] == if i == 0 then p[..1][0] else p[1..][..k - 1][i - 1] {
    }
    forall x | x in Literals(p[1..][..k - 1]) ensures x in Literals(p[..k]) {
      var i :| 0 <= i < k - 1 && p[1..][..k - 1][i].Lit? && p[1..][..k - 1][i].text == x;
      assert p[..k][i + 1].Lit? && p[..k][i + 1].text == x;
    }
    forall x | x in Names(p[1..][..k - 1]) ensures x in Names(p[..k]) {
      var i :| 0 <= i < k - 1 && p[1..][..k - 1][i].Par? && p[1..][..k - 1][i].name == x;
      assert p[..k][i + 1].Par? && p[..k][i + 1].name == x;
    }
    assert p[..1][0] == p[..k][0];
  }

  lemma PlacesBelow(t: Tree, p: Path, d: Tree, k: nat)
    requires 0 < k < |p|
    requires Down(t, p[0]) == Some(d) || (Down(t, p[0]) == None && d == EMPTY)
    ensures SubAt(t, p[..k + 1]) == None <==> SubAt(d, p[1..][..k]) == None
    ensures NodeIsFull(t, p[..k]) <==> NodeIsFull(d, p[1..][..k - 1])
  {
    assert p[..k + 1][1..] == p[1..][..k] && p[..k][1..] == p[1..][..k - 1];
    if Down(t, p[0]) == None {
      EmptyHasNothingBelow(p[1..][..k]);
      EmptyHasNothingBelow(p[1..][..k - 1]);
    }
  }

  lemma TablesBelow(literals: set<Text>, params: set<Text>, p: Path, k: nat)
    requires 0 < k <= |p|
    ensures literals + Literals(p[..k]) == (literals + Literals(p[..1])) + Literals(p[1..][..k - 1])
    ensures params + Names(p[..k]) == (params + Names(p[..1])) + Names(p[1..][..k - 1])
  {
    TextsFromFirst(p, k);
    hide Literals, Names;
  }

  lemma BlockedBelow(t: Tree, literals: set<Text>, params: set<Text>, literals': set<Text>, params': set<Text>,
                     p: Path, d: Tree, k: nat)
    requires p != [] && k > 0
    requires Down(t, p[0]) == Some(d) || (Down(t, p[0]) == None && d == EMPTY)
    requires literals' == literals + Literals(p[..1]) && params' == params + Names(p[..1])
    ensures Blocked(t, literals, params, p, k) <==> Blocked(d, literals', params', p[1..], k - 1)
  {
    hide Literals, Names, SubAt, Down, NodeIsFull;
    if k < |p| {
      PlacesBelow(t, p, d, k);
      TablesBelow(literals, params, p, k);
    }
  }

  /** Entering a known tree adds the first step's text to what the tables hold. */
  lemma EnterAddsText(t: Tree, d: Dictionaries, tok: Token)
    requires tok.Literal? || tok.Param?
    requires Known(d, t) && Distinct(d.literals) && Distinct(d.params) && Enter(t, d.literals, d.params, tok).error ==
             Ok
    ensures var e, st := Enter(t, d.literals, d.params, tok), Prelexing.StepOf(tok);
            && Members(e.literals) == Members(d.literals) + Literals([st])
            && Members(e.params) == Members(d.params) + Names([st])
            && Distinct(e.literals) && Distinct(e.params)
  {
    var st := Prelexing.StepOf(tok);
    assert [st][0] == st;
    assert Literals([st]) == if st.Lit? then {st.text} else {};
    assert Names([st]) == if st.Par? then {st.name} else {};
  }

  lemma EnterKnows(t: Tree, d: Dictionaries, tok: Token)
    requires tok.Literal? || tok.Param?
    requires Known(d, t) && Enter(t, d.literals, d.params, tok).error == Ok
    ensures var e := Enter(t, d.literals, d.params, tok);
            Known(Dictionaries(e.literals, e.params), Down(e.tree, Prelexing.StepOf(tok)).value)
  {
    EnterKeepsKnown(t, d, tok);
  }

  lemma EnterGoesDown(t: Tree, literals: seq<Text>, params: seq<Text>, tok: Token)
    requires tok.Literal? || tok.Param?
    requires Enter(t, literals, params, tok).error == Ok
    ensures var d := Down(Enter(t, literals, params, tok).tree, Prelexing.StepOf(tok));
            Down(t, Prelexing.StepOf(tok)) == d || (Down(t, Prelexing.StepOf(tok)) == None && d == Some(EMPTY))
  {
  }

  lemma EnterIsBlocked(t: Tree, literals: seq<Text>, params: seq<Text>, tok: Token)
    requires tok.Literal? || tok.Param?
    requires Enter(t, literals, params, tok).error == Ok || Enter(t, literals, params, tok).error == OutOfRange
    ensures var st := Prelexing.StepOf(tok);
            Enter(t, literals, params, tok).error == OutOfRange <==>
            Down(t, st) == None
            && if st.Lit? then |literals| >= UINT16_MAX || |t.kids| >= NODE_MAX_CHILD_COUNT else |params| >= UINT16_MAX
  {
  }

  /** An insertion without a conflict is refused for range iff one of its steps is blocked. */
  lemma {:induction false} RefusedForRangeIff(t: Tree, d: Dictionaries, toks: seq<Token>, r: Route, p: Pattern)
    requires Known(d, t) && Distinct(d.literals) && Distinct(d.params) && Prelexing.PatternOf(toks) == Some(p)
    requires var error := Insert(t, d.literals, d.params, toks, r).error; error == Ok || error == OutOfRange
    ensures Insert(t, d.literals, d.params, toks, r).error == OutOfRange <==>
            exists k :: Blocked(t, Members(d.literals), Members(d.params), p.steps, k)
    decreases |toks|
  {
    hide Blocked, Known, Members, Literals, Names, Distinct, Enter;
    if Continues(toks) {
      PatternUnfolds(toks);
      var e, st := Enter(t, d.literals, d.params, toks[0]), p.steps[0];
      var d' := Dictionaries(e.literals, e.params);
      EnterIsBlocked(t, d.literals, d.params, toks[0]);
      BlockedHere(t, d.literals, d.params, p.steps);
      if e.error == Ok {
        EnterAddsText(t, d, toks[0]);
        EnterKnows(t, d, toks[0]);
        EnterGoesDown(t, d.literals, d.params, toks[0]);
        var sub := Down(e.tree, st).value;
        RefusedForRangeIff(sub, d', toks[1..], r, Rest(p));
        assert p.steps[..1] == [st];
        forall k: nat | k > 0
          ensures Blocked(t, Members(d.literals), Members(d.params), p.steps, k) <==>
                  Blocked(sub, Members(d'.literals), Members(d'.params), Rest(p).steps, k - 1)
        {
          BlockedBelow(t, Members(d.literals), Members(d.params), Members(d'.literals), Members(d'.params), p.steps,
                       sub, k);
        }
        if k: nat :| Blocked(sub, Members(d'.literals), Members(d'.params), Rest(p).steps, k) {
          assert Blocked(t, Members(d.literals), Members(d.params), p.steps, k + 1);
        }
      }
    } else {
      forall k: nat ensures !Blocked(t, Members(d.literals), Members(d.params), p.steps, k) {
        NothingBlocked(t, Members(d.literals), Members(d.params), k);
      }
    }
  }

  lemma NothingBlocked(t: Tree, literals: set<Text>, params: set<Text>, k: nat)
    ensures !Blocked(t, literals, params, [], k)
  {
  }

  // ---- The tables and nodes that a list fills ----

  lemma {:induction false} InsertAddsTexts(t: Tree, d: Dictionaries, toks: seq<Token>, r: Route, p: Pattern)
    requires Known(d, t) && Distinct(d.literals) && Distinct(d.params) && Prelexing.PatternOf(toks) == Some(p)
    requires Insert(t, d.literals, d.params, toks, r).error == Ok
    ensures var o := Insert(t, d.literals, d.params, toks, r);
            && Distinct(o.literals) && Members(o.literals) == Members(d.literals) + Literals(p.steps)
            && Distinct(o.params) && Members(o.params) == Members(d.params) + Names(p.steps)
    decreases |toks|
  {
    hide Known, Members, Literals, Names, Distinct, Enter;
    if Continues(toks) {
      PatternUnfolds(toks);
      var e := Enter(t, d.literals, d.params, toks[0]);
      EnterAddsText(t, d, toks[0]);
      EnterKnows(t, d, toks[0]);
      InsertAddsTexts(Down(e.tree, p.steps[0]).value, Dictionaries(e.literals, e.params), toks[1..], r, Rest(p));
      assert p.steps[..1] == [p.steps[0]];
      assert p.steps[..|p.steps|] == p.steps && p.steps[1..][..|p.steps| - 1] == Rest(p).steps;
      TablesBelow(Members(d.literals), Members(d.params), p.steps, |p.steps|);
    } else {
      TextsOfNothing(Members(d.literals), Members(d.params));
    }
  }

  lemma OneMorePattern(entries: seq<Entry>, e: Entry)
    ensures PatternsOf(entries + [e]) == PatternsOf(entries) + {e.pattern}
    ensures LiteralTexts(PatternsOf(entries + [e])) == LiteralTexts(PatternsOf(entries)) + Literals(e.pattern.steps)
    ensures ParamNames(PatternsOf(entries + [e])) == ParamNames(PatternsOf(entries)) + Names(e.pattern.steps)
  {
    hide Literals, Names;
    assert (entries + [e])[|entries|] == e;
    forall q | q in PatternsOf(entries) ensures q in PatternsOf(entries + [e]) {
      var x :| x in entries && x.pattern == q;
      assert x in entries + [e];
    }
  }

  /** The tables of an accepted list hold exactly its texts. */
  ghost predicate TablesHold(b: Build, u: set<Pattern>) {
    && Distinct(b.literals) && Members(b.literals) == LiteralTexts(u)
    && Distinct(b.params) && Members(b.params) == ParamNames(u)
    && Known(Dictionaries(b.literals, b.params), b.tree)
  }

  lemma {:induction false} TablesHoldList(syn: Prelexing.Syntax, regs: seq<Registration>)
    requires Accepted(syn, regs)
    ensures AllParse(syn, regs) && TablesHold(AddAll(syn, regs), PatternsOf(Entries(syn, regs)))
    decreases |regs|
  {
    AcceptedTreeHolds(syn, regs);
    BuiltIsKnown(syn, regs);
    if regs != [] {
      hide Known, Members, Literals, Names, Distinct, Insert, LiteralTexts, ParamNames, PatternsOf, Holds, Sound;
      var n := |regs| - 1;
      var b, p := AddAll(syn, regs[..n]), Prelexing.Parse(syn, regs[n].pattern).value;
      LastEntry(syn, regs);
      TablesHoldList(syn, regs[..n]);
      InsertAddsTexts(b.tree, Dictionaries(b.literals, b.params), TokensOf(syn, regs[n]), regs[n].route, p);
      OneMorePattern(Entries(syn, regs[..n]), Entry(p, regs[n].route));
    } else {
      assert Members([]) == {};
    }
  }

  lemma ChildrenFollow(t: Tree, entries: seq<Entry>, p: Path)
    requires Sound(t) && Holds(t, entries)
    ensures forall x ::
              x in NextTexts(PatternsOf(entries), p) <==> SubAt(t, p).Some? && x in KidTexts(SubAt(t, p).value.kids)
  {
    forall x
      ensures x in NextTexts(PatternsOf(entries), p) <==> SubAt(t, p).Some? && x in KidTexts(SubAt(t, p).value.kids)
    {
      FollowsIff(entries, p, x);
      OnTheWayIff(t, entries, p + [Lit(x)]);
      ChildIff(t, p, x);
    }
  }

  lemma FollowsIff(entries: seq<Entry>, p: Path, x: Text)
    ensures x in NextTexts(PatternsOf(entries), p) <==> OnTheWay(entries, p + [Lit(x)])
  {
    if x in NextTexts(PatternsOf(entries), p) {
      var q :| q in PatternsOf(entries) && |p| < |q.steps| && IsPrefix(p, q.steps) && q.steps[|p|] == Lit(x);
      var e :| e in entries && e.pattern == q;
      assert q.steps[..|p| + 1] == p + [Lit(x)];
    }
    if OnTheWay(entries, p + [Lit(x)]) {
      var e :| e in entries && IsPrefix(p + [Lit(x)], e.pattern.steps);
      assert e.pattern in PatternsOf(entries);
      assert e.pattern.steps[|p|] == (p + [Lit(x)])[|p|];
      assert e.pattern.steps[..|p|] == (p + [Lit(x)])[..|p|] == p;
    }
  }

  lemma ChildIff(t: Tree, p: Path, x: Text)
    ensures SubAt(t, p + [Lit(x)]).Some? <==> SubAt(t, p).Some? && x in KidTexts(SubAt(t, p).value.kids)
  {
    if SubAt(t, p + [Lit(x)]).Some? {
      SubAtPrefix(t, p + [Lit(x)], |p|);
      assert (p + [Lit(x)])[..|p|] == p;
    }
    if SubAt(t, p).Some? {
      var n := SubAt(t, p).value;
      SubAtConcat(t, p, [Lit(x)]);
      SubAtOne(n, Lit(x));
      if Find(n.kids, x).Some? {
        assert KidTexts(n.kids)[Find(n.kids, x).value] == x;
      }
    }
  }

  lemma KidTextsAreDistinct(t: Tree, p: Path)
    requires Sound(t) && SubAt(t, p).Some?
    ensures var kids := SubAt(t, p).value.kids;
            Distinct(KidTexts(kids)) && |kids| <= NODE_MAX_CHILD_COUNT
  {
    SubAtBears(t, p);
  }

  lemma TreeIsRoomy(t: Tree, entries: seq<Entry>)
    requires Sound(t) && Holds(t, entries)
    ensures Roomy(PatternsOf(entries))
  {
    hide Sound, Holds, NextTexts;
    forall p ensures |NextTexts(PatternsOf(entries), p)| <= 4095 {
      ChildrenFollow(t, entries, p);
      if SubAt(t, p).Some? {
        KidTextsAreDistinct(t, p);
        SetFits(NextTexts(PatternsOf(entries), p), KidTexts(SubAt(t, p).value.kids));
      } else {
        assert NextTexts(PatternsOf(entries), p) == {};
      }
    }
  }

  /** Where the list with the new pattern leaves room, the new child has room. */
  lemma RoomyNodeIsNotFull(t: Tree, entries: seq<Entry>, e: Entry, k: nat)
    requires Sound(t) && Holds(t, entries) && Roomy(PatternsOf(entries + [e]))
    requires var p := e.pattern.steps; k < |p| && p[k].Lit? && SubAt(t, p[..k + 1]) == None
    ensures !NodeIsFull(t, e.pattern.steps[..k])
  {
    hide Sound, Holds, NextTexts;
    var p, x := e.pattern.steps[..k], e.pattern.steps[k].text;
    assert e.pattern.steps[..k + 1] == p + [Lit(x)];
    if SubAt(t, p).Some? {
      var texts := KidTexts(SubAt(t, p).value.kids) + [x];
      KidTextsAreDistinct(t, p);
      ChildIff(t, p, x);
      forall y | y in texts ensures y in NextTexts(PatternsOf(entries + [e]), p) {
        FollowsIff(entries + [e], p, y);
        if y == x {
          assert (entries + [e])[|entries|] == e && IsPrefix(p + [Lit(x)], e.pattern.steps);
        } else {
          assert y in KidTexts(SubAt(t, p).value.kids);
          ChildrenFollow(t, entries, p);
          FollowsIff(entries, p, y);
          var e' :| e' in entries && IsPrefix(p + [Lit(y)], e'.pattern.steps);
          assert e' in entries + [e];
        }
      }
      DistinctFits(texts, NextTexts(PatternsOf(entries + [e]), p));
    }
  }

  // ---- Which lists are accepted ----

  /** The texts of u, with those of the steps before the k-th, fill the table that the k-th step's text goes to. */
  predicate TableIsFull(u: set<Pattern>, p: Path, k: nat)
    requires k < |p|
  {
    if p[k].Lit? then |LiteralTexts(u) + Literals(p[..k])| >= 65535
    else |ParamNames(u) + Names(p[..k])| >= 65535
  }

  /** The n-th pattern's k-th step goes where none before it goes, and its table is full by then: of the texts of the
    * patterns before it, and of its own steps before. */
  ghost predicate TooLate(entries: seq<Entry>, n: nat, k: nat) {
    && n < |entries| && k < |entries[n].pattern.steps|
    && var p, u := entries[n].pattern.steps, PatternsOf(entries[..n]);
       !OnTheWay(entries[..n], p[..k + 1]) && TableIsFull(u, p, k)
  }

  lemma TooLateIffBlocked(t: Tree, entries: seq<Entry>, e: Entry, k: nat)
    requires Sound(t) && Holds(t, entries)
    ensures TooLate(entries + [e], |entries|, k) ==>
            Blocked(t, LiteralTexts(PatternsOf(entries)), ParamNames(PatternsOf(entries)), e.pattern.steps, k)
    ensures Roomy(PatternsOf(entries + [e])) ==>
            Blocked(t, LiteralTexts(PatternsOf(entries)), ParamNames(PatternsOf(entries)), e.pattern.steps, k) ==>
            TooLate(entries + [e], |entries|, k)
  {
    hide Sound, Holds, LiteralTexts, ParamNames, Literals, Names, PatternsOf, Roomy, OnTheWay, NodeIsFull;
    var all, p := entries + [e], e.pattern.steps;
    assert all[|entries|] == e && all[..|entries|] == entries;
    if k < |p| {
      OnTheWayIff(t, entries, p[..k + 1]);
      if Roomy(PatternsOf(all)) && p[k].Lit? && SubAt(t, p[..k + 1]) == None {
        RoomyNodeIsNotFull(t, entries, e, k);
      }
    }
  }

  lemma TooLateEarlier(entries: seq<Entry>, e: Entry, n: nat, k: nat)
    requires n < |entries|
    ensures TooLate(entries + [e], n, k) <==> TooLate(entries, n, k)
  {
    assert (entries + [e])[..n] == entries[..n] && (entries + [e])[n] == entries[n];
  }

  /** What adding one more pattern to an accepted list comes to. */
  lemma AddedIff(b: Build, syn: Prelexing.Syntax, reg: Registration, entries: seq<Entry>, e: Entry)
    requires !b.corrupted && Sound(b.tree) && Holds(b.tree, entries) && TablesHold(b, PatternsOf(entries))
    requires Prelexing.Parse(syn, reg.pattern) == Some(e.pattern)
    requires Roomy(PatternsOf(entries + [e]))
    ensures Add(b, syn, reg).0 == Ok <==>
            && (forall i | 0 <= i < |entries| :: Compatible(entries[i].pattern, e.pattern))
            && forall k :: !TooLate(entries + [e], |entries|, k)
  {
    hide Sound, Holds, Known, Blocked, TooLate, Insert, Roomy, LiteralTexts, ParamNames, PatternsOf, Distinct, Members;
    var error, toks := Add(b, syn, reg).0, TokensOf(syn, reg);
    if error == Ok || error == OutOfRange {
      RefusedForRangeIff(b.tree, Dictionaries(b.literals, b.params), toks, reg.route, e.pattern);
      forall k
        ensures TooLate(entries + [e], |entries|, k) <==>
                Blocked(b.tree, Members(b.literals), Members(b.params), e.pattern.steps, k)
      {
        TooLateIffBlocked(b.tree, entries, e, k);
      }
    }
    if error != OutOfRange {
      AddAcceptsIffCompatible(b, syn, reg, entries);
    }
  }

  lemma RoomyBefore(entries: seq<Entry>, e: Entry)
    requires Roomy(PatternsOf(entries + [e]))
    ensures Roomy(PatternsOf(entries))
  {
    forall p ensures |NextTexts(PatternsOf(entries), p)| <= 4095 {
      OneMorePattern(entries, e);
      SubsetIsSmaller(NextTexts(PatternsOf(entries), p), NextTexts(PatternsOf(entries + [e]), p));
    }
  }

  /** What a list must be like to be accepted in full. */
  ghost predicate Acceptable(entries: seq<Entry>) {
    && PairwiseCompatible(entries) && Roomy(PatternsOf(entries))
    && forall n, k :: !TooLate(entries, n, k)
  }

  lemma AcceptableExtends(entries: seq<Entry>, e: Entry)
    ensures Acceptable(entries + [e]) <==>
            && Acceptable(entries) && Roomy(PatternsOf(entries + [e]))
            && (forall i | 0 <= i < |entries| :: Compatible(entries[i].pattern, e.pattern))
            && forall k :: !TooLate(entries + [e], |entries|, k)
  {
    hide TooLate, Roomy, PairwiseCompatible, Compatible, PatternsOf;
    PairwiseExtends(entries, e);
    forall n: nat, k: nat | n < |entries| ensures TooLate(entries + [e], n, k) <==> TooLate(entries, n, k) {
      TooLateEarlier(entries, e, n, k);
    }
    forall n: nat, k: nat | n >= |entries| ensures !TooLate(entries, n, k) {
      NoneLate(entries, n, k);
    }
    forall n: nat, k: nat | n > |entries| ensures !TooLate(entries + [e], n, k) {
      NoneLate(entries + [e], n, k);
    }
    if Roomy(PatternsOf(entries + [e])) {
      RoomyBefore(entries, e);
    }
  }

  lemma NoneLate(entries: seq<Entry>, n: nat, k: nat)
    requires n >= |entries|
    ensures !TooLate(entries, n, k)
  {
  }

  /** For every list, in any order and at any limit: it is accepted in full iff its patterns are well-formed, pairwise
    * compatible, leave every node room, and bring no new segment once its table is full. */
  lemma {:induction false} AcceptedIff(syn: Prelexing.Syntax, regs: seq<Registration>)
    ensures Accepted(syn, regs) <==> AllParse(syn, regs) && Acceptable(Entries(syn, regs))
    decreases |regs|
  {
    hide Acceptable, AddAll, Sound, Holds, TablesHold, Roomy, PatternsOf, TooLate, Compatible;
    if Accepted(syn, regs) {
      AcceptedTreeHolds(syn, regs);
    }
    if regs == [] {
      NothingIsAcceptable(syn);
    } else if AllParse(syn, regs) {
      var n := |regs| - 1;
      LastEntry(syn, regs);
      var entries, e := Entries(syn, regs[..n]), Entries(syn, regs)[n];
      AcceptedIff(syn, regs[..n]);
      AcceptableExtends(entries, e);
      AcceptedBefore(syn, regs);
      if Accepted(syn, regs[..n]) {
        AcceptedTreeHolds(syn, regs[..n]);
        TablesHoldList(syn, regs[..n]);
        if Accepted(syn, regs) {
          TreeIsRoomy(AddAll(syn, regs).tree, Entries(syn, regs));
        }
        if Roomy(PatternsOf(entries + [e])) {
          AddedIff(AddAll(syn, regs[..n]), syn, regs[n], entries, e);
        }
      }
    }
  }

  lemma NothingIsAcceptable(syn: Prelexing.Syntax)
    ensures Accepted(syn, []) && Acceptable(Entries(syn, []))
  {
    forall p ensures NextTexts(PatternsOf([]), p) == {} {
    }
  }

  lemma AcceptedBefore(syn: Prelexing.Syntax, regs: seq<Registration>)
    requires regs != []
    ensures var n := |regs| - 1;
            && AddAll(syn, regs) == Add(AddAll(syn, regs[..n]), syn, regs[n]).1
            && (Accepted(syn, regs) <==>
                  Accepted(syn, regs[..n]) && Add(AddAll(syn, regs[..n]), syn, regs[n]).0 == Ok)
  {
  }

  // ---- Below and above the limit ----

  lemma {:induction false} InsertKeepsTables(t: Tree, literals: seq<Text>, params: seq<Text>, toks: seq<Token>,
                                             r: Route)
    requires |literals| <= UINT16_MAX && |params| <= UINT16_MAX
    ensures var o := Insert(t, literals, params, toks, r); |o.literals| <= UINT16_MAX && |o.params| <= UINT16_MAX
    decreases |toks|
  {
    if Continues(toks) {
      var e := Enter(t, literals, params, toks[0]);
      if e.error == Ok {
        InsertKeepsTables(Down(e.tree, Prelexing.StepOf(toks[0])).value, e.literals, e.params, toks[1..], r);
      }
    }
  }

  lemma {:induction false} TablesAlwaysFit(syn: Prelexing.Syntax, regs: seq<Registration>)
    ensures |AddAll(syn, regs).literals| <= UINT16_MAX && |AddAll(syn, regs).params| <= UINT16_MAX
    decreases |regs|
  {
    if regs != [] {
      var b, reg := AddAll(syn, regs[..|regs| - 1]), regs[|regs| - 1];
      TablesAlwaysFit(syn, regs[..|regs| - 1]);
      InsertKeepsTables(b.tree, b.literals, b.params, TokensOf(syn, reg), reg.route);
    }
  }

  /** As many texts as the tables hold, and no more children than a node counts. */
  ghost predicate AtMostFull(u: set<Pattern>) {
    |LiteralTexts(u)| <= 65535 && |ParamNames(u)| <= 65535 && Roomy(u)
  }

  /** A list that is accepted in full keeps to the limits: no more texts than a table holds, no more children than a
    * node counts. */
  lemma AcceptedIsAtMostFull(syn: Prelexing.Syntax, regs: seq<Registration>)
    requires Accepted(syn, regs)
    ensures AllParse(syn, regs)
    ensures AtMostFull(PatternsOf(Entries(syn, regs)))
  {
    hide AddAll, Known, Roomy, LiteralTexts, ParamNames, PatternsOf, Members, Distinct, TooLate;
    AcceptedIff(syn, regs);
    TablesHoldList(syn, regs);
    TablesAlwaysFit(syn, regs);
    MembersCount(AddAll(syn, regs).literals);
    MembersCount(AddAll(syn, regs).params);
  }

  /** Room for every text, in whatever order they come. */
  ghost predicate WithinCapacity(u: set<Pattern>) {
    |LiteralTexts(u)| < 65535 && |ParamNames(u)| < 65535 && Roomy(u)
  }

  lemma NeverTooLate(entries: seq<Entry>, n: nat, k: nat)
    requires WithinCapacity(PatternsOf(entries))
    ensures !TooLate(entries, n, k)
  {
    if n < |entries| && k < |entries[n].pattern.steps| {
      hide Roomy, OnTheWay;
      var p, u := entries[n].pattern.steps, PatternsOf(entries);
      assert entries[n] in entries && entries[n].pattern in u;
      forall x | x in Literals(p[..k]) ensures x in Literals(p) {
        var i :| 0 <= i < k && p[..k][i].Lit? && p[..k][i].text == x;
        assert p[i].Lit? && p[i].text == x;
      }
      forall x | x in Names(p[..k]) ensures x in Names(p) {
        var i :| 0 <= i < k && p[..k][i].Par? && p[..k][i].name == x;
        assert p[i].Par? && p[i].name == x;
      }
      forall q | q in PatternsOf(entries[..n]) ensures q in u {
        var e :| e in entries[..n] && e.pattern == q;
        assert e in entries;
      }
      SubsetIsSmaller(LiteralTexts(PatternsOf(entries[..n])) + Literals(p[..k]), LiteralTexts(u));
      SubsetIsSmaller(ParamNames(PatternsOf(entries[..n])) + Names(p[..k]), ParamNames(u));
    }
  }

  /** Neither table comes out exactly full. */
  predicate NotExactlyFull(u: set<Pattern>) {
    |LiteralTexts(u)| != 65535 && |ParamNames(u)| != 65535
  }

  ghost predicate NoneTooLate(entries: seq<Entry>) {
    forall n, k :: !TooLate(entries, n, k)
  }

  lemma WithinOrFull(u: set<Pattern>)
    ensures WithinCapacity(u) <==> AtMostFull(u) && NotExactlyFull(u)
  {
  }

  /** A list is accepted in full iff its patterns are well-formed, pairwise compatible, and at most fill tables and
    * nodes. Their order counts only when a table comes out exactly full: then nothing must come too late. */
  lemma AcceptedIffCompatible(syn: Prelexing.Syntax, regs: seq<Registration>)
    ensures Accepted(syn, regs) <==>
            && AllParse(syn, regs) && PairwiseCompatible(Entries(syn, regs))
            && AtMostFull(PatternsOf(Entries(syn, regs)))
            && (NotExactlyFull(PatternsOf(Entries(syn, regs))) || NoneTooLate(Entries(syn, regs)))
  {
    hide Accepted, Roomy, PairwiseCompatible, TooLate, LiteralTexts, ParamNames, PatternsOf, NotExactlyFull;
    AcceptedIff(syn, regs);
    if Accepted(syn, regs) {
      AcceptedIsAtMostFull(syn, regs);
    } else if AllParse(syn, regs) {
      var u := PatternsOf(Entries(syn, regs));
      WithinOrFull(u);
      if WithinCapacity(u) {
        forall n, k ensures !TooLate(Entries(syn, regs), n, k) {
          NeverTooLate(Entries(syn, regs), n, k);
        }
      }
    }
  }

  /** Rearranging a list changes what its tree holds in no case, and whether it is accepted only when a table comes out
    * exactly full: then a list that one order gets accepted is accepted in those orders in which nothing comes too
    * late. */
  lemma OrderDoesNotMatter(syn: Prelexing.Syntax, a: seq<Registration>, b: seq<Registration>)
    requires multiset(a) == multiset(b)
    ensures (AllParse(syn, a) ==> NotExactlyFull(PatternsOf(Entries(syn, a)))) ==>
              (Accepted(syn, a) <==> Accepted(syn, b))
    ensures Accepted(syn, a) ==>
              && AllParse(syn, b)
              && (Accepted(syn, b) <==>
                    NotExactlyFull(PatternsOf(Entries(syn, b))) || NoneTooLate(Entries(syn, b)))
    ensures Accepted(syn, a) && Accepted(syn, b) ==>
              forall q :: Lookup(AddAll(syn, a).tree, q) == Lookup(AddAll(syn, b).tree, q)
  {
    hide Accepted, AtMostFull, NotExactlyFull, NoneTooLate, PairwiseCompatible, AddAll, PatternsOf;
    if AllParse(syn, a) {
      PermutationParses(syn, a, b);
      SamePatterns(syn, a, b);
    }
    if AllParse(syn, b) {
      PermutationParses(syn, b, a);
    }
    AcceptedIffCompatible(syn, a);
    AcceptedIffCompatible(syn, b);
    if Accepted(syn, a) && Accepted(syn, b) {
      AcceptedOrdersHoldAlike(syn, a, b);
    }
  }

  lemma SamePatterns(syn: Prelexing.Syntax, a: seq<Registration>, b: seq<Registration>)
    requires multiset(a) == multiset(b) && AllParse(syn, a) && AllParse(syn, b)
    ensures PatternsOf(Entries(syn, a)) == PatternsOf(Entries(syn, b))
    ensures PairwiseCompatible(Entries(syn, a)) <==> PairwiseCompatible(Entries(syn, b))
  {
    EntriesOfPermutation(syn, a, b);
    PermutationKeepsMembers(Entries(syn, a), Entries(syn, b));
    if PairwiseCompatible(Entries(syn, a)) {
      CompatibilityIgnoresOrder(Entries(syn, a), Entries(syn, b));
    } else if PairwiseCompatible(Entries(syn, b)) {
      CompatibilityIgnoresOrder(Entries(syn, b), Entries(syn, a));
    }
  }

  /** Two orders of a list that are both accepted hold the same routes, whatever the capacity. */
  lemma AcceptedOrdersHoldAlike(syn: Prelexing.Syntax, a: seq<Registration>, b: seq<Registration>)
    requires multiset(a) == multiset(b) && Accepted(syn, a) && Accepted(syn, b)
    ensures forall q :: Lookup(AddAll(syn, a).tree, q) == Lookup(AddAll(syn, b).tree, q)
  {
    hide AddAll, Lookup;
    AcceptedTreeHolds(syn, a);
    AcceptedTreeHolds(syn, b);
    EntriesOfPermutation(syn, a, b);
    PermutationKeepsMembers(Entries(syn, a), Entries(syn, b));
    SameEntriesSameLookups(AddAll(syn, a).tree, AddAll(syn, b).tree, Entries(syn, a), Entries(syn, b));
  }
}

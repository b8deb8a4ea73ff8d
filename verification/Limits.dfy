/** Lists that fill a symbol table to the last entry, and what the next pattern then meets. */
module Limits {
  import opened Wrappers
  import opened Bytes
  import opened Permutations
  import opened RouteTree
  import opened SymbolTables
  import opened Acceptance
  import Resolution
  import opened Capacity
  import Regularity
  import HalfMade
  import Prelexing

  // ---- As many words as a table has entries ----

  /** The n-th word of four letters. */
  function Word(n: nat): (x: Text)
    requires n < UINT16_MAX
    ensures IsLegalSegment(x) && Prelexing.IsName(x) && |x| == 4
  {
    var m := n / 26;
    [97 + n % 26, 97 + m % 26, 97 + m / 26 % 26, 97 + m / 26 / 26]
  }

  lemma SameWord(i: nat, j: nat)
    requires i < UINT16_MAX && j < UINT16_MAX && Word(i) == Word(j)
    ensures i == j
  {
    var a, b := i / 26, j / 26;
    assert Word(i)[0] == Word(j)[0] && Word(i)[1] == Word(j)[1];
    assert Word(i)[2] == Word(j)[2] && Word(i)[3] == Word(j)[3];
    assert a / 26 == b / 26;
  }

  function Words(n: nat): seq<Text>
    requires n <= UINT16_MAX
  {
    seq(n, i requires 0 <= i < n => Word(i))
  }

  lemma WordsAreDistinct(n: nat)
    requires n <= UINT16_MAX
    ensures Distinct(Words(n))
  {
    forall i, j | 0 <= i < j < n && Words(n)[i] == Words(n)[j] ensures false {
      SameWord(i, j);
    }
  }

  /** A registration of the text that a pattern renders. */
  function Spelled(p: Pattern, r: Route): Registration
    requires Prelexing.WellFormedPattern(Prelexing.ColonSyntax, p)
  {
    Prelexing.RenderThenLex(Prelexing.ColonSyntax, p);
    Registration(Some(Prelexing.Render(Prelexing.ColonSyntax, p)), r)
  }

  lemma SpelledParse(p: Pattern, q: Pattern, r: Route, s: Route)
    requires Prelexing.WellFormedPattern(Prelexing.ColonSyntax, p)
    requires Prelexing.WellFormedPattern(Prelexing.ColonSyntax, q)
    ensures var regs := [Spelled(p, r), Spelled(q, s)];
            AllParse(Prelexing.ColonSyntax, regs) && Entries(Prelexing.ColonSyntax, regs) == [Entry(p, r), Entry(q, s)]
  {
    hide Prelexing.WellFormedPattern, Prelexing.Parse, Prelexing.Render;
    Prelexing.RenderThenLex(Prelexing.ColonSyntax, p);
    Prelexing.RenderThenLex(Prelexing.ColonSyntax, q);
  }

  function TextAt(p: Pattern, k: nat): Text {
    if k < |p.steps| && p.steps[k].Lit? then p.steps[k].text else []
  }

  lemma TwoAreRoomy(u: set<Pattern>, p: Pattern, q: Pattern)
    requires u <= {p, q}
    ensures forall place :: |NextTexts(u, place)| <= 2
    ensures Roomy(u)
  {
    forall place ensures |NextTexts(u, place)| <= 2 {
      SetFits(NextTexts(u, place), [TextAt(p, |place|), TextAt(q, |place|)]);
    }
  }

  lemma SinglePattern(entries: seq<Entry>)
    requires entries != []
    ensures PatternsOf(entries[..0]) == {} && PatternsOf(entries[..1]) == {entries[0].pattern}
  {
    assert entries[..1][0] == entries[0];
  }

  // ---- A list whose order decides ----

  /** All the words as literals. */
  function Big(): (p: Pattern)
    ensures Prelexing.WellFormedPattern(Prelexing.ColonSyntax, p)
  {
    Pattern(seq(UINT16_MAX, i requires 0 <= i < UINT16_MAX => Lit(Word(i))), AtEnd)
  }

  /** One of them. */
  function Small(): (p: Pattern)
    ensures Prelexing.WellFormedPattern(Prelexing.ColonSyntax, p)
  {
    Pattern([Lit(Word(1))], AtEnd)
  }

  lemma BigFillsTheTable()
    ensures |LiteralTexts({Big()})| >= UINT16_MAX
  {
    WordsAreDistinct(UINT16_MAX);
    forall i | 0 <= i < UINT16_MAX ensures Words(UINT16_MAX)[i] in LiteralTexts({Big()}) {
      assert Big().steps[i] == Lit(Word(i));
      assert Word(i) in Literals(Big().steps);
    }
    DistinctFits(Words(UINT16_MAX), LiteralTexts({Big()}));
  }

  lemma SmallHasOneWord()
    ensures LiteralTexts({Small()}) == {Word(1)}
  {
    assert Small().steps[0] == Lit(Word(1));
    assert Word(1) in Literals(Small().steps);
  }

  lemma BeginningOfBig(k: nat, x: Text) returns (i: nat)
    requires k <= UINT16_MAX && x in Literals(Big().steps[..k])
    ensures i < k && x == Word(i)
  {
    i :| 0 <= i < k && Big().steps[..k][i].Lit? && Big().steps[..k][i].text == x;
  }

  /** Before its last step the big pattern leaves an entry free, also beside the small one. */
  lemma BigIsNotTooLate(k: nat)
    requires k < UINT16_MAX
    ensures !TableIsFull({Small()}, Big().steps, k)
  {
    hide LiteralTexts, Literals;
    var n := if k < 2 then 2 else k;
    var texts := LiteralTexts({Small()}) + Literals(Big().steps[..k]);
    SmallHasOneWord();
    forall x | x in texts ensures x in Words(n) {
      var i := 1;
      if x in Literals(Big().steps[..k]) {
        i := BeginningOfBig(k, x);
      }
      assert Words(n)[i] == x;
    }
    SetFits(texts, Words(n));
  }

  lemma SmallThenBig(r: Route, s: Route)
    ensures Acceptable([Entry(Small(), r), Entry(Big(), s)])
  {
    var entries := [Entry(Small(), r), Entry(Big(), s)];
    SinglePattern(entries);
    TwoAreRoomy(PatternsOf(entries), Small(), Big());
    forall n: nat, k: nat ensures !TooLate(entries, n, k) {
      if n == 1 && k < |Big().steps| {
        BigIsNotTooLate(k);
      }
    }
    assert Word(0)[0] != Word(1)[0];
  }

  lemma BigThenSmall(r: Route, s: Route)
    ensures !Acceptable([Entry(Big(), s), Entry(Small(), r)])
  {
    var entries := [Entry(Big(), s), Entry(Small(), r)];
    SinglePattern(entries);
    BigFillsTheTable();
    assert Word(0)[0] != Word(1)[0];
    assert !Resolution.OnTheWay(entries[..1], Small().steps[..1]) by {
      assert Small().steps[..1][0] == Lit(Word(1)) && Big().steps[..1][0] == Lit(Word(0));
    }
    SubsetIsSmaller(LiteralTexts({Big()}), LiteralTexts({Big()}) + Literals(Small().steps[..0]));
    assert TooLate(entries, 1, 0);
  }

  /** With exactly as many texts as the table has entries, the one order is accepted and the other is not. */
  lemma OrderMatters(r: Route, s: Route)
    ensures var small, big := Spelled(Small(), r), Spelled(Big(), s);
            && multiset([small, big]) == multiset([big, small])
            && Accepted(Prelexing.ColonSyntax, [small, big])
            && AllParse(Prelexing.ColonSyntax, [big, small])
            && !Accepted(Prelexing.ColonSyntax, [big, small])
  {
    hide Acceptable, Accepted;
    SpelledParse(Small(), Big(), r, s);
    SpelledParse(Big(), Small(), s, r);
    AcceptedIff(Prelexing.ColonSyntax, [Spelled(Small(), r), Spelled(Big(), s)]);
    AcceptedIff(Prelexing.ColonSyntax, [Spelled(Big(), s), Spelled(Small(), r)]);
    SmallThenBig(r, s);
    BigThenSmall(r, s);
  }

  // ---- A list that leaves a half-made segment ----

  /** All the words as parameters, behind the literal `a`. */
  function Deep(): (p: Pattern)
    ensures Prelexing.WellFormedPattern(Prelexing.ColonSyntax, p) && |p.steps| == UINT16_MAX + 1
    ensures forall i | 0 <= i < UINT16_MAX :: p.steps[i + 1] == Par(Word(i))
  {
    Pattern([Lit(Ascii("a"))] + seq(UINT16_MAX, i requires 0 <= i < UINT16_MAX => Par(Word(i))), AtEnd)
  }

  /** One parameter more, behind `b`. */
  function OneMore(): (p: Pattern)
    ensures Prelexing.WellFormedPattern(Prelexing.ColonSyntax, p)
  {
    Pattern([Lit(Ascii("b")), Par(Ascii("a"))], AtEnd)
  }

  lemma DeepFillsTheTable()
    ensures |ParamNames({Deep()})| >= UINT16_MAX
    ensures |LiteralTexts({Deep()})| <= 1
  {
    WordsAreDistinct(UINT16_MAX);
    forall i | 0 <= i < UINT16_MAX ensures Words(UINT16_MAX)[i] in ParamNames({Deep()}) {
      assert Deep().steps[i + 1] == Par(Word(i));
      assert Word(i) in Names(Deep().steps);
    }
    DistinctFits(Words(UINT16_MAX), ParamNames({Deep()}));
    SetFits(LiteralTexts({Deep()}), [Ascii("a")]);
  }

  lemma NoTexts()
    ensures LiteralTexts({}) + Literals([]) == {}
  {
  }

  lemma DeepIsNotTooLate(k: nat)
    requires k <= UINT16_MAX
    ensures !TableIsFull({}, Deep().steps, k)
  {
    var p := Deep().steps;
    hide Literals, LiteralTexts;
    if k > 0 {
      var names := ParamNames({}) + Names(p[..k]);
      forall x | x in names ensures x in Words(k - 1) {
        var i :| 0 <= i < k && p[..k][i].Par? && p[..k][i].name == x;
        assert Words(k - 1)[i - 1] == x;
      }
      SetFits(names, Words(k - 1));
    } else {
      NoTexts();
    }
  }

  lemma DeepIsAcceptable(r: Route)
    ensures Acceptable([Entry(Deep(), r)])
  {
    var entries := [Entry(Deep(), r)];
    SinglePattern(entries);
    assert entries[..1] == entries;
    TwoAreRoomy(PatternsOf(entries), Deep(), Deep());
    forall n: nat, k: nat ensures !TooLate(entries, n, k) {
      if n == 0 && k < |Deep().steps| {
        DeepIsNotTooLate(k);
      }
    }
  }

  lemma NothingShared(k: nat)
    requires 0 < k <= 2
    ensures !IsPrefix(OneMore().steps[..k], Deep().steps)
  {
    assert OneMore().steps[..k][0] == Lit(Ascii("b")) && Deep().steps[..k][0] == Lit(Ascii("a"));
    assert Ascii("a")[0] != Ascii("b")[0];
  }

  lemma RoomForItsLiteral(entries: seq<Entry>)
    requires PatternsOf(entries) == {Deep()}
    ensures !HalfMade.NoRoom(entries, OneMore().steps, 0)
  {
    hide LiteralTexts, NextTexts, Roomy;
    assert Literals(OneMore().steps[..0]) == {};
    assert LiteralTexts({Deep()}) + {} == LiteralTexts({Deep()});
    DeepFillsTheTable();
    TwoAreRoomy({Deep()}, Deep(), Deep());
  }

  lemma NoRoomForItsParam(entries: seq<Entry>)
    requires PatternsOf(entries) == {Deep()} && !Resolution.OnTheWay(entries, OneMore().steps[..2])
    ensures HalfMade.NoRoom(entries, OneMore().steps, 1)
  {
    hide ParamNames, Names, Resolution.OnTheWay;
    DeepFillsTheTable();
    SubsetIsSmaller(ParamNames({Deep()}), ParamNames({Deep()}) + Names(OneMore().steps[..1]));
  }

  lemma OneMoreIsRefused(r: Route)
    ensures HalfMade.StepRefused([Entry(Deep(), r)], OneMore().steps, 1)
  {
    hide PatternsOf, IsPrefix, HalfMade.NoRoom;
    var entries := [Entry(Deep(), r)];
    SinglePattern(entries);
    assert entries[..1] == entries;
    NothingShared(1);
    NothingShared(2);
    RoomForItsLiteral(entries);
    NoRoomForItsParam(entries);
  }

  /** The second pattern comes to a parameter that the full table refuses, behind a segment that is its own. */
  lemma HalfMadeSegment(r: Route, s: Route)
    ensures !Regularity.NoHalf(AddAll(Prelexing.ColonSyntax, [Spelled(Deep(), r), Spelled(OneMore(), s)]).tree)
  {
    hide Acceptable, AddAll, HalfMade.StepRefused, Regularity.NoHalf, AllParse, Prelexing.Render;
    var regs := [Spelled(Deep(), r), Spelled(OneMore(), s)];
    SpelledParse(Deep(), OneMore(), r, s);
    assert regs[..1] == [Spelled(Deep(), r)];
    LastEntry(Prelexing.ColonSyntax, regs);
    assert Entries(Prelexing.ColonSyntax, regs[..1]) == [Entry(Deep(), r)];
    DeepIsAcceptable(r);
    OneMoreIsRefused(r);
    Prelexing.PatternSplits(TokensOf(Prelexing.ColonSyntax, regs[1]));
    assert HalfMade.RefusedAt(Prelexing.ColonSyntax, regs, 1);
    HalfMade.HalfMadeIff(Prelexing.ColonSyntax, regs);
  }
}

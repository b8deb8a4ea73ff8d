/** Which texts the pattern lexer accepts, and which pattern each of them is: the syntax, byte by byte. */
module Spellings {
  import opened Wrappers
  import opened Bytes
  import opened Tokens
  import opened RouteTree
  import opened Prelexing

  // ---- The syntax ----

  /** Neither a slash, nor a star, a hash or a question mark, nor a space or a control character. */
  predicate PlainByte(b: Byte) {
    32 < b && b != 127 && b != 47 && b != 42 && b != 35 && b != 63
  }

  predicate Plain(x: Text) {
    x != [] && forall i | 0 <= i < |x| :: PlainByte(x[i])
  }

  predicate LetterByte(b: Byte) { 65 <= b <= 90 || 97 <= b <= 122 }

  predicate NameText(x: Text) {
    x != [] && LetterByte(x[0]) && forall i | 0 <= i < |x| :: LetterByte(x[i]) || 48 <= x[i] <= 57 || x[i] == 95
  }

  /** What opens a parameter: a colon, a brace or an angle. */
  function OpeningByte(syn: Syntax): Byte {
    match syn case ColonSyntax => 58 case BraceSyntax => 123 case AngleSyntax => 60
  }

  function ClosingByte(syn: Syntax): Byte
    requires !syn.ColonSyntax?
  {
    if syn.BraceSyntax? then 125 else 62
  }

  predicate Spellable(syn: Syntax, st: Step) {
    match st
    case Lit(x) => Plain(x) && x[0] != OpeningByte(syn) && |x| <= 4080
    case Par(n) => NameText(n) && |n| <= 4080
  }

  /** How a step is spelled: behind a slash or not, and with or without the closing byte. */
  datatype Way = Way(slash: bool, closed: bool)

  function Front(slash: bool): Text { if slash then [47] else [] }

  function SpellStep(syn: Syntax, st: Step, w: Way): Text
    requires w.closed ==> st.Par? && !syn.ColonSyntax?
  {
    Front(w.slash)
    + match st
      case Lit(x) => x
      case Par(n) => [OpeningByte(syn)] + n + if w.closed then [ClosingByte(syn)] else []
  }

  /** The steps can be spelled these ways: a slash may be missing behind a closed parameter only. */
  predicate Allowed(syn: Syntax, steps: Path, ways: seq<Way>, free: bool)
    decreases |steps|
  {
    && |ways| == |steps|
    && (steps != [] ==>
          && Spellable(syn, steps[0])
          && (ways[0].closed ==> steps[0].Par? && !syn.ColonSyntax?)
          && (ways[0].slash || free)
          && Allowed(syn, steps[1..], ways[1..], ways[0].closed))
  }

  function SpellSteps(syn: Syntax, steps: Path, ways: seq<Way>, free: bool): Text
    requires Allowed(syn, steps, ways, free)
    decreases |steps|
  {
    if steps == [] then []
    else SpellStep(syn, steps[0], ways[0]) + SpellSteps(syn, steps[1..], ways[1..], ways[0].closed)
  }

  /** The last way leaves a closed parameter in front of what follows; with no steps, nothing is changed. */
  function FreeAfter(ways: seq<Way>, free: bool): bool {
    if ways == [] then free else ways[|ways| - 1].closed
  }

  /** A text begins with these steps, spelled these ways, and goes on with `back`: with a slash, unless it is at its
    * end or behind a closed parameter. */
  predicate Begins(syn: Syntax, s: Text, free: bool, steps: Path, ways: seq<Way>, back: Text) {
    && Allowed(syn, steps, ways, free) && s == SpellSteps(syn, steps, ways, free) + back
    && (back == [] || back[0] == 47 || FreeAfter(ways, free))
  }

  // ---- The lexer's classes ----

  lemma ClassesAgree(b: Byte)
    ensures PlainByte(b) <==> b != SLASH && !IsIllegal(b)
    ensures LetterByte(b) <==> IsAlpha(b)
    ensures (LetterByte(b) || 48 <= b <= 57 || b == 95) <==> IsNameByte(b)
    ensures IsNameByte(b) ==> PlainByte(b)
  {
  }

  lemma SpellableIff(syn: Syntax, st: Step)
    ensures Spellable(syn, st) <==> WellFormedStep(syn, st)
  {
    if st.Lit? {
      forall i | 0 <= i < |st.text| ensures PlainByte(st.text[i]) <==> st.text[i] != SLASH && !IsIllegal(st.text[i]) {
        ClassesAgree(st.text[i]);
      }
    } else {
      forall i | 0 <= i < |st.name|
        ensures (LetterByte(st.name[i]) || 48 <= st.name[i] <= 57 || st.name[i] == 95) <==> IsNameByte(st.name[i])
      {
        ClassesAgree(st.name[i]);
      }
    }
  }

  // ---- What is spelled is read ----

  /** The text from c on begins with x, and y follows it. */
  lemma SuffixAt(s: Text, c: nat, x: Text, y: Text)
    requires c <= |s| && s[c..] == x + y
    ensures c + |x| <= |s| && s[c..c + |x|] == x && s[c + |x|..] == y
    ensures forall i | 0 <= i < |x| :: s[c + i] == x[i]
    ensures y != [] ==> c + |x| < |s| && s[c + |x|] == y[0]
    ensures y == [] ==> c + |x| == |s|
  {
    assert forall i | 0 <= i < |x| :: s[c + i] == s[c..][i];
    assert y != [] ==> s[c..][|x|] == y[0];
    assert s[c..c + |x|] == s[c..][..|x|] && s[c + |x|..] == s[c..][|x|..];
  }

  lemma ReadsLiteralFrom(syn: Syntax, s: CString, d: nat, x: Text, back: Text)
    requires Spellable(syn, Lit(x)) && (back == [] || back[0] == 47) && d <= |s| && s[d..] == x + back
    ensures d < |s| && s[d] != SLASH && s[d] != STAR && !Opens(syn, s[d])
    ensures StepLiteral(s, d) == (Literal(d, x), d + |x|)
  {
    SpellableIff(syn, Lit(x));
    SuffixAt(s, d, x, back);
    LiteralStopIsFirst(s, d, d + |x|);
  }

  /** Behind the slash, if there is one, the lexer goes on with what starts there. */
  lemma NextSkipsSlash(syn: Syntax, s: CString, c: nat, slash: bool, rest: Text)
    requires c <= |s| && s[c..] == Front(slash) + rest && rest != [] && rest[0] != SLASH
    ensures var d := c + |Front(slash)|;
            && d < |s| && s[d..] == rest && s[d] == rest[0]
            && Next(syn, s, c) ==
               if Opens(syn, s[d]) then StepParam(syn, s, d + 1)
               else if s[d] == STAR then (if d + 1 == |s| || s[d + 1] == SLASH then Wildcard else Illegal, d + 1)
               else StepLiteral(s, d)
  {
    hide StepParam, StepLiteral;
    SuffixAt(s, c, Front(slash), rest);
  }

  lemma ReadsLiteral(syn: Syntax, s: CString, c: nat, x: Text, w: Way, back: Text)
    requires Spellable(syn, Lit(x)) && !w.closed && (back == [] || back[0] == 47)
    requires c <= |s| && s[c..] == SpellStep(syn, Lit(x), w) + back
    ensures var (tok, next) := Next(syn, s, c); tok.Literal? && tok.text == x && next == c + |SpellStep(syn, Lit(x), w)|
  {
    hide Next;
    assert SpellStep(syn, Lit(x), w) + back == Front(w.slash) + (x + back);
    SpellableIff(syn, Lit(x));
    NextSkipsSlash(syn, s, c, w.slash, x + back);
    ReadsLiteralFrom(syn, s, c + |Front(w.slash)|, x, back);
  }

  lemma ReadsParamFrom(syn: Syntax, s: CString, e: nat, n: Text, closed: bool, back: Text)
    requires Spellable(syn, Par(n)) && (closed ==> !syn.ColonSyntax?) && (closed || back == [] || back[0] == 47)
    requires e <= |s| && s[e..] == n + ((if closed then [ClosingByte(syn)] else []) + back)
    ensures StepParam(syn, s, e) == (Param(e, n), e + |n| + if closed then 1 else 0)
  {
    SpellableIff(syn, Par(n));
    var tail := (if closed then [ClosingByte(syn)] else []) + back;
    SuffixAt(s, e, n, tail);
    NameStopIsFirst(s, e, e + |n|);
  }

  lemma SuffixOfSuffix(s: Text, d: nat, b: Byte, rest: Text)
    requires d <= |s| && s[d..] == [b] + rest
    ensures d < |s| && s[d] == b && s[d + 1..] == rest
  {
    SuffixAt(s, d, [b], rest);
  }

  lemma ParamRegroups(syn: Syntax, n: Text, w: Way, back: Text)
    requires w.closed ==> !syn.ColonSyntax?
    ensures SpellStep(syn, Par(n), w) + back ==
            Front(w.slash) + ([OpeningByte(syn)] + (n + ((if w.closed then [ClosingByte(syn)] else []) + back)))
    ensures |SpellStep(syn, Par(n), w)| == |Front(w.slash)| + 1 + |n| + if w.closed then 1 else 0
  {
    hide OpeningByte, ClosingByte, Front;
  }

  lemma OpeningByteOpens(syn: Syntax)
    ensures Opens(syn, OpeningByte(syn)) && OpeningByte(syn) != SLASH
  {
  }

  lemma ReadsParam(syn: Syntax, s: CString, c: nat, n: Text, w: Way, back: Text)
    requires Spellable(syn, Par(n)) && (w.closed ==> !syn.ColonSyntax?) && (w.closed || back == [] || back[0] == 47)
    requires c <= |s| && s[c..] == SpellStep(syn, Par(n), w) + back
    ensures var (tok, next) := Next(syn, s, c); tok.Param? && tok.text == n && next == c + |SpellStep(syn, Par(n), w)|
  {
    hide Next, Spellable, StepParam, StepLiteral, SpellStep, ClosingByte, OpeningByte, Opens, Front;
    var tail := n + ((if w.closed then [ClosingByte(syn)] else []) + back);
    ParamRegroups(syn, n, w, back);
    OpeningByteOpens(syn);
    NextSkipsSlash(syn, s, c, w.slash, [OpeningByte(syn)] + tail);
    SuffixOfSuffix(s, c + |Front(w.slash)|, OpeningByte(syn), tail);
    ReadsParamFrom(syn, s, c + |Front(w.slash)| + 1, n, w.closed, back);
  }

  lemma ReadsStep(syn: Syntax, s: CString, c: nat, st: Step, w: Way, back: Text)
    requires Spellable(syn, st) && (w.closed ==> st.Par? && !syn.ColonSyntax?)
    requires w.closed || back == [] || back[0] == 47
    requires c <= |s| && s[c..] == SpellStep(syn, st, w) + back
    ensures var (tok, next) := Next(syn, s, c);
            (tok.Literal? || tok.Param?) && StepOf(tok) == st && next == c + |SpellStep(syn, st, w)|
  {
    match st
    case Lit(x) => ReadsLiteral(syn, s, c, x, w, back);
    case Par(n) => ReadsParam(syn, s, c, n, w, back);
  }

  lemma FreeAfterFirst(ways: seq<Way>, free: bool)
    requires ways != []
    ensures FreeAfter(ways, free) == FreeAfter(ways[1..], ways[0].closed)
  {
  }

  lemma BeginsWithFirst(syn: Syntax, u: Text, free: bool, steps: Path, ways: seq<Way>, back: Text)
    requires steps != [] && Begins(syn, u, free, steps, ways, back)
    ensures var r := SpellStep(syn, steps[0], ways[0]);
            var v := SpellSteps(syn, steps[1..], ways[1..], ways[0].closed) + back;
            && u == r + v && Begins(syn, v, ways[0].closed, steps[1..], ways[1..], back)
            && (v == [] || v[0] == 47 || ways[0].closed)
  {
    hide Spellable, SpellStep;
    FreeAfterFirst(ways, free);
    var v := SpellSteps(syn, steps[1..], ways[1..], ways[0].closed) + back;
    if steps[1..] != [] && !ways[0].closed {
      StepStarts(syn, steps[1], ways[1]);
    }
  }

  lemma FirstIsAllowed(syn: Syntax, u: Text, free: bool, steps: Path, ways: seq<Way>, back: Text)
    requires steps != [] && Begins(syn, u, free, steps, ways, back)
    ensures |ways| == |steps| && Spellable(syn, steps[0]) && (ways[0].closed ==> steps[0].Par? && !syn.ColonSyntax?)
    ensures Allowed(syn, steps[1..], ways[1..], ways[0].closed)
  {
  }

  lemma StepStarts(syn: Syntax, st: Step, w: Way)
    requires (w.closed ==> st.Par? && !syn.ColonSyntax?) && w.slash
    ensures SpellStep(syn, st, w) != [] && SpellStep(syn, st, w)[0] == 47
  {
  }

  /** Reading one token is reading one step. */
  lemma RunTakesStep(syn: Syntax, s: CString, c: nat)
    requires c <= |s|
    requires var tok := Next(syn, s, c).0; tok.Literal? || tok.Param?
    ensures var (tok, next) := Next(syn, s, c);
            var toks, rest := Run(syn, s, c), Run(syn, s, next);
            && StepsOf(toks) == [StepOf(tok)] + StepsOf(rest) && EndingOf(toks) == EndingOf(rest)
            && (PatternOf(toks).Some? <==> PatternOf(rest).Some?)
  {
    assert Run(syn, s, c)[1..] == Run(syn, s, Next(syn, s, c).1);
  }

  lemma NoStepsBegin(syn: Syntax, u: Text, free: bool, ways: seq<Way>, back: Text)
    requires Begins(syn, u, free, [], ways, back)
    ensures u == back
  {
  }

  /** What is spelled is read as it is, and then what follows it. */
  lemma {:induction false} ReadsSteps(syn: Syntax, s: CString, c: nat, free: bool, steps: Path, ways: seq<Way>,
                                      back: Text)
    returns (end: nat)
    requires c <= |s| && Begins(syn, s[c..], free, steps, ways, back)
    ensures c <= end <= |s| && s[end..] == back && (steps != [] ==> c < end)
    ensures StepsOf(Run(syn, s, c)) == steps + StepsOf(Run(syn, s, end))
    ensures EndingOf(Run(syn, s, c)) == EndingOf(Run(syn, s, end))
    ensures PatternOf(Run(syn, s, c)).Some? <==> PatternOf(Run(syn, s, end)).Some?
    decreases |steps|
  {
    hide Next, Run, SpellStep, Spellable, Begins, StepsOf, EndingOf, PatternOf;
    if steps == [] {
      end := c;
      NoStepsBegin(syn, s[c..], free, ways, back);
    } else {
      FirstIsAllowed(syn, s[c..], free, steps, ways, back);
      BeginsWithFirst(syn, s[c..], free, steps, ways, back);
      var v := SpellSteps(syn, steps[1..], ways[1..], ways[0].closed) + back;
      ReadsStep(syn, s, c, steps[0], ways[0], v);
      SuffixAt(s, c, SpellStep(syn, steps[0], ways[0]), v);
      var next := Next(syn, s, c).1;
      end := ReadsSteps(syn, s, next, ways[0].closed, steps[1..], ways[1..], back);
      RunTakesStep(syn, s, c);
      assert steps == [steps[0]] + steps[1..];
    }
  }

  // ---- What is read is spelled ----

  lemma SliceSplits(s: Text, c: nat, d: nat, e: nat)
    requires c <= d <= e <= |s|
    ensures s[c..e] == s[c..d] + s[d..e] && s[c..] == s[c..d] + s[d..]
  {
  }

  lemma LiteralWasSpelled(syn: Syntax, s: CString, c: nat)
    requires c <= |s| && Next(syn, s, c).0.Literal?
    ensures var (tok, next) := Next(syn, s, c); var w := Way(s[c] == 47, false);
            && c < next <= |s| && s[c..next] == SpellStep(syn, StepOf(tok), w) && (next == |s| || s[next] == 47)
  {
    var d := if s[c] == 47 then c + 1 else c;
    var next := Next(syn, s, c).1;
    SliceSplits(s, c, d, next);
    assert s[c..d] == Front(s[c] == 47);
  }

  /** A parameter token comes from an opening byte, behind a slash or not. */
  lemma ParamWasOpened(syn: Syntax, s: CString, c: nat)
    requires c <= |s| && Next(syn, s, c).0.Param?
    ensures c < |s|
    ensures var d := c + |Front(s[c] == 47)|;
            && d < |s| && s[c..d] == Front(s[c] == 47) && s[d] == OpeningByte(syn)
            && Next(syn, s, c) == StepParam(syn, s, d + 1)
  {
    hide StepParam, StepLiteral;
    var d := c + |Front(s[c] == 47)|;
    assert c < d ==> s[c..d] == [s[c]];
  }

  lemma NameWasSpelled(syn: Syntax, s: CString, e: nat) returns (closed: bool)
    requires e <= |s| && StepParam(syn, s, e).0.Param?
    ensures closed ==> !syn.ColonSyntax?
    ensures var (tok, next) := StepParam(syn, s, e);
            && e < next <= |s| && (next == |s| || s[next] == 47 || closed)
            && s[e..next] == tok.text + if closed then [ClosingByte(syn)] else []
  {
    var j, next := NameStop(s, e), StepParam(syn, s, e).1;
    closed := next == j + 1;
    SliceSplits(s, e, j, next);
    assert closed ==> s[j..next] == [s[j]];
  }

  lemma SlicesSpell(syn: Syntax, s: Text, c: nat, d: nat, next: nat, n: Text, w: Way)
    requires w.closed ==> !syn.ColonSyntax?
    requires c <= d < next <= |s| && s[c..d] == Front(w.slash) && s[d] == OpeningByte(syn)
    requires s[d + 1..next] == n + if w.closed then [ClosingByte(syn)] else []
    ensures s[c..next] == SpellStep(syn, Par(n), w)
  {
    hide OpeningByte, ClosingByte, Front;
    SliceSplits(s, c, d, next);
    SliceSplits(s, d, d + 1, next);
    assert s[d..d + 1] == [OpeningByte(syn)];
  }

  lemma ParamWasSpelled(syn: Syntax, s: CString, c: nat) returns (w: Way)
    requires c <= |s| && Next(syn, s, c).0.Param?
    ensures c < |s| && w.slash == (s[c] == 47) && (w.closed ==> !syn.ColonSyntax?)
    ensures var (tok, next) := Next(syn, s, c);
            && c < next <= |s| && s[c..next] == SpellStep(syn, StepOf(tok), w)
            && (next == |s| || s[next] == 47 || w.closed)
  {
    hide Next, StepParam, OpeningByte, ClosingByte, SpellStep;
    ParamWasOpened(syn, s, c);
    var d := c + |Front(s[c] == 47)|;
    var closed := NameWasSpelled(syn, s, d + 1);
    w := Way(s[c] == 47, closed);
    SlicesSpell(syn, s, c, d, Next(syn, s, c).1, Next(syn, s, c).0.text, w);
  }

  lemma BeginsOneMore(syn: Syntax, u: Text, v: Text, free: bool, st: Step, w: Way, steps: Path, ways: seq<Way>,
                      back: Text)
    requires Spellable(syn, st) && (w.closed ==> st.Par? && !syn.ColonSyntax?) && (w.slash || free)
    requires u == SpellStep(syn, st, w) + v && Begins(syn, v, w.closed, steps, ways, back)
    ensures Begins(syn, u, free, [st] + steps, [w] + ways, back)
  {
    hide Spellable, SpellStep;
    assert ([st] + steps)[1..] == steps && ([w] + ways)[1..] == ways;
    FreeAfterFirst([w] + ways, free);
  }

  /** Every run reads steps that are spelled, up to a place where no further step can be read. */
  lemma {:induction false} RunWasSpelled(syn: Syntax, s: CString, c: nat, free: bool)
    returns (ways: seq<Way>, end: nat)
    requires c <= |s| && (c == |s| || s[c] == 47 || free)
    ensures c <= end <= |s| && Begins(syn, s[c..], free, StepsOf(Run(syn, s, c)), ways, s[end..])
    ensures StepsOf(Run(syn, s, end)) == [] && EndingOf(Run(syn, s, c)) == EndingOf(Run(syn, s, end))
    ensures PatternOf(Run(syn, s, c)).Some? <==> PatternOf(Run(syn, s, end)).Some?
    ensures c < end <==> StepsOf(Run(syn, s, c)) != []
    decreases |s| - c
  {
    hide Begins, SpellStep, Spellable;
    var (tok, next) := Next(syn, s, c);
    if tok.Literal? || tok.Param? {
      var w := Way(s[c] == 47, false);
      if tok.Literal? {
        LiteralWasSpelled(syn, s, c);
      } else {
        w := ParamWasSpelled(syn, s, c);
      }
      var ws, e := RunWasSpelled(syn, s, next, w.closed);
      ways, end := [w] + ws, e;
      RunTakesStep(syn, s, c);
      SpellableIff(syn, StepOf(tok));
      SliceSplits(s, c, next, |s|);
      BeginsOneMore(syn, s[c..], s[next..], free, StepOf(tok), w, StepsOf(Run(syn, s, next)), ws, s[end..]);
    } else {
      ways, end := [], c;
      NothingBegins(syn, s[c..], free);
    }
  }

  lemma NothingBegins(syn: Syntax, u: Text, free: bool)
    requires u == [] || u[0] == 47 || free
    ensures Begins(syn, u, free, [], [], u)
  {
  }

  // ---- Endings ----

  /** What is left of a text that ends in this way. */
  predicate Ends(f: Final, back: Text) {
    match f
    case AtEnd => back == []
    case AtTrailing => back == [47]
    case AtWildcard => back == [47, 42] || back == [42]
  }

  /** A star with a slash behind it. */
  predicate StarNotLast(back: Text) {
    (|back| > 1 && back[0] == 42 && back[1] == 47) || (|back| > 2 && back[0] == 47 && back[1] == 42 && back[2] == 47)
  }

  lemma EndingReads(syn: Syntax, s: CString, c: nat)
    requires c <= |s| && s != [] && s[0] == 47
    ensures var toks, back := Run(syn, s, c), s[c..];
            && (StepsOf(toks) == [] && EndingOf(toks) == Some(AtEnd) <==> back == [] || (c == 0 && back == [47]))
            && (StepsOf(toks) == [] && EndingOf(toks) == Some(AtTrailing) <==> c > 0 && back == [47])
            && (StepsOf(toks) == [] && EndingOf(toks) == Some(AtWildcard) && PatternOf(toks).Some? <==>
                  Ends(AtWildcard, back))
            && (StepsOf(toks) == [] && EndingOf(toks) == Some(AtWildcard) && PatternOf(toks) == None <==>
                  StarNotLast(back))
  {
    hide StepParam, StepLiteral, IsNameByte, IsIllegal, NameStop, LiteralStop, WellFormedStep;
    assert forall i | c <= i < |s| :: s[c..][i - c] == s[i];
  }

  // ---- The laws ----

  /** A text spells a pattern: the root, or steps in any allowed ways with the pattern's ending behind them. */
  ghost predicate Spells(syn: Syntax, s: Text, p: Pattern) {
    if p == Pattern([], AtEnd) then s == [47]
    else
      && (p.steps == [] ==> p.final.AtWildcard?)
      && exists ways, back :: Begins(syn, s, false, p.steps, ways, back) && Ends(p.final, back)
  }

  lemma BeginsWithSlash(syn: Syntax, s: Text, steps: Path, ways: seq<Way>, back: Text)
    requires Begins(syn, s, false, steps, ways, back) && s != []
    ensures s[0] == 47
  {
    if steps != [] {
      StepStarts(syn, steps[0], ways[0]);
    }
  }

  lemma SpelledIsParsed(syn: Syntax, s: CString, p: Pattern)
    requires Spells(syn, s, p)
    ensures Parse(syn, Some(s)) == Some(p)
  {
    hide Run, Begins, PatternOf, StepsOf, EndingOf;
    if p == Pattern([], AtEnd) {
      EndingReads(syn, s, 0);
      assert s[0..] == s;
    } else {
      var ways, back :| Begins(syn, s, false, p.steps, ways, back) && Ends(p.final, back);
      SpelledIsNotEmpty(syn, s, p, ways, back);
      BeginsWithSlash(syn, s, p.steps, ways, back);
      assert s[0..] == s;
      var end := ReadsSteps(syn, s, 0, false, p.steps, ways, back);
      EndingReads(syn, s, end);
      PatternSplits(Run(syn, s, end));
      assert p.steps + [] == p.steps;
    }
    PatternSplits(Run(syn, s, 0));
    assert Loaded(Some(s)) == s;
  }

  lemma SpelledIsNotEmpty(syn: Syntax, s: Text, p: Pattern, ways: seq<Way>, back: Text)
    requires Begins(syn, s, false, p.steps, ways, back) && Ends(p.final, back)
    requires p.steps == [] ==> p.final.AtWildcard?
    ensures s != []
  {
    if p.steps != [] {
      StepStarts(syn, p.steps[0], ways[0]);
    }
  }

  lemma ParsedIsSpelled(syn: Syntax, s: CString, p: Pattern)
    requires Parse(syn, Some(s)) == Some(p)
    ensures Spells(syn, s, p)
  {
    hide Run, Begins, PatternOf, StepsOf, EndingOf;
    RefusedRunsAlike(syn, syn);
    NothingParses();
    var ways, end := RunWasSpelled(syn, s, 0, false);
    assert s[0..] == s;
    PatternSplits(Run(syn, s, 0));
    PatternSplits(Run(syn, s, end));
    EndingReads(syn, s, end);
  }

  lemma NothingParses()
    ensures PatternOf([Illegal]) == None
  {
  }

  /** Exactly the texts that spell a pattern are accepted, each as the pattern that it spells. */
  lemma ParseIff(syn: Syntax, s: CString, p: Pattern)
    ensures Parse(syn, Some(s)) == Some(p) <==> Spells(syn, s, p)
  {
    hide Parse, Spells;
    if Spells(syn, s, p) {
      SpelledIsParsed(syn, s, p);
    }
    if Parse(syn, Some(s)) == Some(p) {
      ParsedIsSpelled(syn, s, p);
    }
  }

  // ---- Texts that are not accepted ----

  lemma {:induction false} BeginsShorter(syn: Syntax, u: Text, free: bool, steps: Path, ways: seq<Way>, back: Text,
                                         k: nat)
    returns (back': Text)
    requires Begins(syn, u, free, steps, ways, back) && k <= |steps|
    ensures |ways| == |steps| && Begins(syn, u, free, steps[..k], ways[..k], back')
    decreases k
  {
    hide Begins, Spellable, SpellStep, SpellSteps, Allowed, FreeAfter;
    AsManyWays(syn, u, free, steps, ways, back);
    StartsRight(syn, u, free, steps, ways, back);
    if k == 0 {
      back' := u;
      NothingBegins(syn, u, free);
      assert steps[..0] == [] && ways[..0] == [];
    } else {
      FirstIsAllowed(syn, u, free, steps, ways, back);
      BeginsWithFirst(syn, u, free, steps, ways, back);
      var v := SpellSteps(syn, steps[1..], ways[1..], ways[0].closed) + back;
      back' := BeginsShorter(syn, v, ways[0].closed, steps[1..], ways[1..], back, k - 1);
      BeginsOneMore(syn, u, v, free, steps[0], ways[0], steps[1..][..k - 1], ways[1..][..k - 1], back');
      assert [steps[0]] + steps[1..][..k - 1] == steps[..k] && [ways[0]] + ways[1..][..k - 1] == ways[..k];
    }
  }

  lemma AsManyWays(syn: Syntax, u: Text, free: bool, steps: Path, ways: seq<Way>, back: Text)
    requires Begins(syn, u, free, steps, ways, back)
    ensures |ways| == |steps|
  {
  }

  lemma StartsRight(syn: Syntax, u: Text, free: bool, steps: Path, ways: seq<Way>, back: Text)
    requires Begins(syn, u, free, steps, ways, back)
    ensures u == [] || u[0] == 47 || free
    ensures steps != [] ==> ways != [] && (ways[0].slash || free)
  {
    hide Spellable, SpellStep;
    if steps != [] && !free {
      StepStarts(syn, steps[0], ways[0]);
    }
  }

  /** The steps that are read of a text, accepted or not, are the most that it begins with. */
  lemma StepsIff(syn: Syntax, s: CString, steps: Path)
    requires s != [] && s[0] == 47
    ensures StepsOf(Run(syn, s, 0)) == steps <==>
            && (exists ways, back :: Begins(syn, s, false, steps, ways, back))
            && forall st, ways, back :: !Begins(syn, s, false, steps + [st], ways, back)
  {
    hide Run, Begins, StepsOf, EndingOf, PatternOf;
    var read := StepsOf(Run(syn, s, 0));
    assert s[0..] == s;
    var readWays, end := RunWasSpelled(syn, s, 0, false);
    if read == steps {
      forall st, ways, back ensures !Begins(syn, s, false, steps + [st], ways, back) {
        if Begins(syn, s, false, steps + [st], ways, back) {
          var e := ReadsSteps(syn, s, 0, false, steps + [st], ways, back);
        }
      }
    } else if ways, back :| Begins(syn, s, false, steps, ways, back) {
      var e := ReadsSteps(syn, s, 0, false, steps, ways, back);
      var k := |steps| + 1;
      assert read[..k] == steps + [read[|steps|]];
      var back' := BeginsShorter(syn, s, false, read, readWays, s[end..], k);
    }
  }

  /** A wildcard that is not final is a star, where a step could be, with a slash behind it. */
  lemma NotFinalIff(syn: Syntax, s: CString)
    ensures EndingOf(Run(syn, Loaded(Some(s)), 0)) == Some(AtWildcard) && Parse(syn, Some(s)) == None <==>
            exists steps, ways, back :: Begins(syn, s, false, steps, ways, back) && StarNotLast(back)
  {
    hide Run, Begins, StepsOf, EndingOf, PatternOf;
    if s != [] && s[0] == 47 {
      assert s[0..] == s;
      var ways, end := RunWasSpelled(syn, s, 0, false);
      EndingReads(syn, s, end);
      if steps, ways, back :| Begins(syn, s, false, steps, ways, back) && StarNotLast(back) {
        var e := ReadsSteps(syn, s, 0, false, steps, ways, back);
        EndingReads(syn, s, e);
      }
    } else {
      RefusedRunsAlike(syn, syn);
      NoEnding();
      if steps, ways, back :| Begins(syn, s, false, steps, ways, back) && StarNotLast(back) {
        NotEmpty(syn, s, steps, ways, back);
        BeginsWithSlash(syn, s, steps, ways, back);
      }
    }
  }

  lemma NoEnding()
    ensures EndingOf([Illegal]) == None
  {
  }

  lemma NotEmpty(syn: Syntax, s: Text, steps: Path, ways: seq<Way>, back: Text)
    requires Begins(syn, s, false, steps, ways, back) && back != []
    ensures s != []
  {
  }
}

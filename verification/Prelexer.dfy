/** The pattern lexer, in its three parameter syntaxes. */
module Prelexing {
  import opened Wrappers
  import opened Bytes
  import opened Tokens
  import opened RouteTree

  datatype Syntax = ColonSyntax | BraceSyntax | AngleSyntax

  predicate Opens(syn: Syntax, b: Byte) {
    (b == COLON && syn.ColonSyntax?) || (b == LEFT_ANGLE && syn.AngleSyntax?) || (b == LEFT_BRACE && syn.BraceSyntax?)
  }

  predicate Closes(syn: Syntax, b: Byte) {
    (b == RIGHT_ANGLE && syn.AngleSyntax?) || (b == RIGHT_BRACE && syn.BraceSyntax?)
  }

  predicate IsNameByte(b: Byte) { IsAlnum(b) || b == UNDERSCORE }

  predicate IsName(n: Text) {
    n != [] && IsAlpha(n[0]) && forall i | 0 <= i < |n| :: IsNameByte(n[i])
  }

  function Loaded(pattern: Option<CString>): CString {
    if pattern.Some? && pattern.value != [] && pattern.value[0] == SLASH then pattern.value else []
  }

  /** First index at or after i whose byte ends a parameter name, rightly or wrongly. */
  function NameStop(s: Text, i: nat): (j: nat)
    requires i <= |s|
    ensures i <= j <= |s| && (j < |s| ==> !IsNameByte(s[j]))
    ensures forall k | i <= k < j :: IsNameByte(s[k])
    decreases |s| - i
  {
    if i == |s| || !IsNameByte(s[i]) then i else NameStop(s, i + 1)
  }

  /** First index at or after i whose byte ends a literal, rightly or wrongly. */
  function LiteralStop(s: Text, i: nat): (j: nat)
    requires i <= |s|
    ensures i <= j <= |s| && (j < |s| ==> s[j] == SLASH || IsIllegal(s[j]))
    ensures forall k | i <= k < j :: s[k] != SLASH && !IsIllegal(s[k])
    decreases |s| - i
  {
    if i == |s| || s[i] == SLASH || IsIllegal(s[i]) then i else LiteralStop(s, i + 1)
  }

  lemma {:induction false} NameStopIsFirst(s: Text, i: nat, j: nat)
    requires i <= j <= |s| && (j < |s| ==> !IsNameByte(s[j]))
    requires forall k | i <= k < j :: IsNameByte(s[k])
    ensures NameStop(s, i) == j
    decreases j - i
  {
  }

  lemma {:induction false} LiteralStopIsFirst(s: Text, i: nat, j: nat)
    requires i <= j <= |s| && (j < |s| ==> s[j] == SLASH || IsIllegal(s[j]))
    requires forall k | i <= k < j :: s[k] != SLASH && !IsIllegal(s[k])
    ensures LiteralStop(s, i) == j
    decreases j - i
  {
  }

  /** A parameter whose name starts at e. */
  function StepParam(syn: Syntax, s: CString, e: nat): (r: (Token, nat))
    requires e <= |s|
    ensures r.1 <= |s| && (r.0.Param? || r.0.Illegal?)
    ensures r.0.Param? ==> e < r.1 && IsName(r.0.text) && |r.0.text| <= LEXER_CHAR_LIMIT
  {
    if !IsAlpha(At(s, e)) then (Illegal, e)
    else
      var j := NameStop(s, e);
      if j < |s| && s[j] != SLASH && !Closes(syn, s[j]) then (Illegal, j)
      else if j - e > LEXER_CHAR_LIMIT then (Illegal, j)
      else (Param(e, s[e..j]), if j < |s| && Closes(syn, s[j]) then j + 1 else j)
  }

  /** A literal that starts at d. */
  function StepLiteral(s: CString, d: nat): (r: (Token, nat))
    requires d < |s| && s[d] != SLASH
    ensures r.1 <= |s| && (r.0.Literal? || r.0.Illegal?)
    ensures r.0.Literal? ==>
              d < r.1 && IsLegalSegment(r.0.text) && 0 < |r.0.text| <= LEXER_CHAR_LIMIT && r.0.text[0] == s[d]
  {
    var j := LiteralStop(s, d);
    if j < |s| && s[j] != SLASH then (Illegal, j)
    else if j - d > LEXER_CHAR_LIMIT then (Illegal, j)
    else (Literal(d, s[d..j]), j)
  }

  predicate WellFormedStep(syn: Syntax, st: Step) {
    match st
    case Lit(x) => 0 < |x| <= LEXER_CHAR_LIMIT && IsLegalSegment(x) && !Opens(syn, x[0])
    case Par(n) => |n| <= LEXER_CHAR_LIMIT && IsName(n)
  }

  function StepOf(tok: Token): Step
    requires tok.Literal? || tok.Param?
  {
    if tok.Literal? then Lit(tok.text) else Par(tok.text)
  }

  /** One call of the pattern lexer: the token and the cursor afterwards. */
  function Next(syn: Syntax, s: CString, c: nat): (r: (Token, nat))
    requires c <= |s|
    ensures r.1 <= |s|
    ensures r.0.Literal? || r.0.Param? ==> c < r.1 && WellFormedStep(syn, StepOf(r.0))
    ensures r.0.Trailing? ==> c > 0
  {
    if s == [] then (Illegal, c)
    else if c == |s| then (End, c)
    else
      var d := if s[c] == SLASH then c + 1 else c;
      if d == |s| then (if d - 1 == 0 then End else Trailing, d)
      else if s[d] == SLASH then (Illegal, d)
      else if Opens(syn, s[d]) then StepParam(syn, s, d + 1)
      else if s[d] == STAR then (if d + 1 == |s| || s[d + 1] == SLASH then Wildcard else Illegal, d + 1)
      else StepLiteral(s, d)
  }

  lemma TextHasNoNul(syn: Syntax, tok: Token)
    requires (tok.Literal? || tok.Param?) && WellFormedStep(syn, StepOf(tok))
    ensures 0 !in tok.text
  {
  }

  lemma RefusedRunsAlike(syn: Syntax, syn': Syntax)
    ensures Run(syn, [], 0) == [Illegal] == Run(syn', [], 0)
  {
  }

  /** All tokens of a run: up to the first that ends it, or the one after a wildcard. */
  function Run(syn: Syntax, s: CString, c: nat): (toks: seq<Token>)
    requires c <= |s|
    ensures toks != []
    decreases |s| - c
  {
    var (tok, next) := Next(syn, s, c);
    if tok.Literal? || tok.Param? then [tok] + Run(syn, s, next)
    else if tok.Wildcard? then [tok, Next(syn, s, next).0]
    else [tok]
  }

  /** The pattern that a run of tokens stands for, if it is a pattern at all. */
  function PatternOf(toks: seq<Token>): Option<Pattern> {
    if toks == [] then None
    else match toks[0]
      case End => Some(Pattern([], AtEnd))
      case Trailing => Some(Pattern([], AtTrailing))
      case Wildcard => if |toks| > 1 && toks[1].End? then Some(Pattern([], AtWildcard)) else None
      case Illegal => None
      case _ =>
        var rest := PatternOf(toks[1..]);
        if rest.Some? then Some(rest.value.(steps := [StepOf(toks[0])] + rest.value.steps)) else None
  }

  /** The steps that a run begins with, whether or not it stands for a pattern. */
  function StepsOf(toks: seq<Token>): Path {
    if toks != [] && (toks[0].Literal? || toks[0].Param?) then [StepOf(toks[0])] + StepsOf(toks[1..]) else []
  }

  /** What a run comes to behind its steps; a wildcard counts also where more follows it. */
  function EndingOf(toks: seq<Token>): Option<Final> {
    if toks == [] then None
    else match toks[0]
      case End => Some(AtEnd)
      case Trailing => Some(AtTrailing)
      case Wildcard => Some(AtWildcard)
      case Illegal => None
      case _ => EndingOf(toks[1..])
  }

  lemma {:induction false} PatternSplits(toks: seq<Token>)
    ensures var p := PatternOf(toks);
            && (p.Some? ==> StepsOf(toks) == p.value.steps && EndingOf(toks) == Some(p.value.final))
            && (p == None && EndingOf(toks).Some? ==> EndingOf(toks).value.AtWildcard?)
    decreases |toks|
  {
    if toks != [] && (toks[0].Literal? || toks[0].Param?) {
      PatternSplits(toks[1..]);
    }
  }

  function Parse(syn: Syntax, pattern: Option<CString>): Option<Pattern> {
    PatternOf(Run(syn, Loaded(pattern), 0))
  }

  // ---- Rendering ----

  function Opener(syn: Syntax): Byte {
    match syn case ColonSyntax => COLON case BraceSyntax => LEFT_BRACE case AngleSyntax => LEFT_ANGLE
  }

  function Closer(syn: Syntax): Text {
    match syn case ColonSyntax => [] case BraceSyntax => [RIGHT_BRACE] case AngleSyntax => [RIGHT_ANGLE]
  }

  function RenderStep(syn: Syntax, st: Step): Text {
    match st
    case Lit(x) => [SLASH] + x
    case Par(n) => [SLASH, Opener(syn)] + n + Closer(syn)
  }

  function RenderSteps(syn: Syntax, steps: seq<Step>): Text {
    if steps == [] then [] else RenderStep(syn, steps[0]) + RenderSteps(syn, steps[1..])
  }

  function FinalText(f: Final): Text {
    match f case AtEnd => [] case AtTrailing => [SLASH] case AtWildcard => [SLASH, STAR]
  }

  function RenderFinal(p: Pattern): Text {
    if p.final.AtEnd? && p.steps == [] then [SLASH] else FinalText(p.final)
  }

  function Render(syn: Syntax, p: Pattern): Text {
    RenderSteps(syn, p.steps) + RenderFinal(p)
  }

  predicate WellFormedPattern(syn: Syntax, p: Pattern) {
    && (forall i | 0 <= i < |p.steps| :: WellFormedStep(syn, p.steps[i]))
    && (p.final.AtTrailing? ==> p.steps != [])
  }

  /** The steps lie in s from c on, rendered, and `back` follows them. */
  ghost predicate LaidOut(syn: Syntax, s: Text, c: nat, steps: seq<Step>, back: Text)
    decreases |steps|
  {
    if steps == [] then c <= |s| && s[c..] == back
    else
      var r := RenderStep(syn, steps[0]);
      c + |r| <= |s| && s[c..c + |r|] == r && LaidOut(syn, s, c + |r|, steps[1..], back)
  }

  lemma Regroup(front: Text, r: Text, rest: Text, back: Text)
    ensures var s := front + (r + rest) + back;
            s == (front + r) + rest + back && |front| + |r| <= |s| && s[|front|..|front| + |r|] == r
  {
  }

  lemma LaidOutNothing(syn: Syntax, front: Text, back: Text)
    ensures LaidOut(syn, front + [] + back, |front|, [], back)
  {
  }

  lemma LaidOutFirst(syn: Syntax, s: Text, c: nat, steps: seq<Step>, back: Text)
    requires steps != [] && c + |RenderStep(syn, steps[0])| <= |s|
    requires s[c..c + |RenderStep(syn, steps[0])|] == RenderStep(syn, steps[0])
    requires LaidOut(syn, s, c + |RenderStep(syn, steps[0])|, steps[1..], back)
    ensures LaidOut(syn, s, c, steps, back)
  {
  }

  lemma {:induction false} RenderedIsLaidOut(syn: Syntax, front: Text, steps: seq<Step>, back: Text)
    ensures LaidOut(syn, front + RenderSteps(syn, steps) + back, |front|, steps, back)
    decreases |steps|
  {
    hide LaidOut, RenderStep;
    if steps == [] {
      LaidOutNothing(syn, front, back);
    } else {
      var r, rest := RenderStep(syn, steps[0]), RenderSteps(syn, steps[1..]);
      Regroup(front, r, rest, back);
      RenderedIsLaidOut(syn, front + r, steps[1..], back);
      LaidOutFirst(syn, front + (r + rest) + back, |front|, steps, back);
    }
  }

  lemma RenderIsLaidOut(syn: Syntax, p: Pattern)
    ensures LaidOut(syn, Render(syn, p), 0, p.steps, RenderFinal(p))
  {
    assert [] + RenderSteps(syn, p.steps) == RenderSteps(syn, p.steps);
    RenderedIsLaidOut(syn, [], p.steps, RenderFinal(p));
  }

  lemma {:induction false} RenderHasNoNul(syn: Syntax, steps: seq<Step>)
    requires forall i | 0 <= i < |steps| :: WellFormedStep(syn, steps[i])
    ensures 0 !in RenderSteps(syn, steps)
    ensures steps != [] ==> RenderSteps(syn, steps)[0] == SLASH
    decreases |steps|
  {
    if steps != [] {
      RenderHasNoNul(syn, steps[1..]);
    }
  }

  /** A rendered text is a loadable C string. */
  lemma RenderIsLoadable(syn: Syntax, p: Pattern)
    requires WellFormedPattern(syn, p)
    ensures 0 !in Render(syn, p) && Loaded(Some(Render(syn, p))) == Render(syn, p)
  {
    RenderHasNoNul(syn, p.steps);
  }

  /** What follows a rendered step starts with a slash, if there is anything. */
  lemma LaidOutStartsWithSlash(syn: Syntax, s: Text, c: nat, steps: seq<Step>, back: Text)
    requires LaidOut(syn, s, c, steps, back) && (back != [] ==> back[0] == SLASH)
    ensures c < |s| ==> s[c] == SLASH
  {
  }

  lemma NextReadsLiteral(syn: Syntax, s: CString, c: nat, x: Text)
    requires WellFormedStep(syn, Lit(x)) && c + 1 + |x| <= |s|
    requires s[c] == SLASH && s[c + 1..c + 1 + |x|] == x
    requires c + 1 + |x| < |s| ==> s[c + 1 + |x|] == SLASH
    ensures Next(syn, s, c) == (Literal(c + 1, x), c + 1 + |x|)
  {
  }

  lemma NextReadsParam(syn: Syntax, s: CString, c: nat, n: Text, e: nat, next: nat)
    requires WellFormedStep(syn, Par(n)) && e == c + 2 + |n| && next == e + |Closer(syn)| <= |s|
    requires s[c] == SLASH && s[c + 1] == Opener(syn) && s[c + 2..e] == n
    requires !syn.ColonSyntax? ==> Closes(syn, s[e])
    requires next < |s| ==> s[next] == SLASH
    ensures Next(syn, s, c) == (Param(c + 2, n), next)
  {
  }

  lemma RenderedAt(s: Text, c: nat, r: Text, k: nat)
    requires c + |r| <= |s| && s[c..c + |r|] == r && k < |r|
    ensures s[c + k] == r[k]
  {
  }

  lemma RenderedSlice(s: Text, c: nat, r: Text, i: nat, j: nat)
    requires c + |r| <= |s| && s[c..c + |r|] == r && i <= j <= |r|
    ensures s[c + i..c + j] == r[i..j]
  {
    forall k | i <= k < j ensures s[c + k] == r[k] {
      RenderedAt(s, c, r, k);
    }
    forall k | 0 <= k < j - i ensures s[c + i..c + j][k] == r[i..j][k] {
      assert s[c + (i + k)] == r[i + k];
    }
  }

  lemma NextReadsRenderedLiteral(syn: Syntax, s: CString, c: nat, x: Text)
    requires WellFormedStep(syn, Lit(x))
    requires var r := RenderStep(syn, Lit(x)); c + |r| <= |s| && s[c..c + |r|] == r
    requires c + 1 + |x| < |s| ==> s[c + 1 + |x|] == SLASH
    ensures Next(syn, s, c) == (Literal(c + 1, x), c + 1 + |x|)
  {
    var r := RenderStep(syn, Lit(x));
    RenderedAt(s, c, r, 0);
    RenderedSlice(s, c, r, 1, |r|);
    assert r[1..|r|] == x;
    NextReadsLiteral(syn, s, c, x);
  }

  lemma NextReadsRenderedParam(syn: Syntax, s: CString, c: nat, n: Text)
    requires WellFormedStep(syn, Par(n))
    requires var r := RenderStep(syn, Par(n)); c + |r| <= |s| && s[c..c + |r|] == r
    requires var next := c + 2 + |n| + |Closer(syn)|; next < |s| ==> s[next] == SLASH
    ensures Next(syn, s, c) == (Param(c + 2, n), c + 2 + |n| + |Closer(syn)|)
  {
    var r := RenderStep(syn, Par(n));
    var e := c + 2 + |n|;
    RenderedAt(s, c, r, 0);
    RenderedAt(s, c, r, 1);
    RenderedSlice(s, c, r, 2, 2 + |n|);
    assert r[2..2 + |n|] == n;
    if !syn.ColonSyntax? {
      RenderedAt(s, c, r, 2 + |n|);
    }
    NextReadsParam(syn, s, c, n, e, e + |Closer(syn)|);
  }

  lemma NextReadsStep(syn: Syntax, s: CString, c: nat, steps: seq<Step>, back: Text)
    requires steps != [] && WellFormedStep(syn, steps[0])
    requires LaidOut(syn, s, c, steps, back) && (back != [] ==> back[0] == SLASH)
    ensures var (tok, next) := Next(syn, s, c);
            && next == c + |RenderStep(syn, steps[0])|
            && (tok.Literal? || tok.Param?) && StepOf(tok) == steps[0]
  {
    LaidOutStartsWithSlash(syn, s, c + |RenderStep(syn, steps[0])|, steps[1..], back);
    match steps[0]
    case Lit(x) => NextReadsRenderedLiteral(syn, s, c, x);
    case Par(n) => NextReadsRenderedParam(syn, s, c, n);
  }

  lemma RunUnfolds(syn: Syntax, s: CString, c: nat, next: nat, steps: seq<Step>, f: Final)
    requires c <= |s| && next <= |s| && steps != [] && Next(syn, s, c).1 == next
    requires var tok := Next(syn, s, c).0; (tok.Literal? || tok.Param?) && StepOf(tok) == steps[0]
    requires PatternOf(Run(syn, s, next)) == Some(Pattern(steps[1..], f))
    ensures PatternOf(Run(syn, s, c)) == Some(Pattern(steps, f))
  {
    assert Run(syn, s, c)[1..] == Run(syn, s, next);
    assert steps == [steps[0]] + steps[1..];
  }

  lemma RunAtFinal(syn: Syntax, s: CString, c: nat, f: Final)
    requires c <= |s| && s != [] && s[0] == SLASH
    requires s[c..] == FinalText(f) && (c > 0 || f.AtWildcard?)
    ensures PatternOf(Run(syn, s, c)) == Some(Pattern([], f))
  {
  }

  lemma {:induction false} LexRendered(syn: Syntax, s: CString, c: nat, steps: seq<Step>, f: Final)
    requires forall i | 0 <= i < |steps| :: WellFormedStep(syn, steps[i])
    requires c <= |s| && s != [] && s[0] == SLASH
    requires LaidOut(syn, s, c, steps, FinalText(f))
    requires c > 0 || steps != [] || f.AtWildcard?
    ensures PatternOf(Run(syn, s, c)) == Some(Pattern(steps, f))
    decreases |steps|
  {
    hide Next, Run, PatternOf, WellFormedStep, RenderStep;
    if steps == [] {
      RunAtFinal(syn, s, c, f);
    } else {
      NextReadsStep(syn, s, c, steps, FinalText(f));
      var next := c + |RenderStep(syn, steps[0])|;
      LexRendered(syn, s, next, steps[1..], f);
      RunUnfolds(syn, s, c, next, steps, f);
    }
  }

  /** Rendering a well-formed pattern in any syntax and lexing it to the end gives the same pattern. */
  lemma RenderThenLex(syn: Syntax, p: Pattern)
    requires WellFormedPattern(syn, p)
    ensures 0 !in Render(syn, p)
    ensures Parse(syn, Some(Render(syn, p))) == Some(p)
  {
    RenderIsLoadable(syn, p);
    if p == Pattern([], AtEnd) {
      assert Render(syn, p) == [SLASH];
    } else {
      RenderIsLaidOut(syn, p);
      LexRendered(syn, Render(syn, p), 0, p.steps, p.final);
    }
  }

  /** Whatever the lexer makes of a pattern is well-formed. */
  lemma {:induction false} RunIsWellFormed(syn: Syntax, s: CString, c: nat)
    requires c <= |s|
    ensures var p := PatternOf(Run(syn, s, c));
            p.Some? ==> WellFormedPattern(syn, p.value) || (c > 0 && p.value == Pattern([], AtTrailing))
    decreases |s| - c
  {
    var tok, next := Next(syn, s, c).0, Next(syn, s, c).1;
    if tok.Literal? || tok.Param? {
      RunIsWellFormed(syn, s, next);
      assert Run(syn, s, c)[1..] == Run(syn, s, next);
    }
  }

  lemma ParsedIsWellFormed(syn: Syntax, pattern: Option<CString>)
    requires Parse(syn, pattern).Some?
    ensures WellFormedPattern(syn, Parse(syn, pattern).value)
  {
    RunIsWellFormed(syn, Loaded(pattern), 0);
  }

  // ---- Lexing, then rendering ----

  /** A parameter that opens behind a slash at i is closed, and a slash or the end follows it. */
  predicate ClosedAt(syn: Syntax, s: Text, i: nat) {
    i + 1 < |s| && s[i] == SLASH && Opens(syn, s[i + 1]) && !syn.ColonSyntax? ==>
      var j := NameStop(s, i + 2);
      j < |s| && Closes(syn, s[j]) && (j + 1 < |s| ==> s[j + 1] == SLASH)
  }

  ghost predicate AllClosed(syn: Syntax, s: Text) {
    forall i: nat :: ClosedAt(syn, s, i)
  }

  /** The cursor is on a slash or at the end. */
  predicate OnSlash(s: Text, c: nat) {
    c <= |s| && (c < |s| ==> s[c] == SLASH)
  }

  lemma LiteralIsRendered(syn: Syntax, s: CString, c: nat, d: nat)
    requires d == c + 1 < |s| && s[c] == SLASH && s[d] != SLASH && StepLiteral(s, d).0.Literal?
    ensures var (tok, next) := StepLiteral(s, d);
            c < next <= |s| && OnSlash(s, next) && s[c..next] == RenderStep(syn, StepOf(tok))
  {
    var next := StepLiteral(s, d).1;
    assert s[c..next] == [s[c]] + s[d..next];
  }

  lemma ParamIsRendered(syn: Syntax, s: CString, c: nat)
    requires c + 1 < |s| && s[c] == SLASH && Opens(syn, s[c + 1]) && ClosedAt(syn, s, c)
    requires StepParam(syn, s, c + 2).0.Param?
    ensures var (tok, next) := StepParam(syn, s, c + 2);
            c < next <= |s| && OnSlash(s, next) && s[c..next] == RenderStep(syn, StepOf(tok))
  {
    var j, next := NameStop(s, c + 2), StepParam(syn, s, c + 2).1;
    assert s[c..next] == [s[c], s[c + 1]] + s[c + 2..j] + s[j..next];
    assert s[j..next] == Closer(syn);
  }

  /** A step that is read from a slash on stops at a slash or the end, and is what its text renders. */
  lemma StepIsRendered(syn: Syntax, s: CString, c: nat)
    requires OnSlash(s, c) && ClosedAt(syn, s, c)
    requires var tok := Next(syn, s, c).0; tok.Literal? || tok.Param?
    ensures var (tok, next) := Next(syn, s, c);
            c < next <= |s| && OnSlash(s, next) && s[c..next] == RenderStep(syn, StepOf(tok))
  {
    hide ClosedAt, StepLiteral, StepParam, RenderStep, IsIllegal, IsNameByte;
    if Next(syn, s, c).0.Param? {
      ParamIsRendered(syn, s, c);
    } else {
      LiteralIsRendered(syn, s, c, c + 1);
    }
  }

  lemma ShortTail(s: Text, c: nat)
    requires c <= |s|
    ensures c == |s| ==> s[c..] == []
    ensures c + 1 == |s| ==> s[c..] == [s[c]]
    ensures c + 2 == |s| ==> s[c..] == [s[c], s[c + 1]]
  {
  }

  lemma FinalIsRendered(syn: Syntax, s: CString, c: nat)
    requires OnSlash(s, c) && s != [] && s[0] == SLASH && PatternOf(Run(syn, s, c)).Some?
    requires var tok := Next(syn, s, c).0; !tok.Literal? && !tok.Param?
    ensures var p := PatternOf(Run(syn, s, c)).value;
            p.steps == [] && s[c..] == if c == 0 && p.final.AtEnd? then [SLASH] else FinalText(p.final)
  {
    hide StepLiteral, StepParam;
    ShortTail(s, c);
  }

  lemma TailSplits(s: Text, c: nat, n: nat, x: Text, y: Text, z: Text)
    requires c <= n <= |s| && s[c..n] == x && s[n..] == y + z
    ensures s[c..] == (x + y) + z
  {
    assert s[c..] == s[c..n] + s[n..];
  }

  lemma RunStarts(syn: Syntax, s: CString, c: nat)
    requires c <= |s| && PatternOf(Run(syn, s, c)).Some?
    requires var tok := Next(syn, s, c).0; tok.Literal? || tok.Param?
    ensures var next := Next(syn, s, c).1;
            && PatternOf(Run(syn, s, next)).Some?
            && var p, q := PatternOf(Run(syn, s, c)).value, PatternOf(Run(syn, s, next)).value;
               p.final == q.final && p.steps != [] && p.steps[0] == StepOf(Next(syn, s, c).0) && p.steps[1..] == q.steps
  {
    assert Run(syn, s, c)[1..] == Run(syn, s, Next(syn, s, c).1);
  }

  /** If every parameter is closed, what is left of the text is what the run of it renders. */
  lemma {:induction false} RunIsRendered(syn: Syntax, s: CString, c: nat)
    requires OnSlash(s, c) && s != [] && s[0] == SLASH && AllClosed(syn, s) && PatternOf(Run(syn, s, c)).Some?
    ensures var p := PatternOf(Run(syn, s, c)).value;
            s[c..] == RenderSteps(syn, p.steps)
                      + if c == 0 && p.steps == [] && p.final.AtEnd? then [SLASH] else FinalText(p.final)
    decreases |s| - c
  {
    hide AllClosed, ClosedAt, Next, Run, PatternOf, RenderStep;
    var tok, next := Next(syn, s, c).0, Next(syn, s, c).1;
    if tok.Literal? || tok.Param? {
      RunStarts(syn, s, c);
      AllClosedAt(syn, s, c);
      StepIsRendered(syn, s, c);
      RunIsRendered(syn, s, next);
      var rest := PatternOf(Run(syn, s, next)).value;
      TailSplits(s, c, next, RenderStep(syn, StepOf(tok)), RenderSteps(syn, rest.steps), FinalText(rest.final));
    } else {
      FinalIsRendered(syn, s, c);
    }
  }

  lemma AllClosedAt(syn: Syntax, s: Text, c: nat)
    requires AllClosed(syn, s)
    ensures ClosedAt(syn, s, c)
  {
  }

  /** A rendered step holds no slash but its first byte, and closes its parameter. */
  lemma RenderedStepIsClosed(syn: Syntax, s: Text, c: nat, st: Step, i: nat)
    requires WellFormedStep(syn, st)
    requires var r := RenderStep(syn, st); c + |r| <= |s| && s[c..c + |r|] == r && c <= i < c + |r|
    requires c + |RenderStep(syn, st)| < |s| ==> s[c + |RenderStep(syn, st)|] == SLASH
    ensures ClosedAt(syn, s, i)
  {
    var r := RenderStep(syn, st);
    RenderedAt(s, c, r, i - c);
    if i == c {
      RenderedAt(s, c, r, 1);
      if st.Par? {
        var e := c + 2 + |st.name|;
        forall k | c + 2 <= k < e ensures s[k] == st.name[k - c - 2] {
          RenderedAt(s, c, r, k - c);
        }
        if !syn.ColonSyntax? {
          RenderedAt(s, c, r, e - c);
          NameStopIsFirst(s, c + 2, e);
        }
      }
    } else {
      assert s[i] == r[i - c] != SLASH;
    }
  }

  lemma {:induction false} LaidOutIsClosed(syn: Syntax, s: Text, c: nat, steps: seq<Step>, back: Text, i: nat)
    requires forall k | 0 <= k < |steps| :: WellFormedStep(syn, steps[k])
    requires back == [] || back == [SLASH] || back == [SLASH, STAR]
    requires LaidOut(syn, s, c, steps, back) && c <= i
    ensures ClosedAt(syn, s, i)
    decreases |steps|
  {
    if steps == [] {
      if i + 1 < |s| {
        assert s[i] == s[c..][i - c] && s[i + 1] == s[c..][i + 1 - c];
      }
    } else {
      var n := c + |RenderStep(syn, steps[0])|;
      LaidOutStartsWithSlash(syn, s, n, steps[1..], back);
      if i < n {
        RenderedStepIsClosed(syn, s, c, steps[0], i);
      } else {
        LaidOutIsClosed(syn, s, n, steps[1..], back, i);
      }
    }
  }

  /** Lexing an accepted text and rendering it again gives the text back iff each of its parameters is closed, and
    * followed by a slash or the end. */
  lemma LexThenRenderIff(syn: Syntax, s: CString)
    requires Parse(syn, Some(s)).Some?
    ensures Render(syn, Parse(syn, Some(s)).value) == s <==> AllClosed(syn, s)
  {
    var p := Parse(syn, Some(s)).value;
    if AllClosed(syn, s) {
      RunIsRendered(syn, s, 0);
      assert s[0..] == s;
    }
    if Render(syn, p) == s {
      ParsedIsWellFormed(syn, Some(s));
      RenderIsLaidOut(syn, p);
      forall i: nat ensures ClosedAt(syn, s, i) {
        LaidOutIsClosed(syn, s, 0, p.steps, RenderFinal(p), i);
      }
    }
  }

  /** Rendering is not undone by lexing alone: an unclosed brace is read as a parameter all the same. */
  lemma LexThenRenderFails()
    ensures var s: Text := [SLASH, LEFT_BRACE, 97];
            && 0 !in s
            && Parse(BraceSyntax, Some(s)) == Some(Pattern([Par([97])], AtEnd))
            && Render(BraceSyntax, Parse(BraceSyntax, Some(s)).value) != s
  {
    var s: CString := [SLASH, LEFT_BRACE, 97];
    NameStopIsFirst(s, 2, 3);
    assert Next(BraceSyntax, s, 0) == (Param(2, s[2..3]), 3);
    assert s[2..3] == [97];
    assert Run(BraceSyntax, s, 3) == [End];
    assert PatternOf([End]) == Some(Pattern([], AtEnd));
    assert [Par([97])][1..] == [];
    RunUnfolds(BraceSyntax, s, 0, 3, [Par([97])], AtEnd);
  }

  class Prelexer {
    var str: CString
    var cursor: nat
    var syntax: Syntax

    ghost predicate Valid()
      reads this
    {
      cursor <= |str| && (str != [] ==> str[0] == SLASH)
    }

    constructor (syntax: Syntax)
      ensures Valid() && str == [] && this.syntax == syntax
    {
      this.str, this.cursor, this.syntax := [], 0, syntax;
    }

    // An empty str stands for the null cursor of a lexer that refused its pattern.
    method Load(pattern: Option<CString>)
      modifies this
      ensures Valid() && str == Loaded(pattern) && cursor == 0
      ensures syntax == if str == [] then ColonSyntax else old(syntax)
    {
      if pattern == None || pattern.value == [] || pattern.value[0] != SLASH {
        str, cursor, syntax := [], 0, ColonSyntax;
        return;
      }
      str, cursor := pattern.value, 0;
    }

    method NextToken() returns (tok: Token)
      requires Valid()
      modifies this`cursor
      ensures Valid() && (tok, cursor) == Next(syntax, str, old(cursor))
    {
      var c := cursor;
      if |str| == 0 {
        return Illegal;
      }
      if c == |str| {
        return End;
      }
      if str[c] == SLASH {
        c := c + 1;
      }
      if c == |str| {
        cursor := c;
        return if c - 1 == 0 then End else Trailing;
      }
      if str[c] == SLASH {
        cursor := c;
        return Illegal;
      }
      if Opens(syntax, str[c]) {
        tok := ScanParam(c + 1);
      } else if str[c] == STAR {
        c := c + 1;
        cursor := c;
        return if c == |str| || str[c] == SLASH then Wildcard else Illegal;
      } else {
        tok := ScanLiteral(c);
      }
    }

    method ScanParam(start: nat) returns (tok: Token)
      requires Valid() && start <= |str|
      modifies this`cursor
      ensures Valid() && (tok, cursor) == StepParam(syntax, str, start)
    {
      if !IsAlpha(At(str, start)) {
        cursor := start;
        return Illegal;
      }
      var c, extra := start, 0;
      while c < |str| && str[c] != SLASH
        invariant start <= c <= |str|
        invariant forall k | start <= k < c :: IsNameByte(str[k])
      {
        if Closes(syntax, str[c]) {
          extra := 1;
          break;
        }
        if !IsAlnum(str[c]) && str[c] != UNDERSCORE {
          NameStopIsFirst(str, start, c);
          cursor := c;
          return Illegal;
        }
        c := c + 1;
      }
      NameStopIsFirst(str, start, c);
      cursor := c;
      if c - start > LEXER_CHAR_LIMIT {
        return Illegal;
      }
      cursor := c + extra;
      return Param(start, str[start..c]);
    }

    method ScanLiteral(start: nat) returns (tok: Token)
      requires Valid() && start < |str| && str[start] != SLASH
      modifies this`cursor
      ensures Valid() && (tok, cursor) == StepLiteral(str, start)
    {
      var c := start;
      while c < |str| && str[c] != SLASH
        invariant start <= c <= |str|
        invariant forall k | start <= k < c :: str[k] != SLASH && !IsIllegal(str[k])
      {
        if IsIllegal(str[c]) {
          LiteralStopIsFirst(str, start, c);
          cursor := c;
          return Illegal;
        }
        c := c + 1;
      }
      LiteralStopIsFirst(str, start, c);
      cursor := c;
      if c - start > LEXER_CHAR_LIMIT {
        return Illegal;
      }
      return Literal(start, str[start..c]);
    }
  }
}

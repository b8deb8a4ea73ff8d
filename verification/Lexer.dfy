/** The request lexer: cuts a bounded path into segments, one at a time. */
module Lexing {
  import opened Wrappers
  import opened Bytes
  import opened Tokens

  /** A segment of the path and where its first byte is. */
  datatype Seg = Seg(start: nat, text: Text)

  /** Which requests are loaded; the others leave the lexer empty. */
  predicate Loadable(request: Text) {
    request != [] && request[0] == SLASH && |request| <= LEXER_CHAR_LIMIT
  }

  function Loaded(request: Option<Text>): Text {
    if request.Some? && Loadable(request.value) then request.value else []
  }

  /** A cursor rests on a slash or at the end. */
  predicate AtBoundary(s: Text, c: nat) {
    c <= |s| && (c < |s| ==> s[c] == SLASH) && (s != [] ==> s[0] == SLASH)
  }

  /** Index of the first slash at or after i, or the end. */
  function SegmentStop(s: Text, i: nat): (j: nat)
    requires i <= |s|
    ensures i <= j <= |s|
    ensures j < |s| ==> s[j] == SLASH
    ensures forall k | i <= k < j :: s[k] != SLASH
    decreases |s| - i
  {
    if i == |s| || s[i] == SLASH then i else SegmentStop(s, i + 1)
  }

  /** One call of the lexer: the token and the cursor afterwards. */
  function Step(s: Text, c: nat): (r: (Token, nat))
    requires AtBoundary(s, c)
    ensures AtBoundary(s, r.1)
    ensures !r.0.Literal? ==> r.1 == c
    ensures r.0.Literal? ==> c + 1 < r.1
  {
    if s == [] then (Illegal, c)
    else if c == |s| then (End, c)
    else if c == |s| - 1 then (if c == 0 then End else Trailing, c)
    else if s[c + 1] == SLASH then (Illegal, c)
    else
      var e := SegmentStop(s, c + 1);
      if IsLegalSegment(s[c + 1..e]) then (Literal(c + 1, s[c + 1..e]), e) else (Illegal, c)
  }

  /** The literals of a whole run that starts at a boundary. */
  function Segments(s: Text, c: nat): seq<Seg>
    requires AtBoundary(s, c)
    decreases |s| - c
  {
    var (tok, next) := Step(s, c);
    if tok.Literal? then [Seg(tok.ptr, tok.text)] + Segments(s, next) else []
  }

  /** Where the run comes to rest. */
  function Rest(s: Text, c: nat): (r: nat)
    requires AtBoundary(s, c)
    ensures AtBoundary(s, r) && c <= r
    ensures !Step(s, r).0.Literal?
    decreases |s| - c
  {
    var (tok, next) := Step(s, c);
    if tok.Literal? then Rest(s, next) else c
  }

  /** The token a run ends on. */
  function Last(s: Text, c: nat): (tok: Token)
    requires AtBoundary(s, c)
    ensures tok.End? || tok.Trailing? || tok.Illegal?
  {
    Step(s, Rest(s, c)).0
  }

  /** Each segment behind a slash. */
  function Joined(segs: seq<Seg>): Text {
    if segs == [] then [] else [SLASH] + segs[0].text + Joined(segs[1..])
  }

  /** Seg g is a whole nonempty legal slice of s, with a slash before it. */
  predicate LiesIn(s: Text, g: Seg) {
    && 0 < g.start && g.start + |g.text| <= |s|
    && s[g.start - 1] == SLASH && s[g.start..g.start + |g.text|] == g.text
    && g.text != [] && IsLegalSegment(g.text)
  }

  lemma StepLies(s: Text, c: nat)
    requires AtBoundary(s, c) && Step(s, c).0.Literal?
    ensures var (tok, next) := Step(s, c);
            LiesIn(s, Seg(tok.ptr, tok.text)) && tok.ptr == c + 1 && next == tok.ptr + |tok.text|
  {
  }

  lemma {:induction false} SegmentsLie(s: Text, c: nat)
    requires AtBoundary(s, c)
    ensures forall g | g in Segments(s, c) :: LiesIn(s, g) && c < g.start
    decreases |s| - c
  {
    var (tok, next) := Step(s, c);
    if tok.Literal? {
      StepLies(s, c);
      SegmentsLie(s, next);
    }
  }

  lemma JoinedCons(g: Seg, rest: seq<Seg>)
    ensures Joined([g] + rest) == [SLASH] + g.text + Joined(rest)
  {
  }

  lemma SliceGlue(s: Text, c: nat, x: Text, n: nat, end: nat)
    requires c < |s| && s[c] == SLASH && c + 1 + |x| == n <= end <= |s| && s[c + 1..n] == x
    ensures s[c..end] == [SLASH] + x + s[n..end]
  {
  }

  /** A run consumes exactly its segments, each behind a slash. */
  lemma {:induction false} RunConsumesSegments(s: Text, c: nat)
    requires AtBoundary(s, c)
    ensures s[c..Rest(s, c)] == Joined(Segments(s, c))
    decreases |s| - c
  {
    var tok, next := Step(s, c).0, Step(s, c).1;
    if tok.Literal? {
      StepLies(s, c);
      RunConsumesSegments(s, next);
      JoinedCons(Seg(tok.ptr, tok.text), Segments(s, next));
      SliceGlue(s, c, tok.text, next, Rest(s, next));
    }
  }

  /** END and TRAILING say what is left of the path. */
  lemma LastSaysWhatIsLeft(s: Text)
    requires AtBoundary(s, 0) && s != []
    ensures Last(s, 0).End? <==> (s[Rest(s, 0)..] == [] || s == [SLASH])
    ensures Last(s, 0).Trailing? <==> (s[Rest(s, 0)..] == [SLASH] && s != [SLASH])
  {
  }

  /** Lexing again from where a run rests gives the same token and no further segment. */
  lemma RunStaysAtRest(s: Text, c: nat)
    requires AtBoundary(s, c)
    ensures Step(s, Rest(s, c)) == (Last(s, c), Rest(s, c))
    ensures Segments(s, Rest(s, c)) == []
  {
  }

  function Texts(segs: seq<Seg>): seq<Text> {
    if segs == [] then [] else [segs[0].text] + Texts(segs[1..])
  }

  function JoinedTexts(texts: seq<Text>): Text {
    if texts == [] then [] else [47] + texts[0] + JoinedTexts(texts[1..])
  }

  /** The texts lie in s from c on, each behind a slash, and `back` follows them. */
  ghost predicate LaidOut(s: Text, c: nat, texts: seq<Text>, back: Text)
    decreases |texts|
  {
    if texts == [] then c <= |s| && s[c..] == back
    else
      var next := c + 1 + |texts[0]|;
      next <= |s| && s[c] == SLASH && s[c + 1..next] == texts[0] && LaidOut(s, next, texts[1..], back)
  }

  lemma {:induction false} JoinedIsLaidOut(front: Text, texts: seq<Text>, back: Text)
    ensures LaidOut(front + JoinedTexts(texts) + back, |front|, texts, back)
    decreases |texts|
  {
    var s := front + JoinedTexts(texts) + back;
    if texts != [] {
      var front' := front + [SLASH] + texts[0];
      assert s == front' + JoinedTexts(texts[1..]) + back;
      JoinedIsLaidOut(front', texts[1..], back);
    }
  }

  lemma WholeIsLaidOut(texts: seq<Text>, back: Text)
    ensures LaidOut(JoinedTexts(texts) + back, 0, texts, back)
  {
    assert [] + JoinedTexts(texts) == JoinedTexts(texts);
    JoinedIsLaidOut([], texts, back);
  }

  predicate LegalTexts(texts: seq<Text>) {
    forall i | 0 <= i < |texts| :: texts[i] != [] && IsLegalSegment(texts[i])
  }

  lemma StepReadsLaidOut(s: Text, c: nat, texts: seq<Text>, back: Text)
    requires LaidOut(s, c, texts, back) && texts != [] && LegalTexts(texts)
    requires AtBoundary(s, c) && (back == [] || back[0] == SLASH)
    ensures Step(s, c) == (Literal(c + 1, texts[0]), c + 1 + |texts[0]|)
  {
    var x := texts[0];
    var e := c + 1 + |x|;
    forall k | c + 1 <= k < e ensures s[k] == x[k - c - 1] {
      assert s[k] == s[c + 1..e][k - c - 1];
    }
    if texts[1..] == [] && e < |s| {
      assert s[e] == s[e..][0];
    }
    StopIsFirstSlash(s, c + 1, e);
  }

  /** A whole segment that is not legal, or an empty one that is not the last. */
  predicate Unreadable(back: Text) {
    |back| > 1 && back[0] == SLASH && (back[1] == SLASH || !IsLegalSegment(back[1..SegmentStop(back, 1)]))
  }

  /** What no segment can be read of. */
  predicate NothingMore(back: Text) {
    back == [] || back == [SLASH] || Unreadable(back)
  }

  lemma {:induction false} StopInSuffix(s: Text, c: nat, i: nat)
    requires c <= |s| && i <= |s| - c
    ensures SegmentStop(s, c + i) == c + SegmentStop(s[c..], i)
    decreases |s| - c - i
  {
    if i < |s| - c && s[c + i] != SLASH {
      StopInSuffix(s, c, i + 1);
    }
  }

  lemma StepAtEnd(s: Text, c: nat)
    requires AtBoundary(s, c) && s != []
    ensures NothingMore(s[c..]) <==> !Step(s, c).0.Literal?
    ensures NothingMore(s[c..]) ==>
              Step(s, c).0 == if s[c..] == [] || s == [SLASH] then End
                              else if s[c..] == [SLASH] then Trailing else Illegal
  {
    if c + 1 < |s| {
      StopInSuffix(s, c, 1);
      assert s[c..][0] == s[c] && s[c..][1] == s[c + 1];
      var e := SegmentStop(s[c..], 1);
      assert s[c..][1..e] == s[c + 1..c + e];
    }
  }

  lemma {:induction false} JoinThenSegments(s: Text, c: nat, texts: seq<Text>, back: Text)
    requires LaidOut(s, c, texts, back) && LegalTexts(texts) && s != []
    requires AtBoundary(s, c) && NothingMore(back)
    ensures Texts(Segments(s, c)) == texts && s[Rest(s, c)..] == back
    decreases |texts|
  {
    if texts != [] {
      StepReadsLaidOut(s, c, texts, back);
      JoinThenSegments(s, c + 1 + |texts[0]|, texts[1..], back);
    } else {
      StepAtEnd(s, c);
    }
  }

  /** Legal nonempty segments put behind slashes are read back as they are, up to where no more can be read. */
  lemma JoinThenLex(s: Text, texts: seq<Text>, back: Text)
    requires LegalTexts(texts) && NothingMore(back) && (texts != [] || back != [])
    requires s == JoinedTexts(texts) + back
    ensures AtBoundary(s, 0)
    ensures Texts(Segments(s, 0)) == texts
    ensures Last(s, 0) == if back == [] || s == [SLASH] then End else if back == [SLASH] then Trailing else Illegal
  {
    WholeIsLaidOut(texts, back);
    JoinThenSegments(s, 0, texts, back);
    StepAtEnd(s, Rest(s, 0));
  }

  lemma {:induction false} TextsAt(segs: seq<Seg>)
    ensures |Texts(segs)| == |segs| && JoinedTexts(Texts(segs)) == Joined(segs)
    ensures forall i | 0 <= i < |segs| :: Texts(segs)[i] == segs[i].text
    decreases |segs|
  {
    if segs != [] {
      TextsAt(segs[1..]);
    }
  }

  /** Every request is the segments that are read of it, each behind a slash, and then what no segment can be read
    * of. */
  lemma LexThenJoin(s: Text)
    requires AtBoundary(s, 0) && s != []
    ensures var texts := Texts(Segments(s, 0));
            LegalTexts(texts) && s == JoinedTexts(texts) + s[Rest(s, 0)..] && NothingMore(s[Rest(s, 0)..])
  {
    var segs := Segments(s, 0);
    TextsAt(segs);
    RunConsumesSegments(s, 0);
    SegmentsLie(s, 0);
    StepAtEnd(s, Rest(s, 0));
    forall i | 0 <= i < |segs| ensures segs[i].text != [] && IsLegalSegment(segs[i].text) {
      assert segs[i] in segs;
    }
    assert s == s[0..Rest(s, 0)] + s[Rest(s, 0)..];
  }

  /** Each segment starts behind the segments before it and its own slash. */
  lemma {:induction false} SegmentStarts(s: Text, c: nat, i: nat)
    requires AtBoundary(s, c) && i < |Segments(s, c)|
    ensures Segments(s, c)[i].start == c + |Joined(Segments(s, c)[..i])| + 1
    decreases i
  {
    var tok, next := Step(s, c).0, Step(s, c).1;
    if i > 0 {
      StepLies(s, c);
      SegmentStarts(s, next, i - 1);
      var segs := Segments(s, c);
      assert segs[1..] == Segments(s, next);
      assert segs[..i] == [segs[0]] + segs[1..][..i - 1];
      JoinedCons(segs[0], segs[1..][..i - 1]);
    }
  }

  lemma {:induction false} StopIsFirstSlash(s: Text, i: nat, j: nat)
    requires i <= j <= |s|
    requires j < |s| ==> s[j] == SLASH
    requires forall k | i <= k < j :: s[k] != SLASH
    ensures SegmentStop(s, i) == j
    decreases j - i
  {
  }

  class Lexer {
    var str: Text
    var cursor: nat

    ghost predicate Valid()
      reads this
    {
      && AtBoundary(str, cursor)
      && |str| <= LEXER_CHAR_LIMIT
    }

    constructor ()
      ensures Valid() && str == []
    {
      str, cursor := [], 0;
    }

    method Load(request: Option<Text>)
      modifies this
      ensures Valid() && str == Loaded(request) && cursor == 0
    {
      if request == None || |request.value| == 0 {
        str, cursor := [], 0;
        return;
      }
      if request.value[0] != SLASH {
        str, cursor := [], 0;
        return;
      }
      if |request.value| > LEXER_CHAR_LIMIT {
        str, cursor := [], 0;
        return;
      }
      str, cursor := request.value, 0;
    }

    method Next() returns (tok: Token)
      requires Valid()
      modifies this`cursor
      ensures Valid() && (tok, cursor) == Step(str, old(cursor))
    {
      var c, end := cursor, |str|;
      if |str| == 0 {
        return Illegal;
      }
      if c == end {
        return End;
      }
      if str[c] == SLASH && c == end - 1 {
        return if c == 0 then End else Trailing;
      }
      c := c + 1;
      if c < end && str[c] == SLASH {
        return Illegal;
      }
      var start := c;
      while c < end && str[c] != SLASH
        invariant start <= c <= end
        invariant forall k | start <= k < c :: str[k] != SLASH && !IsIllegal(str[k])
      {
        if IsIllegal(str[c]) {
          assert str[start..SegmentStop(str, start)][c - start] == str[c] by {
            StopIsLater(str, start, c);
          }
          return Illegal;
        }
        c := c + 1;
      }
      StopIsFirstSlash(str, start, c);
      cursor := c;
      return Literal(start, str[start..c]);
    }
  }

  lemma {:induction false} StopIsLater(s: Text, i: nat, j: nat)
    requires i <= j < |s|
    requires forall k | i <= k <= j :: s[k] != SLASH
    ensures j < SegmentStop(s, i)
    decreases j - i
  {
  }
}

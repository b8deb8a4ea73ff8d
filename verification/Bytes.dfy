/** Either a value or nothing; stands for a pointer that may be null. */
module Wrappers {
  datatype Option<+T> = None | Some(value: T)
}

/** Bytes, strings and the character classes that both lexers use. */
module Bytes {

  type Byte = b: int | 0 <= b < 256
  type Text = seq<Byte>

  // A string that a terminating NUL can delimit.
  type CString = s: Text | 0 !in s

  // The bytes of an ASCII string.
  function Ascii(s: string): (x: Text)
    requires forall i | 0 <= i < |s| :: s[i] < 128 as char
    ensures |x| == |s| && forall i | 0 <= i < |s| :: x[i] == s[i] as int
  {
    seq(|s|, i requires 0 <= i < |s| => s[i] as int)
  }

  const SLASH: Byte := 47
  const STAR: Byte := 42
  const HASH: Byte := 35
  const QUESTION: Byte := 63
  const COLON: Byte := 58
  const LEFT_BRACE: Byte := 123
  const RIGHT_BRACE: Byte := 125
  const LEFT_ANGLE: Byte := 60
  const RIGHT_ANGLE: Byte := 62
  const UNDERSCORE: Byte := 95

  const LEXER_CHAR_LIMIT := 16 * 255

  // The C locale's classes, on unsigned bytes.
  predicate IsSpace(b: Byte) { b == 32 || 9 <= b <= 13 }

  predicate IsCntrl(b: Byte) { b < 32 || b == 127 }

  predicate IsAlpha(b: Byte) { 65 <= b <= 90 || 97 <= b <= 122 }

  predicate IsAlnum(b: Byte) { IsAlpha(b) || 48 <= b <= 57 }

  // A byte that neither a pattern's nor a request's literal may hold.
  predicate IsIllegal(b: Byte) {
    b == STAR || b == HASH || b == QUESTION || IsSpace(b) || IsCntrl(b)
  }

  predicate IsLegalSegment(s: Text) {
    forall i | 0 <= i < |s| :: s[i] != SLASH && !IsIllegal(s[i])
  }

  /** The byte under a C string's cursor: the terminator once the text is used up. */
  function At(s: Text, i: nat): Byte {
    if i < |s| then s[i] else 0
  }

  /** Strict order of unsigned bytes, a proper prefix first. */
  predicate Before(a: Text, b: Text) {
    b != [] && (a == [] || a[0] < b[0] || (a[0] == b[0] && Before(a[1..], b[1..])))
  }

  lemma {:induction false} BeforeIsIrreflexive(a: Text)
    ensures !Before(a, a)
  {
    if a != [] {
      BeforeIsIrreflexive(a[1..]);
    }
  }

  lemma {:induction false} BeforeIsTransitive(a: Text, b: Text, c: Text)
    requires Before(a, b) && Before(b, c)
    ensures Before(a, c)
  {
    if a != [] && a[0] == b[0] && b[0] == c[0] {
      BeforeIsTransitive(a[1..], b[1..], c[1..]);
    }
  }

  lemma {:induction false} BeforeIsTotal(a: Text, b: Text)
    ensures a == b || Before(a, b) || Before(b, a)
  {
    if a != [] && b != [] && a[0] == b[0] {
      BeforeIsTotal(a[1..], b[1..]);
      assert a == [a[0]] + a[1..] && b == [b[0]] + b[1..];
    }
  }

  /** Where two texts part decides their order. */
  lemma {:induction false} BeforeAtDifference(a: Text, b: Text, k: nat)
    requires k <= |a| && k < |b| && a[..k] == b[..k]
    requires k == |a| || a[k] < b[k]
    ensures Before(a, b)
  {
    if k > 0 {
      assert a[0] == a[..k][0] == b[..k][0] == b[0];
      assert a[1..][..k - 1] == a[..k][1..] && b[1..][..k - 1] == b[..k][1..];
      BeforeAtDifference(a[1..], b[1..], k - 1);
    }
  }
}

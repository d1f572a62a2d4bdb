/** A value that may be absent. The lexer uses `None` where the Go code returns its `eof` rune (-1). */
module Wrappers {

  datatype Option<+T> = None | Some(value: T)

  function Last<T>(s: seq<T>): T
    requires |s| > 0
  {
    s[|s| - 1]
  }
}

/** Facts about slices that the verifier does not find on its own. */
module Slices {

  /** A slice of a slice is a slice of the original. */
  lemma SliceOfSlice<T>(s: seq<T>, p: nat, e: nat, i: nat, j: nat)
    requires p <= e <= |s| && i <= j <= e - p
    ensures s[p..e][i..j] == s[p + i..p + j]
  {
    forall k | 0 <= k < j - i
      ensures s[p..e][i..j][k] == s[p + i..p + j][k]
    {
    }
  }

  /** Dropping the last element and then the first is dropping the first and then the last. */
  lemma InnerSlice<T>(s: seq<T>)
    requires |s| > 1
    ensures s[..|s| - 1] == [s[0]] + s[1..][..|s| - 2]
  {
  }

  /** Adjacent slices concatenate. */
  lemma SliceSplit<T>(s: seq<T>, i: nat, j: nat, k: nat)
    requires i <= j <= k <= |s|
    ensures s[i..j] + s[j..k] == s[i..k]
  {
  }

  /** A prefix and the slice after it make the longer prefix. */
  lemma PrefixSplit<T>(s: seq<T>, i: nat, j: nat)
    requires i <= j <= |s|
    ensures s[..i] + s[i..j] == s[..j]
  {
  }

  lemma AppendAssoc<T>(x: seq<T>, y: seq<T>, z: seq<T>)
    ensures (x + y) + z == x + (y + z)
  {
  }
}

/**
 * Runes and the parts of Go's `unicode` and `unicode/utf8` packages that the lexer consults.
 *
 * Go's `unicode.IsSpace`, `IsLetter`, `IsMark`, `IsDigit` and `IsPunct` are table driven. Their
 * tables are not modelled: the lexer takes any classification `u: CharClasses`, and
 * `AsciiFaithful(u)` pins the ASCII range to Go's answers. `unicode.IsControl` only ever answers
 * true inside Latin-1, so it is given exactly.
 */
module Runes {

  datatype CharClasses = CharClasses(
    isSpace: char -> bool,
    isLetter: char -> bool,
    isMark: char -> bool,
    isDigit: char -> bool,
    isPunct: char -> bool)

  predicate IsAscii(c: char) {
    c as int < 0x80
  }

  /** The ASCII runes for which Go's `unicode.IsSpace` answers true. */
  const AsciiSpaces: set<char> := {'\t', '\n', '\U{0B}', '\U{0C}', '\r', ' '}

  /** The ASCII runes in Unicode category P (Go's `unicode.IsPunct`); `$ + < = > ^ ` | ~` are symbols. */
  const AsciiPunctuation: set<char> := {'!', '"', '#', '%', '&', '\'', '(', ')', '*', ',', '-', '.', '/', ':', ';', '?', '@', '[', '\\', ']', '_', '{', '}'}

  predicate IsAsciiLetter(c: char) {
    'A' <= c <= 'Z' || 'a' <= c <= 'z'
  }

  predicate IsAsciiDigit(c: char) {
    '0' <= c <= '9'
  }

  /** `u` answers like Go's `unicode` package on every ASCII rune. */
  ghost predicate AsciiFaithful(u: CharClasses) {
    && (forall c: char :: IsAscii(c) ==> (u.isSpace(c) <==> c in AsciiSpaces))
    && (forall c: char :: IsAscii(c) ==> (u.isLetter(c) <==> IsAsciiLetter(c)))
    && (forall c: char :: IsAscii(c) ==> !u.isMark(c))
    && (forall c: char :: IsAscii(c) ==> (u.isDigit(c) <==> IsAsciiDigit(c)))
    && (forall c: char :: IsAscii(c) ==> (u.isPunct(c) <==> c in AsciiPunctuation))
  }

  /** The answers AsciiFaithful pins for one ASCII rune. */
  lemma AsciiAnswers(u: CharClasses, c: char)
    requires AsciiFaithful(u) && IsAscii(c)
    ensures u.isSpace(c) <==> c in AsciiSpaces
    ensures u.isLetter(c) <==> IsAsciiLetter(c)
    ensures !u.isMark(c)
    ensures u.isDigit(c) <==> IsAsciiDigit(c)
    ensures u.isPunct(c) <==> c in AsciiPunctuation
  {
  }

  /** A classification that knows only ASCII; it shows that AsciiFaithful can be met. */
  const AsciiOnly: CharClasses := CharClasses(
    c => c in AsciiSpaces,
    c => IsAsciiLetter(c),
    c => false,
    c => IsAsciiDigit(c),
    c => c in AsciiPunctuation)

  lemma AsciiOnlyIsFaithful()
    ensures AsciiFaithful(AsciiOnly)
  {
  }

  /** Go's `unicode.IsControl`: U+0000–U+001F and U+007F–U+009F, nothing else. */
  predicate IsControl(c: char) {
    c as int <= 0x1F || 0x7F <= c as int <= 0x9F
  }

  /** The number of bytes `utf8.EncodeRune` writes for `c`. */
  function Utf8Width(c: char): (w: nat)
    ensures 1 <= w <= 4
    ensures IsAscii(c) <==> w == 1
  {
    if c as int < 0x80 then 1
    else if c as int < 0x800 then 2
    else if c as int < 0x1_0000 then 3
    else 4
  }

  /** The length in bytes of the UTF-8 encoding of `s`. */
  function ByteLen(s: seq<char>): (n: nat)
    ensures |s| <= n <= 4 * |s|
  {
    if |s| == 0 then 0 else ByteLen(s[..|s| - 1]) + Utf8Width(s[|s| - 1])
  }

  lemma ByteLenPrefixStep(s: seq<char>, i: nat)
    requires i < |s|
    ensures ByteLen(s[..i + 1]) == ByteLen(s[..i]) + Utf8Width(s[i])
  {
    assert s[..i + 1][..i] == s[..i];
  }

  lemma {:induction false} ByteLenAppend(s: seq<char>, t: seq<char>)
    ensures ByteLen(s + t) == ByteLen(s) + ByteLen(t)
    decreases |t|
  {
    if |t| == 0 {
      assert s + t == s;
    } else {
      var t' := t[..|t| - 1];
      assert (s + t)[..|s + t| - 1] == s + t';
      ByteLenAppend(s, t');
    }
  }
}

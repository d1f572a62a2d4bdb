/**
 * lexString against the string grammar of section 7 of RFC 8259: every String item it emits is a
 * JSON string, and it emits one for every JSON string at the cursor.
 */
module StringProps {

  import opened Wrappers
  import opened Slices
  import opened Runes
  import opened Items
  import opened Grammar
  import opened Cursor
  import opened Lex

  lemma {:induction false} StringCharsAppend(a: string, b: string)
    requires StringChars(a) && StringChars(b)
    ensures StringChars(a + b)
    decreases |a|
  {
    if |a| == 0 {
      assert a + b == b;
    } else if a[0] == '\\' {
      if |a| >= 2 && a[1] in SimpleEscapes && StringChars(a[2..]) {
        assert (a + b)[2..] == a[2..] + b;
        StringCharsAppend(a[2..], b);
      } else {
        assert (a + b)[2..6] == a[2..6];
        assert (a + b)[6..] == a[6..] + b;
        StringCharsAppend(a[6..], b);
      }
    } else {
      assert (a + b)[1..] == a[1..] + b;
      StringCharsAppend(a[1..], b);
    }
  }

  /** One step of the string loop over an escape or a plain rune. */
  lemma StringBodySimpleEscape(l: Lexer)
    requires l.Valid() && l.pos + 2 <= |l.input| && l.input[l.pos] == '\\' && l.input[l.pos + 1] in SimpleEscapes
    ensures StringBody(l) == StringBody(l.(pos := l.pos + 2))
  {
    var l1 := Next(l).0;
    assert l1 == l.(pos := l.pos + 1);
    assert Accept(l1, SimpleEscapes) == (l.(pos := l.pos + 2), true);
  }

  lemma StringBodyUnicodeEscape(l: Lexer)
    requires l.Valid() && l.pos + 6 <= |l.input| && l.input[l.pos] == '\\' && l.input[l.pos + 1] == 'u'
    requires forall i :: l.pos + 2 <= i < l.pos + 6 ==> l.input[i] in HexDigits
    ensures StringBody(l) == StringBody(l.(pos := l.pos + 6))
  {
    var l1 := l.(pos := l.pos + 1);
    var l3 := l.(pos := l.pos + 2);
    assert Next(l) == (l1, Some('\\'));
    assert 'u' !in SimpleEscapes;
    assert Accept(l1, SimpleEscapes) == (l1, false);
    assert Next(l1) == (l3, Some('u'));
    var (l4, hex) := AcceptCount(l3, HexDigits, 4);
    assert hex && l4 == l.(pos := l.pos + 6);
  }

  /** A backslash that starts no valid escape stops the loop. */
  lemma StringBodyBadEscape(l: Lexer)
    requires l.Valid() && l.pos < |l.input| && l.input[l.pos] == '\\'
    requires !(l.pos + 2 <= |l.input| && l.input[l.pos + 1] in SimpleEscapes)
    requires !(l.pos + 6 <= |l.input| && l.input[l.pos + 1] == 'u' && forall i :: l.pos + 2 <= i < l.pos + 6 ==> l.input[i] in HexDigits)
    ensures StringBody(l).next == Stopped
  {
    var l1 := l.(pos := l.pos + 1);
    assert Next(l).0 == l1;
    assert Accept(l1, SimpleEscapes) == (l1, false);
    var (l3, e) := Next(l1);
    if e == Some('u') {
      assert !AcceptCount(l3, HexDigits, 4).1;
    }
  }

  lemma StringBodyPlain(l: Lexer)
    requires l.Valid() && l.pos < |l.input| && l.input[l.pos] != '\\' && l.input[l.pos] != '"' && !IsControl(l.input[l.pos])
    ensures StringBody(l) == StringBody(l.(pos := l.pos + 1))
  {
    assert Next(l) == (l.(pos := l.pos + 1), Some(l.input[l.pos]));
  }

  lemma StringCharsExtend(s: string, i: nat, j: nat, k: nat)
    requires i <= j <= k <= |s| && StringChars(s[i..j]) && StringChars(s[j..k])
    ensures StringChars(s[i..k])
  {
    assert s[i..k] == s[i..j] + s[j..k];
    StringCharsAppend(s[i..j], s[j..k]);
  }

  lemma SimpleEscapeChars(s: string, j: nat)
    requires j + 2 <= |s| && s[j] == '\\' && s[j + 1] in SimpleEscapes
    ensures StringChars(s[j..j + 2])
  {
    assert s[j..j + 2][2..] == [];
  }

  lemma UnicodeEscapeChars(s: string, j: nat)
    requires j + 6 <= |s| && s[j] == '\\' && s[j + 1] == 'u'
    requires forall i :: j + 2 <= i < j + 6 ==> s[i] in HexDigits
    ensures StringChars(s[j..j + 6])
  {
    var esc := s[j..j + 6];
    SliceOfSlice(s, j, j + 6, 2, 6);
    assert AllIn(esc[2..6], HexDigits);
    assert esc[6..] == [];
  }

  lemma PlainChars(s: string, j: nat)
    requires j < |s| && s[j] != '\\' && s[j] != '"' && !IsControl(s[j])
    ensures StringChars(s[j..j + 1])
  {
    assert s[j..j + 1][1..] == [];
  }

  /** The buffer holds an opening quote and valid string characters. */
  predicate OpenString(l: Lexer) {
    l.Valid() && l.start < l.pos && l.input[l.start] == '"' && StringChars(l.input[l.start + 1..l.pos])
  }

  /** What StringBodySound promises for `l`. */
  ghost predicate EmitsJsonString(l: Lexer)
    requires l.Valid()
  {
    StringBody(l).next == TextState ==> JsonString(l.input[l.start..StringBody(l).l.pos])
  }

  /** The loop keeps "opening quote, then valid string characters" in the buffer, so whatever it
      emits is a JSON string. */
  lemma {:induction false} StringBodySound(l: Lexer)
    requires OpenString(l)
    ensures EmitsJsonString(l)
    decreases |l.input| - l.pos, 1
  {
    if l.pos == |l.input| {
      StringBodyAtEnd(l);
    } else if l.input[l.pos] == '"' {
      StringBodyAtQuote(l);
    } else if l.input[l.pos] == '\\' {
      if l.pos + 2 <= |l.input| && l.input[l.pos + 1] in SimpleEscapes {
        StringBodySoundSimple(l);
      } else if l.pos + 6 <= |l.input| && l.input[l.pos + 1] == 'u'
             && forall i :: l.pos + 2 <= i < l.pos + 6 ==> l.input[i] in HexDigits
      {
        StringBodySoundUnicode(l);
      } else {
        StringBodyBadEscape(l);
      }
    } else if !IsControl(l.input[l.pos]) {
      StringBodySoundPlain(l);
    } else {
      StringBodyControl(l);
    }
  }

  /** At the end of input the loop stops. */
  lemma StringBodyAtEnd(l: Lexer)
    requires l.Valid() && l.pos == |l.input|
    ensures StringBody(l).next == Stopped
  {
  }

  /** A control rune stops the loop. */
  lemma StringBodyControl(l: Lexer)
    requires l.Valid() && l.pos < |l.input| && IsControl(l.input[l.pos])
    ensures StringBody(l).next == Stopped
  {
    assert !IsControl('"') && !IsControl('\\');
  }

  lemma StringBodyAtQuote(l: Lexer)
    requires OpenString(l) && l.pos < |l.input| && l.input[l.pos] == '"'
    ensures EmitsJsonString(l)
  {
    assert StringBody(l).l.pos == l.pos + 1;
    var v := l.input[l.start..l.pos + 1];
    assert v[1..|v| - 1] == l.input[l.start + 1..l.pos];
  }

  /** A simple escape extends the buffer and leaves the rest of the loop to the runes after it. */
  lemma SimpleEscapeStep(l: Lexer)
    requires OpenString(l) && l.pos + 2 <= |l.input| && l.input[l.pos] == '\\' && l.input[l.pos + 1] in SimpleEscapes
    ensures OpenString(l.(pos := l.pos + 2)) && StringBody(l) == StringBody(l.(pos := l.pos + 2))
  {
    var next := l.(pos := l.pos + 2);
    SimpleEscapeChars(l.input, l.pos);
    StringCharsExtend(l.input, l.start + 1, l.pos, next.pos);
    assert next.input[next.start + 1..next.pos] == l.input[l.start + 1..next.pos];
    StringBodySimpleEscape(l);
  }

  lemma {:induction false} StringBodySoundSimple(l: Lexer)
    requires OpenString(l) && l.pos + 2 <= |l.input| && l.input[l.pos] == '\\' && l.input[l.pos + 1] in SimpleEscapes
    ensures EmitsJsonString(l)
    decreases |l.input| - l.pos, 0
  {
    SimpleEscapeStep(l);
    StringBodySound(l.(pos := l.pos + 2));
  }

  /** A `\\u` escape with four hex digits extends the buffer and leaves the rest of the loop to the
      runes after it. */
  lemma UnicodeEscapeStep(l: Lexer)
    requires OpenString(l) && l.pos + 6 <= |l.input| && l.input[l.pos] == '\\' && l.input[l.pos + 1] == 'u'
    requires forall i :: l.pos + 2 <= i < l.pos + 6 ==> l.input[i] in HexDigits
    ensures OpenString(l.(pos := l.pos + 6)) && StringBody(l) == StringBody(l.(pos := l.pos + 6))
  {
    var next := l.(pos := l.pos + 6);
    UnicodeEscapeChars(l.input, l.pos);
    StringCharsExtend(l.input, l.start + 1, l.pos, next.pos);
    assert next.input[next.start + 1..next.pos] == l.input[l.start + 1..next.pos];
    assert OpenString(next);
    StringBodyUnicodeEscape(l);
  }

  lemma {:induction false} StringBodySoundUnicode(l: Lexer)
    requires OpenString(l) && l.pos + 6 <= |l.input| && l.input[l.pos] == '\\' && l.input[l.pos + 1] == 'u'
    requires forall i :: l.pos + 2 <= i < l.pos + 6 ==> l.input[i] in HexDigits
    ensures EmitsJsonString(l)
    decreases |l.input| - l.pos, 0
  {
    UnicodeEscapeStep(l);
    StringBodySound(l.(pos := l.pos + 6));
  }

  /** A plain rune extends the buffer and leaves the rest of the loop to the runes after it. */
  lemma PlainStep(l: Lexer)
    requires OpenString(l) && l.pos < |l.input| && l.input[l.pos] != '\\' && l.input[l.pos] != '"' && !IsControl(l.input[l.pos])
    ensures OpenString(l.(pos := l.pos + 1)) && StringBody(l) == StringBody(l.(pos := l.pos + 1))
  {
    var next := l.(pos := l.pos + 1);
    PlainChars(l.input, l.pos);
    StringCharsExtend(l.input, l.start + 1, l.pos, next.pos);
    assert next.input[next.start + 1..next.pos] == l.input[l.start + 1..next.pos];
    StringBodyPlain(l);
  }

  lemma {:induction false} StringBodySoundPlain(l: Lexer)
    requires OpenString(l) && l.pos < |l.input| && l.input[l.pos] != '\\' && l.input[l.pos] != '"' && !IsControl(l.input[l.pos])
    ensures EmitsJsonString(l)
    decreases |l.input| - l.pos, 0
  {
    PlainStep(l);
    StringBodySound(l.(pos := l.pos + 1));
  }

  lemma LexStringSound(l: Lexer)
    requires AtTokenStart(l) && Peek(l) == Some('"')
    ensures LexString(l).next == TextState ==> JsonString(l.input[l.pos..LexString(l).l.pos])
  {
    var l1 := Next(l).0;
    assert l.input[l1.start + 1..l1.pos] == [];
    StringBodySound(l1);
    assert LexString(l) == StringBody(l1);
  }

  /** The runes from the cursor up to a quote at `e` are valid string characters. */
  predicate ValidUpTo(l: Lexer, e: nat) {
    l.Valid() && l.pos <= e < |l.input| && l.input[e] == '"' && StringChars(l.input[l.pos..e])
  }

  /** The loop stops at the quote at `e` and returns to lexText. */
  predicate ClosesAtQuote(l: Lexer, e: nat)
    requires l.Valid()
  {
    StringBody(l).next == TextState && StringBody(l).l.pos == e + 1
  }

  /** When the runes from the cursor up to a quote at `e` are valid string characters, the loop
      reaches that quote and returns to lexText right after it. */
  lemma {:induction false} StringBodyComplete(l: Lexer, e: nat)
    requires ValidUpTo(l, e)
    ensures ClosesAtQuote(l, e)
    decreases e - l.pos, 1
  {
    var s := l.input[l.pos..e];
    if l.pos == e {
      StringBodyAtQuoteEnds(l);
    } else if s[0] == '\\' {
      if |s| >= 2 && s[1] in SimpleEscapes && StringChars(s[2..]) {
        StringBodyCompleteSimple(l, e);
      } else {
        StringBodyCompleteUnicode(l, e);
      }
    } else {
      StringBodyCompletePlain(l, e);
    }
  }

  lemma StringBodyAtQuoteEnds(l: Lexer)
    requires l.Valid() && l.pos < |l.input| && l.input[l.pos] == '"'
    ensures ClosesAtQuote(l, l.pos)
  {
  }

  lemma {:induction false} StringBodyCompleteSimple(l: Lexer, e: nat)
    requires ValidUpTo(l, e) && l.pos + 2 <= e && l.input[l.pos] == '\\' && l.input[l.pos + 1] in SimpleEscapes
    requires StringChars(l.input[l.pos..e][2..])
    ensures ClosesAtQuote(l, e)
    decreases e - l.pos, 0
  {
    assert l.input[l.pos..e][2..] == l.input[l.pos + 2..e];
    StringBodySimpleEscape(l);
    StringBodyComplete(l.(pos := l.pos + 2), e);
  }

  lemma {:induction false} StringBodyCompleteUnicode(l: Lexer, e: nat)
    requires ValidUpTo(l, e) && l.pos < e && l.input[l.pos] == '\\'
    requires !(e - l.pos >= 2 && l.input[l.pos + 1] in SimpleEscapes && StringChars(l.input[l.pos..e][2..]))
    ensures ClosesAtQuote(l, e)
    decreases e - l.pos, 0
  {
    var s := l.input[l.pos..e];
    assert |s| >= 6 && s[1] == 'u' && AllIn(s[2..6], HexDigits) && StringChars(s[6..]);
    assert s[6..] == l.input[l.pos + 6..e];
    forall i | l.pos + 2 <= i < l.pos + 6
      ensures l.input[i] in HexDigits
    {
      assert l.input[i] == s[2..6][i - l.pos - 2];
    }
    StringBodyUnicodeEscape(l);
    StringBodyComplete(l.(pos := l.pos + 6), e);
  }

  lemma {:induction false} StringBodyCompletePlain(l: Lexer, e: nat)
    requires ValidUpTo(l, e) && l.pos < e && l.input[l.pos] != '\\'
    ensures ClosesAtQuote(l, e)
    decreases e - l.pos, 0
  {
    var s := l.input[l.pos..e];
    assert s[1..] == l.input[l.pos + 1..e];
    StringBodyPlain(l);
    StringBodyComplete(l.(pos := l.pos + 1), e);
  }

  /** Every JSON string at the cursor is emitted whole, as one String item. */
  lemma LexStringComplete(l: Lexer, v: string)
    requires AtTokenStart(l) && JsonString(v) && v <= l.input[l.pos..]
    ensures LexString(l).next == TextState
    ensures Last(LexString(l).l.items) == Item(String, ByteOffset(l, l.pos), v)
  {
    assert l.input[l.pos..l.pos + |v|] == v;
    assert l.input[l.pos + 1..l.pos + |v| - 1] == v[1..|v| - 1];
    StringBodyComplete(Next(l).0, l.pos + |v| - 1);
  }

  /** lexString fails exactly when no prefix of the input at the cursor is a JSON string; it then
      emits one of the four string messages. */
  lemma LexStringFailsIff(l: Lexer)
    requires AtTokenStart(l) && Peek(l) == Some('"')
    ensures LexString(l).next == Stopped <==>
              forall n :: l.pos <= n <= |l.input| ==> !JsonString(l.input[l.pos..n])
    ensures LexString(l).next == Stopped ==> Last(LexString(l).l.items).val in StringErrors
  {
    var r := LexString(l);
    if r.next == Stopped {
      forall n | l.pos <= n <= |l.input|
        ensures !JsonString(l.input[l.pos..n])
      {
        if JsonString(l.input[l.pos..n]) {
          LexStringComplete(l, l.input[l.pos..n]);
        }
      }
    } else {
      LexStringSound(l);
    }
  }
}

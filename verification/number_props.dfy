/**
 * lexNumber against the number grammar: what it emits is a number in the sense of section 6 of
 * RFC 8259 (with the lexer's lenient empty fraction), a number at the cursor that nothing
 * number-like follows is emitted whole, and "bad digit for number" is reported exactly when no
 * digit follows the optional minus.
 */
module NumberProps {

  import opened Wrappers
  import opened Slices
  import opened Runes
  import opened Items
  import opened Grammar
  import opened Cursor
  import opened Lex
  import opened NumberScan

  // ---------------------------------------------------------------- the grammar on slices

  lemma AllInSlice(s: string, i: nat, j: nat, valid: set<char>)
    requires i <= j <= |s| && forall k :: i <= k < j ==> s[k] in valid
    ensures AllIn(s[i..j], valid)
  {
    assert forall k :: 0 <= k < j - i ==> s[i..j][k] == s[i + k];
  }

  /** A marker, an optional sign and at least one digit make an exponent. */
  lemma ExpFromParts(s: string, i: nat, e: nat)
    requires i < |s| && s[i] in {'e', 'E'} && ExpDigitsStart(s, i) < e <= |s|
    requires forall k :: ExpDigitsStart(s, i) <= k < e ==> s[k] in Digits
    ensures ExpPart(s[i..e])
  {
    var q := ExpDigitsStart(s, i);
    var x := s[i..e];
    assert x[0] == s[i] && x[1] == s[i + 1];
    AllInSlice(s, q, e, Digits);
    SliceOfSlice(s, i, e, q - i, e - i);
    assert x[q - i..] == x[q - i..e - i];
  }

  /** The parts of a nonempty exponent: a marker, then an optional sign, then digits. */
  lemma ExpShape(s: string, i: nat, e: nat)
    requires i < e <= |s| && ExpPart(s[i..e])
    ensures s[i] in {'e', 'E'} && ExpDigitsStart(s, i) < e
    ensures forall k :: ExpDigitsStart(s, i) <= k < e ==> s[k] in Digits
  {
    var x := s[i..e];
    assert x[0] == s[i] && x[1] == s[i + 1];
    var q := ExpDigitsStart(s, i);
    var d := if x[1] in {'+', '-'} then x[2..] else x[1..];
    SliceOfSlice(s, i, e, q - i, e - i);
    assert x[q - i..] == x[q - i..e - i];
    assert d == s[q..e];
    forall k | q <= k < e
      ensures s[k] in Digits
    {
      assert s[k] == d[k - q];
    }
  }

  /** The runes FracEnd passes over form a fraction. */
  lemma FracFromParts(s: string, i: nat)
    requires i <= |s|
    ensures FracPart(s[i..FracEnd(s, i)])
  {
    var c := FracEnd(s, i);
    if c > i {
      RunEndSpans(s, i + 1, Digits);
      AllInSlice(s, i + 1, c, Digits);
      SliceOfSlice(s, i, c, 1, c - i);
      assert s[i..c][1..] == s[i..c][1..c - i];
    }
  }

  /** A sign, an integer part, a fraction and an exponent, one after the other, make a number. */
  lemma NumberFromConcat(x: string, y: string, z: string, w: string)
    requires Sign(x) && IntPart(y) && FracPart(z) && ExpPart(w)
    ensures NumberSplit(x + y + z + w, |x|, |x| + |y|, |x| + |y| + |z|)
  {
    var v := x + y + z + w;
    assert v[..|x|] == x;
    assert v[|x|..|x| + |y|] == y;
    assert v[|x| + |y|..|x| + |y| + |z|] == z;
    assert v[|x| + |y| + |z|..] == w;
  }

  /** Sign, integer part, fraction and exponent side by side make a number. */
  lemma NumberFromSlices(s: string, p: nat, a: nat, b: nat, c: nat, e: nat)
    requires p <= a <= b <= c <= e <= |s|
    requires Sign(s[p..a]) && IntPart(s[a..b]) && FracPart(s[b..c]) && ExpPart(s[c..e])
    ensures JsonNumber(s[p..e])
  {
    assert s[p..e] == s[p..a] + s[a..b] + s[b..c] + s[c..e] by {
      SliceSplit(s, p, a, b);
      SliceSplit(s, p, b, c);
      SliceSplit(s, p, c, e);
    }
    NumberFromConcat(s[p..a], s[a..b], s[b..c], s[c..e]);
  }

  lemma SignFromParts(s: string, p: nat)
    requires p <= |s|
    ensures p + SignLen(s, p) <= |s| && Sign(s[p..p + SignLen(s, p)])
  {
    if SignLen(s, p) == 1 {
      assert s[p..p + 1] == [s[p]];
    }
  }

  /** The runes IntEnd passes over form an integer part when the first is a digit. */
  lemma IntFromParts(s: string, i: nat)
    requires i < |s| && s[i] in Digits
    ensures i < IntEnd(s, i) && IntPart(s[i..IntEnd(s, i)])
  {
    var b := IntEnd(s, i);
    if s[i] in Digits1To9 {
      RunEndSpans(s, i + 1, Digits);
      AllInSlice(s, i + 1, b, Digits);
      SliceOfSlice(s, i, b, 1, b - i);
      assert s[i..b][1..] == s[i..b][1..b - i];
    } else {
      assert s[i..b] == "0";
    }
  }

  /** The parts of a number that sits at `p..e` of the input, as slices of the input. */
  lemma SplitParts(s: string, p: nat, e: nat, a: nat, b: nat, c: nat)
    requires p <= e <= |s| && NumberSplit(s[p..e], a, b, c)
    ensures Sign(s[p..p + a]) && IntPart(s[p + a..p + b])
    ensures FracPart(s[p + b..p + c]) && ExpPart(s[p + c..e])
  {
    var v := s[p..e];
    assert s[p..p + a] == v[..a] by {
      SliceOfSlice(s, p, e, 0, a);
      assert v[..a] == v[0..a];
    }
    assert s[p + a..p + b] == v[a..b] by {
      SliceOfSlice(s, p, e, a, b);
    }
    assert s[p + b..p + c] == v[b..c] by {
      SliceOfSlice(s, p, e, b, c);
    }
    assert s[p + c..e] == v[c..] by {
      SliceOfSlice(s, p, e, c, |v|);
      assert v[c..] == v[c..|v|];
    }
  }

  // ---------------------------------------------------------------- one lemma per path of the lexer

  lemma AcceptIs(l: Lexer, valid: set<char>)
    requires l.Valid()
    ensures Accept(l, valid) ==
              if l.pos < |l.input| && l.input[l.pos] in valid then (l.(pos := l.pos + 1), true) else (l, false)
  {
  }

  lemma AcceptRunIs(l: Lexer, valid: set<char>)
    requires l.Valid()
    ensures AcceptRun(l, valid) == l.(pos := RunEnd(l.input, l.pos, valid))
  {
    RunEndUnique(l.input, l.pos, valid, AcceptRun(l, valid).pos);
  }

  lemma AcceptIntegerIs(l: Lexer)
    requires l.Valid()
    ensures var i := l.pos + SignLen(l.input, l.pos);
            AcceptInteger(l) == (l.(pos := IntEnd(l.input, i)), i < |l.input| && l.input[i] in Digits)
  {
    var i := l.pos + SignLen(l.input, l.pos);
    AcceptIs(l, {'-'});
    var l1 := l.(pos := i);
    assert Accept(l, {'-'}).0 == l1;
    AcceptIs(l1, Digits1To9);
    if i < |l.input| && l.input[i] in Digits1To9 {
      AcceptRunIs(l.(pos := i + 1), Digits);
    } else {
      AcceptIs(l1, {'0'});
    }
  }

  lemma AcceptFractionIs(l: Lexer)
    requires l.Valid()
    ensures AcceptFraction(l) == l.(pos := FracEnd(l.input, l.pos))
  {
    AcceptIs(l, {'.'});
    if l.pos < |l.input| && l.input[l.pos] == '.' {
      AcceptRunIs(l.(pos := l.pos + 1), Digits);
    }
  }

  /** AcceptExponentDigits entered just after the marker at `i`. */
  lemma AcceptExponentDigitsIs(l: Lexer, i: nat)
    requires l.Valid() && l.pos == i + 1
    ensures var q := ExpDigitsStart(l.input, i);
            AcceptExponentDigits(l) ==
              if q < |l.input| && l.input[q] in Digits then (l.(pos := RunEnd(l.input, q + 1, Digits)), true)
              else (l.(pos := q), false)
  {
    var q := ExpDigitsStart(l.input, i);
    AcceptIs(l, {'+', '-'});
    var l1 := l.(pos := q);
    assert Accept(l, {'+', '-'}).0 == l1;
    AcceptIs(l1, Digits);
    if q < |l.input| && l.input[q] in Digits {
      AcceptRunIs(l.(pos := q + 1), Digits);
    }
  }

  lemma ExponentAbsent(l: Lexer)
    requires l.Valid() && !(l.pos < |l.input| && l.input[l.pos] in {'e', 'E'})
    ensures NumberExponent(l) == Step(Emit(l, Number), TextState)
  {
    AcceptIs(l, {'e', 'E'});
  }

  lemma ExponentDigits(l: Lexer)
    requires l.Valid() && l.pos < |l.input| && l.input[l.pos] in {'e', 'E'}
    requires ExpDigitsStart(l.input, l.pos) < |l.input| && l.input[ExpDigitsStart(l.input, l.pos)] in Digits
    ensures NumberExponent(l) ==
              Step(Emit(l.(pos := RunEnd(l.input, ExpDigitsStart(l.input, l.pos) + 1, Digits)), Number), TextState)
  {
    AcceptIs(l, {'e', 'E'});
    AcceptExponentDigitsIs(l.(pos := l.pos + 1), l.pos);
  }

  lemma ExponentNoDigit(l: Lexer)
    requires l.Valid() && l.pos < |l.input| && l.input[l.pos] in {'e', 'E'}
    requires !(ExpDigitsStart(l.input, l.pos) < |l.input| && l.input[ExpDigitsStart(l.input, l.pos)] in Digits)
    ensures NumberExponent(l).next == Stopped
  {
    AcceptIs(l, {'e', 'E'});
    AcceptExponentDigitsIs(l.(pos := l.pos + 1), l.pos);
  }

  /** Where the exponent scan stops, NumberExponent emits the number. */
  lemma ExponentReaches(l: Lexer, e: nat)
    requires l.Valid() && ExpEnd(l.input, l.pos) == Some(e)
    ensures NumberExponent(l) == Step(Emit(l.(pos := e), Number), TextState)
  {
    if l.pos < |l.input| && l.input[l.pos] in {'e', 'E'} {
      ExponentDigits(l);
    } else {
      ExponentAbsent(l);
    }
  }

  lemma TailIsExponent(l: Lexer)
    requires l.Valid()
    ensures NumberTail(l) == NumberExponent(l.(pos := FracEnd(l.input, l.pos)))
  {
    AcceptFractionIs(l);
  }

  /** lexNumber's two outcomes: no digit after the optional minus, or the tail after the integer
      part. */
  lemma LexNumberIs(l: Lexer)
    requires AtTokenStart(l)
    ensures var i := l.pos + SignLen(l.input, l.pos);
            LexNumber(l) ==
              if i < |l.input| && l.input[i] in Digits then NumberTail(l.(pos := IntEnd(l.input, i)))
              else Step(Errorf(l.(pos := i), BadDigit), Stopped)
  {
    AcceptIntegerIs(l);
  }

  // ---------------------------------------------------------------- soundness

  lemma NumberExponentSound(l: Lexer)
    requires l.Valid()
    ensures NumberExponent(l).next == TextState ==> ExpPart(l.input[l.pos..NumberExponent(l).l.pos])
  {
    var s := l.input;
    if !(l.pos < |s| && s[l.pos] in {'e', 'E'}) {
      ExponentAbsent(l);
    } else if ExpDigitsStart(s, l.pos) < |s| && s[ExpDigitsStart(s, l.pos)] in Digits {
      ExponentDigits(l);
      RunEndSpans(s, ExpDigitsStart(s, l.pos) + 1, Digits);
      ExpFromParts(s, l.pos, RunEnd(s, ExpDigitsStart(s, l.pos) + 1, Digits));
    } else {
      ExponentNoDigit(l);
    }
  }

  lemma NumberTailSound(l: Lexer)
    requires l.Valid()
    ensures NumberTail(l).next == TextState ==>
              FracEnd(l.input, l.pos) <= NumberTail(l).l.pos &&
              FracPart(l.input[l.pos..FracEnd(l.input, l.pos)]) &&
              ExpPart(l.input[FracEnd(l.input, l.pos)..NumberTail(l).l.pos])
  {
    TailIsExponent(l);
    FracFromParts(l.input, l.pos);
    NumberExponentSound(l.(pos := FracEnd(l.input, l.pos)));
  }

  /** A sign and an integer part before m.pos, then whatever NumberTail accepts, make a number. */
  lemma NumberFromParts(l: Lexer, a: nat, m: Lexer)
    requires AtTokenStart(l) && m.Valid() && m.input == l.input && l.pos + a < m.pos
    requires Sign(l.input[l.pos..l.pos + a]) && IntPart(l.input[l.pos + a..m.pos])
    ensures NumberTail(m).next == TextState ==> JsonNumber(l.input[l.pos..NumberTail(m).l.pos])
  {
    NumberTailSound(m);
    if NumberTail(m).next == TextState {
      NumberFromSlices(l.input, l.pos, l.pos + a, m.pos, FracEnd(l.input, m.pos), NumberTail(m).l.pos);
    }
  }

  /** Every Number item lexNumber emits is a number. */
  lemma LexNumberSound(l: Lexer)
    requires AtTokenStart(l)
    ensures LexNumber(l).next == TextState ==> JsonNumber(l.input[l.pos..LexNumber(l).l.pos])
  {
    var s := l.input;
    var a := SignLen(s, l.pos);
    var i := l.pos + a;
    LexNumberIs(l);
    if i < |s| && s[i] in Digits {
      SignFromParts(s, l.pos);
      IntFromParts(s, i);
      NumberFromParts(l, a, l.(pos := IntEnd(s, i)));
    }
  }

  // ---------------------------------------------------------------- completeness

  /** The exponent scan stops at the end of an exponent that no number rune follows, and what
      starts there is neither a digit nor a `.`. */
  lemma ExpStops(s: string, c: nat, e: nat)
    requires c <= e <= |s| && ExpPart(s[c..e])
    requires e == |s| || s[e] !in NumberContinuation
    ensures ExpEnd(s, c) == Some(e)
    ensures c == |s| || (s[c] !in Digits && s[c] != '.')
  {
    if c < e {
      ExpShape(s, c, e);
      RunEndUnique(s, ExpDigitsStart(s, c) + 1, Digits, e);
    }
  }

  /** The fraction scan stops at the end of a fraction that neither a digit nor a `.` follows, and
      what starts there is not a digit. */
  lemma FracStops(s: string, b: nat, c: nat)
    requires b <= c <= |s| && FracPart(s[b..c])
    requires c == |s| || (s[c] !in Digits && s[c] != '.')
    ensures FracEnd(s, b) == c
    ensures b == |s| || s[b] !in Digits
  {
    if b < c {
      assert s[b..c][0] == s[b];
      forall k | b + 1 <= k < c
        ensures s[k] in Digits
      {
        assert s[k] == s[b..c][1..][k - b - 1];
      }
      RunEndUnique(s, b + 1, Digits, c);
    }
  }

  /** The integer scan stops at the end of an integer part that no digit follows. */
  lemma IntStops(s: string, i: nat, b: nat)
    requires i <= b <= |s| && IntPart(s[i..b])
    requires b == |s| || s[b] !in Digits
    ensures i < |s| && s[i] in Digits && IntEnd(s, i) == b
  {
    assert s[i..b][0] == s[i];
    if s[i] in Digits1To9 {
      forall k | i + 1 <= k < b
        ensures s[k] in Digits
      {
        assert s[k] == s[i..b][1..][k - i - 1];
      }
      RunEndUnique(s, i + 1, Digits, b);
    }
  }

  /** The sign in front of a digit is the optional minus SignLen measures. */
  lemma SignStops(s: string, p: nat, i: nat)
    requires p <= i < |s| && Sign(s[p..i]) && s[i] in Digits
    ensures i == p + SignLen(s, p)
  {
    if i > p {
      assert s[p..i][0] == s[p];
    }
  }

  /** lexNumber's scan stops exactly at the end of a number, given as its sign s[p..i], integer
      part s[i..b], fraction s[b..c] and exponent s[c..e], that no number rune follows. */
  lemma NumberAtCursor(s: string, p: nat, i: nat, b: nat, c: nat, e: nat)
    requires p <= i <= b <= c <= e <= |s|
    requires Sign(s[p..i]) && IntPart(s[i..b]) && FracPart(s[b..c]) && ExpPart(s[c..e])
    requires e == |s| || s[e] !in NumberContinuation
    ensures ScanEnd(s, p) == Some(e)
  {
    ExpStops(s, c, e);
    FracStops(s, b, c);
    IntStops(s, i, b);
    SignStops(s, p, i);
    ScanEndFromStops(s, p, b, c, e);
  }

  /** Where the scan stops, lexNumber emits the number and hands back to lexText. */
  lemma LexNumberReaches(l: Lexer, e: nat)
    requires AtTokenStart(l) && ScanEnd(l.input, l.pos) == Some(e)
    ensures LexNumber(l) == Step(Emit(l.(pos := e), Number), TextState)
  {
    var b := IntEnd(l.input, l.pos + SignLen(l.input, l.pos));
    var m := l.(pos := FracEnd(l.input, b));
    LexNumberIs(l);
    TailIsExponent(l.(pos := b));
    assert l.(pos := b).(pos := m.pos) == m;
    ExponentReaches(m, e);
    assert m.(pos := e) == l.(pos := e);
  }

  /** A number at the cursor, written as its sign s[pos..i], integer part s[i..b], fraction s[b..c]
      and exponent s[c..e] (SplitParts cuts a NumberSplit into these), that no further digit, `.`,
      `e` or `E` follows is consumed and emitted whole, and lexNumber hands back to lexText. */
  lemma LexNumberComplete(l: Lexer, i: nat, b: nat, c: nat, e: nat)
    requires AtTokenStart(l) && l.pos <= i <= b <= c <= e <= |l.input|
    requires Sign(l.input[l.pos..i]) && IntPart(l.input[i..b]) && FracPart(l.input[b..c]) && ExpPart(l.input[c..e])
    requires e == |l.input| || l.input[e] !in NumberContinuation
    ensures LexNumber(l) == Step(Emit(l.(pos := e), Number), TextState)
  {
    NumberAtCursor(l.input, l.pos, i, b, c, e);
    LexNumberReaches(l, e);
  }

  // ---------------------------------------------------------------- the error

  /** "bad digit for number" is reported exactly when no digit follows the optional minus. */
  lemma BadDigitIff(l: Lexer)
    requires AtTokenStart(l)
    ensures (LexNumber(l).next == Stopped && Last(LexNumber(l).l.items).val == BadDigit) <==>
              !(l.pos + SignLen(l.input, l.pos) < |l.input| && l.input[l.pos + SignLen(l.input, l.pos)] in Digits)
  {
    LexNumberIs(l);
  }
}

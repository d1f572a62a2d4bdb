/**
 * lexIdentifier: which leading runes it accepts, what text it emits and under which kind, why a
 * leading backslash always fails, and which leading rune makes it emit an empty identifier
 * without consuming anything.
 */
module IdentProps {

  import opened Wrappers
  import opened Runes
  import opened Items
  import opened Grammar
  import opened Cursor
  import opened Lex

  /**
   * lexIdentifier's three outcomes: a letter, `$` or `_` starts the continuation loop; a backslash
   * gives "'u' for unicode escape sequence expected", because accept("u") sees the backslash that
   * was only peeked; anything else, and the end of input, gives "identifier expected".
   */
  lemma LexIdentifierIs(u: CharClasses, l: Lexer)
    requires AtTokenStart(l)
    ensures LexIdentifier(u, l) ==
              if Peek(l).Some? && IdentifierStart(u, Peek(l).value) then IdentifierTail(u, l)
              else if Peek(l) == Some('\\') then Step(Errorf(l, UExpected), Stopped)
              else Step(Errorf(l, IdentifierExpected), Stopped)
  {
    if Peek(l) == Some('\\') && !IdentifierStart(u, '\\') {
      assert Accept(l, {'u'}) == (l, false);
    }
  }

  /** The runes the continuation loop consumes, starting at the token start. */
  function IdentifierEnd(u: CharClasses, l: Lexer): (e: nat)
    requires l.Valid()
    ensures l.pos <= e <= |l.input|
    ensures forall i :: l.pos <= i < e ==> IsIdentifierPart(u, l.input[i])
    ensures e == |l.input| || !IsIdentifierPart(u, l.input[e])
  {
    AcceptWhile(l, c => IsIdentifierPart(u, c)).pos
  }

  /**
   * What lexIdentifier emits when its first rune is accepted: the longest run of identifier-part
   * runes, as True, False or Null when it spells that keyword and as an Identifier otherwise. The
   * run is empty exactly when the first rune is not itself an identifier part.
   */
  lemma LexIdentifierEmits(u: CharClasses, l: Lexer)
    requires AtTokenStart(l) && Peek(l).Some? && IdentifierStart(u, Peek(l).value)
    ensures var r := LexIdentifier(u, l);
            var v := l.input[l.pos..IdentifierEnd(u, l)];
            && r.next == TextState
            && r.l.pos == IdentifierEnd(u, l)
            && r.l.items == l.items + [Item(KeywordType(v), ByteOffset(l, l.pos), v)]
    ensures (IdentifierEnd(u, l) == l.pos) <==> !IsIdentifierPart(u, l.input[l.pos])
  {
    LexIdentifierIs(u, l);
  }

  /** A nonempty emitted text is a keyword or an identifier that starts with a letter, `$` or `_`
      and continues with identifier-part runes only. */
  lemma LexIdentifierSound(u: CharClasses, l: Lexer)
    requires AtTokenStart(l)
    ensures var r := LexIdentifier(u, l);
            var v := l.input[l.pos..r.l.pos];
            r.next == TextState && l.pos < r.l.pos ==> v in Keywords || IdentifierText(u, v)
  {
    LexIdentifierIs(u, l);
    if Peek(l).Some? && IdentifierStart(u, Peek(l).value) {
      var e := IdentifierEnd(u, l);
      var v := l.input[l.pos..e];
      if l.pos < e && v !in Keywords {
        assert v[0] == l.input[l.pos];
        assert forall i :: 0 <= i < |v| ==> v[i] == l.input[l.pos + i];
      }
    }
  }

  /** lexIdentifier returns to lexText without consuming a rune exactly when the next rune may start
      an identifier but cannot continue one. */
  lemma IdentifierStallIff(u: CharClasses, l: Lexer)
    requires AtTokenStart(l)
    ensures (LexIdentifier(u, l).next == TextState && LexIdentifier(u, l).l.pos == l.pos) <==>
              Peek(l).Some? && IdentifierStart(u, Peek(l).value) && !IsIdentifierPart(u, Peek(l).value)
  {
    LexIdentifierIs(u, l);
  }

  /** With Go's answers on ASCII, `$` is the only rune that may start an identifier but not
      continue one: it is neither a letter nor punctuation (it is a currency symbol). */
  lemma StallRuneIsDollar(u: CharClasses, c: char)
    requires AsciiFaithful(u)
    ensures IdentifierStart(u, c) && !IsIdentifierPart(u, c) <==> c == '$'
  {
    AsciiAnswers(u, '$');
    AsciiAnswers(u, '_');
    if IsAscii(c) {
      AsciiAnswers(u, c);
    }
  }

  /** The ASCII punctuation that is no delimiter. It includes the quote, `#`, `/` and `-`. */
  const AsciiIdentifierPunct: set<char> :=
    {'!', '"', '#', '%', '&', '\'', '(', ')', '*', '-', '.', '/', ';', '?', '@', '\\', '_'}

  /** Under Go's ASCII answers, an ASCII rune continues an identifier exactly when it is a letter,
      a digit, or one of AsciiIdentifierPunct. */
  lemma IdentifierPartAscii(u: CharClasses, c: char)
    requires AsciiFaithful(u) && IsAscii(c)
    ensures IsIdentifierPart(u, c) <==> IsAsciiLetter(c) || IsAsciiDigit(c) || c in AsciiIdentifierPunct
  {
    AsciiAnswers(u, c);
    if IsAsciiLetter(c) || IsAsciiDigit(c) {
      AlnumIsNoDelimiter(c);
    } else {
      PunctNoDelimiter(c);
    }
  }

  /** ASCII letters and digits are neither delimiters nor punctuation. */
  lemma AlnumIsNoDelimiter(c: char)
    requires IsAsciiLetter(c) || IsAsciiDigit(c)
    ensures c !in Delimiters && c !in AsciiIdentifierPunct
  {
  }

  /** AsciiIdentifierPunct is the ASCII punctuation less the delimiters. */
  lemma PunctNoDelimiter(c: char)
    ensures c in AsciiPunctuation && c !in Delimiters <==> c in AsciiIdentifierPunct
  {
  }
}

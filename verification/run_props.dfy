/**
 * The item stream as a whole. Every state function keeps the lexer invariant or finishes a
 * well-formed stream, so a stream that ends is well formed; a stream that never ends stalls at a
 * rune that may start an identifier but not continue one, which with Go's character tables is
 * exactly `$`.
 */
module RunProps {

  import opened Wrappers
  import opened Slices
  import opened Runes
  import opened Items
  import opened Grammar
  import opened Cursor
  import opened Lex
  import opened LexInvariant
  import opened StringProps
  import opened NumberProps
  import opened IdentProps
  import opened CommentProps

  /** A state function's step from `l` keeps the invariant when it consumed a token, and leaves a
      well-formed stream when it stops. */
  ghost predicate StepKeeps(u: CharClasses, l: Lexer, r: Step) {
    && (r.next == TextState && l.pos < r.l.pos ==> Inv(u, r.l))
    && (r.next == Stopped ==> WellFormed(u, l.input, r.l.items))
  }

  /** One Error item after a lexer that keeps the invariant finishes the stream. */
  lemma FailFinishes(u: CharClasses, l: Lexer, m: Lexer, msgs: set<string>)
    requires Inv(u, l) && AtTokenStart(l) && Follows(l, m) && FailedWith(l, m, msgs) && msgs <= ErrorMessages
    ensures WellFormed(u, l.input, m.items)
  {
    FinishWith(u, l, Last(m.items));
  }

  lemma StringKeeps(u: CharClasses, l: Lexer)
    requires Inv(u, l) && AtTokenStart(l) && Peek(l) == Some('"')
    ensures StepKeeps(u, l, LexString(l))
  {
    var r := LexString(l);
    if r.next == TextState {
      LexStringSound(l);
      StringSettled(u, l.input[l.start..r.l.pos], ByteOffset(l, l.start));
      EmitKeepsInv(u, l, r.l, String);
    } else {
      FailFinishes(u, l, r.l, StringErrors);
    }
  }

  // One lemma per kind: each keeps the kind's text predicate out of the larger proofs below.

  lemma StringSettled(u: CharClasses, v: string, pos: nat)
    requires JsonString(v)
    ensures Settled(u, Item(String, pos, v))
  {
  }

  lemma NumberSettled(u: CharClasses, v: string, pos: nat)
    requires JsonNumber(v)
    ensures Settled(u, Item(Number, pos, v))
  {
  }

  lemma WhitespaceSettled(u: CharClasses, v: string, pos: nat)
    requires |v| > 0 && forall i :: 0 <= i < |v| ==> u.isSpace(v[i])
    ensures Settled(u, Item(Whitespace, pos, v))
  {
  }

  lemma LineCommentSettled(u: CharClasses, v: string, pos: nat)
    requires LineCommentText(v) && EndsInNewline(v)
    ensures Settled(u, Item(LineComment, pos, v))
  {
  }

  lemma BlockCommentSettled(u: CharClasses, v: string, pos: nat)
    requires BlockCommentText(v)
    ensures Settled(u, Item(BlockComment, pos, v))
  {
  }

  lemma NumberKeeps(u: CharClasses, l: Lexer)
    requires Inv(u, l) && AtTokenStart(l)
    ensures StepKeeps(u, l, LexNumber(l))
  {
    var r := LexNumber(l);
    if r.next == TextState {
      LexNumberSound(l);
      NumberSettled(u, l.input[l.start..r.l.pos], ByteOffset(l, l.start));
      EmitKeepsInv(u, l, r.l, Number);
    } else {
      FailFinishes(u, l, r.l, NumberErrors);
    }
  }

  /** A keyword text or an identifier text fits the kind KeywordType gives it. */
  lemma KeywordSettled(u: CharClasses, v: string, pos: nat)
    requires v in Keywords || IdentifierText(u, v)
    ensures Settled(u, Item(KeywordType(v), pos, v))
  {
  }

  lemma IdentifierKeeps(u: CharClasses, l: Lexer)
    requires Inv(u, l) && AtTokenStart(l)
    ensures StepKeeps(u, l, LexIdentifier(u, l))
  {
    var r := LexIdentifier(u, l);
    if r.next == TextState {
      if l.pos < r.l.pos {
        var v := l.input[l.pos..r.l.pos];
        assert Settled(u, Item(KeywordType(v), ByteOffset(l, l.start), v)) by {
          LexIdentifierSound(u, l);
          KeywordSettled(u, v, ByteOffset(l, l.start));
        }
        EmitKeepsInv(u, l, r.l, KeywordType(v));
      }
    } else {
      FailFinishes(u, l, r.l, IdentifierErrors);
    }
  }

  lemma WhitespaceKeeps(u: CharClasses, l: Lexer)
    requires Inv(u, l) && AtTokenStart(l) && Peek(l).Some? && u.isSpace(Peek(l).value)
    ensures StepKeeps(u, l, LexWhitespace(u, l))
  {
    var r := LexWhitespace(u, l);
    LexWhitespaceSound(u, l);
    WhitespaceSettled(u, l.input[l.start..r.l.pos], ByteOffset(l, l.start));
    EmitKeepsInv(u, l, r.l, Whitespace);
  }

  lemma LineCommentKeeps(u: CharClasses, l: Lexer)
    requires Inv(u, l) && AtTokenStart(l) && (Peek(l) == Some('#') || HasPrefix(l, "//"))
    ensures StepKeeps(u, l, LexLineComment(l))
  {
    var r := LexLineComment(l);
    if r.next == TextState {
      LexLineCommentCloses(l);
      LineCommentSettled(u, l.input[l.start..r.l.pos], ByteOffset(l, l.start));
      EmitKeepsInv(u, l, r.l, LineComment);
    } else {
      LexLineCommentAtEnd(l);
      FinishOpenLineComment(u, l);
    }
  }

  lemma BlockCommentKeeps(u: CharClasses, l: Lexer)
    requires Inv(u, l) && AtTokenStart(l) && HasPrefix(l, "/*")
    ensures StepKeeps(u, l, LexBlockComment(l))
  {
    var r := LexBlockComment(l);
    if r.next == TextState {
      LexBlockCommentCloses(l);
      BlockCommentSettled(u, l.input[l.start..r.l.pos], ByteOffset(l, l.start));
      EmitKeepsInv(u, l, r.l, BlockComment);
    } else {
      LexBlockCommentUnclosed(l);
      FinishWith(u, l, Item(EOF, ByteOffset(l, l.pos), l.input[l.pos..]));
    }
  }

  /** Whichever state lexText selects keeps the invariant or finishes the stream. */
  lemma DispatchKeeps(u: CharClasses, l: Lexer, s: State)
    requires Inv(u, l) && AtTokenStart(l) && Entry(u, l, s)
    ensures StepKeeps(u, l, Dispatch(u, l, s))
  {
    match s
    case StringState => StringKeeps(u, l);
    case NumberState => NumberKeeps(u, l);
    case IdentifierState => IdentifierKeeps(u, l);
    case WhitespaceState => WhitespaceKeeps(u, l);
    case LineCommentState => LineCommentKeeps(u, l);
    case BlockCommentState => BlockCommentKeeps(u, l);
  }

  /** lexText at a delimiter emits it and carries on from just after it. */
  lemma LexTextAtDelimiter(u: CharClasses, l: Lexer)
    requires AtTokenStart(l) && l.pos < |l.input| && l.input[l.pos] in Delimiters
    ensures LexText(u, l) == LexText(u, Emit(l.(pos := l.pos + 1), DelimiterType(l.input[l.pos])))
  {
  }

  /** lexText anywhere but at a delimiter, at the end of input or at a lone slash hands over
      without touching the lexer. */
  lemma LexTextHandsOver(u: CharClasses, l: Lexer)
    requires AtTokenStart(l) && l.pos < |l.input| && l.input[l.pos] !in Delimiters
    requires l.input[l.pos] == '/' ==> HasPrefix(l, "//") || HasPrefix(l, "/*")
    ensures LexText(u, l).l == l && LexText(u, l).next != Stopped
  {
  }

  /** At the end of input lexText emits EOF. */
  lemma LexTextAtEnd(u: CharClasses, l: Lexer)
    requires AtTokenStart(l) && l.pos == |l.input|
    ensures LexText(u, l) == Step(l.(items := l.items + [Item(EOF, ByteOffset(l, l.start), [])]), Stopped)
  {
    assert l.input[..l.pos] == l.input;
  }

  /** At a slash that opens no comment lexText emits an error. */
  lemma LexTextAtLoneSlash(u: CharClasses, l: Lexer)
    requires AtTokenStart(l) && l.pos < |l.input| && l.input[l.pos] == '/'
    requires !HasPrefix(l, "//") && !HasPrefix(l, "/*")
    ensures LexText(u, l) == Step(l.(items := l.items + [Item(Error, ByteOffset(l, l.start), InvalidAfterSlash)]), Stopped)
  {
  }

  /** The one-rune item of a delimiter fits its kind. */
  lemma DelimiterSettled(u: CharClasses, l: Lexer)
    requires AtTokenStart(l) && l.pos < |l.input| && l.input[l.pos] in Delimiters
    ensures Settled(u, Item(DelimiterType(l.input[l.pos]), ByteOffset(l, l.start), l.input[l.start..l.pos + 1]))
  {
    assert l.input[l.start..l.pos + 1] == [l.input[l.pos]];
  }

  /** Emitting a delimiter keeps the invariant. */
  lemma DelimiterKeepsInv(u: CharClasses, l: Lexer)
    requires Inv(u, l) && AtTokenStart(l) && l.pos < |l.input| && l.input[l.pos] in Delimiters
    ensures Inv(u, Emit(l.(pos := l.pos + 1), DelimiterType(l.input[l.pos])))
  {
    DelimiterSettled(u, l);
    EmitKeepsInv(u, l, Emit(l.(pos := l.pos + 1), DelimiterType(l.input[l.pos])), DelimiterType(l.input[l.pos]));
  }

  /** `items` are the one-rune items of the delimiters s[i..j], in order, each of the kind its
      rune names and at the byte offset of that rune. */
  ghost predicate DelimiterItems(s: string, i: nat, j: nat, items: seq<Item>)
    requires i <= j <= |s|
  {
    && |items| == j - i
    && forall k :: 0 <= k < j - i ==> DelimiterItemAt(s, i + k, items[k])
  }

  /** `it` is the one-rune item of the delimiter s[p], at that rune's byte offset. */
  ghost predicate DelimiterItemAt(s: string, p: nat, it: Item)
    requires p < |s|
  {
    s[p] in Delimiters && it == Item(DelimiterType(s[p]), ByteLen(s[..p]), [s[p]])
  }

  /** A delimiter's item in front of the items of the delimiters after it. */
  lemma DelimiterItemsCons(s: string, i: nat, j: nat, items: seq<Item>, m: nat)
    requires i < j <= |s| && s[i] in Delimiters && m + (j - i) <= |items|
    requires items[m] == Item(DelimiterType(s[i]), ByteLen(s[..i]), [s[i]])
    requires DelimiterItems(s, i + 1, j, items[m + 1..m + (j - i)])
    ensures DelimiterItems(s, i, j, items[m..m + (j - i)])
  {
    var run := items[m..m + (j - i)];
    var tail := items[m + 1..m + (j - i)];
    forall k | 0 <= k < j - i
      ensures DelimiterItemAt(s, i + k, run[k])
    {
      if k == 0 {
        assert run[0] == items[m];
      } else {
        assert run[k] == tail[k - 1];
        assert DelimiterItemAt(s, (i + 1) + (k - 1), tail[k - 1]);
      }
    }
  }

  /** The step `s` taken from `l` passed over delimiters only, each emitted as its own one-rune
      item, and added exactly one item more if it stopped. */
  ghost predicate PassesDelimiters(l: Lexer, s: Step) {
    && Follows(l, s.l)
    && |s.l.items| == |l.items| + (s.l.pos - l.pos) + (if s.next == Stopped then 1 else 0)
    && DelimiterItems(l.input, l.pos, s.l.pos, s.l.items[|l.items|..|l.items| + (s.l.pos - l.pos)])
  }

  /** Everything lexText consumes is delimiters, each emitted as its own one-rune item; when it
      stops it adds exactly one item more. */
  lemma {:induction false} LexTextDelimiters(u: CharClasses, l: Lexer)
    requires AtTokenStart(l)
    ensures PassesDelimiters(l, LexText(u, l))
    decreases |l.input| - l.pos
  {
    if l.pos < |l.input| && l.input[l.pos] in Delimiters {
      var l1 := Emit(l.(pos := l.pos + 1), DelimiterType(l.input[l.pos]));
      LexTextAtDelimiter(u, l);
      LexTextDelimiters(u, l1);
      DelimiterThenRest(l, l1, LexText(u, l1));
    } else {
      LexTextStays(u, l);
    }
  }

  /** Putting the delimiter at the cursor in front of a step that passes the delimiters after it. */
  lemma DelimiterThenRest(l: Lexer, l1: Lexer, s: Step)
    requires AtTokenStart(l) && l.pos < |l.input| && l.input[l.pos] in Delimiters
    requires l1 == Emit(l.(pos := l.pos + 1), DelimiterType(l.input[l.pos]))
    requires l1.items <= s.l.items && PassesDelimiters(l1, s)
    ensures PassesDelimiters(l, s)
  {
    var c := l.input[l.pos];
    assert l.input[l.pos..l.pos + 1] == [c];
    assert s.l.items[|l.items|] == l1.items[|l.items|];
    DelimiterItemsCons(l.input, l.pos, s.l.pos, s.l.items, |l.items|);
  }

  /** Away from a delimiter lexText does not move the cursor, and adds one item only when it stops. */
  lemma LexTextStays(u: CharClasses, l: Lexer)
    requires AtTokenStart(l) && (l.pos == |l.input| || l.input[l.pos] !in Delimiters)
    ensures LexText(u, l).l.pos == l.pos && PassesDelimiters(l, LexText(u, l))
  {
    if l.pos == |l.input| {
      LexTextAtEnd(u, l);
    } else if l.input[l.pos] == '/' && !HasPrefix(l, "//") && !HasPrefix(l, "/*") {
      LexTextAtLoneSlash(u, l);
    } else {
      LexTextHandsOver(u, l);
    }
    var r := LexText(u, l);
    DelimiterItemsNone(l.input, l.pos, r.l.items[|l.items|..|l.items|]);
  }

  /** No runes, no items. */
  lemma DelimiterItemsNone(s: string, i: nat, items: seq<Item>)
    requires i <= |s| && |items| == 0
    ensures DelimiterItems(s, i, i, items)
  {
  }

  /** lexText keeps the invariant while it emits delimiters and hands over. */
  lemma {:induction false} LexTextKeepsInv(u: CharClasses, l: Lexer)
    requires Inv(u, l) && AtTokenStart(l)
    ensures LexText(u, l).next != Stopped ==> Inv(u, LexText(u, l).l)
    decreases |l.input| - l.pos
  {
    if l.pos == |l.input| {
      LexTextAtEnd(u, l);
    } else if l.input[l.pos] in Delimiters {
      DelimiterKeepsInv(u, l);
      LexTextKeepsInv(u, Emit(l.(pos := l.pos + 1), DelimiterType(l.input[l.pos])));
      LexTextAtDelimiter(u, l);
    } else if l.input[l.pos] == '/' && !HasPrefix(l, "//") && !HasPrefix(l, "/*") {
      LexTextAtLoneSlash(u, l);
    } else {
      LexTextHandsOver(u, l);
    }
  }

  /** lexText finishes the stream when it emits EOF or the error for a lone slash. */
  lemma {:induction false} LexTextFinishes(u: CharClasses, l: Lexer)
    requires Inv(u, l) && AtTokenStart(l)
    ensures LexText(u, l).next == Stopped ==> WellFormed(u, l.input, LexText(u, l).l.items)
    decreases |l.input| - l.pos
  {
    if l.pos == |l.input| {
      LexTextAtEnd(u, l);
      assert l.input[l.start..] == [];
      FinishWith(u, l, Item(EOF, ByteOffset(l, l.start), []));
    } else if l.input[l.pos] in Delimiters {
      DelimiterKeepsInv(u, l);
      LexTextFinishes(u, Emit(l.(pos := l.pos + 1), DelimiterType(l.input[l.pos])));
      LexTextAtDelimiter(u, l);
    } else if l.input[l.pos] == '/' && !HasPrefix(l, "//") && !HasPrefix(l, "/*") {
      LexTextAtLoneSlash(u, l);
      FinishWith(u, l, Item(Error, ByteOffset(l, l.start), InvalidAfterSlash));
    } else {
      LexTextHandsOver(u, l);
    }
  }

  /**
   * A stream that stalls: `prefix` holds settled items that spell the input up to a rune which
   * lexText hands to lexIdentifier and which may start an identifier but not continue one, and
   * the repeated item is an empty identifier positioned at that rune.
   */
  ghost predicate StallsAt(u: CharClasses, input: string, prefix: seq<Item>, repeated: Item) {
    var n := |Concat(prefix)|;
    && n < |input|
    && Concat(prefix) == input[..n]
    && Positioned(prefix)
    && (forall i :: 0 <= i < |prefix| ==> Settled(u, prefix[i]))
    && IdentifierEntry(u, input[n]) && IdentifierStart(u, input[n]) && !IsIdentifierPart(u, input[n])
    && repeated == Item(Identifier, ByteLen(input[..n]), [])
  }

  /** A lexer that keeps the invariant ends in a well-formed stream or stalls as StallsAt says. */
  lemma {:induction false} RunKeeps(u: CharClasses, l: Lexer)
    requires Inv(u, l) && AtTokenStart(l)
    ensures var r := Run(u, l);
            && (r.Halted? ==> WellFormed(u, l.input, r.items))
            && (r.Endless? ==> StallsAt(u, l.input, r.prefix, r.repeated))
    decreases |l.input| - l.pos
  {
    var t := LexText(u, l);
    LexTextKeepsInv(u, l);
    LexTextFinishes(u, l);
    if t.next != Stopped {
      var s := Dispatch(u, t.l, t.next);
      DispatchKeeps(u, t.l, t.next);
      if s.next == TextState {
        if s.l.pos == t.l.pos {
          IdentifierStallIff(u, t.l);
        } else {
          RunKeeps(u, s.l);
        }
      }
    }
  }

  /** The whole stream of any input: well formed when it ends, and stalled as StallsAt says when
      it does not. */
  lemma LexSound(u: CharClasses, input: string)
    ensures var r := Lex.Lex(u, input);
            && (r.Halted? ==> WellFormed(u, input, r.items))
            && (r.Endless? ==> StallsAt(u, input, r.prefix, r.repeated))
  {
    InitialInv(u, input);
    RunKeeps(u, Lexer(input, 0, 0, []));
  }

  /** No item before a stall is EOF or an Error. */
  lemma StalledPrefixOpen(u: CharClasses, input: string)
    ensures var r := Lex.Lex(u, input);
            r.Endless? ==> forall i :: 0 <= i < |r.prefix| ==> !r.prefix[i].typ.Terminal()
  {
    LexSound(u, input);
    var r := Lex.Lex(u, input);
    if r.Endless? {
      forall i | 0 <= i < |r.prefix|
        ensures !r.prefix[i].typ.Terminal()
      {
        assert Settled(u, r.prefix[i]);
      }
    }
  }

  // ---------------------------------------------------------------- the `$` stall

  /** At a rune that lexText hands to lexIdentifier and that may start but not continue an
      identifier, lexIdentifier emits an empty identifier and returns to lexText without moving,
      and lexText hands the same rune to lexIdentifier again: the Go lexer repeats this forever. */
  lemma StallRepeats(u: CharClasses, l: Lexer)
    requires AtTokenStart(l) && l.pos < |l.input|
    requires IdentifierEntry(u, l.input[l.pos]) && IdentifierStart(u, l.input[l.pos])
    requires !IsIdentifierPart(u, l.input[l.pos])
    ensures var s := Dispatch(u, l, IdentifierState);
            && s.next == TextState
            && s.l == l.(items := l.items + [Item(Identifier, ByteOffset(l, l.pos), [])])
            && LexText(u, s.l) == Step(s.l, IdentifierState)
  {
    LexIdentifierEmits(u, l);
    assert l.input[l.pos..l.pos] == [];
  }

  /** With Go's answers on ASCII, a stream that stalls stalls at a `$`. */
  lemma StallIsDollar(u: CharClasses, input: string)
    requires AsciiFaithful(u)
    ensures var r := Lex.Lex(u, input);
            r.Endless? ==> |Concat(r.prefix)| < |input| && input[|Concat(r.prefix)|] == '$'
  {
    LexSound(u, input);
    var r := Lex.Lex(u, input);
    if r.Endless? {
      StallRuneIsDollar(u, input[|Concat(r.prefix)|]);
    }
  }

  /** With Go's answers on ASCII, an input without `$` yields a stream that ends. */
  lemma NoDollarHalts(u: CharClasses, input: string)
    requires AsciiFaithful(u) && '$' !in input
    ensures Lex.Lex(u, input).Halted?
  {
    StallIsDollar(u, input);
  }

  /** Run at a rune where lexText hands over to lexIdentifier and lexIdentifier stalls reports
      the stall with the items so far and the empty identifier. */
  lemma RunStalls(u: CharClasses, l: Lexer)
    requires AtTokenStart(l) && l.pos < |l.input|
    requires IdentifierEntry(u, l.input[l.pos]) && IdentifierStart(u, l.input[l.pos])
    requires !IsIdentifierPart(u, l.input[l.pos])
    ensures Run(u, l) == Endless(l.items, Item(Identifier, ByteOffset(l, l.pos), []))
  {
    LexTextHandsOver(u, l);
    StallRepeats(u, l);
  }

  /** With Go's answers on ASCII, lexText hands `$` to lexIdentifier, which stalls on it. */
  lemma DollarGoesToIdentifier(u: CharClasses)
    requires AsciiFaithful(u)
    ensures IdentifierEntry(u, '$') && IdentifierStart(u, '$') && !IsIdentifierPart(u, '$')
  {
    AsciiAnswers(u, '$');
    StallRuneIsDollar(u, '$');
  }

  /** With Go's answers on ASCII, an input that starts with `$` stalls at once. */
  lemma LeadingDollarStalls(u: CharClasses, input: string)
    requires AsciiFaithful(u) && |input| > 0 && input[0] == '$'
    ensures Lex.Lex(u, input) == Endless([], Item(Identifier, 0, []))
  {
    var l := Lexer(input, 0, 0, []);
    DollarGoesToIdentifier(u);
    RunStalls(u, l);
    assert ByteOffset(l, 0) == 0 by {
      assert input[..0] == [];
    }
  }

  // ---------------------------------------------------------------- rounds of Run

  /** With Go's answers on ASCII, a space is none of the runes lexText tests before it tests for a
      space: those are all ASCII, and no ASCII one of them is a space. */
  lemma SpaceIsPlain(u: CharClasses, c: char)
    requires AsciiFaithful(u) && u.isSpace(c)
    ensures c != '"' && c !in Delimiters && c != '#' && c != '/' && c !in NumberStart
  {
    if IsAscii(c) {
      AsciiAnswers(u, c);
      AsciiSpaceIsPlain(c);
    } else {
      NonAsciiIsPlain(c);
    }
  }

  lemma AsciiSpaceIsPlain(c: char)
    requires c in AsciiSpaces
    ensures c != '"' && c !in Delimiters && c != '#' && c != '/' && c !in NumberStart
  {
  }

  lemma NonAsciiIsPlain(c: char)
    requires !IsAscii(c)
    ensures c != '"' && c !in Delimiters && c != '#' && c != '/' && c !in NumberStart
  {
  }

  /** At the end of input Run finishes with EOF. */
  lemma RunAtEnd(u: CharClasses, l: Lexer)
    requires AtTokenStart(l) && l.pos == |l.input|
    ensures Run(u, l) == Halted(l.items + [Item(EOF, ByteLen(l.input), [])])
  {
    LexTextAtEnd(u, l);
    assert l.input[..l.start] == l.input;
  }

  /** A round of Run whose state consumes a token: Run carries on from where it stopped. */
  lemma RunAdvances(u: CharClasses, l: Lexer, s: State)
    requires AtTokenStart(l) && LexText(u, l) == Step(l, s) && Entry(u, l, s)
    requires Dispatch(u, l, s).next == TextState && l.pos < Dispatch(u, l, s).l.pos
    ensures Run(u, l) == Run(u, Dispatch(u, l, s).l)
  {
  }

  /** With Go's answers on ASCII, lexText hands any space to lexWhitespace. */
  lemma SpaceGoesToWhitespace(u: CharClasses, l: Lexer)
    requires AsciiFaithful(u) && AtTokenStart(l) && l.pos < |l.input| && u.isSpace(l.input[l.pos])
    ensures LexText(u, l) == Step(l, WhitespaceState)
  {
    SpaceIsPlain(u, l.input[l.pos]);
    LexTextHandsOver(u, l);
  }

  /** lexWhitespace before nothing but spaces takes all of them. */
  lemma WhitespaceToEnd(u: CharClasses, l: Lexer)
    requires AtTokenStart(l) && l.pos < |l.input|
    requires forall i :: l.pos <= i < |l.input| ==> u.isSpace(l.input[i])
    ensures LexWhitespace(u, l).l.pos == |l.input|
    ensures LexWhitespace(u, l).l.items == l.items + [Item(Whitespace, ByteOffset(l, l.pos), l.input[l.pos..])]
  {
    assert l.input[l.start..|l.input|] == l.input[l.pos..];
  }

  /** With Go's answers on ASCII, every ASCII space is a space. */
  lemma AsciiSpacesAreSpaces(u: CharClasses, input: string)
    requires AsciiFaithful(u)
    requires forall i :: 0 <= i < |input| ==> input[i] in AsciiSpaces
    ensures forall i :: 0 <= i < |input| ==> u.isSpace(input[i])
  {
    forall i | 0 <= i < |input|
      ensures u.isSpace(input[i])
    {
      AsciiAnswers(u, input[i]);
    }
  }

  /** With Go's answers on ASCII, from a token start before nothing but spaces, Run emits one
      Whitespace item and then EOF. */
  lemma RunOverSpaces(u: CharClasses, l: Lexer)
    requires AsciiFaithful(u) && AtTokenStart(l) && l.pos < |l.input|
    requires forall i :: l.pos <= i < |l.input| ==> u.isSpace(l.input[i])
    ensures Run(u, l) == Halted(l.items + [Item(Whitespace, ByteOffset(l, l.pos), l.input[l.pos..]),
                                           Item(EOF, ByteLen(l.input), [])])
  {
    SpaceGoesToWhitespace(u, l);
    RunOverWhitespace(u, l);
  }

  /** Once lexText hands spaces that run to the end of input to lexWhitespace, Run emits them as
      one Whitespace item and then EOF. */
  lemma RunOverWhitespace(u: CharClasses, l: Lexer)
    requires AtTokenStart(l) && l.pos < |l.input| && LexText(u, l) == Step(l, WhitespaceState)
    requires forall i :: l.pos <= i < |l.input| ==> u.isSpace(l.input[i])
    ensures Run(u, l) == Halted(l.items + [Item(Whitespace, ByteOffset(l, l.pos), l.input[l.pos..]),
                                           Item(EOF, ByteLen(l.input), [])])
  {
    WhitespaceToEnd(u, l);
    RunAdvances(u, l, WhitespaceState);
    RunAtEnd(u, LexWhitespace(u, l).l);
  }

  /** With Go's answers on ASCII, a non-empty input of spaces is one Whitespace item, then EOF. */
  lemma SpacesOnlyStream(u: CharClasses, input: string)
    requires AsciiFaithful(u) && |input| > 0
    requires forall i :: 0 <= i < |input| ==> u.isSpace(input[i])
    ensures Lex.Lex(u, input) == Halted([Item(Whitespace, 0, input), Item(EOF, ByteLen(input), [])])
  {
    var l := Lexer(input, 0, 0, []);
    RunOverSpaces(u, l);
    assert ByteOffset(l, 0) == 0 by {
      assert input[..0] == [];
    }
    assert input[0..] == input;
    assert l.items + [Item(Whitespace, ByteOffset(l, l.pos), l.input[l.pos..]), Item(EOF, ByteLen(l.input), [])]
        == [Item(Whitespace, 0, input), Item(EOF, ByteLen(input), [])];
    assert Lex.Lex(u, input) == Run(u, l);
  }

  /** The "spaces" case of the lexer's tests. */
  lemma SpacesExample(u: CharClasses)
    requires AsciiFaithful(u)
    ensures Lex.Lex(u, " \t\n") == Halted([Item(Whitespace, 0, " \t\n"), Item(EOF, 3, [])])
  {
    AsciiSpacesAreSpaces(u, " \t\n");
    SpacesOnlyStream(u, " \t\n");
    assert ByteLen(" \t\n") == 3 by {
      assert " \t\n"[..2] == " \t" && " \t"[..1] == " " && " "[..0] == [];
    }
  }

  /** An empty input is EOF alone. */
  lemma EmptyInput(u: CharClasses)
    ensures Lex.Lex(u, []) == Halted([Item(EOF, 0, [])])
  {
    RunAtEnd(u, Lexer([], 0, 0, []));
  }
}

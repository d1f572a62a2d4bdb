/**
 * The state functions of lex.go as pure functions. Each takes the lexer record and returns the
 * advanced record together with the state to run next (`Stopped` for Go's nil stateFn). The
 * driver `Run` replaces the goroutine and channel of `lex`/`run`/`nextItem`: it iterates the
 * states and returns the whole item stream.
 */
module Lex {

  import opened Wrappers
  import opened Runes
  import opened Items
  import opened Grammar
  import opened Cursor

  datatype State =
    | TextState
    | StringState
    | NumberState
    | IdentifierState
    | WhitespaceState
    | LineCommentState
    | BlockCommentState
    | Stopped

  datatype Step = Step(l: Lexer, next: State)

  /** Every state function is entered with an empty buffer. */
  predicate AtTokenStart(l: Lexer) {
    l.Valid() && l.start == l.pos
  }

  /** `m` is `l` after the buffered token, which now runs up to m.pos, was emitted as kind `t`. */
  predicate EmittedAs(l: Lexer, m: Lexer, t: ItemType)
    requires Follows(l, m)
  {
    m.start == m.pos && m.items == l.items + [Item(t, ByteOffset(l, l.start), l.input[l.start..m.pos])]
  }

  /** `m` is `l` after one Error item, positioned at the start of the current token, whose message
      is one of `msgs`. */
  predicate FailedWith(l: Lexer, m: Lexer, msgs: set<string>)
    requires l.Valid()
  {
    |m.items| == |l.items| + 1 && m.items == l.items + [Item(Error, ByteOffset(l, l.start), Last(m.items).val)]
    && Last(m.items).val in msgs
  }

  /** The rune lexText hands to lexIdentifier: none of the runes that select another state. */
  predicate IdentifierEntry(u: CharClasses, c: char) {
    c != '"' && c !in Delimiters && c != '#' && c != '/' && !u.isSpace(c) && c !in NumberStart
  }

  /** What lexText has seen when it hands over to state `s`. */
  predicate Entry(u: CharClasses, l: Lexer, s: State)
    requires l.Valid()
  {
    match s
    case TextState => false
    case StringState => Peek(l) == Some('"')
    case NumberState => Peek(l).Some? && Peek(l).value in NumberStart
    case IdentifierState => Peek(l).Some? && IdentifierEntry(u, Peek(l).value)
    case WhitespaceState => Peek(l).Some? && u.isSpace(Peek(l).value)
    case LineCommentState => Peek(l) == Some('#') || HasPrefix(l, "//")
    case BlockCommentState => HasPrefix(l, "/*")
    case Stopped => false
  }

  /**
   * lexText: emits every delimiter as its own one-rune item, stops with EOF at the end of input or
   * with an error at a slash that opens no comment, and otherwise hands the next rune, unconsumed,
   * to the state it selects.
   */
  function LexText(u: CharClasses, l: Lexer): (r: Step)
    requires AtTokenStart(l)
    ensures Follows(l, r.l) && r.next != TextState
    ensures l.items <= r.l.items
    ensures r.next != Stopped ==> AtTokenStart(r.l) && Entry(u, r.l, r.next)
    ensures r.next == Stopped ==> |r.l.items| > |l.items|
    ensures r.next == Stopped ==>
              || (r.l.pos == |l.input| && Last(r.l.items) == Item(EOF, ByteLen(l.input), []))
              || (r.l.pos < |l.input| && l.input[r.l.pos] == '/' && !HasPrefix(r.l, "//") && !HasPrefix(r.l, "/*")
                  && Last(r.l.items) == Item(Error, ByteLen(l.input[..r.l.pos]), InvalidAfterSlash))
    decreases |l.input| - l.pos
  {
    match Peek(l)
    case None =>
      assert l.input[..l.pos] == l.input;
      Step(Emit(Next(l).0, EOF), Stopped)
    case Some(c) =>
      if c == '"' then Step(l, StringState)
      else if c in Delimiters then
        LexText(u, Emit(Next(l).0, DelimiterType(c)))
      else if c == '#' then Step(l, LineCommentState)
      else if c == '/' then
        if HasPrefix(l, "//") then Step(l, LineCommentState)
        else if HasPrefix(l, "/*") then Step(l, BlockCommentState)
        else Step(Errorf(l, InvalidAfterSlash), Stopped)
      else if u.isSpace(c) then Step(l, WhitespaceState)
      else if c in NumberStart then Step(l, NumberState)
      else Step(l, IdentifierState)
  }

  /** lexString: consumes the opening quote, then runs the string loop. */
  function LexString(l: Lexer): (r: Step)
    requires AtTokenStart(l)
    ensures Follows(l, r.l) && (r.next == TextState || r.next == Stopped)
    ensures r.next == TextState ==> l.pos < r.l.pos && EmittedAs(l, r.l, String)
    ensures r.next == Stopped ==> FailedWith(l, r.l, StringErrors)
  {
    StringBody(Next(l).0)
  }

  /** The loop of lexString, one rune (or one escape) per call. */
  function StringBody(l: Lexer): (r: Step)
    requires l.Valid()
    ensures Follows(l, r.l) && (r.next == TextState || r.next == Stopped)
    ensures r.next == TextState ==> l.pos < r.l.pos && EmittedAs(l, r.l, String)
    ensures r.next == Stopped ==> FailedWith(l, r.l, StringErrors)
    decreases |l.input| - l.pos
  {
    var (l1, r) := Next(l);
    match r
    case None => Step(Errorf(l1, UnclosedString), Stopped)
    case Some(c) =>
      if c == '"' then Step(Emit(l1, String), TextState)
      else if c == '\\' then
        var (l2, simple) := Accept(l1, SimpleEscapes);
        if simple then StringBody(l2)
        else
          var (l3, e) := Next(l2);
          if e == Some('u') then
            var (l4, hex) := AcceptCount(l3, HexDigits, 4);
            if hex then StringBody(l4) else Step(Errorf(l4, BadHexEscape), Stopped)
          else Step(Errorf(l3, UnsupportedEscape), Stopped)
      else if IsControl(c) then Step(Errorf(l1, ControlInString), Stopped)
      else StringBody(l1)
  }

  /** lexNumber: the integer part, then the fraction, then the exponent, which emits the number. */
  function LexNumber(l: Lexer): (r: Step)
    requires AtTokenStart(l)
    ensures Follows(l, r.l) && (r.next == TextState || r.next == Stopped)
    ensures r.next == TextState ==> l.pos < r.l.pos && EmittedAs(l, r.l, Number)
    ensures r.next == Stopped ==> FailedWith(l, r.l, NumberErrors)
  {
    var (l1, ok) := AcceptInteger(l);
    if ok then NumberTail(l1) else Step(Errorf(l1, BadDigit), Stopped)
  }

  /** The optional minus and then `0` or a non-zero digit and more digits; false when neither
      digit case applies. */
  function AcceptInteger(l: Lexer): (r: (Lexer, bool))
    requires l.Valid()
    ensures Follows(l, r.0) && r.0 == l.(pos := r.0.pos)
    ensures r.1 ==> l.pos < r.0.pos
  {
    var (l1, _) := Accept(l, {'-'});
    var (l2, lead) := Accept(l1, Digits1To9);
    if lead then (AcceptRun(l2, Digits), true) else Accept(l2, {'0'})
  }

  /** The fraction part of lexNumber, then the exponent part. */
  function NumberTail(l: Lexer): (r: Step)
    requires l.Valid()
    ensures Follows(l, r.l) && (r.next == TextState || r.next == Stopped)
    ensures r.next == TextState ==> EmittedAs(l, r.l, Number)
    ensures r.next == Stopped ==> FailedWith(l, r.l, {NoExponentDigit})
  {
    NumberExponent(AcceptFraction(l))
  }

  /** A `.` and the digits after it, if the next rune is a `.`. */
  function AcceptFraction(l: Lexer): (r: Lexer)
    requires l.Valid()
    ensures Follows(l, r) && r == l.(pos := r.pos)
  {
    var (l1, dot) := Accept(l, {'.'});
    if dot then AcceptRun(l1, Digits) else l1
  }

  /** The exponent part of lexNumber, which emits the number. */
  function NumberExponent(l: Lexer): (r: Step)
    requires l.Valid()
    ensures Follows(l, r.l) && (r.next == TextState || r.next == Stopped)
    ensures r.next == TextState ==> EmittedAs(l, r.l, Number)
    ensures r.next == Stopped ==> FailedWith(l, r.l, {NoExponentDigit})
  {
    var (l1, exp) := Accept(l, {'e', 'E'});
    if !exp then Step(Emit(l1, Number), TextState)
    else
      var (l2, digit) := AcceptExponentDigits(l1);
      if digit then Step(Emit(l2, Number), TextState) else Step(Errorf(l2, NoExponentDigit), Stopped)
  }

  /** After the exponent marker: an optional sign and then at least one digit; false when no
      digit comes. */
  function AcceptExponentDigits(l: Lexer): (r: (Lexer, bool))
    requires l.Valid()
    ensures Follows(l, r.0) && r.0 == l.(pos := r.0.pos)
  {
    var (l1, _) := Accept(l, {'+', '-'});
    var (l2, digit) := Accept(l1, Digits);
    if digit then (AcceptRun(l2, Digits), true) else (l2, false)
  }

  /**
   * lexIdentifier. A leading letter, `$` or `_` is checked but not consumed; the continuation loop
   * consumes it only if it is also an identifier part. A leading backslash is never consumed
   * either, so `accept("u")` sees the backslash and fails.
   */
  function LexIdentifier(u: CharClasses, l: Lexer): (r: Step)
    requires AtTokenStart(l)
    ensures Follows(l, r.l) && (r.next == TextState || r.next == Stopped)
    ensures r.next == TextState ==> EmittedAs(l, r.l, KeywordType(l.input[l.pos..r.l.pos]))
    ensures r.next == Stopped ==> FailedWith(l, r.l, IdentifierErrors)
  {
    match Peek(l)
    case Some(c) =>
      if IdentifierStart(u, c) then IdentifierTail(u, l)
      else if c == '\\' then
        var (l1, ok) := Accept(l, {'u'});
        if !ok then Step(Errorf(l1, UExpected), Stopped)
        else
          var (l2, hex) := AcceptCount(l1, HexDigits, 4);
          if !hex then Step(Errorf(l2, BadIdentifierHex), Stopped) else IdentifierTail(u, l2)
      else Step(Errorf(l, IdentifierExpected), Stopped)
    case None => Step(Errorf(l, IdentifierExpected), Stopped)
  }

  /** The continuation loop of lexIdentifier and the keyword test on the accumulated text. */
  function IdentifierTail(u: CharClasses, l: Lexer): (r: Step)
    requires l.Valid()
    ensures Follows(l, r.l) && r.next == TextState
    ensures EmittedAs(l, r.l, KeywordType(l.input[l.start..r.l.pos]))
    ensures forall i :: l.pos <= i < r.l.pos ==> IsIdentifierPart(u, l.input[i])
    ensures r.l.pos == |l.input| || !IsIdentifierPart(u, l.input[r.l.pos])
  {
    var m := AcceptWhile(l, c => IsIdentifierPart(u, c));
    Step(Emit(m, KeywordType(Buffer(m))), TextState)
  }

  /** lexWhitespace: the longest run of spaces, emitted as one item. */
  function LexWhitespace(u: CharClasses, l: Lexer): (r: Step)
    requires AtTokenStart(l)
    ensures Follows(l, r.l) && r.next == TextState
    ensures EmittedAs(l, r.l, Whitespace)
    ensures forall i :: l.pos <= i < r.l.pos ==> u.isSpace(l.input[i])
    ensures r.l.pos == |l.input| || !u.isSpace(l.input[r.l.pos])
  {
    Step(Emit(AcceptWhile(l, u.isSpace), Whitespace), TextState)
  }

  /**
   * lexLineComment: consumes through the first newline, which stays in the comment, or to the end
   * of input; at the end of input it emits EOF itself.
   */
  function LexLineComment(l: Lexer): (r: Step)
    requires l.Valid()
    ensures Follows(l, r.l) && (r.next == TextState || r.next == Stopped)
    ensures r.next == TextState ==>
              l.pos < r.l.pos && EmittedAs(l, r.l, LineComment) && l.input[r.l.pos - 1] == '\n'
    ensures r.next == Stopped ==>
              && r.l.pos == |l.input|
              && r.l.items == l.items
                   + (if l.start < |l.input| then [Item(LineComment, ByteOffset(l, l.start), l.input[l.start..])] else [])
                   + [Item(EOF, ByteLen(l.input), [])]
    decreases |l.input| - l.pos
  {
    var (l1, r) := Next(l);
    if r == Some('\n') || r.None? then
      var l2 := FlushLineComment(l1);
      if r.None? then
        assert l.input[..l2.start] == l.input;
        assert Buffer(l) == l.input[l.start..];
        var l3 := Emit(l2, EOF);
        assert l1 == l;
        assert l2.start == |l.input| && l2.input == l.input;
        assert ByteOffset(l2, l2.start) == ByteLen(l.input);
        assert Buffer(l2) == [];
        assert l3.items == l2.items + [Item(EOF, ByteLen(l.input), [])];
        Step(l3, Stopped)
      else Step(l2, TextState)
    else LexLineComment(l1)
  }

  /** The `if l.pos > l.start { l.emit(itemLineComment) }` of lexLineComment. */
  function FlushLineComment(l: Lexer): (r: Lexer)
    requires l.Valid()
    ensures Follows(l, r) && r.start == r.pos == l.pos
    ensures r.items == l.items + (if l.start < l.pos then [Item(LineComment, ByteOffset(l, l.start), Buffer(l))] else [])
  {
    if l.pos > l.start then Emit(l, LineComment) else l
  }

  /**
   * lexBlockComment: looks for `*` `/` from the cursor on, so the search starts at the rune after
   * the opening slash. An unclosed comment is no error: the rest of the input becomes the text of
   * the EOF item.
   */
  function LexBlockComment(l: Lexer): (r: Step)
    requires l.Valid()
    ensures Follows(l, r.l) && (r.next == TextState || r.next == Stopped)
    ensures r.next == TextState ==>
              l.pos + 2 <= r.l.pos && EmittedAs(l, r.l, BlockComment) && ClosesAt(l.input, r.l.pos - 2)
    ensures r.next == Stopped ==>
              && r.l.pos == |l.input|
              && r.l.items == l.items + [Item(EOF, ByteOffset(l, l.start), l.input[l.start..])]
    decreases |l.input| - l.pos
  {
    if HasPrefix(l, "*/") then
      var l1 := NextRuneCount(l, 2);
      assert l1.pos == l.pos + 2 && ClosesAt(l.input, l.pos) by {
        assert l.input[l.pos..l.pos + 2] == "*/";
        assert l.input[l.pos] == l.input[l.pos..l.pos + 2][0];
        assert l.input[l.pos + 1] == l.input[l.pos..l.pos + 2][1];
      }
      Step(if l1.pos > l1.start then Emit(l1, BlockComment) else l1, TextState)
    else
      var (l1, r) := Next(l);
      if r.None? then
        assert Buffer(l1) == l.input[l.start..];
        Step(Emit(l1, EOF), Stopped)
      else LexBlockComment(l1)
  }

  /** Runs the state function that `s` names. */
  function Dispatch(u: CharClasses, l: Lexer, s: State): (r: Step)
    requires AtTokenStart(l) && Entry(u, l, s)
    ensures Follows(l, r.l) && (r.next == TextState || r.next == Stopped)
    ensures l.items < r.l.items
    ensures r.next == TextState ==> AtTokenStart(r.l) && |r.l.items| == |l.items| + 1
    ensures r.next == Stopped ==> Last(r.l.items).typ.Terminal()
    ensures r.next == TextState && r.l.pos == l.pos ==>
              s == IdentifierState && Last(r.l.items) == Item(Identifier, ByteOffset(l, l.pos), [])
  {
    match s
    case StringState => LexString(l)
    case NumberState => LexNumber(l)
    case IdentifierState => LexIdentifier(u, l)
    case WhitespaceState => LexWhitespace(u, l)
    case LineCommentState => LexLineComment(l)
    case BlockCommentState => LexBlockComment(l)
  }

  /**
   * What the consumer of the channel receives: a finite stream that ends in a terminal item, or a
   * stream that, after `prefix`, repeats `repeated` forever because the lexer no longer advances.
   */
  datatype Stream = Halted(items: seq<Item>) | Endless(prefix: seq<Item>, repeated: Item)

  /**
   * lex/run: alternates lexText with the state it selects until a state stops. A selected state
   * that returns to lexText without consuming a rune would be selected again, from the same
   * cursor, forever; Run reports that as Endless instead of looping.
   */
  function Run(u: CharClasses, l: Lexer): (r: Stream)
    requires AtTokenStart(l)
    ensures r.Halted? ==> l.items < r.items && Last(r.items).typ.Terminal()
    ensures r.Endless? ==> l.items <= r.prefix && r.repeated.typ == Identifier && r.repeated.val == []
    decreases |l.input| - l.pos
  {
    var t := LexText(u, l);
    if t.next == Stopped then Halted(t.l.items)
    else
      var s := Dispatch(u, t.l, t.next);
      if s.next == Stopped then Halted(s.l.items)
      else if s.l.pos == t.l.pos then Endless(t.l.items, Last(s.l.items))
      else Run(u, s.l)
  }

  /** The whole item stream of `input`: a finished stream ends in its terminal item, and a stall
      repeats an empty Identifier. */
  function Lex(u: CharClasses, input: string): (r: Stream)
    ensures r.Halted? ==> |r.items| > 0 && Last(r.items).typ.Terminal()
    ensures r.Endless? ==> r.repeated.typ == Identifier && r.repeated.val == []
  {
    Run(u, Lexer(input, 0, 0, []))
  }
}

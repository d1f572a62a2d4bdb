/**
 * The three item filters of minify.go, trimcomment.go and uncomment.go, and their string
 * wrappers. Each filter reads the item stream in order, writes a piece of text for every item
 * that is neither EOF nor Error, and returns at the first of those two: with no error at EOF and
 * with the item's message at an Error. The wrappers return the written text, or "" and the error.
 */
module Filters {

  import opened Wrappers
  import opened Slices
  import opened Runes
  import opened Items
  import opened Grammar
  import opened Cursor
  import opened Lex
  import opened LexInvariant
  import opened RunProps

  /** WriteMinifiedTo, WriteCommentTrimmedTo and WriteUncommentedTo. */
  datatype Filter = Minifying | Trimming | Uncommenting

  /** What a filter writes for one item that is neither EOF nor Error. */
  function Piece(f: Filter, it: Item): string
  {
    match f
    case Minifying =>
      if it.typ == Whitespace || it.typ == BlockComment || it.typ == LineComment then [] else it.val
    case Trimming =>
      if it.typ == BlockComment then []
      else if it.typ == LineComment then (if EndsInNewline(it.val) then "\n" else [])
      else it.val
    case Uncommenting =>
      if it.typ == BlockComment then []
      else if it.typ == LineComment then "\n"
      else it.val
  }

  /** The pieces of `items`, in order. */
  function Pieces(f: Filter, items: seq<Item>): string
  {
    if |items| == 0 then [] else Pieces(f, items[..|items| - 1]) + Piece(f, items[|items| - 1])
  }

  lemma PiecesSnoc(f: Filter, items: seq<Item>, x: Item)
    ensures Pieces(f, items + [x]) == Pieces(f, items) + Piece(f, x)
  {
    assert (items + [x])[..|items|] == items;
  }

  lemma {:induction false} PiecesAppend(f: Filter, a: seq<Item>, b: seq<Item>)
    ensures Pieces(f, a + b) == Pieces(f, a) + Pieces(f, b)
    decreases |b|
  {
    if |b| == 0 {
      assert a + b == a;
    } else {
      var b', x := b[..|b| - 1], b[|b| - 1];
      assert b == b' + [x];
      assert a + b == (a + b') + [x];
      PiecesSnoc(f, a + b', x);
      PiecesSnoc(f, b', x);
      PiecesAppend(f, a, b');
      AppendAssoc(Pieces(f, a), Pieces(f, b'), Piece(f, x));
    }
  }

  /** What a filter has written, and whether it has returned: `Returned` at EOF (no error) or at
      an Error (its message), `Reading` while the items read so far held neither. */
  datatype Drained = Returned(written: string, err: Option<string>) | Reading(written: string)

  /** The first item's piece, then the pieces of the rest. */
  lemma PiecesCons(f: Filter, items: seq<Item>)
    requires |items| > 0
    ensures Pieces(f, items) == Piece(f, items[0]) + Pieces(f, items[1..])
  {
    PiecesAppend(f, [items[0]], items[1..]);
    assert [items[0]] + items[1..] == items;
    PiecesOfOne(f, items[0]);
  }

  /** `d` after `p` was written first. */
  function WrittenAfter(p: string, d: Drained): (r: Drained)
    ensures r.Returned? == d.Returned? && r.written == p + d.written
  {
    d.(written := p + d.written)
  }

  /** The read-and-write loop of a filter: it writes the piece of each item until it reads EOF or
      an Error. */
  function Drain(f: Filter, items: seq<Item>): (r: Drained)
    ensures r.Reading? <==> forall i :: 0 <= i < |items| ==> !items[i].typ.Terminal()
    ensures r.Reading? ==> r.written == Pieces(f, items)
    decreases |items|
  {
    if |items| == 0 then Reading([])
    else if items[0].typ == EOF then Returned([], None)
    else if items[0].typ == Error then Returned([], Some(items[0].val))
    else
      PiecesCons(f, items);
      WrittenAfter(Piece(f, items[0]), Drain(f, items[1..]))
  }

  /** What the loop does with a stream whose one terminal item is last: it writes the pieces of
      all other items and returns with no error at EOF and with the message of an Error. */
  ghost predicate DrainsStream(f: Filter, items: seq<Item>)
    requires |items| > 0
  {
    Drain(f, items) ==
      Returned(Pieces(f, items[..|items| - 1]), if Last(items).typ == EOF then None else Some(Last(items).val))
  }

  /** A stream with one terminal item, last, is drained as DrainsStream says; in particular EOF's
      own text is never written. */
  lemma {:induction false} DrainStream(f: Filter, items: seq<Item>)
    requires TerminalOnlyAtEnd(items)
    ensures DrainsStream(f, items)
    decreases |items|
  {
    if |items| > 1 {
      var rest := items[1..];
      RestOfStream(items);
      DrainStream(f, rest);
      DrainStreamStep(f, items);
    } else {
      assert DrainsStream(f, items) by {
        DrainAtTerminal(f, items);
        assert items[..0] == [];
      }
    }
  }

  /** One round of the loop: an item that is neither EOF nor Error puts its piece in front of
      what the loop writes for the rest. */
  lemma DrainStreamStep(f: Filter, items: seq<Item>)
    requires |items| > 1 && !items[0].typ.Terminal() && Last(items[1..]) == Last(items)
    requires DrainsStream(f, items[1..])
    ensures DrainsStream(f, items)
  {
    var rest := items[1..];
    var p := Piece(f, items[0]);
    var tail := Pieces(f, rest[..|rest| - 1]);
    var c := if Last(items).typ == EOF then None else Some(Last(items).val);
    assert Drain(f, rest) == Returned(tail, c);
    assert Drain(f, items) == Returned(p + tail, c) by {
      DrainPast(f, items);
    }
    PiecesOfInner(f, items);
  }

  /** The pieces of all but the last item: the first item's, then those of the items between. */
  lemma PiecesOfInner(f: Filter, items: seq<Item>)
    requires |items| > 1
    ensures Pieces(f, items[..|items| - 1]) == Piece(f, items[0]) + Pieces(f, items[1..][..|items| - 2])
  {
    InnerSlice(items);
    PiecesAppend(f, [items[0]], items[1..][..|items| - 2]);
    assert [items[0]][..0] == [];
  }

  /** The loop writes the piece of an item that is neither EOF nor Error before those of the
      rest. */
  lemma DrainPast(f: Filter, items: seq<Item>)
    requires |items| > 0 && !items[0].typ.Terminal()
    ensures Drain(f, items) == WrittenAfter(Piece(f, items[0]), Drain(f, items[1..]))
  {
  }

  /** The loop returns at once at EOF or an Error, having written nothing. */
  lemma DrainAtTerminal(f: Filter, items: seq<Item>)
    requires |items| > 0 && items[0].typ.Terminal()
    ensures Drain(f, items) == Returned([], if items[0].typ == EOF then None else Some(items[0].val))
  {
  }

  /** The items after the first of a stream with more than one item form a stream. */
  lemma RestOfStream(items: seq<Item>)
    requires TerminalOnlyAtEnd(items) && |items| > 1
    ensures TerminalOnlyAtEnd(items[1..]) && !items[0].typ.Terminal() && Last(items[1..]) == Last(items)
  {
    var rest := items[1..];
    forall i | 0 <= i < |rest| - 1
      ensures !rest[i].typ.Terminal()
    {
      assert rest[i] == items[i + 1];
    }
  }

  /**
   * A filter over the whole item stream of `input`. When the lexer stalls, the filter reads the
   * empty identifier again and again and writes nothing more: it never returns.
   */
  function WriteTo(f: Filter, u: CharClasses, input: string): (r: Drained)
    ensures r.Reading? <==> Lex.Lex(u, input).Endless?
    ensures r.Reading? ==> Piece(f, Lex.Lex(u, input).repeated) == []
  {
    match Lex.Lex(u, input)
    case Halted(items) =>
      assert Last(items).typ.Terminal();
      Drain(f, items)
    case Endless(prefix, _) =>
      StalledPrefixOpen(u, input);
      Drain(f, prefix)
  }

  /** What a string wrapper returns: the output, or "" and an error; nothing when the filter
      never returns. */
  datatype Answer = Answer(value: string, err: Option<string>) | NoAnswer

  function Collect(d: Drained): (r: Answer)
    ensures d.Reading? <==> r.NoAnswer?
    ensures r.Answer? ==> r.err == d.err && (r.err.None? ==> r.value == d.written)
    ensures r.Answer? && r.err.Some? ==> r.value == []
  {
    match d
    case Returned(w, None) => Answer(w, None)
    case Returned(_, Some(e)) => Answer([], Some(e))
    case Reading(_) => NoAnswer
  }

  /** WriteMinifiedTo of minify.go: returns exactly when the lexer does not stall. */
  function WriteMinifiedTo(u: CharClasses, input: string): (r: Drained)
    ensures r.Reading? <==> Lex.Lex(u, input).Endless?
  {
    WriteTo(Minifying, u, input)
  }

  /** WriteCommentTrimmedTo of trimcomment.go: returns exactly when the lexer does not stall. */
  function WriteCommentTrimmedTo(u: CharClasses, input: string): (r: Drained)
    ensures r.Reading? <==> Lex.Lex(u, input).Endless?
  {
    WriteTo(Trimming, u, input)
  }

  /** WriteUncommentedTo of uncomment.go: returns exactly when the lexer does not stall. */
  function WriteUncommentedTo(u: CharClasses, input: string): (r: Drained)
    ensures r.Reading? <==> Lex.Lex(u, input).Endless?
  {
    WriteTo(Uncommenting, u, input)
  }

  /** Minify of minify.go: answers exactly when the lexer does not stall, and with "" on an error. */
  function Minify(u: CharClasses, input: string): (r: Answer)
    ensures r.NoAnswer? <==> Lex.Lex(u, input).Endless?
    ensures r.Answer? && r.err.Some? ==> r.value == []
  {
    Collect(WriteMinifiedTo(u, input))
  }

  /** TrimComment of trimcomment.go: answers exactly when the lexer does not stall, and with "" on an error. */
  function TrimComment(u: CharClasses, input: string): (r: Answer)
    ensures r.NoAnswer? <==> Lex.Lex(u, input).Endless?
    ensures r.Answer? && r.err.Some? ==> r.value == []
  {
    Collect(WriteCommentTrimmedTo(u, input))
  }

  /** Uncomment of uncomment.go: answers exactly when the lexer does not stall, and with "" on an error. */
  function Uncomment(u: CharClasses, input: string): (r: Answer)
    ensures r.NoAnswer? <==> Lex.Lex(u, input).Endless?
    ensures r.Answer? && r.err.Some? ==> r.value == []
  {
    Collect(WriteUncommentedTo(u, input))
  }

  // ---------------------------------------------------------------- the wrappers' answers

  /** The answer a wrapper gives, read off the item stream: at EOF the pieces of every other
      item and no error; at an Error "" and its message; no answer when the lexer stalls. */
  ghost predicate AnswersFor(f: Filter, u: CharClasses, input: string, a: Answer) {
    match Lex.Lex(u, input)
    case Halted(items) =>
      && |items| > 0
      && a == if Last(items).typ == EOF then Answer(Pieces(f, items[..|items| - 1]), None)
              else Answer([], Some(Last(items).val))
    case Endless(_, _) => a == NoAnswer
  }

  /** Minify, TrimComment and Uncomment answer as AnswersFor says, and an error they report is
      one of the lexer's fixed messages. */
  lemma WrapperAnswers(f: Filter, u: CharClasses, input: string)
    ensures AnswersFor(f, u, input, Collect(WriteTo(f, u, input)))
    ensures var a := Collect(WriteTo(f, u, input));
            a.Answer? && a.err.Some? ==> a.value == [] && a.err.value in ErrorMessages
  {
    match Lex.Lex(u, input)
    case Halted(items) =>
      assert TerminalOnlyAtEnd(items) && ItemOk(u, Last(items)) by {
        LexSound(u, input);
      }
      DrainStream(f, items);
    case Endless(_, _) =>
  }

  // ---------------------------------------------------------------- Minify

  /** The items Minify keeps: all but whitespace and comments, in order. */
  function Tokens(items: seq<Item>): (r: seq<Item>)
    ensures |r| <= |items|
  {
    if |items| == 0 then []
    else
      var it := items[|items| - 1];
      Tokens(items[..|items| - 1]) +
        (if it.typ == Whitespace || it.typ == BlockComment || it.typ == LineComment then [] else [it])
  }

  /** Minify writes exactly the texts of the kept items, verbatim and in order. */
  lemma {:induction false} MinifyWritesTokens(items: seq<Item>)
    ensures Pieces(Minifying, items) == Concat(Tokens(items))
    decreases |items|
  {
    if |items| > 0 {
      var front := items[..|items| - 1];
      var it := items[|items| - 1];
      MinifyWritesTokens(front);
      if !(it.typ == Whitespace || it.typ == BlockComment || it.typ == LineComment) {
        ConcatSnoc(Tokens(front), it);
      } else {
        assert Tokens(items) == Tokens(front) + [] == Tokens(front);
        assert Pieces(Minifying, items) == Pieces(Minifying, front) + [] == Pieces(Minifying, front);
      }
    }
  }

  /** Minify's answer: the concatenated texts of every item but whitespace, comments and the final
      EOF, or "" and the message of the first error; none when the lexer stalls. */
  lemma MinifyAnswer(u: CharClasses, input: string)
    ensures match Lex.Lex(u, input)
            case Halted(items) =>
              && |items| > 0
              && Minify(u, input) ==
                   if Last(items).typ == EOF then Answer(Concat(Tokens(items[..|items| - 1])), None)
                   else Answer([], Some(Last(items).val))
            case Endless(_, _) => Minify(u, input) == NoAnswer
  {
    WrapperAnswers(Minifying, u, input);
    if Lex.Lex(u, input).Halted? {
      var items := Lex.Lex(u, input).items;
      MinifyWritesTokens(items[..|items| - 1]);
    }
  }

  // ---------------------------------------------------------------- TrimComment

  function Newlines(s: string): nat {
    multiset(s)['\n']
  }

  /** The block comments among `items`, in order. */
  function BlockComments(items: seq<Item>): (r: seq<Item>)
    ensures forall i :: 0 <= i < |r| ==> r[i].typ == BlockComment
  {
    if |items| == 0 then []
    else
      var it := items[|items| - 1];
      BlockComments(items[..|items| - 1]) + (if it.typ == BlockComment then [it] else [])
  }

  /** A line comment holds a newline only at its end. */
  lemma LineCommentNewlines(v: string)
    requires LineCommentText(v)
    ensures Newlines(v) == if EndsInNewline(v) then 1 else 0
  {
    var front := v[..|v| - 1];
    assert '\n' !in front;
    assert v == front + [v[|v| - 1]];
  }

  /** Every line comment among `items` has the text of one. */
  ghost predicate LineCommentsOk(items: seq<Item>) {
    forall i :: 0 <= i < |items| && items[i].typ == LineComment ==> LineCommentText(items[i].val)
  }

  /** TrimComment keeps every newline of the items' texts except those inside block comments. */
  lemma {:induction false} TrimKeepsNewlines(items: seq<Item>)
    requires LineCommentsOk(items)
    ensures Newlines(Pieces(Trimming, items)) + Newlines(Concat(BlockComments(items))) == Newlines(Concat(items))
    decreases |items|
  {
    if |items| > 0 {
      var front := items[..|items| - 1];
      var it := items[|items| - 1];
      assert LineCommentsOk(front) by {
        forall i | 0 <= i < |front| && front[i].typ == LineComment
          ensures LineCommentText(front[i].val)
        {
          assert front[i] == items[i];
        }
      }
      TrimKeepsNewlines(front);
      assert Concat(items) == Concat(front) + it.val;
      if it.typ == BlockComment {
        ConcatSnoc(BlockComments(front), it);
      } else {
        assert BlockComments(items) == BlockComments(front);
        if it.typ == LineComment {
          LineCommentNewlines(it.val);
        }
      }
    }
  }

  /**
   * When TrimComment succeeds it writes as many newlines as the input holds outside block
   * comments: all of the input's newlines but those in block comments and those in the unclosed
   * block comment that EOF carries.
   */
  lemma TrimCommentKeepsLines(u: CharClasses, input: string)
    ensures var a := TrimComment(u, input);
            var s := Lex.Lex(u, input);
            a.Answer? && a.err.None? ==>
              && s.Halted? && |s.items| > 0
              && Newlines(a.value) + Newlines(Concat(BlockComments(s.items[..|s.items| - 1])))
                   + Newlines(Last(s.items).val) == Newlines(input)
  {
    WrapperAnswers(Trimming, u, input);
    var s := Lex.Lex(u, input);
    if s.Halted? && Last(s.items).typ == EOF {
      HaltedSpells(u, input);
      TrimStreamLines(s.items, input);
    }
  }

  /** A stream that finished at EOF spells the input, and its line comments are line-comment texts. */
  lemma HaltedSpells(u: CharClasses, input: string)
    requires Lex.Lex(u, input).Halted? && Last(Lex.Lex(u, input).items).typ == EOF
    ensures Concat(Lex.Lex(u, input).items) == input && LineCommentsOk(Lex.Lex(u, input).items)
  {
    LexSound(u, input);
    var items := Lex.Lex(u, input).items;
    CoversSpells(input, items);
    ItemsOkLineComments(u, items);
  }

  /** The items of a covering stream that ends in EOF spell the input. */
  lemma CoversSpells(input: string, items: seq<Item>)
    requires |items| > 0 && Last(items).typ == EOF && Covers(input, items)
    ensures Concat(items) == input
  {
  }

  /** Items that fit their kinds have line-comment texts for their line comments. */
  lemma ItemsOkLineComments(u: CharClasses, items: seq<Item>)
    requires AllItemsOk(u, items)
    ensures LineCommentsOk(items)
  {
    forall i | 0 <= i < |items| && items[i].typ == LineComment
      ensures LineCommentText(items[i].val)
    {
      assert ItemOk(u, items[i]);
    }
  }


  /** The newline count of TrimComment's success, over the items of a stream that spells `input`. */
  lemma TrimStreamLines(items: seq<Item>, input: string)
    requires |items| > 0 && Concat(items) == input && LineCommentsOk(items)
    ensures var body := items[..|items| - 1];
            Newlines(Pieces(Trimming, body)) + Newlines(Concat(BlockComments(body)))
              + Newlines(Last(items).val) == Newlines(input)
  {
    var body := items[..|items| - 1];
    assert LineCommentsOk(body) by {
      forall i | 0 <= i < |body| && body[i].typ == LineComment
        ensures LineCommentText(body[i].val)
      {
        assert body[i] == items[i];
      }
    }
    TrimKeepsNewlines(body);
    assert Concat(items) == Concat(body) + Last(items).val;
  }


  // ---------------------------------------------------------------- Uncomment against TrimComment

  /** Uncomment and TrimComment write the same when every line comment keeps its newline. */
  lemma {:induction false} UncommentMatchesTrim(items: seq<Item>)
    requires forall i :: 0 <= i < |items| && items[i].typ == LineComment ==> EndsInNewline(items[i].val)
    ensures Pieces(Uncommenting, items) == Pieces(Trimming, items)
    decreases |items|
  {
    if |items| > 0 {
      var front := items[..|items| - 1];
      assert forall i :: 0 <= i < |front| ==> front[i] == items[i];
      UncommentMatchesTrim(front);
    }
  }

  /** The stream ends in a line comment without a newline, right before its last item. */
  predicate EndsInOpenLineComment(items: seq<Item>) {
    |items| >= 2 && items[|items| - 2].typ == LineComment && !EndsInNewline(items[|items| - 2].val)
  }

  /** On the non-terminal items of a finished stream Uncomment writes what TrimComment writes,
      and one newline more when the input ends in a line comment that has none. */
  lemma UncommentAddsNewline(items: seq<Item>)
    requires |items| > 0 && OpenLineCommentLast(items)
    ensures var body := items[..|items| - 1];
            Pieces(Uncommenting, body) ==
              Pieces(Trimming, body) + (if EndsInOpenLineComment(items) then "\n" else [])
  {
    var body := items[..|items| - 1];
    if EndsInOpenLineComment(items) {
      var front := body[..|body| - 1];
      assert forall i :: 0 <= i < |front| ==> front[i] == items[i];
      UncommentMatchesTrim(front);
    } else {
      assert forall i :: 0 <= i < |body| ==> body[i] == items[i];
      UncommentMatchesTrim(body);
    }
  }

  /**
   * Uncomment answers exactly when TrimComment does, with the same error, and with the same text
   * except that an input ending in a line comment without a newline gets one newline more.
   */
  lemma UncommentVsTrimComment(u: CharClasses, input: string)
    ensures var t := TrimComment(u, input);
            var c := Uncomment(u, input);
            var s := Lex.Lex(u, input);
            && (c.NoAnswer? <==> t.NoAnswer?)
            && (c.Answer? ==>
                  && c.err == t.err
                  && c.value == t.value + (if t.err.None? && s.Halted? && EndsInOpenLineComment(s.items) then "\n" else []))
  {
    WrapperAnswers(Trimming, u, input);
    WrapperAnswers(Uncommenting, u, input);
    var s := Lex.Lex(u, input);
    if s.Halted? {
      assert OpenLineCommentLast(s.items) by {
        LexSound(u, input);
      }
      UncommentAddsNewline(s.items);
      if Last(s.items).typ != EOF && EndsInOpenLineComment(s.items) {
        assert false;
      }
    }
  }

  // ---------------------------------------------------------------- inputs without tokens

  /** Every filter turns the empty input into "" with no error. */
  lemma EmptyInputAnswers(f: Filter, u: CharClasses)
    ensures Collect(WriteTo(f, u, [])) == Answer([], None)
  {
    EmptyInput(u);
    WrapperAnswers(f, u, []);
    assert [Item(EOF, 0, [])][..0] == [];
  }

  lemma PiecesOfOne(f: Filter, it: Item)
    ensures Pieces(f, [it]) == Piece(f, it)
  {
    assert [it][..0] == [];
  }

  /** With Go's answers on ASCII, an input of spaces alone: Minify writes nothing, while
      TrimComment and Uncomment copy the spaces through. */
  lemma SpacesAnswers(f: Filter, u: CharClasses, input: string)
    requires AsciiFaithful(u) && |input| > 0
    requires forall i :: 0 <= i < |input| ==> u.isSpace(input[i])
    ensures Collect(WriteTo(f, u, input)) == Answer(if f == Minifying then [] else input, None)
  {
    SpacesOnlyStream(u, input);
    var w := Item(Whitespace, 0, input);
    var e := Item(EOF, ByteLen(input), []);
    assert WriteTo(f, u, input) == Drain(f, [w, e]);
    WhitespaceThenEof(f, w, e);
  }

  /** The "spaces" case of Minify's tests. */
  lemma MinifySpacesExample(u: CharClasses)
    requires AsciiFaithful(u)
    ensures Minify(u, " \t\n") == Answer("", None)
  {
    AsciiSpacesAreSpaces(u, " \t\n");
    SpacesAnswers(Minifying, u, " \t\n");
  }

  /** A Whitespace item and EOF: the loop writes the item's piece and returns with no error. */
  lemma WhitespaceThenEof(f: Filter, w: Item, e: Item)
    requires w.typ == Whitespace && e.typ == EOF
    ensures Drain(f, [w, e]) == Returned(if f == Minifying then [] else w.val, None)
  {
    assert [w, e][1..] == [e];
  }
}

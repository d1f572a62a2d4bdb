/**
 * The invariant of a running lexer: the items emitted so far spell the input up to the start of
 * the current token, carry byte positions, are not terminal and fit their kinds. Emitting a token
 * keeps it; emitting a terminal item turns it into a well-formed finished stream.
 */
module LexInvariant {

  import opened Wrappers
  import opened Slices
  import opened Runes
  import opened Items
  import opened Grammar
  import opened Cursor
  import opened Lex

  /** An item that may stand anywhere but last: it is no terminal, its text fits its kind, and
      a line comment keeps its newline. */
  ghost predicate Settled(u: CharClasses, it: Item) {
    !it.typ.Terminal() && ItemOk(u, it) && (it.typ == LineComment ==> EndsInNewline(it.val))
  }

  ghost predicate Inv(u: CharClasses, l: Lexer) {
    && l.Valid()
    && Concat(l.items) == l.input[..l.start]
    && Positioned(l.items)
    && forall i :: 0 <= i < |l.items| ==> Settled(u, l.items[i])
  }

  lemma InitialInv(u: CharClasses, input: string)
    ensures Inv(u, Lexer(input, 0, 0, []))
  {
  }

  lemma {:induction false} EmitKeepsInv(u: CharClasses, l: Lexer, m: Lexer, t: ItemType)
    requires Inv(u, l) && Follows(l, m) && EmittedAs(l, m, t)
    requires Settled(u, Item(t, ByteOffset(l, l.start), l.input[l.start..m.pos]))
    ensures Inv(u, m)
  {
    var x := Item(t, ByteOffset(l, l.start), l.input[l.start..m.pos]);
    ConcatSnoc(l.items, x);
    PrefixSplit(l.input, l.start, m.pos);
    PositionedSnoc(l.items, x);
    forall i | 0 <= i < |m.items|
      ensures Settled(u, m.items[i])
    {
      if i < |l.items| {
        assert m.items[i] == l.items[i];
      }
    }
  }

  /** Appending one terminal item at the start of the current token finishes the stream. */
  lemma {:induction false} FinishWith(u: CharClasses, l: Lexer, last: Item)
    requires Inv(u, l)
    requires last.typ.Terminal() && ItemOk(u, last) && last.pos == ByteOffset(l, l.start)
    requires last.typ == EOF ==> last.val == l.input[l.start..]
    ensures WellFormed(u, l.input, l.items + [last])
  {
    var items := l.items + [last];
    assert items[..|items| - 1] == l.items;
    assert TerminalOnlyAtEnd(items) by {
      forall i | 0 <= i < |items| - 1
        ensures !items[i].typ.Terminal()
      {
        assert items[i] == l.items[i];
      }
    }
    assert AllItemsOk(u, items) by {
      forall i | 0 <= i < |items|
        ensures ItemOk(u, items[i])
      {
        if i < |l.items| {
          assert items[i] == l.items[i];
        }
      }
    }
    PositionedSnoc(l.items, last);
    assert Covers(l.input, items) by {
      ConcatSnoc(l.items, last);
      if last.typ == EOF {
        assert l.input[..l.start] + l.input[l.start..] == l.input;
      }
    }
    assert OpenLineCommentLast(items) by {
      forall i | 0 <= i < |items| - 1
        ensures items[i].typ == LineComment ==> EndsInNewline(items[i].val)
      {
        assert items[i] == l.items[i];
      }
    }
  }

  /** Settled items, then a line comment without its newline, then EOF: one terminal, last; every
      text fits its kind; the open line comment directly precedes EOF. */
  lemma SettledThenOpenComment(u: CharClasses, items: seq<Item>, lc: Item, eof: Item)
    requires forall i :: 0 <= i < |items| ==> Settled(u, items[i])
    requires lc.typ == LineComment && LineCommentText(lc.val) && eof.typ == EOF && eof.val == []
    ensures TerminalOnlyAtEnd(items + [lc, eof])
    ensures AllItemsOk(u, items + [lc, eof])
    ensures OpenLineCommentLast(items + [lc, eof])
  {
    var all := items + [lc, eof];
    forall i | 0 <= i < |items|
      ensures all[i] == items[i]
    {
    }
  }

  /** After the items that spell the input up to the start of a trailing line comment, the comment
      and an EOF at the byte length of the input are positioned and cover the whole input. */
  lemma {:induction false} OpenCommentLayout(u: CharClasses, l: Lexer, lc: Item, eof: Item)
    requires Inv(u, l) && l.start < |l.input|
    requires lc == Item(LineComment, ByteOffset(l, l.start), l.input[l.start..])
    requires eof == Item(EOF, ByteLen(l.input), [])
    ensures Positioned(l.items + [lc, eof]) && Covers(l.input, l.items + [lc, eof])
  {
    var items1 := l.items + [lc];
    var items := items1 + [eof];
    assert items == l.items + [lc, eof];
    assert Concat(items1) == l.input by {
      ConcatSnoc(l.items, lc);
      assert l.input[..l.start] + l.input[l.start..] == l.input;
    }
    PositionedSnoc(l.items, lc);
    PositionedSnoc(items1, eof);
    assert items[..|items| - 1] == items1;
    ConcatSnoc(items1, eof);
  }

  /** A line comment that runs to the end of input, then EOF, finishes the stream. */
  lemma FinishOpenLineComment(u: CharClasses, l: Lexer)
    requires Inv(u, l) && l.start < |l.input|
    requires LineCommentText(l.input[l.start..])
    ensures WellFormed(u, l.input, l.items + [Item(LineComment, ByteOffset(l, l.start), l.input[l.start..]),
                                              Item(EOF, ByteLen(l.input), [])])
  {
    var lc := Item(LineComment, ByteOffset(l, l.start), l.input[l.start..]);
    var eof := Item(EOF, ByteLen(l.input), []);
    SettledThenOpenComment(u, l.items, lc, eof);
    OpenCommentLayout(u, l, lc, eof);
  }
}

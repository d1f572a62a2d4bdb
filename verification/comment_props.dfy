/**
 * lexWhitespace, lexLineComment and lexBlockComment against the shapes of their texts: a nonempty
 * run of spaces; `#` or `//` through the first newline or to the end of input; slash-star through
 * the first star-slash that starts after the opening slash, or an unclosed remainder.
 */
module CommentProps {

  import opened Wrappers
  import opened Runes
  import opened Items
  import opened Grammar
  import opened Cursor
  import opened Lex

  // ---------------------------------------------------------------- whitespace

  /** lexWhitespace, entered at a space, emits a nonempty run of spaces that no space follows. */
  lemma LexWhitespaceSound(u: CharClasses, l: Lexer)
    requires AtTokenStart(l) && Peek(l).Some? && u.isSpace(Peek(l).value)
    ensures var r := LexWhitespace(u, l);
            var v := l.input[l.pos..r.l.pos];
            && |v| > 0 && (forall i :: 0 <= i < |v| ==> u.isSpace(v[i]))
            && (r.l.pos == |l.input| || !u.isSpace(l.input[r.l.pos]))
  {
    var r := LexWhitespace(u, l);
    var v := l.input[l.pos..r.l.pos];
    assert forall i :: 0 <= i < |v| ==> v[i] == l.input[l.pos + i];
  }

  // ---------------------------------------------------------------- line comments

  predicate NoNewline(s: string, i: nat, j: nat)
    requires i <= j <= |s|
  {
    forall k :: i <= k < j ==> s[k] != '\n'
  }

  /** The loop of lexLineComment stops at the first newline from the cursor on, or at the end. */
  lemma {:induction false} LineCommentScan(l: Lexer)
    requires l.Valid() && NoNewline(l.input, l.start, l.pos)
    ensures var r := LexLineComment(l);
            && (r.next == TextState ==> NoNewline(l.input, l.start, r.l.pos - 1))
            && (r.next == Stopped ==> NoNewline(l.input, l.start, |l.input|))
    decreases |l.input| - l.pos
  {
    var (l1, r) := Next(l);
    if !(r == Some('\n') || r.None?) {
      LineCommentScan(l1);
    }
  }

  /** The runes from an opener up to the end of input or through a newline, with no newline
      before that, form a line comment. */
  lemma LineTextFromScan(s: string, p: nat, e: nat)
    requires p < e <= |s| && NoNewline(s, p, e - 1) && (e == |s| || s[e - 1] == '\n')
    requires s[p] == '#' || (p + 2 <= |s| && s[p..p + 2] == "//")
    ensures LineCommentText(s[p..e])
  {
    var v := s[p..e];
    assert forall i :: 0 <= i < |v| ==> v[i] == s[p + i];
    if s[p] != '#' {
      assert s[p] == s[p..p + 2][0] && s[p + 1] == s[p..p + 2][1];
      assert v[..2] == s[p..p + 2];
    }
  }

  /** A line comment that lexLineComment emits runs from `#` or `//` through the first newline,
      which it keeps. */
  lemma LexLineCommentCloses(l: Lexer)
    requires AtTokenStart(l) && (Peek(l) == Some('#') || HasPrefix(l, "//"))
    ensures var r := LexLineComment(l);
            var v := l.input[l.pos..r.l.pos];
            r.next == TextState ==> LineCommentText(v) && EndsInNewline(v)
  {
    LineCommentScan(l);
    var r := LexLineComment(l);
    if r.next == TextState {
      LineTextFromScan(l.input, l.pos, r.l.pos);
    }
  }

  /** At the end of input the comment is emitted without a newline and EOF follows it at once. */
  lemma LexLineCommentAtEnd(l: Lexer)
    requires AtTokenStart(l) && (Peek(l) == Some('#') || HasPrefix(l, "//"))
    ensures var r := LexLineComment(l);
            r.next == Stopped ==>
              && LineCommentText(l.input[l.pos..])
              && r.l.items == l.items + [Item(LineComment, ByteOffset(l, l.pos), l.input[l.pos..]),
                                         Item(EOF, ByteLen(l.input), [])]
  {
    LineCommentScan(l);
    var r := LexLineComment(l);
    if r.next == Stopped {
      OpenLineText(l);
    }
  }

  /** An opener and no newline up to the end of input make the rest of the input a line comment. */
  lemma OpenLineText(l: Lexer)
    requires AtTokenStart(l) && (Peek(l) == Some('#') || HasPrefix(l, "//"))
    requires NoNewline(l.input, l.start, |l.input|)
    ensures l.pos < |l.input| && LineCommentText(l.input[l.pos..])
  {
    LineTextFromScan(l.input, l.pos, |l.input|);
    assert l.input[l.pos..|l.input|] == l.input[l.pos..];
  }

  // ---------------------------------------------------------------- block comments

  /** No comment closes at any index from `i` up to `j`. */
  predicate NoCloseBetween(s: string, i: nat, j: int) {
    forall k :: i <= k < j ==> !ClosesAt(s, k)
  }

  /** The loop of lexBlockComment, once past the opening slash, stops at the first star-slash from
      the cursor on, or at the end of input. */
  lemma {:induction false} BlockCommentScan(l: Lexer)
    requires l.Valid() && l.start < l.pos && NoCloseBetween(l.input, l.start + 1, l.pos)
    ensures var r := LexBlockComment(l);
            && (r.next == TextState ==> NoCloseBetween(l.input, l.start + 1, r.l.pos - 2))
            && (r.next == Stopped ==> NoCloseBetween(l.input, l.start + 1, |l.input|))
    decreases |l.input| - l.pos
  {
    if HasPrefix(l, "*/") {
    } else {
      var (l1, r) := Next(l);
      if r.Some? {
        BlockCommentScan(l1);
      }
    }
  }

  /** lexBlockComment entered at slash-star: the star-slash test fails at the slash, which is then
      consumed. */
  lemma BlockCommentEnter(l: Lexer)
    requires AtTokenStart(l) && HasPrefix(l, "/*")
    ensures LexBlockComment(l) == LexBlockComment(l.(pos := l.pos + 1))
  {
    assert l.input[l.pos] == l.input[l.pos..l.pos + 2][0];
    assert !HasPrefix(l, "*/");
  }

  /** A comment closes in a slice at `i` exactly when it closes in the whole input at p + i. */
  lemma ClosesInSlice(s: string, p: nat, e: nat, i: nat)
    requires p <= e <= |s|
    ensures ClosesAt(s[p..e], i) <==> i + 2 <= e - p && ClosesAt(s, p + i)
  {
  }

  /** Slash-star, then runes up to a star-slash before which none closes after the opening slash,
      form a block comment. */
  lemma BlockTextFromScan(s: string, p: nat, e: nat)
    requires p + 3 <= e <= |s| && s[p..p + 2] == "/*" && ClosesAt(s, e - 2) && NoCloseBetween(s, p + 1, e - 2)
    ensures BlockCommentText(s[p..e])
  {
    var v := s[p..e];
    assert v[..2] == s[p..p + 2];
    ClosesInSlice(s, p, e, |v| - 2);
    forall i | 1 <= i < |v| - 2
      ensures !ClosesAt(v, i)
    {
      ClosesInSlice(s, p, e, i);
    }
  }

  /** Slash-star and a remainder in which nothing closes after the opening slash form an unclosed
      block comment. */
  lemma UnclosedFromScan(s: string, p: nat)
    requires p + 2 <= |s| && s[p..p + 2] == "/*" && NoCloseBetween(s, p + 1, |s|)
    ensures UnclosedBlockComment(s[p..])
  {
    var v := s[p..];
    assert v == s[p..|s|];
    assert v[..2] == s[p..p + 2];
    forall i | 1 <= i < |v|
      ensures !ClosesAt(v, i)
    {
      ClosesInSlice(s, p, |s|, i);
    }
  }

  /**
   * A block comment runs from slash-star through the first star-slash that starts after the
   * opening slash, so slash-star-slash is a whole comment.
   */
  lemma LexBlockCommentCloses(l: Lexer)
    requires AtTokenStart(l) && HasPrefix(l, "/*")
    ensures var r := LexBlockComment(l);
            r.next == TextState ==> BlockCommentText(l.input[l.pos..r.l.pos])
  {
    var m := l.(pos := l.pos + 1);
    BlockCommentEnter(l);
    var r := LexBlockComment(m);
    if r.next == TextState {
      BlockCommentScan(m);
      assert l.input[l.pos..l.pos + 2] == "/*" && l.pos + 3 <= r.l.pos;
      BlockTextFromScan(l.input, l.pos, r.l.pos);
    }
  }

  /** An unclosed block comment is no error: EOF carries the rest of the input. */
  lemma LexBlockCommentUnclosed(l: Lexer)
    requires AtTokenStart(l) && HasPrefix(l, "/*")
    ensures var r := LexBlockComment(l);
            r.next == Stopped ==>
              && UnclosedBlockComment(l.input[l.pos..])
              && r.l.items == l.items + [Item(EOF, ByteOffset(l, l.pos), l.input[l.pos..])]
  {
    var m := l.(pos := l.pos + 1);
    BlockCommentEnter(l);
    var r := LexBlockComment(m);
    if r.next == Stopped {
      BlockCommentScan(m);
      UnclosedFromScan(l.input, l.pos);
    }
  }
}

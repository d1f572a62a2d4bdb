/** The lexer's output vocabulary: `item` and `itemType` of lex.go. */
module Items {

  import opened Runes

  /** The kinds of lex.go, in the order of their `iota` constants. */
  datatype ItemType =
    | Error
    | String
    | BlockComment
    | LineComment
    | LeftBrace
    | RightBrace
    | LeftBracket
    | RightBracket
    | Comma
    | Colon
    | Number
    | True
    | False
    | Null
    | Identifier
    | Whitespace
    | EOF
  {
    /** Error and EOF end the stream; the lexer emits nothing after them. */
    predicate Terminal() {
      this == Error || this == EOF
    }
  }

  /** One emitted item: its kind, the byte offset where its token starts, and its text.
      For an Error item the text is the message. */
  datatype Item = Item(typ: ItemType, pos: nat, val: string)

  // The fixed error messages of lex.go.
  const InvalidAfterSlash: string := "invalid character after slash"
  const UnsupportedEscape: string := "unsupported escape character"
  const BadHexEscape: string := "expected 4 hexadecimal digits"
  const ControlInString: string := "cannot contain control characters in strings"
  const UnclosedString: string := "unclosed string"
  const BadDigit: string := "bad digit for number"
  const NoExponentDigit: string := "digit expected for number exponent"
  const UExpected: string := "'u' for unicode escape sequence expected"
  const BadIdentifierHex: string := "expected 4 hexadecimal digits for unicode escape sequence"
  const IdentifierExpected: string := "identifier expected"

  const StringErrors: set<string> := {UnsupportedEscape, BadHexEscape, ControlInString, UnclosedString}
  const NumberErrors: set<string> := {BadDigit, NoExponentDigit}
  const IdentifierErrors: set<string> := {UExpected, BadIdentifierHex, IdentifierExpected}
  const ErrorMessages: set<string> := {InvalidAfterSlash} + StringErrors + NumberErrors + IdentifierErrors

  /** The texts of `items`, in order: what a consumer that writes every item verbatim would write. */
  function Concat(items: seq<Item>): string
  {
    if |items| == 0 then [] else Concat(items[..|items| - 1]) + items[|items| - 1].val
  }

  lemma ConcatSnoc(items: seq<Item>, x: Item)
    ensures Concat(items + [x]) == Concat(items) + x.val
  {
    assert (items + [x])[..|items|] == items;
  }

  /** Every item's `pos` is the byte length of all earlier items' texts. */
  ghost predicate Positioned(items: seq<Item>) {
    forall i :: 0 <= i < |items| ==> items[i].pos == ByteLen(Concat(items[..i]))
  }

  lemma PositionedSnoc(items: seq<Item>, x: Item)
    requires Positioned(items)
    requires x.pos == ByteLen(Concat(items))
    ensures Positioned(items + [x])
  {
    var s := items + [x];
    forall i | 0 <= i < |s|
      ensures s[i].pos == ByteLen(Concat(s[..i]))
    {
      if i < |items| {
        assert s[..i] == items[..i];
      } else {
        assert s[..i] == items;
      }
    }
  }
}

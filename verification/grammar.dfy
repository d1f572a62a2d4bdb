/**
 * Reference definitions of what the lexer accepts, written as grammars rather than as scanning
 * loops: the text of each item kind, and the shape of a whole item stream.
 */
module Grammar {

  import opened Wrappers
  import opened Runes
  import opened Items

  const Delimiters: set<char> := {'{', '}', '[', ']', ':', ','}
  const SimpleEscapes: set<char> := {'"', '\\', '/', 'b', 'f', 'n', 'r', 't'}
  const HexDigits: set<char> := {'0', '1', '2', '3', '4', '5', '6', '7', '8', '9', 'A', 'B', 'C', 'D', 'E', 'F', 'a', 'b', 'c', 'd', 'e', 'f'}
  const Digits: set<char> := {'0', '1', '2', '3', '4', '5', '6', '7', '8', '9'}
  const Digits1To9: set<char> := {'1', '2', '3', '4', '5', '6', '7', '8', '9'}
  const NumberStart: set<char> := {'0', '1', '2', '3', '4', '5', '6', '7', '8', '9', '-'}
  const Keywords: set<string> := {"true", "false", "null"}

  predicate AllIn(s: string, valid: set<char>) {
    forall i :: 0 <= i < |s| ==> s[i] in valid
  }

  /** The single-rune item kind of a delimiter. */
  function DelimiterType(c: char): ItemType
    requires c in Delimiters
  {
    match c
    case '{' => LeftBrace
    case '}' => RightBrace
    case '[' => LeftBracket
    case ']' => RightBracket
    case ':' => Colon
    case ',' => Comma
  }

  /** The kind of an accumulated identifier text: a keyword literal or a plain identifier. */
  function KeywordType(text: string): ItemType
  {
    if text == "true" then True
    else if text == "false" then False
    else if text == "null" then Null
    else Identifier
  }

  // ---------------------------------------------------------------- strings (RFC 8259, section 7)

  /** The characters between the quotes of a string: unescaped runes other than `"`, `\` and
      control runes, the escapes `\" \\ \/ \b \f \n \r \t`, and `\u` with four hex digits. */
  predicate StringChars(s: string)
    decreases |s|
  {
    if |s| == 0 then true
    else if s[0] == '\\' then
      || (|s| >= 2 && s[1] in SimpleEscapes && StringChars(s[2..]))
      || (|s| >= 6 && s[1] == 'u' && AllIn(s[2..6], HexDigits) && StringChars(s[6..]))
    else s[0] != '"' && !IsControl(s[0]) && StringChars(s[1..])
  }

  predicate JsonString(v: string) {
    |v| >= 2 && v[0] == '"' && v[|v| - 1] == '"' && StringChars(v[1..|v| - 1])
  }

  // ---------------------------------------------------------------- numbers (RFC 8259, section 6)

  predicate Sign(s: string) {
    s == [] || s == "-"
  }

  predicate IntPart(s: string) {
    s == "0" || (|s| >= 1 && s[0] in Digits1To9 && AllIn(s[1..], Digits))
  }

  /** A fraction: unlike RFC 8259 the lexer accepts a `.` followed by no digit at all. */
  predicate FracPart(s: string) {
    s == [] || (s[0] == '.' && AllIn(s[1..], Digits))
  }

  predicate ExpPart(s: string) {
    s == [] ||
    (|s| >= 2 && s[0] in {'e', 'E'} &&
     var d := if s[1] in {'+', '-'} then s[2..] else s[1..];
     |d| >= 1 && AllIn(d, Digits))
  }

  /** `v` is sign v[..a], integer part v[a..b], fraction v[b..c] and exponent v[c..]. */
  predicate NumberSplit(v: string, a: int, b: int, c: int) {
    0 <= a <= b <= c <= |v| && Sign(v[..a]) && IntPart(v[a..b]) && FracPart(v[b..c]) && ExpPart(v[c..])
  }

  ghost predicate JsonNumber(v: string) {
    exists a, b, c :: NumberSplit(v, a, b, c)
  }

  // ---------------------------------------------------------------- identifiers

  /** isIdentifierPart of lex.go: a letter, mark, digit or punctuation rune that is no delimiter. */
  predicate IsIdentifierPart(u: CharClasses, c: char) {
    (u.isLetter(c) || u.isMark(c) || u.isDigit(c) || u.isPunct(c)) && c !in Delimiters
  }

  predicate IdentifierStart(u: CharClasses, c: char) {
    u.isLetter(c) || c == '$' || c == '_'
  }

  predicate IdentifierText(u: CharClasses, v: string) {
    && |v| > 0
    && IdentifierStart(u, v[0])
    && (forall i :: 0 <= i < |v| ==> IsIdentifierPart(u, v[i]))
    && v !in Keywords
  }

  // ---------------------------------------------------------------- comments

  predicate EndsInNewline(v: string) {
    |v| > 0 && v[|v| - 1] == '\n'
  }

  /** `#` or `//`, then runes up to and including the first newline, if there is one. */
  predicate LineCommentText(v: string) {
    && ((|v| >= 1 && v[0] == '#') || (|v| >= 2 && v[..2] == "//"))
    && forall i :: 0 <= i < |v| - 1 ==> v[i] != '\n'
  }

  predicate ClosesAt(s: string, i: int) {
    0 <= i && i + 2 <= |s| && s[i] == '*' && s[i + 1] == '/'
  }

  // A block comment: slash-star, then runes up to the first star-slash that starts after the
  // opening slash, so slash-star-slash is already a whole comment.
  predicate BlockCommentText(v: string) {
    && |v| >= 3
    && v[..2] == "/*"
    && ClosesAt(v, |v| - 2)
    && forall i :: 1 <= i < |v| - 2 ==> !ClosesAt(v, i)
  }

  /** A block comment that never closes. */
  predicate UnclosedBlockComment(v: string) {
    && |v| >= 2
    && v[..2] == "/*"
    && forall i :: 1 <= i < |v| ==> !ClosesAt(v, i)
  }

  // ---------------------------------------------------------------- items and streams

  /** The text an item of each kind may carry. */
  ghost predicate ItemOk(u: CharClasses, it: Item) {
    match it.typ
    case Error => it.val in ErrorMessages
    case String => JsonString(it.val)
    case BlockComment => BlockCommentText(it.val)
    case LineComment => LineCommentText(it.val)
    case LeftBrace => it.val == "{"
    case RightBrace => it.val == "}"
    case LeftBracket => it.val == "["
    case RightBracket => it.val == "]"
    case Comma => it.val == ","
    case Colon => it.val == ":"
    case Number => JsonNumber(it.val)
    case True => it.val == "true"
    case False => it.val == "false"
    case Null => it.val == "null"
    case Identifier => IdentifierText(u, it.val)
    case Whitespace => |it.val| > 0 && forall i :: 0 <= i < |it.val| ==> u.isSpace(it.val[i])
    case EOF => it.val == [] || UnclosedBlockComment(it.val)
  }

  /** Exactly one terminal item, and it comes last. */
  ghost predicate TerminalOnlyAtEnd(items: seq<Item>) {
    && |items| > 0
    && Last(items).typ.Terminal()
    && (forall i :: 0 <= i < |items| - 1 ==> !items[i].typ.Terminal())
  }

  ghost predicate AllItemsOk(u: CharClasses, items: seq<Item>) {
    forall i :: 0 <= i < |items| ==> ItemOk(u, items[i])
  }

  /** The non-terminal texts spell a prefix of the input, and all of it when the stream ends in EOF. */
  ghost predicate Covers(input: string, items: seq<Item>)
    requires |items| > 0
  {
    && Concat(items[..|items| - 1]) <= input
    && (Last(items).typ == EOF ==> Concat(items) == input)
  }

  /** A line comment that lacks its newline is directly followed by the final EOF. */
  ghost predicate OpenLineCommentLast(items: seq<Item>)
    requires |items| > 0
  {
    forall i :: 0 <= i < |items| - 1 && items[i].typ == LineComment && !EndsInNewline(items[i].val)
      ==> i == |items| - 2 && Last(items).typ == EOF
  }

  /** A finished item stream for `input`. */
  ghost predicate WellFormed(u: CharClasses, input: string, items: seq<Item>) {
    && TerminalOnlyAtEnd(items)
    && AllItemsOk(u, items)
    && Positioned(items)
    && Covers(input, items)
    && OpenLineCommentLast(items)
  }
}

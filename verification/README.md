# jsonpreprocess lexer and filters, in Dafny

A model of the core of `jsonpreprocess`, a Go package that tokenizes JSON with comments and
rewrites it:

- **the lexer** of `lex.go`. It is a state machine (lexText, lexString, lexNumber,
  lexIdentifier, lexWhitespace, lexLineComment, lexBlockComment). It cuts the input into items
  (delimiters, strings, numbers, `true`/`false`/`null`, identifiers, whitespace, `//` and `#`
  line comments, block comments). The stream ends in one EOF or Error item.
- **the three filters** that consume the item stream:
  - `WriteMinifiedTo`/`Minify` drops whitespace and comments.
  - `WriteCommentTrimmedTo`/`TrimComment` drops comments but keeps the newline of each line
    comment that has one.
  - `WriteUncommentedTo`/`Uncomment` drops comments and writes a newline for every line comment.

How the model is laid out:

- The input is a sequence of runes.
- The lexer is an immutable record. Its `start` and `pos` are rune indices.
- An item's `pos` is the UTF-8 byte offset of its first rune, as the Go code computes it.
- Each state function returns the advanced record and the next state.
- `Lex.Run` drives the states and returns the whole stream. This replaces the goroutine and the
  channel. `Run` reports `Endless` for the inputs on which the Go lexer loops forever: those
  with a `$` where an item starts, such as `$`, `a$` and `{$`. See the bullet on `$` in the next
  section.
- Go's `unicode` tables are a parameter `u: CharClasses`. `AsciiFaithful(u)` pins Go's answers
  on ASCII. The `AsciiOnly` classification shows the predicate can be met.

Modules:

| module | file | what |
|---|---|---|
| Wrappers, Slices, Runes | runes.dfy | option type, slice facts, character classes, UTF-8 widths |
| NumberScan | number_scan.dfy | where the scans of lexNumber stop, as positions in the input |
| Items | items.dfy | item kinds, items, error messages |
| Grammar | grammar.dfy | reference grammars for each item's text and for a finished stream |
| Cursor | cursor.dfy | the lexer record and next/peek/accept/acceptRun/hasPrefix/emit/errorf |
| Lex | lexer.dfy | the state functions and the driver |
| StringProps, NumberProps, IdentProps, CommentProps | *_props.dfy | each state against its grammar |
| LexInvariant, RunProps | invariant.dfy, run_props.dfy | soundness of the whole stream, the `$` stall |
| Filters | filters.dfy | the three filters and their relations |

## Behaviour of the code worth knowing

The model follows the code in each of these.

- **Item positions** are byte offsets, because `next` adds the rune's UTF-8 width to `pos`.
  They are not rune indices.
- **A line comment keeps its newline.** `next` writes the `\n` into the buffer before
  lexLineComment emits it. TrimComment therefore writes `"\n"` exactly for comments that ended
  in one.
- **`#` also opens a line comment** (lex.go:241-242).
- **Prefixes are compared as runes.** `hasPrefix` compares the bytes it peeks with the prefix's
  bytes; `Cursor.HasPrefix` compares runes. The prefixes are `//`, `/*` and `*/`, all ASCII.
  A UTF-8 byte below 0x80 is always a whole rune, so the two comparisons agree. Like the code,
  `Cursor.HasPrefix` answers false when too few runes remain. The code gets `io.EOF` from
  `Peek` only when too few bytes remain. When enough bytes but too few runes remain, the peeked
  bytes include one of 0x80 or more, so they cannot equal an ASCII prefix, and the answer is
  false too.
- **A fraction may have no digits.** After `.` the code runs `acceptRun(digit)`, so `1.` lexes
  as a number. `Grammar.FracPart` accepts the empty digit run.
- **Slash-star-slash is a whole block comment.** lexBlockComment looks for `*/` from the rune
  after the opening slash.
- **An identifier can never start with `\u`.** lexIdentifier only peeks the backslash, so
  `accept("u")` sees the backslash and always fails with "'u' for unicode escape sequence
  expected". `IdentProps.LexIdentifierIs` states this.
- **A `$` that starts an item makes the lexer loop forever.**
  - lexText hands a `$` to lexIdentifier.
  - `$` starts an identifier but, being a currency symbol, is no identifier part.
  - So lexIdentifier emits an empty identifier without consuming anything and returns to
    lexText, which sees the same `$` again.
  - The model reports this as `Endless`, and the filters give no answer.
- **Minify is not idempotent.** `a "b c"` minifies to `a"b c"`. That second text lexes as the
  identifier `a"b`, whitespace and the identifier `c"` (`"` is an identifier part), so it
  minifies to `a"bc"`. The model states no idempotence property.
- **`Uncomment` lives in `uncomment.go` under package `jsonutil`.** Its writer takes the input
  as a string and hands that string to `lex`, which expects a reader. The model reads the
  string as if it were wrapped in a reader, and keeps the filter with the other two.

## Model

| member | source | states |
|---|---|---|
| Runes.ByteLen | lex.go:124-132 | the UTF-8 length of a rune sequence lies between its rune count and four times that |
| Cursor.Next | lex.go:124-132 | returns the rune at the cursor and moves one rune on, adding it to the token buffer; at the end of input returns `eof` and changes nothing |
| Cursor.Peek | lex.go:134-152 | returns the rune at the cursor without moving, and `eof` exactly at the end of input |
| Cursor.HasPrefix | lex.go:191-200 | is false when fewer runes remain than the prefix holds |
| Cursor.Emit | lex.go:166-170 | appends one item of kind `t` at the token start's byte offset, carrying the runes from start to pos, and moves start to pos |
| Cursor.Errorf | lex.go:186-189 | appends one Error item carrying the message at the token start's byte offset, and moves neither start nor pos |
| Cursor.AcceptWhile | lex.go:362-365 | consumes exactly the longest run of runes satisfying the predicate, and changes nothing but the cursor |
| Cursor.AcceptRun | lex.go:180-184 | consumes exactly the longest run of runes from the set |
| NumberScan.RunEndUnique | lex.go:180-184 | a run of runes from a set that stops at a rune outside it, or at the end, is exactly the run acceptRun consumes |
| Cursor.AcceptCount | lex.go:285-289 | succeeds exactly when the next `n` runes are all in the set, and then has consumed exactly them |
| Cursor.Accept | lex.go:172-178 | consumes one rune exactly when it is in the set |
| Cursor.NextRuneCount | lex.go:203-207 | consumes `n` runes, or all that remain |
| Lex.LexText | lex.go:216-266 | only adds items; it stops with EOF at the byte length of the input, or with "invalid character after slash" at a lone `/`; otherwise the next state is entered at a token start, at an unconsumed rune that selects it |
| RunProps.LexTextDelimiters | lex.go:223-240 | every rune lexText consumes is a delimiter, emitted as its own item of the matching kind at that rune's byte offset, in order; stopping adds exactly one item more |
| Lex.LexString | lex.go:274-299 | either emits a String item after consuming something, or appends one Error item whose message is one of the four string errors |
| Lex.LexNumber | lex.go:301-320 | either emits a Number item after consuming something, or appends one Error with "bad digit for number" or "digit expected for number exponent" |
| Lex.LexIdentifier | lex.go:322-355 | either emits the consumed text typed by KeywordType, or appends one Error with one of the three identifier messages |
| Lex.IdentifierTail | lex.go:339-354 | consumes the longest run of identifier-part runes and emits it under its keyword kind |
| Lex.LexWhitespace | lex.go:362-368 | emits the longest run of spaces from the cursor on |
| Lex.LexLineComment | lex.go:370-384 | when it returns to lexText it has emitted a LineComment ending in the newline that stopped it (the first one, by `CommentProps.LineCommentScan`); at the end of input emits the remainder if non-empty, then EOF at the input's byte length |
| Lex.LexBlockComment | lex.go:386-401 | emits through a star-slash; without one, emits EOF carrying the remainder from the token start |
| Lex.Dispatch | lex.go:118-122 | a state grows the stream; a non-terminal result adds exactly one item; a state that does not advance is lexIdentifier emitting an empty Identifier |
| Lex.Run | lex.go:104-122 | a halted stream extends the items so far and ends in a terminal item; a stalled one repeats an empty Identifier |
| Lex.StringBody | lex.go:276-298 | returns to lexText only after emitting a String through its closing quote, having consumed at least one rune; otherwise appends exactly one Error, at the token start's byte offset, carrying one of lexString's messages |
| StringProps.LexStringSound | lex.go:274-299 | an emitted string is a JSON string by the escape grammar (RFC 8259, section 7) |
| StringProps.LexStringComplete | lex.go:274-299 | every JSON string at the cursor is emitted exactly, at the cursor's byte offset |
| StringProps.LexStringFailsIff | lex.go:274-299 | lexString fails exactly when no prefix of the remaining input is a JSON string, and then with a string error |
| StringProps.StringBodySound | lex.go:276-298 | the loop of lexString only closes a string whose characters follow the escape grammar |
| StringProps.StringCharsAppend | lex.go:276-298 | two stretches of valid string characters side by side are valid string characters |
| StringProps.StringBodyUnicodeEscape | lex.go:284-289 | a backslash, `u` and four hex digits are consumed as one escape and the loop goes on after them |
| StringProps.StringBodyBadEscape | lex.go:281-292 | a backslash that starts neither a simple escape nor `u` with four hex digits stops the loop with an error |
| StringProps.StringBodyComplete | lex.go:276-298 | when the runes up to a quote are valid string characters, the loop reaches that quote, emits, and returns to lexText right after it |
| NumberProps.LexNumberSound | lex.go:301-320 | an emitted number has sign, integer, fraction and exponent parts of the number grammar |
| NumberProps.LexNumberComplete | lex.go:301-320 | every number at the cursor, given as its sign, integer, fraction and exponent parts, that no digit, `.` or exponent marker follows is emitted whole and lexNumber returns to lexText |
| NumberProps.BadDigitIff | lex.go:302-307 | "bad digit for number" is reported exactly when no digit follows the optional minus |
| NumberProps.LexNumberIs | lex.go:302-307 | lexNumber after the sign and integer part is the fraction and exponent step, or the bad-digit error |
| NumberProps.AcceptIntegerIs | lex.go:302-307 | the sign-and-integer step stops where the integer scan ends, and succeeds exactly when a digit follows the optional minus |
| NumberProps.AcceptExponentDigitsIs | lex.go:311-316 | after the marker and an optional sign, the exponent step takes the longest digit run, and fails exactly when no digit comes |
| NumberProps.NumberExponentSound | lex.go:311-319 | what the exponent step consumes before emitting is an exponent by the number grammar, possibly empty |
| NumberProps.NumberTailSound | lex.go:308-319 | what the fraction and exponent steps consume is a fraction followed by an exponent |
| NumberProps.IntStops | lex.go:303-307 | the integer scan stops exactly at the end of an integer part that no digit follows |
| NumberProps.FracStops | lex.go:308-310 | the fraction scan stops exactly at the end of a fraction that neither a digit nor a `.` follows |
| NumberProps.ExpStops | lex.go:311-317 | the exponent scan stops exactly at the end of an exponent that no digit, `.` or marker follows |
| NumberProps.SignStops | lex.go:302 | the optional minus in front of the first digit is the one accept("-") takes |
| NumberProps.NumberAtCursor | lex.go:301-317 | the whole scan stops exactly at the end of a number that no number rune follows |
| NumberProps.ExponentReaches | lex.go:311-319 | where the exponent scan stops, the exponent step emits the number and returns to lexText |
| NumberProps.LexNumberReaches | lex.go:301-320 | where the scan stops, lexNumber emits the number from the cursor up to there and returns to lexText |
| IdentProps.LexIdentifierIs | lex.go:322-337 | a letter, `$` or `_` goes to the continuation loop; a backslash always gives "'u' for unicode escape sequence expected"; anything else gives "identifier expected" |
| IdentProps.LexIdentifierEmits | lex.go:339-354 | an accepted identifier is the longest run of identifier parts, typed as keyword or identifier; it is empty exactly when the first rune is no identifier part |
| IdentProps.LexIdentifierSound | lex.go:322-360 | a non-empty emitted text is a keyword or an identifier of the identifier grammar |
| IdentProps.IdentifierStallIff | lex.go:322-360 | lexIdentifier returns without consuming exactly when the next rune starts an identifier but cannot continue one |
| Grammar.IsIdentifierPart | lex.go:357-360 | a letter, mark, digit or punctuation rune that is not one of `{}[]:,` |
| IdentProps.IdentifierPartAscii | lex.go:357-360 | under Go's ASCII answers, the ASCII identifier parts are exactly the letters, the digits and the punctuation `!"#%&'()*-./;?@\_` |
| IdentProps.StallRuneIsDollar | lex.go:322-360 | under Go's ASCII answers, `$` is the only such rune |
| CommentProps.LexWhitespaceSound | lex.go:362-368 | a whitespace item is a non-empty run of spaces that no space follows |
| CommentProps.LineCommentScan | lex.go:371-383 | the line-comment loop stops at the first newline or at the end of input |
| CommentProps.LexLineCommentCloses | lex.go:370-381 | an emitted line comment is `#` or `//` through its first newline, which it keeps |
| CommentProps.LexLineCommentAtEnd | lex.go:372-380 | at the end of input the comment is emitted without a newline and EOF follows at once |
| CommentProps.OpenLineText | lex.go:370-380 | a comment without a newline before the end of input is line-comment text by the grammar |
| CommentProps.BlockCommentScan | lex.go:387-398 | the block-comment loop stops at the first star-slash after the opening slash, or at the end of input |
| CommentProps.BlockTextFromScan | lex.go:388-393 | such a scan spells a block comment by the grammar |
| CommentProps.UnclosedFromScan | lex.go:395-399 | a scan that reaches the end spells an unclosed block comment |
| CommentProps.LexBlockCommentCloses | lex.go:386-394 | an emitted block comment runs from slash-star through the first star-slash after the opening slash |
| CommentProps.LexBlockCommentUnclosed | lex.go:395-400 | an unclosed block comment is no error: EOF carries the rest of the input |
| LexInvariant.EmitKeepsInv | lex.go:166-170 | emitting a settled token keeps the invariant: items spell the input up to the token start, carry byte positions and fit their kinds |
| LexInvariant.FinishWith | lex.go:186-189 | appending one terminal item at the token start, errorf's Error or the final EOF, turns the invariant into a well-formed stream |
| LexInvariant.SettledThenOpenComment | lex.go:373-380 | settled items, an open line comment and EOF: one terminal item, last; texts that fit their kinds; the open comment right before EOF |
| LexInvariant.OpenCommentLayout | lex.go:373-380 | that comment and EOF keep byte positions and the texts spell the whole input |
| LexInvariant.FinishOpenLineComment | lex.go:373-380 | a line comment running to the end of input, then EOF, finishes a well-formed stream |
| RunProps.DispatchKeeps | lex.go:118-122 | every state keeps the invariant when it advances and leaves a well-formed stream when it stops |
| RunProps.LexTextKeepsInv | lex.go:216-240 | lexText's delimiter items keep the invariant |
| RunProps.LexTextFinishes | lex.go:241-266 | when lexText stops, at EOF or at a lone slash, the stream is well formed |
| RunProps.RunKeeps | lex.go:104-122 | from an invariant state Run either halts with a well-formed stream or stalls on a rune that starts but cannot continue an identifier, after a settled prefix that spells the input before it |
| RunProps.StalledPrefixOpen | lex.go:118-122 | no item before a stall is EOF or an Error |
| RunProps.LexSound | lex.go:109-122 | every finished stream has one terminal item, last; texts that fit their kinds; byte positions; texts that spell the input; and an open line comment only right before EOF |
| RunProps.StallRepeats | lex.go:322-355 | at a stall rune lexIdentifier emits an empty Identifier and lexText hands the same rune back to lexIdentifier |
| RunProps.RunStalls | lex.go:118-122 | so Run at a stall rune is Endless, repeating that empty Identifier |
| RunProps.StallIsDollar | lex.go:322-360 | under Go's ASCII answers, a stall happens at a `$` |
| RunProps.NoDollarHalts | lex.go:118-122 | under Go's ASCII answers, an input without `$` always halts |
| RunProps.LeadingDollarStalls | lex.go:216-266 | an input starting with `$` stalls at once, with no items before the repeated one |
| RunProps.SpaceIsPlain | lex.go:216-266 | under Go's ASCII answers no space, ASCII or not, is a quote, delimiter, `#`, `/` or number start, so lexText hands it to lexWhitespace |
| RunProps.RunOverSpaces | lex.go:362-368 | under Go's ASCII answers, from a token start before spaces only (ASCII or not), Run emits one Whitespace item and then EOF |
| RunProps.RunOverWhitespace | lex.go:362-368 | once lexText has handed over to lexWhitespace before spaces only, Run emits one Whitespace item and then EOF |
| RunProps.SpacesOnlyStream | lex.go:109-122 | under Go's ASCII answers, any non-empty input of spaces, ASCII or not, lexes to one Whitespace item at 0, then EOF at its byte length |
| RunProps.SpacesExample | lex_test.go:18 | the lexer's "spaces" example: `" \t\n"` lexes to one Whitespace item and EOF at 3 |
| Lex.Lex | lex.go:109-116 | runs the states from an empty lexer at position 0; a finished stream ends in its terminal item, and a stall repeats an empty Identifier |
| RunProps.EmptyInput | lex_test.go:17 | the empty input lexes to EOF alone |
| Filters.Piece | trimcomment.go:18-31 | what one non-terminal item writes: Minify drops whitespace and comments; TrimComment drops block comments and writes a line comment as its newline, if it has one; Uncomment drops block comments and writes every line comment as a newline; everything else is copied (the same switch as in minify.go and uncomment.go) |
| Filters.PiecesAppend | minify.go:11-29 | the filters' output over concatenated item lists is the concatenated output |
| Filters.PiecesSnoc | minify.go:11-29 | one more item adds its own piece at the end of the output |
| Filters.Drain | minify.go:11-29 | the write loop keeps reading exactly when no terminal item arrived, and then has written every item's piece |
| Filters.DrainStream | minify.go:11-29 | over a stream with its one terminal item last, the writer (this loop, and the same loops in trimcomment.go and uncomment.go) returns the pieces of all other items, with no error at EOF and the error's message otherwise |
| Filters.WriteTo | minify.go:9-30 | a writer never returns exactly when the lexer stalls, and the repeated item writes nothing |
| Filters.Collect | minify.go:32-40 | a wrapper answers exactly when its writer returns, and answers "" on error |
| Filters.WriteMinifiedTo | minify.go:9-30 | WriteTo with the Minifying pieces; returns exactly when the lexer does not stall; what it writes is given by `Filters.MinifyWritesTokens` |
| Filters.WriteCommentTrimmedTo | trimcomment.go:10-34 | WriteTo with the Trimming pieces; returns exactly when the lexer does not stall; its newlines are counted by `Filters.TrimKeepsNewlines` |
| Filters.WriteUncommentedTo | uncomment.go:9-29 | WriteTo with the Uncommenting pieces; returns exactly when the lexer does not stall; it is compared with trimming by `Filters.UncommentAddsNewline` |
| Filters.Minify | minify.go:32-40 | Collect of WriteMinifiedTo: answers exactly when the lexer does not stall, and with "" on an error; its answer is given by `Filters.MinifyAnswer` |
| Filters.TrimComment | trimcomment.go:36-44 | Collect of WriteCommentTrimmedTo: answers exactly when the lexer does not stall, and with "" on an error; its lines are counted by `Filters.TrimCommentKeepsLines` |
| Filters.Uncomment | uncomment.go:31-38 | Collect of WriteUncommentedTo: answers exactly when the lexer does not stall, and with "" on an error; it is compared with TrimComment by `Filters.UncommentVsTrimComment` |
| Filters.WrapperAnswers | minify.go:32-40 | Minify, and likewise TrimComment and Uncomment in trimcomment.go and uncomment.go, answer with the pieces of every non-terminal item on EOF, with "" and one of the lexer's messages on error, and not at all on a stall |
| Filters.MinifyWritesTokens | minify.go:17-27 | Minify writes exactly the texts of the items that are not whitespace or comments, in order |
| Filters.MinifyAnswer | minify.go:9-40 | Minify's answer is those texts, or "" with the error |
| Filters.TrimKeepsNewlines | trimcomment.go:18-31 | trimming keeps every newline of the items' texts except those inside block comments |
| Filters.TrimCommentKeepsLines | trimcomment.go:10-44 | a successful TrimComment writes as many newlines as the input holds outside block comments |
| Filters.UncommentMatchesTrim | uncomment.go:19-21 | Uncomment and TrimComment write the same when every line comment keeps its newline |
| Filters.UncommentAddsNewline | uncomment.go:19-21 | on a finished stream Uncomment writes TrimComment's output plus one newline when the input ends in a line comment without one |
| Filters.UncommentVsTrimComment | uncomment.go:31-38 | Uncomment answers exactly when TrimComment does, with the same error, and the same text except that one trailing newline |
| Filters.EmptyInputAnswers | minify_test.go:13 | every filter turns the empty input into "" with no error |
| Filters.SpacesAnswers | minify.go:32-40 | under Go's ASCII answers, on a non-empty input of spaces alone, ASCII or not, Minify writes nothing, and TrimComment and Uncomment copy the spaces, all with no error |
| Filters.MinifySpacesExample | minify_test.go:14 | Minify's "spaces" example: `" \t\n"` minifies to "" with no error |

## Left out

- Reading from an `io.Reader`: the model holds the whole input. This includes `bufio`, the
  decoding of UTF-8 into runes, and the I/O errors that `peek` and `hasPrefix` turn into Error
  items. Input is given as runes.
- Writing to an `io.Writer`: writer failures are not modelled. The writers return the text
  written and the error they would return.
- The goroutine and channel between `lex`, `run` and `nextItem`. `Run` builds the whole item
  stream instead. A consumer that stops reading early is not modelled.
- Go's Unicode tables for `IsSpace`, `IsLetter`, `IsMark`, `IsDigit` and `IsPunct`. They are a
  parameter; only the ASCII answers are fixed, by `AsciiFaithful`.
- The `String` methods of `item` and `itemType`, which only format for debugging.
- The command-line programs `minifyjson` and `trimcommentjson`.
- The release script `newVersion.py`.
- The example inputs of `lex_test.go` and `minify_test.go` beyond the empty and all-space ones
  are not restated as lemmas.

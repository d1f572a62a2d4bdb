/**
 * The lexer record of lex.go and its cursor helpers (`next`, `peek`, `accept`, `acceptRun`,
 * `hasPrefix`, `nextRuneCount`, `emit`, `errorf`), without the reader and the channel.
 *
 * The input is held whole, as runes. `start` and `pos` are rune indices; the Go fields of the
 * same names are byte offsets, which are ByteOffset(l, start) and ByteOffset(l, pos) here. The
 * Go token buffer is always the input between them, so it is not stored. Emitted items are
 * appended to `items` instead of being sent on a channel.
 */
module Cursor {

  import opened Wrappers
  import opened Runes
  import opened Items

  datatype Lexer = Lexer(input: seq<char>, start: nat, pos: nat, items: seq<Item>) {
    predicate Valid() {
      start <= pos <= |input|
    }
  }

  /** The buffer: the runes of the token being assembled. */
  function Buffer(l: Lexer): string
    requires l.Valid()
  {
    l.input[l.start..l.pos]
  }

  /** The byte offset of rune index `i`. */
  function ByteOffset(l: Lexer, i: nat): nat
    requires i <= |l.input|
  {
    ByteLen(l.input[..i])
  }

  /** `l` and `m` read the same input and `m` has not moved the cursor back. */
  predicate Follows(l: Lexer, m: Lexer) {
    l.Valid() && m.Valid() && m.input == l.input && l.pos <= m.pos
  }

  /** The next rune without consuming it; `None` is Go's `eof`. */
  function Peek(l: Lexer): (r: Option<char>)
    requires l.Valid()
    ensures r.None? <==> l.pos == |l.input|
    ensures r.Some? ==> r.value == l.input[l.pos]
  {
    if l.pos < |l.input| then Some(l.input[l.pos]) else None
  }

  /** Consumes one rune into the buffer; at the end of input it changes nothing. */
  function Next(l: Lexer): (r: (Lexer, Option<char>))
    requires l.Valid()
    ensures Follows(l, r.0) && r.0 == l.(pos := r.0.pos)
    ensures r.1 == Peek(l)
    ensures r.1.None? ==> r.0 == l
    ensures r.1.Some? ==> r.0.pos == l.pos + 1 && Buffer(r.0) == Buffer(l) + [r.1.value]
  {
    if l.pos < |l.input| then
      (l.(pos := l.pos + 1), Some(l.input[l.pos]))
    else
      (l, None)
  }

  /** Consumes the next rune exactly when it is one of `valid`. */
  function Accept(l: Lexer, valid: set<char>): (r: (Lexer, bool))
    requires l.Valid()
    ensures r.1 <==> l.pos < |l.input| && l.input[l.pos] in valid
    ensures r.0 == if r.1 then l.(pos := l.pos + 1) else l
  {
    match Peek(l)
    case Some(c) => if c in valid then (Next(l).0, true) else (l, false)
    case None => (l, false)
  }

  /** Consumes the longest run of runes satisfying `p`: the loops of acceptRun, lexWhitespace and
      lexIdentifier. */
  function AcceptWhile(l: Lexer, p: char -> bool): (r: Lexer)
    requires l.Valid()
    ensures Follows(l, r) && r == l.(pos := r.pos)
    ensures forall i :: l.pos <= i < r.pos ==> p(l.input[i])
    ensures r.pos == |l.input| || !p(l.input[r.pos])
    decreases |l.input| - l.pos
  {
    match Peek(l)
    case Some(c) => if p(c) then AcceptWhile(Next(l).0, p) else l
    case None => l
  }

  /** Consumes the longest run of runes from `valid`. */
  function AcceptRun(l: Lexer, valid: set<char>): (r: Lexer)
    requires l.Valid()
    ensures Follows(l, r) && r == l.(pos := r.pos)
    ensures forall i :: l.pos <= i < r.pos ==> l.input[i] in valid
    ensures r.pos == |l.input| || l.input[r.pos] !in valid
  {
    AcceptWhile(l, c => c in valid)
  }

  /** `n` successive accepts, stopping at the first that fails: the four-hex-digit loops of
      lexString and lexIdentifier. */
  function AcceptCount(l: Lexer, valid: set<char>, n: nat): (r: (Lexer, bool))
    requires l.Valid()
    ensures Follows(l, r.0) && r.0 == l.(pos := r.0.pos)
    ensures r.1 <==> l.pos + n <= |l.input| && forall i :: l.pos <= i < l.pos + n ==> l.input[i] in valid
    ensures r.1 ==> r.0.pos == l.pos + n
    decreases n
  {
    if n == 0 then (l, true)
    else
      var (l1, ok) := Accept(l, valid);
      if ok then AcceptCount(l1, valid, n - 1) else (l1, false)
  }

  /** The next |p| runes spell `p`; fewer runes left means false. */
  function HasPrefix(l: Lexer, p: string): (r: bool)
    requires l.Valid()
    ensures |l.input| - l.pos < |p| ==> !r
  {
    l.pos + |p| <= |l.input| && l.input[l.pos..l.pos + |p|] == p
  }

  /** Consumes up to `n` runes. */
  function NextRuneCount(l: Lexer, n: nat): (r: Lexer)
    requires l.Valid()
    ensures Follows(l, r) && r == l.(pos := r.pos)
    ensures r.pos == if l.pos + n <= |l.input| then l.pos + n else |l.input|
    decreases n
  {
    if n == 0 then l else NextRuneCount(Next(l).0, n - 1)
  }

  /** Emits the buffer as an item of kind `t`, positioned at the byte offset of its first rune,
      and starts an empty buffer. */
  function Emit(l: Lexer, t: ItemType): (r: Lexer)
    requires l.Valid()
    ensures Follows(l, r) && r.pos == l.pos && r.start == l.pos
    ensures r.items == l.items + [Item(t, ByteOffset(l, l.start), Buffer(l))]
  {
    l.(start := l.pos, items := l.items + [Item(t, ByteOffset(l, l.start), Buffer(l))])
  }

  /** Emits an Error item carrying `msg`, positioned at the start of the current token. */
  function Errorf(l: Lexer, msg: string): (r: Lexer)
    requires l.Valid()
    ensures Follows(l, r) && r.pos == l.pos && r.start == l.start
    ensures r.items == l.items + [Item(Error, ByteOffset(l, l.start), msg)]
  {
    l.(items := l.items + [Item(Error, ByteOffset(l, l.start), msg)])
  }
}

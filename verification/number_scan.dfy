/**
 * Where lexNumber's scanning loops stop, as positions in the input, and the shape of the runes
 * between those positions.
 */
module NumberScan {

  import opened Wrappers
  import opened Grammar

  /** The runes that can continue a number the lexer is scanning. */
  const NumberContinuation: set<char> := Digits + {'.', 'e', 'E'}

  /** The end of the longest run of runes from `valid` that starts at `i`. */
  function RunEnd(s: string, i: nat, valid: set<char>): (e: nat)
    requires i <= |s|
    ensures i <= e <= |s|
    ensures e == |s| || s[e] !in valid
    decreases |s| - i
  {
    if i < |s| && s[i] in valid then RunEnd(s, i + 1, valid) else i
  }

  /** Every rune RunEnd passes over is in `valid`. */
  lemma RunEndSpans(s: string, i: nat, valid: set<char>)
    requires i <= |s|
    ensures forall k :: i <= k < RunEnd(s, i, valid) ==> s[k] in valid
    decreases |s| - i
  {
    if i < |s| && s[i] in valid {
      RunEndSpans(s, i + 1, valid);
    }
  }

  /** A run of runes from `valid` that stops at `e` is the run RunEnd measures. */
  lemma {:induction false} RunEndUnique(s: string, i: nat, valid: set<char>, e: nat)
    requires i <= e <= |s| && (forall k :: i <= k < e ==> s[k] in valid) && (e == |s| || s[e] !in valid)
    ensures RunEnd(s, i, valid) == e
    decreases e - i
  {
    if i < e {
      RunEndUnique(s, i + 1, valid, e);
    }
  }

  /** The length of the optional minus at `p`. */
  function SignLen(s: string, p: nat): nat {
    if p < |s| && s[p] == '-' then 1 else 0
  }

  /** Where the exponent digits start after a marker at `i`: past an optional sign. */
  function ExpDigitsStart(s: string, i: nat): nat {
    if i + 1 < |s| && s[i + 1] in {'+', '-'} then i + 2 else i + 1
  }

  /** Where the fraction ends when the runes after the integer part start at `i`. */
  function FracEnd(s: string, i: nat): (r: nat)
    requires i <= |s|
    ensures i <= r <= |s|
  {
    if i < |s| && s[i] == '.' then RunEnd(s, i + 1, Digits) else i
  }

  /** Where AcceptInteger stops when the runes after the minus start at `i`. */
  function IntEnd(s: string, i: nat): (r: nat)
    requires i <= |s|
    ensures i <= r <= |s|
  {
    if i < |s| && s[i] in Digits1To9 then RunEnd(s, i + 1, Digits)
    else if i < |s| && s[i] == '0' then i + 1
    else i
  }

  /** Where the exponent scan stops when the runes after the fraction start at `i`; None when a
      marker is followed by no digit. */
  function ExpEnd(s: string, i: nat): (r: Option<nat>)
    requires i <= |s|
    ensures r.Some? ==> i <= r.value <= |s|
  {
    var q := ExpDigitsStart(s, i);
    if !(i < |s| && s[i] in {'e', 'E'}) then Some(i)
    else if q < |s| && s[q] in Digits then Some(RunEnd(s, q + 1, Digits))
    else None
  }

  /** Where lexNumber started at `p` stops: past the optional minus, the integer part, the fraction
      and the exponent; None when it reports an error instead. */
  function ScanEnd(s: string, p: nat): (r: Option<nat>)
    requires p <= |s|
    ensures r.Some? ==> p < r.value <= |s|
  {
    var i := p + SignLen(s, p);
    if i < |s| && s[i] in Digits then ExpEnd(s, FracEnd(s, IntEnd(s, i))) else None
  }

  /** The stops of the integer, fraction and exponent scans make the stop of the whole scan. */
  lemma ScanEndFromStops(s: string, p: nat, b: nat, c: nat, e: nat)
    requires p + SignLen(s, p) < |s| && s[p + SignLen(s, p)] in Digits
    requires IntEnd(s, p + SignLen(s, p)) == b && FracEnd(s, b) == c && ExpEnd(s, c) == Some(e)
    ensures ScanEnd(s, p) == Some(e)
  {
  }
}

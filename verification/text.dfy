/**
 * The small pieces of JavaScript string behaviour the script relies on:
 * ASCII decimal digits (`\d`, `parseInt`, `Number.prototype.toString`),
 * `String.prototype.padStart`, `String.prototype.trim`, and the leftmost
 * match of a regular expression of the shape `(\d+)<sep>(\d+)`.
 */
module Text {
  import opened Wrappers

  // ---------------------------------------------------------------------------
  // Decimal digits
  // ---------------------------------------------------------------------------

  /** `\d` in a JavaScript regular expression without the `u` flag: ASCII digits only. */
  predicate IsDigit(c: char) {
    '0' <= c <= '9'
  }

  predicate AllDigits(s: string) {
    forall i :: 0 <= i < |s| ==> IsDigit(s[i])
  }

  function DigitValue(c: char): (d: nat)
    requires IsDigit(c)
    ensures d < 10
  {
    (c as int) - ('0' as int)
  }

  function DigitChar(d: nat): (c: char)
    requires d < 10
    ensures IsDigit(c) && DigitValue(c) == d
  {
    (('0' as int) + d) as char
  }

  /**
   * The value `parseInt` gives a run of ASCII digits (leading zeros allowed).
   * The matcher only ever captures non-empty runs; the empty text is 0 here.
   */
  function DigitsValue(s: string): nat
    requires AllDigits(s)
  {
    if |s| == 0 then 0 else DigitsValue(s[..|s| - 1]) * 10 + DigitValue(s[|s| - 1])
  }

  /** A digit string without superfluous leading zeros: the only form `toString` produces. */
  predicate IsCanonicalDecimal(s: string) {
    |s| >= 1 && AllDigits(s) && (s[0] != '0' || |s| == 1)
  }

  /** `n.toString()` for a non-negative integer. */
  function NatToDecimal(n: nat): (r: string)
    ensures |r| >= 1
  {
    if n < 10 then [DigitChar(n)] else NatToDecimal(n / 10) + [DigitChar(n % 10)]
  }

  /** The decimal text of `n` is canonical and `parseInt` reads it back as `n`. */
  lemma {:induction false} DecimalValue(n: nat)
    ensures IsCanonicalDecimal(NatToDecimal(n))
    ensures DigitsValue(NatToDecimal(n)) == n
  {
    if n >= 10 {
      DecimalValue(n / 10);
      var p := NatToDecimal(n / 10);
      var r := NatToDecimal(n);
      assert r == p + [DigitChar(n % 10)];
      assert r[..|r| - 1] == p;
      assert r[0] == p[0];
    }
  }

  lemma {:induction false} DigitsValueAtLeastLead(s: string)
    requires |s| >= 1 && AllDigits(s)
    ensures DigitsValue(s) >= DigitValue(s[0])
  {
    if |s| > 1 {
      var p := s[..|s| - 1];
      assert p[0] == s[0];
      DigitsValueAtLeastLead(p);
    }
  }

  /** Decimal rendering is injective on canonical digit strings: parsing then printing gives the text back. */
  lemma {:induction false} DecimalRoundTrip(s: string)
    requires IsCanonicalDecimal(s)
    ensures NatToDecimal(DigitsValue(s)) == s
  {
    if |s| > 1 {
      var p := s[..|s| - 1];
      assert p[0] == s[0];
      assert IsCanonicalDecimal(p);
      DigitsValueAtLeastLead(p);
      var v := DigitsValue(s);
      assert v / 10 == DigitsValue(p) && v % 10 == DigitValue(s[|s| - 1]);
      DecimalRoundTrip(p);
      assert NatToDecimal(v) == NatToDecimal(v / 10) + [DigitChar(v % 10)];
      assert s == p + [s[|s| - 1]];
    }
  }

  // ---------------------------------------------------------------------------
  // padStart
  // ---------------------------------------------------------------------------

  /** `s.padStart(width, fill)` with a one-character fill string. */
  function PadStart(s: string, width: nat, fill: char): (r: string)
    ensures |r| == if |s| >= width then |s| else width
    ensures r[|r| - |s|..] == s
    ensures forall i :: 0 <= i < |r| - |s| ==> r[i] == fill
  {
    if |s| >= width then s else seq(width - |s|, _ => fill) + s
  }

  // ---------------------------------------------------------------------------
  // trim
  // ---------------------------------------------------------------------------

  /**
   * The code points `String.prototype.trim` strips: the WhiteSpace set
   * (tab, vertical tab, form feed, space, no-break space, byte order mark and
   * the Unicode space separators) and the LineTerminator set.
   */
  predicate IsJsSpace(c: char) {
    c == '\t' || c == '\U{000B}' || c == '\U{000C}' || c == ' ' || c == '\U{00A0}' || c == '\U{FEFF}'
    || c == '\U{1680}' || ('\U{2000}' <= c <= '\U{200A}') || c == '\U{202F}' || c == '\U{205F}' || c == '\U{3000}'
    || c == '\n' || c == '\r' || c == '\U{2028}' || c == '\U{2029}'
  }

  predicate AllSpace(s: string) {
    forall i :: 0 <= i < |s| ==> IsJsSpace(s[i])
  }

  function TrimStart(s: string): (r: string)
    ensures |r| <= |s| && r == s[|s| - |r|..]
    ensures forall i :: 0 <= i < |s| - |r| ==> IsJsSpace(s[i])
    ensures r == [] || !IsJsSpace(r[0])
    decreases |s|
  {
    if |s| > 0 && IsJsSpace(s[0]) then
      var r := TrimStart(s[1..]);
      assert s[1..][|s| - 1 - |r|..] == s[|s| - |r|..];
      assert forall i :: 1 <= i < |s| - |r| ==> s[i] == s[1..][i - 1];
      r
    else s
  }

  function TrimEnd(s: string): (r: string)
    ensures |r| <= |s| && r == s[..|r|]
    ensures forall i :: |r| <= i < |s| ==> IsJsSpace(s[i])
    ensures r == [] || !IsJsSpace(r[|r| - 1])
    decreases |s|
  {
    if |s| > 0 && IsJsSpace(s[|s| - 1]) then
      var r := TrimEnd(s[..|s| - 1]);
      assert s[..|s| - 1][..|r|] == s[..|r|];
      assert forall i :: |r| <= i < |s| - 1 ==> s[i] == s[..|s| - 1][i];
      r
    else s
  }

  /** `r` is a slice of `s` with nothing but spaces before and after it. */
  predicate SpaceBordered(s: string, r: string) {
    exists a :: 0 <= a <= |s| - |r| && r == s[a..a + |r|] && AllSpace(s[..a]) && AllSpace(s[a + |r|..])
  }

  /** Trimming the front and then the back leaves a slice of `s` with only spaces around it. */
  lemma TrimBorders(s: string, t: string, r: string)
    requires |t| <= |s| && t == s[|s| - |t|..] && forall i :: 0 <= i < |s| - |t| ==> IsJsSpace(s[i])
    requires |r| <= |t| && r == t[..|r|] && forall i :: |r| <= i < |t| ==> IsJsSpace(t[i])
    ensures SpaceBordered(s, r)
  {
    var a := |s| - |t|;
    assert t == s[a..];
    assert r == s[a..a + |r|];
    assert AllSpace(s[..a]);
    assert s[a + |r|..] == t[|r|..];
    assert AllSpace(t[|r|..]);
  }

  /** `s.trim()`: the text between the first and the last character that is not a space. */
  function Trim(s: string): (r: string)
    ensures r == [] <==> AllSpace(s)
    ensures r != [] ==> !IsJsSpace(r[0]) && !IsJsSpace(r[|r| - 1])
    ensures (s == [] || (!IsJsSpace(s[0]) && !IsJsSpace(s[|s| - 1]))) ==> r == s
    ensures SpaceBordered(s, r)
  {
    var t := TrimStart(s);
    var r := TrimEnd(t);
    TrimBorders(s, t, r);
    assert r == [] ==> AllSpace(s) by {
      if r == [] {
        assert t == [];
      }
    }
    assert r != [] ==> !IsJsSpace(r[0]) by {
      if r != [] {
        assert r[0] == t[0];
      }
    }
    r
  }

  // ---------------------------------------------------------------------------
  // The leftmost match of /(\d+)<sep>(\d+)/
  // ---------------------------------------------------------------------------

  /** The end of the maximal run of digits that starts at `i`. */
  function RunEnd(s: string, i: nat): (j: nat)
    requires i <= |s|
    ensures i <= j <= |s|
    ensures forall k :: i <= k < j ==> IsDigit(s[k])
    ensures j == |s| || !IsDigit(s[j])
    decreases |s| - i
  {
    if i < |s| && IsDigit(s[i]) then RunEnd(s, i + 1) else i
  }

  /**
   * The pattern matches at `i`: a digit run starts there and, because `\d+` can
   * only give back digits, the whole run must be followed by `sep` and a digit.
   */
  predicate MatchAt(s: string, i: nat, sep: char) {
    i < |s| && IsDigit(s[i]) &&
    var j := RunEnd(s, i);
    j + 1 < |s| && s[j] == sep && IsDigit(s[j + 1])
  }

  predicate NoMatch(s: string, sep: char) {
    forall q :: 0 <= q < |s| ==> !MatchAt(s, q, sep)
  }

  /** The position a regular-expression search tries first and succeeds at. */
  predicate IsLeftmostMatch(s: string, i: nat, sep: char) {
    MatchAt(s, i, sep) && forall q :: 0 <= q < i ==> !MatchAt(s, q, sep)
  }

  /** The start of the leftmost match at or after `i`, trying each position in turn. */
  function FirstMatchFrom(s: string, i: nat, sep: char): (r: Option<nat>)
    requires i <= |s|
    ensures r.Some? ==> i <= r.value < |s| && MatchAt(s, r.value, sep)
    ensures r.Some? ==> forall q :: i <= q < r.value ==> !MatchAt(s, q, sep)
    ensures r.None? ==> forall q :: i <= q < |s| ==> !MatchAt(s, q, sep)
    decreases |s| - i
  {
    if i == |s| then None
    else if MatchAt(s, i, sep) then Some(i)
    else FirstMatchFrom(s, i + 1, sep)
  }

  /** The two captured groups, as `parseInt` reads them, of the match at `i`. */
  function Groups(s: string, i: nat, sep: char): (nat, nat)
    requires MatchAt(s, i, sep)
  {
    var j := RunEnd(s, i);
    var k := RunEnd(s, j + 1);
    (DigitsValue(s[i..j]), DigitsValue(s[j + 1..k]))
  }

  /** `s.match(/(\d+)<sep>(\d+)/)` followed by `parseInt` of both groups. */
  function MatchPair(s: string, sep: char): (r: Option<(nat, nat)>)
    ensures r.None? <==> NoMatch(s, sep)
  {
    match FirstMatchFrom(s, 0, sep)
    case None => None
    case Some(i) => Some(Groups(s, i, sep))
  }

  /** Whatever the scan does, the groups it reports are those of the leftmost match. */
  lemma MatchPairIsLeftmost(s: string, i: nat, sep: char)
    requires IsLeftmostMatch(s, i, sep)
    ensures MatchPair(s, sep) == Some(Groups(s, i, sep))
  {
  }
}

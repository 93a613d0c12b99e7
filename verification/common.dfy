/** Shared vocabulary: optional values, results, and the small string toolkit the
    backend validators and the mobile screens both rely on (digit tests, substring
    search, Latin-1 case mapping and decimal rendering of natural numbers). */
module Common {

  datatype Option<+T> = None | Some(value: T)

  datatype Result<+R, +E> = Success(value: R) | Failure(error: E)

  // ---------------------------------------------------------------------------
  // Characters

  predicate IsDigit(c: char) {
    '0' <= c <= '9'
  }

  predicate AllDigits(s: string) {
    forall i :: 0 <= i < |s| ==> IsDigit(s[i])
  }

  predicate IsUpperAscii(c: char) {
    'A' <= c <= 'Z'
  }

  predicate IsHexDigit(c: char) {
    IsDigit(c) || 'a' <= c <= 'f' || 'A' <= c <= 'F'
  }

  /** Upper-casing over Latin-1: ASCII letters, the accented lower-case block
      U+00E0..U+00FE (except the division sign), plus ÿ and µ, whose upper-case
      forms lie outside Latin-1. Characters whose upper case is longer than one
      character (ß) are kept as they are. */
  function UpperChar(c: char): (u: char)
    ensures 'a' <= c <= 'z' ==> u == c - 'a' + 'A'
    ensures !('a' <= c <= 'z') && !('à' <= c <= 'þ') && c != 'ÿ' && c != 'µ' ==> u == c
  {
    if 'a' <= c <= 'z' then (c as int - 32) as char
    else if 'à' <= c <= 'þ' && c != '÷' then (c as int - 32) as char
    else if c == 'ÿ' then 'Ÿ'
    else if c == 'µ' then 'Μ'
    else c
  }

  /** Lower-casing over Latin-1: ASCII letters and U+00C0..U+00DE except the
      multiplication sign. */
  function LowerChar(c: char): (l: char)
    ensures 'A' <= c <= 'Z' ==> l == c - 'A' + 'a'
    ensures !('A' <= c <= 'Z') && !('À' <= c <= 'Þ') ==> l == c
  {
    if 'A' <= c <= 'Z' then (c as int + 32) as char
    else if 'À' <= c <= 'Þ' && c != '×' then (c as int + 32) as char
    else c
  }

  function Upper(s: string): (r: string)
    ensures |r| == |s|
    ensures forall i :: 0 <= i < |s| ==> r[i] == UpperChar(s[i])
  {
    if s == [] then [] else [UpperChar(s[0])] + Upper(s[1..])
  }

  function Lower(s: string): (r: string)
    ensures |r| == |s|
    ensures forall i :: 0 <= i < |s| ==> r[i] == LowerChar(s[i])
  {
    if s == [] then [] else [LowerChar(s[0])] + Lower(s[1..])
  }

  // ---------------------------------------------------------------------------
  // Substring search

  /** The specification of substring containment: some window of s equals t. */
  ghost predicate OccursAt(t: string, s: string, i: int) {
    0 <= i <= |s| - |t| && s[i..i + |t|] == t
  }

  ghost predicate Occurs(t: string, s: string) {
    exists i :: OccursAt(t, s, i)
  }

  /** Executable substring test, in the manner of String.prototype.includes. */
  predicate Contains(s: string, t: string)
    decreases |s|
  {
    if t <= s then true
    else if |s| == 0 then false
    else Contains(s[1..], t)
  }

  lemma {:induction false} ContainsIsOccurs(s: string, t: string)
    ensures Contains(s, t) <==> Occurs(t, s)
    decreases |s|
  {
    if t <= s {
      assert OccursAt(t, s, 0);
    } else if |s| == 0 {
      assert forall i :: !OccursAt(t, s, i);
    } else {
      ContainsIsOccurs(s[1..], t);
      assert !OccursAt(t, s, 0);
      if Occurs(t, s) {
        var i :| OccursAt(t, s, i);
        assert s[1..][i - 1..i - 1 + |t|] == t;
        assert OccursAt(t, s[1..], i - 1);
      }
      if Occurs(t, s[1..]) {
        var i :| OccursAt(t, s[1..], i);
        assert s[i + 1..i + 1 + |t|] == t;
        assert OccursAt(t, s, i + 1);
      }
    }
  }

  // ---------------------------------------------------------------------------
  // Decimal rendering of natural numbers, as Number.prototype.toString does

  function DigitChar(d: nat): (c: char)
    requires d < 10
    ensures IsDigit(c)
  {
    ('0' as int + d) as char
  }

  function DigitValue(c: char): (d: nat)
    requires IsDigit(c)
    ensures d < 10
  {
    c as int - '0' as int
  }

  function NatToString(n: nat): (s: string)
    ensures |s| >= 1
    ensures AllDigits(s)
    ensures n < 10 <==> |s| == 1
    ensures |s| > 1 ==> s[0] != '0'
    decreases n
  {
    if n < 10 then [DigitChar(n)] else NatToString(n / 10) + [DigitChar(n % 10)]
  }

  /** Reads a decimal digit string back into the number it denotes. */
  function ParseNat(s: string): nat
    requires AllDigits(s)
    decreases |s|
  {
    if s == [] then 0 else ParseNat(s[..|s| - 1]) * 10 + DigitValue(s[|s| - 1])
  }

  lemma {:induction false} ParseNatToString(n: nat)
    ensures ParseNat(NatToString(n)) == n
    decreases n
  {
    if n >= 10 {
      var s := NatToString(n);
      assert s[..|s| - 1] == NatToString(n / 10);
      ParseNatToString(n / 10);
    }
  }

  function Pow10(k: nat): (p: nat)
    ensures p >= 1
  {
    if k == 0 then 1 else 10 * Pow10(k - 1)
  }

  /** A number has k decimal digits exactly when it lies in [10^(k-1), 10^k). */
  lemma {:induction false} NatToStringLength(n: nat, k: nat)
    requires k >= 1 && Pow10(k - 1) <= n < Pow10(k)
    ensures |NatToString(n)| == k
    decreases k
  {
    if k > 1 {
      var p := Pow10(k - 2);
      assert Pow10(k - 1) == 10 * p;
      assert Pow10(k) == 10 * (10 * p);
      assert p <= n / 10 < 10 * p;
      NatToStringLength(n / 10, k - 1);
    }
  }

  /** String.prototype.padStart(2, '0') on a decimal rendering. */
  function Pad2(s: string): (r: string)
    ensures |s| >= 2 ==> r == s
    ensures |s| < 2 ==> |r| == 2 && r[2 - |s|..] == s
  {
    if |s| >= 2 then s
    else if |s| == 1 then "0" + s
    else "00"
  }
}

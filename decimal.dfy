/**
 * Decimal rendering of the iteration counter, as JavaScript's
 * `Number.prototype.toString()` produces it for an integer n with
 * 0 <= n < 2^53 (the counters the page can reach; from 10^21 on JavaScript
 * switches to exponent notation, and above 2^53 `++` is no longer exact),
 * and the facts that make instance prefixes unique: the rendering is
 * injective, and a digit string followed by "-" can be split back apart.
 */
module Decimal {

  predicate IsDigit(c: char) {
    '0' <= c <= '9'
  }

  predicate AllDigits(s: string) {
    forall i :: 0 <= i < |s| ==> IsDigit(s[i])
  }

  function Digit(d: nat): (c: char)
    requires d < 10
    ensures IsDigit(c)
  {
    (48 + d) as char
  }

  /** The decimal digits of n, most significant first, without leading zeros. */
  function NatToString(n: nat): (s: string)
    ensures |s| > 0 && AllDigits(s)
    ensures |s| > 1 ==> s[0] != '0'
  {
    if n < 10 then [Digit(n)] else NatToString(n / 10) + [Digit(n % 10)]
  }

  /** The number a digit string denotes. */
  function ValueOf(s: string): nat
    requires AllDigits(s)
  {
    if s == [] then 0 else 10 * ValueOf(s[..|s| - 1]) + (s[|s| - 1] as int - 48)
  }

  lemma {:induction false} ValueOfNatToString(n: nat)
    ensures ValueOf(NatToString(n)) == n
  {
    if n >= 10 {
      var s := NatToString(n);
      assert s[..|s| - 1] == NatToString(n / 10);
      ValueOfNatToString(n / 10);
    }
  }

  lemma NatToStringInjective(m: nat, n: nat)
    requires NatToString(m) == NatToString(n)
    ensures m == n
  {
    ValueOfNatToString(m);
    ValueOfNatToString(n);
  }

  /** Where the digits of s + "-" + a end. */
  lemma DashPosition(s: string, a: string)
    ensures AllDigits(s) ==> forall i :: 0 <= i < |s| ==> IsDigit((s + "-" + a)[i])
    ensures (s + "-" + a)[|s|] == '-'
  {
  }

  /**
   * A digit string is ended by the first "-": if two strings of the form
   * digits + "-" + rest are equal, their digits and their rests are equal.
   */
  lemma DigitsThenDash(s: string, t: string, a: string, b: string)
    requires AllDigits(s) && AllDigits(t)
    requires s + "-" + a == t + "-" + b
    ensures s == t && a == b
  {
    var x := s + "-" + a;
    DashPosition(s, a);
    DashPosition(t, b);
    assert |s| == |t|;
    assert s == x[..|s|] == t;
    assert a == x[|s| + 1..] == b;
  }
}

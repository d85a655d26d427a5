/** Python's `str()` / f-string rendering of integers as decimal digits. */
module Decimal {

  predicate IsDigit(c: char) {
    '0' <= c <= '9'
  }

  predicate AllDigits(s: string) {
    forall i :: 0 <= i < |s| ==> IsDigit(s[i])
  }

  /** The digit character for d. */
  function Digit(d: nat): (c: char)
    requires d < 10
    ensures IsDigit(c) && c as int - '0' as int == d
  {
    (('0' as int) + d) as char
  }

  /** The decimal rendering of a non-negative integer, without leading zeros. */
  function NatToString(n: nat): (s: string)
    ensures |s| > 0 && AllDigits(s)
    ensures s[0] == '0' <==> n == 0
    ensures n == 0 ==> s == "0"
  {
    if n < 10 then [Digit(n)] else NatToString(n / 10) + [Digit(n % 10)]
  }

  /** The rendering of any integer: a minus sign before the digits of a negative one. */
  function IntToString(i: int): (s: string)
    ensures |s| > 0 && (s[0] == '-' <==> i < 0)
    ensures i >= 0 ==> s == NatToString(i)
    ensures i < 0 ==> s == "-" + NatToString(-i)
  {
    if i < 0 then "-" + NatToString(-i) else NatToString(i)
  }

  /** The number a string of digits denotes (the inverse of NatToString). */
  function Value(s: string): nat
    requires AllDigits(s)
  {
    if s == [] then 0 else Value(s[..|s| - 1]) * 10 + (s[|s| - 1] as int - '0' as int)
  }

  lemma {:induction false} ValueOfNatToString(n: nat)
    ensures Value(NatToString(n)) == n
  {
    var s := NatToString(n);
    if n < 10 {
      assert s[..|s| - 1] == [];
    } else {
      var a := NatToString(n / 10);
      assert s == a + [Digit(n % 10)];
      assert s[..|s| - 1] == a;
      ValueOfNatToString(n / 10);
    }
  }

  lemma NatToStringInjective(a: nat, b: nat)
    requires NatToString(a) == NatToString(b)
    ensures a == b
  {
    ValueOfNatToString(a);
    ValueOfNatToString(b);
  }

  lemma IntToStringInjective(a: int, b: int)
    requires IntToString(a) == IntToString(b)
    ensures a == b
  {
    var sa, sb := IntToString(a), IntToString(b);
    if a < 0 && b < 0 {
      assert sa[1..] == NatToString(-a) && sb[1..] == NatToString(-b);
      NatToStringInjective(-a, -b);
    } else if a >= 0 && b >= 0 {
      NatToStringInjective(a, b);
    } else {
      assert false;
    }
  }

  /** A string that cannot continue a run of digits. */
  predicate StopsDigits(t: string) {
    t == [] || !IsDigit(t[0])
  }

  /** The length of the run of digits a string starts with. */
  function LeadingDigits(w: string): nat {
    if w != [] && IsDigit(w[0]) then 1 + LeadingDigits(w[1..]) else 0
  }

  lemma {:induction false} LeadingDigitsOf(s: string, t: string)
    requires AllDigits(s) && StopsDigits(t)
    ensures LeadingDigits(s + t) == |s|
  {
    if s == [] {
      assert s + t == t;
    } else {
      assert (s + t)[1..] == s[1..] + t;
      LeadingDigitsOf(s[1..], t);
    }
  }

  /**
   * A rendered number followed by a non-digit can be read back unambiguously:
   * both the number and what follows it are determined.
   */
  lemma DigitRunCancel(a: nat, t: string, b: nat, u: string)
    requires NatToString(a) + t == NatToString(b) + u
    requires StopsDigits(t) && StopsDigits(u)
    ensures a == b && t == u
  {
    var sa, sb := NatToString(a), NatToString(b);
    var w := sa + t;
    LeadingDigitsOf(sa, t);
    LeadingDigitsOf(sb, u);
    assert sa == w[..|sa|] == sb;
    assert t == w[|sa|..] == u;
    NatToStringInjective(a, b);
  }
}

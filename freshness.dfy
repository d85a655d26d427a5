/**
 * The freshness text a cache entry shows: the time since the entry was created,
 * rounded to whole minutes the way Python's `round` does (to nearest, ties to even).
 */
module Freshness {
  import opened Decimal

  /** Python's `round(elapsed / 60)` for an integer number of seconds. */
  function RoundedMinutes(elapsed: int): (n: int)
    ensures -30 <= elapsed - 60 * n <= 30
    ensures elapsed - 60 * n == 30 || elapsed - 60 * n == -30 ==> n % 2 == 0
  {
    var q, r := elapsed / 60, elapsed % 60;
    if r < 30 then q
    else if r > 30 then q + 1
    else if q % 2 == 0 then q
    else q + 1
  }

  /** The two properties of RoundedMinutes determine it: it is the nearest integer, ties to even. */
  lemma RoundedMinutesUnique(elapsed: int, m: int)
    requires -30 <= elapsed - 60 * m <= 30
    requires elapsed - 60 * m == 30 || elapsed - 60 * m == -30 ==> m % 2 == 0
    ensures m == RoundedMinutes(elapsed)
  {
    var n := RoundedMinutes(elapsed);
    assert -60 <= 60 * (n - m) <= 60;
    assert -1 <= n - m <= 1;
  }

  /** `last_refreshed_str` for an entry created `elapsed` seconds ago. */
  function LastRefreshed(elapsed: int): (s: string)
    ensures s == "Just refreshed" <==> -30 <= elapsed <= 30
    ensures s == "Refreshed 1 minute ago" <==> 30 < elapsed < 90
    ensures !(-30 <= elapsed < 90) ==>
      s == "Refreshed " + IntToString(RoundedMinutes(elapsed)) + " minutes ago"
  {
    var n := RoundedMinutes(elapsed);
    if n == 0 then "Just refreshed"
    else if n == 1 then "Refreshed 1 minute ago"
    else "Refreshed " + IntToString(n) + " minutes ago"
  }

  /** Different whole-minute counts are always told apart by the text. */
  lemma LastRefreshedDistinguishesMinutes(e1: int, e2: int)
    requires LastRefreshed(e1) == LastRefreshed(e2)
    ensures RoundedMinutes(e1) == RoundedMinutes(e2)
  {
    var n1, n2 := RoundedMinutes(e1), RoundedMinutes(e2);
    var s1, s2 := LastRefreshed(e1), LastRefreshed(e2);
    if n1 != 0 && n1 != 1 && n2 != 0 && n2 != 1 {
      var p, q := "Refreshed ", " minutes ago";
      var d1, d2 := IntToString(n1), IntToString(n2);
      assert s1 == p + d1 + q && s2 == p + d2 + q;
      assert d1 == s1[|p|..|s1| - |q|];
      assert d2 == s2[|p|..|s2| - |q|];
      IntToStringInjective(n1, n2);
    } else if n1 == 0 || n2 == 0 {
      assert |s1| > 0 && (s1[0] == 'J' <==> n1 == 0);
      assert |s2| > 0 && (s2[0] == 'J' <==> n2 == 0);
    } else {
      MinuteFormsDiffer(if n1 == 1 then n2 else n1);
    }
  }

  /** "Refreshed 1 minute ago" is not the plural form of any count. */
  lemma MinuteFormsDiffer(n: int)
    ensures "Refreshed 1 minute ago" != "Refreshed " + IntToString(n) + " minutes ago"
  {
    var s := IntToString(n);
    var plural := "Refreshed " + s + " minutes ago";
    var singular := "Refreshed 1 minute ago";
    if |s| == 1 {
      assert |plural| == 23 && |singular| == 22;
    } else {
      assert |s| >= 2;
      assert plural[10] == s[0] && plural[11] == s[1];
      assert s[1] == '-' || IsDigit(s[1]);
      assert singular[11] == ' ';
    }
  }

  /** The elapsed times the webcache tests check, as the source computes them. */
  lemma LastRefreshedAgreesWithTests()
    ensures LastRefreshed(0) == "Just refreshed"
    ensures LastRefreshed(60) == "Refreshed 1 minute ago"
    ensures LastRefreshed(120) == "Refreshed 2 minutes ago"
    ensures LastRefreshed(600) == "Refreshed 10 minutes ago"
  {
    assert RoundedMinutes(120) == 2;
    assert NatToString(2) == "2";
    assert RoundedMinutes(600) == 10;
    assert NatToString(1) == "1" && NatToString(0) == "0";
    assert NatToString(10) == NatToString(1) + [Digit(0)] == "10";
  }

  /**
   * At 59 s and 119 s the source rounds up, so it shows "Refreshed 1 minute ago"
   * and "Refreshed 2 minutes ago", where the tests expect the floor.
   */
  lemma LastRefreshedRoundsUp()
    ensures LastRefreshed(59) == "Refreshed 1 minute ago"
    ensures LastRefreshed(119) == "Refreshed 2 minutes ago"
  {
    assert RoundedMinutes(119) == 2;
    assert NatToString(2) == "2";
  }
}

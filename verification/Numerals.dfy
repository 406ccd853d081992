/** Decimal numerals without leading zeros, as f"{i}" prints them. */
module Numerals {

  predicate IsDigit(c: char) { '0' <= c <= '9' }

  function Digit(d: nat): (c: char)
    requires d < 10
    ensures IsDigit(c) && c as int - '0' as int == d
  {
    ('0' as int + d) as char
  }

  function Pow10(n: nat): (r: nat)
    ensures r > 0
  {
    if n == 0 then 1 else 10 * Pow10(n - 1)
  }

  function Dec(n: nat): (s: string)
    ensures s != [] && forall c | c in s :: IsDigit(c)
  {
    if n < 10 then [Digit(n)] else Dec(n / 10) + [Digit(n % 10)]
  }

  /** The number that decimal digits stand for. */
  function ValueOf(s: string): int {
    if s == "" then 0 else ValueOf(s[..|s| - 1]) * 10 + (s[|s| - 1] as int - 48)
  }

  /** The numeral of a number stands for it, in digits 0 to 9 and without a leading zero. */
  lemma {:induction false} DecimalNumeral(n: nat)
    ensures ValueOf(Dec(n)) == n && (forall c | c in Dec(n) :: 48 <= c as int <= 57)
    ensures n > 0 ==> Dec(n)[0] as int != 48
    ensures n == 0 ==> Dec(n) == "0"
  {
    var s := Dec(n);
    if n >= 10 {
      DecimalNumeral(n / 10);
      assert s[..|s| - 1] == Dec(n / 10) && s[0] == Dec(n / 10)[0];
    } else {
      assert s[..0] == "" && ValueOf(s) == s[0] as int - 48;
    }
  }

  lemma AllDigits(n: nat, k: nat)
    requires k < |Dec(n)|
    ensures IsDigit(Dec(n)[k])
  {
  }

  /** A numeral is long enough for its value, so only finitely many fit in a key. */
  lemma {:induction false} DecBound(n: nat)
    ensures n < Pow10(|Dec(n)|)
  {
    if n >= 10 {
      DecBound(n / 10);
    }
  }

  lemma {:induction false} Pow10Monotone(m: nat, n: nat)
    requires m <= n
    ensures Pow10(m) <= Pow10(n)
  {
    if m < n {
      Pow10Monotone(m, n - 1);
    }
  }

  lemma LastDigit(n: nat)
    requires n >= 10
    ensures Dec(n)[..|Dec(n)| - 1] == Dec(n / 10) && Dec(n)[|Dec(n)| - 1] == Digit(n % 10)
    ensures |Dec(n)| == |Dec(n / 10)| + 1
  {
  }

  /** Different numbers have different numerals. */
  lemma {:induction false} SameNumeral(i: nat, j: nat)
    requires Dec(i) == Dec(j)
    ensures i == j
  {
    if i >= 10 && j >= 10 {
      LastDigit(i);
      LastDigit(j);
      SameNumeral(i / 10, j / 10);
      assert i % 10 == j % 10;
    } else if i >= 10 {
      LastDigit(i);
    } else if j >= 10 {
      LastDigit(j);
    }
  }

  /** Numerals that start with the numeral of `i` belong to `i` or to larger numbers. */
  lemma {:induction false} PrefixOfNumeral(i: nat, j: nat)
    requires Dec(i) <= Dec(j)
    ensures i <= j && (|Dec(i)| == |Dec(j)| ==> i == j)
  {
    if |Dec(i)| == |Dec(j)| {
      SameNumeral(i, j);
    } else {
      assert |Dec(i)| >= 1 && j >= 10;
      LastDigit(j);
      ShorterPrefix(Dec(i), Dec(j));
      PrefixOfNumeral(i, j / 10);
    }
  }

  lemma ShorterPrefix(a: string, b: string)
    requires a <= b && |a| < |b|
    ensures a <= b[..|b| - 1]
  {
  }
}

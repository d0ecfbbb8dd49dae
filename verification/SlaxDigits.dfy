/**
  Numbers in decimal.
 */
module SlaxDigits {
  function Digit(d: nat): char
    requires d < 10
  {
    '0' + d as char
  }

  predicate IsDigit(c: char) {
    '0' <= c <= '9'
  }

  // %lu
  function Decimal(n: nat): string {
    if n < 10 then [Digit(n)] else Decimal(n / 10) + [Digit(n % 10)]
  }

  // The number that the digits at the front of s stand for, after others with the value n.
  function Leading(s: string, n: int): int {
    if s == "" || !IsDigit(s[0]) then n else Leading(s[1..], n * 10 + (s[0] - '0') as int)
  }

  lemma {:induction false} DecimalDigits(n: nat)
    ensures Decimal(n) != "" && forall k :: 0 <= k < |Decimal(n)| ==> IsDigit(Decimal(n)[k])
  {
    if n >= 10 { DecimalDigits(n / 10); }
  }

  lemma {:induction false} LeadingAll(a: string, rest: string, n: int)
    requires forall k :: 0 <= k < |a| ==> IsDigit(a[k])
    ensures Leading(a + rest, n) == Leading(rest, Leading(a, n))
  {
    if a == "" {
      assert a + rest == rest;
    } else {
      assert (a + rest)[1..] == a[1..] + rest;
      LeadingAll(a[1..], rest, n * 10 + (a[0] - '0') as int);
    }
  }

  lemma {:induction false} LeadingOne(c: char, n: int)
    requires IsDigit(c)
    ensures Leading([c], n) == n * 10 + (c - '0') as int
  {
    assert [c][1..] == "";
  }

  lemma {:induction false} DecimalValue(n: nat)
    ensures Leading(Decimal(n), 0) == n
  {
    if n < 10 {
      LeadingOne(Digit(n), 0);
    } else {
      DecimalValue(n / 10);
      DecimalDigits(n / 10);
      LeadingAll(Decimal(n / 10), [Digit(n % 10)], 0);
      LeadingOne(Digit(n % 10), n / 10);
    }
  }
}

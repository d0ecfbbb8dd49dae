/**
  Facts about products and quotients of natural numbers that the page arithmetic rests on.
 */
module PaMath {
  function Pow2(n: nat): (p: nat)
    ensures p > 0
  {
    if n == 0 then 1 else 2 * Pow2(n - 1)
  }

  lemma {:induction false} Pow2Table()
    ensures Pow2(0) == 1 && Pow2(1) == 2 && Pow2(2) == 4 && Pow2(3) == 8 && Pow2(4) == 16 && Pow2(5) == 32
    ensures Pow2(6) == 64 && Pow2(7) == 128 && Pow2(8) == 256 && Pow2(9) == 512 && Pow2(10) == 1024
    ensures Pow2(11) == 2048 && Pow2(12) == 4096 && Pow2(16) == 65536 && Pow2(32) == 0x1_0000_0000
  {
    assert Pow2(2) == 4;
    assert Pow2(4) == 16;
    assert Pow2(6) == 64;
    assert Pow2(8) == 256;
    assert Pow2(10) == 1024;
    assert Pow2(12) == 4096;
    assert Pow2(14) == 4 * 4096;
    assert Pow2(16) == 65536;
    assert Pow2(18) == 4 * 65536;
    assert Pow2(20) == 16 * 65536;
    assert Pow2(22) == 64 * 65536;
    assert Pow2(24) == 256 * 65536;
    assert Pow2(26) == 1024 * 65536;
    assert Pow2(28) == 4096 * 65536;
    assert Pow2(30) == 16384 * 65536;
    assert Pow2(32) == 65536 * 65536;
  }

  lemma {:induction false} Pow2Mono(a: nat, b: nat)
    requires a <= b
    ensures Pow2(a) <= Pow2(b)
  {
    if a < b {
      Pow2Mono(a, b - 1);
    }
  }

  lemma {:induction false} ModSmall(n: nat, m: nat)
    requires n < m
    ensures n / m == 0 && n % m == n
  {
  }

  lemma {:induction false} MulMono(p: nat, i: nat, j: nat)
    ensures i <= j ==> p * i <= p * j
  {
  }

  lemma {:induction false} AtLeastOnce(p: nat, d: nat)
    requires d > 0
    ensures p * d >= p
  {
  }

  lemma {:induction false} QuotientUnique(p: nat, q: nat, q': nat, r: nat, r': nat)
    requires p * q + r == p * q' + r' && r < p && r' < p
    ensures q == q' && r == r'
  {
    if q < q' {
      AtLeastOnce(p, q' - q);
    } else if q > q' {
      AtLeastOnce(p, q - q');
    }
  }

  lemma {:induction false} MulDivMod(p: nat, c: nat)
    requires p > 0
    ensures (p * c) / p == c && (p * c) % p == 0
  {
    var x := p * c;
    assert x == p * (x / p) + x % p;
    QuotientUnique(p, x / p, c, x % p, 0);
  }

  // val >> n and val << n on unbounded numbers
  function Shr(val: nat, n: nat): nat
    decreases n
  {
    if n == 0 then val else Shr(val / 2, n - 1)
  }

  function Shl(val: nat, n: nat): nat
    decreases n
  {
    if n == 0 then val else Shl(2 * val, n - 1)
  }

  lemma {:induction false} ShlAdd(a: nat, b: nat, n: nat)
    ensures Shl(a + b, n) == Shl(a, n) + Shl(b, n)
    decreases n
  {
    if n > 0 {
      ShlAdd(2 * a, 2 * b, n - 1);
    }
  }

  lemma {:induction false} ShlMono(a: nat, b: nat, n: nat)
    ensures a < b <==> Shl(a, n) < Shl(b, n)
    decreases n
  {
    if n > 0 {
      ShlMono(2 * a, 2 * b, n - 1);
    }
  }

  /** Page p of a number: the pages below p hold exactly the numbers whose page is below p. */
  lemma {:induction false} ShrBelow(a: nat, p: nat, n: nat)
    ensures Shr(a, n) < p <==> a < Shl(p, n)
    decreases n
  {
    if n > 0 {
      ShrBelow(a / 2, p, n - 1);
      ShlTwice(p, n - 1);
    }
  }

  lemma {:induction false} ShlTwice(p: nat, n: nat)
    ensures Shl(2 * p, n) == 2 * Shl(p, n)
  {
    ShlAdd(p, p, n);
  }
}

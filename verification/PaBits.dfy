/**
  Bitwise operations on 32-bit words, written out on natural numbers one bit at a time.
 */
module PaBits {
  import opened PaMath

  const WORD_BITS: nat := 32
  const WORD_LIMIT: nat := 0x1_0000_0000

  // (w >> b) & 1
  predicate Bit(w: nat, b: nat) {
    if b == 0 then w % 2 == 1 else Bit(w / 2, b - 1)
  }

  // w | m
  function Or(w: nat, m: nat): nat {
    if w == 0 && m == 0 then 0
    else 2 * Or(w / 2, m / 2) + (if w % 2 == 1 || m % 2 == 1 then 1 else 0)
  }

  // w & ~m
  function AndNot(w: nat, m: nat): nat {
    if w == 0 then 0
    else 2 * AndNot(w / 2, m / 2) + (if w % 2 == 1 && m % 2 == 0 then 1 else 0)
  }

  lemma {:induction false} ZeroBit(b: nat)
    ensures !Bit(0, b)
  {
    if b > 0 {
      ZeroBit(b - 1);
    }
  }

  lemma {:induction false} OrBit(w: nat, m: nat, c: nat)
    ensures Bit(Or(w, m), c) <==> Bit(w, c) || Bit(m, c)
  {
    if w == 0 && m == 0 {
      ZeroBit(c);
    } else if c > 0 {
      OrBit(w / 2, m / 2, c - 1);
    }
  }

  lemma {:induction false} AndNotBit(w: nat, m: nat, c: nat)
    ensures Bit(AndNot(w, m), c) <==> Bit(w, c) && !Bit(m, c)
  {
    if w == 0 {
      ZeroBit(c);
    } else if c > 0 {
      AndNotBit(w / 2, m / 2, c - 1);
    }
  }

  /** 1 << b has bit b and no other; (1 << b) - 1 has exactly the bits below b. */
  lemma {:induction false} MaskBits(b: nat, c: nat)
    ensures Bit(Pow2(b), c) <==> b == c
    ensures Bit(Pow2(b) - 1, c) <==> c < b
  {
    if b == 0 {
      ZeroBit(c);
      if c > 0 {
        ZeroBit(c - 1);
      }
    } else {
      MaskBits(b - 1, if c > 0 then c - 1 else 0);
      assert (Pow2(b) - 1) / 2 == Pow2(b - 1) - 1;
    }
  }

  lemma {:induction false} OrBelow(w: nat, m: nat, k: nat)
    requires w < Pow2(k) && m < Pow2(k)
    ensures Or(w, m) < Pow2(k)
  {
    if k > 0 {
      OrBelow(w / 2, m / 2, k - 1);
    }
  }

  lemma {:induction false} AndNotAtMost(w: nat, m: nat)
    ensures AndNot(w, m) <= w
  {
    if w > 0 {
      AndNotAtMost(w / 2, m / 2);
    }
  }

  /** A word with no bit set is zero. */
  lemma {:induction false} NoBits(w: nat, k: nat)
    requires w < Pow2(k) && forall b :: 0 <= b < k ==> !Bit(w, b)
    ensures w == 0
  {
    if k > 0 {
      forall b | 0 <= b < k - 1 ensures !Bit(w / 2, b) {
        assert !Bit(w, b + 1);
      }
      NoBits(w / 2, k - 1);
      assert !Bit(w, 0);
    }
  }

  // ffs() less one: the lowest set bit at or after b, or 32.
  function LowestFrom(w: nat, b: nat): (r: nat)
    requires b <= WORD_BITS
    ensures b <= r <= WORD_BITS && (r < WORD_BITS ==> Bit(w, r)) && (forall c :: b <= c < r ==> !Bit(w, c))
    decreases WORD_BITS - b
  {
    if b == WORD_BITS || Bit(w, b) then b else LowestFrom(w, b + 1)
  }

  lemma {:induction false} LowestFound(w: nat)
    requires w < WORD_LIMIT
    ensures w != 0 <==> LowestFrom(w, 0) < WORD_BITS
  {
    var r := LowestFrom(w, 0);
    ZeroBit(r);
    if w != 0 && r == WORD_BITS {
      Pow2Table();
      NoBits(w, WORD_BITS);
    }
  }
}

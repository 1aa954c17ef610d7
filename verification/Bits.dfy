/** 64-bit words, bit by bit: the shifts and the union the nonce window is stored with. */
module Bits {
  import opened Numbers

  /** Whether bit `i` of the word is set, bit 0 being the least significant. */
  predicate Bit(w: nat, i: nat) {
    if i == 0 then w % 2 == 1 else Bit(w / 2, i - 1)
  }

  /** `w >> count`. */
  function ShiftRight(w: u64, count: nat): u64 {
    if count == 0 then w else ShiftRight(w / 2, count - 1)
  }

  /** `w << count` on 64 bits: what passes the top bit is gone. */
  function ShiftLeft(w: u64, count: nat): u64
    decreases count
  {
    if count == 0 then w else ShiftLeft(2 * w % 0x1_0000_0000_0000_0000, count - 1)
  }

  /** `a | b` of two words below 2^n. */
  function Or(a: nat, b: nat): nat
    decreases a + b
  {
    if a == 0 && b == 0 then 0
    else 2 * Or(a / 2, b / 2) + (if a % 2 == 1 || b % 2 == 1 then 1 else 0)
  }

  function Pow2(n: nat): nat {
    if n == 0 then 1 else 2 * Pow2(n - 1)
  }

  lemma {:induction false} BitOfZero(i: nat)
    ensures !Bit(0, i)
  {
    if i == 0 {
    } else {
      BitOfZero(i - 1);
    }
  }

  lemma {:induction false} BitOfOr(a: nat, b: nat, i: nat)
    ensures Bit(Or(a, b), i) <==> Bit(a, i) || Bit(b, i)
  {
    if a == 0 && b == 0 {
      BitOfZero(i);
    } else if i > 0 {
      BitOfOr(a / 2, b / 2, i - 1);
      assert Or(a, b) / 2 == Or(a / 2, b / 2);
    }
  }

  lemma {:induction false} BitOfShiftRight(w: u64, count: nat, i: nat)
    ensures Bit(ShiftRight(w, count), i) <==> Bit(w, count + i)
  {
    if count == 0 {
    } else {
      BitOfShiftRight(w / 2, count - 1, i);
    }
  }

  /** A word of n bits has none at n or above. */
  lemma {:induction false} BitAboveWidth(w: nat, n: nat, i: nat)
    requires w < Pow2(n) && n <= i
    ensures !Bit(w, i)
  {
    if n == 0 {
      BitOfZero(i);
    } else {
      BitAboveWidth(w / 2, n - 1, i - 1);
    }
  }

  /** Reducing to n bits keeps the bits below n. */
  lemma {:induction false} BitOfLow(w: nat, n: nat, i: nat)
    requires i < n
    ensures Pow2(n) > 0
    ensures Bit(w % Pow2(n), i) <==> Bit(w, i)
  {
    Pow2Positive(n - 1);
    HalfOfLow(w, Pow2(n - 1));
    if i == 0 {
    } else {
      BitOfLow(w / 2, n - 1, i - 1);
    }
  }

  lemma {:induction false} Pow2Positive(n: nat)
    ensures Pow2(n) > 0
  {
    if n == 0 {
    } else {
      Pow2Positive(n - 1);
    }
  }

  lemma HalfOfLow(w: nat, p: nat)
    requires p > 0
    ensures w % (2 * p) % 2 == w % 2
    ensures w % (2 * p) / 2 == (w / 2) % p
  {
    var q, r := w / (2 * p), w % (2 * p);
    DivBounds(w, 2 * p);
    assert w == 2 * (p * q) + r by { assert 2 * p * q == 2 * (p * q); }
    assert w / 2 == p * q + r / 2;
    DivUnique(w / 2, p, q);
  }

  lemma Pow2Of64()
    ensures Pow2(64) == 0x1_0000_0000_0000_0000
  {
    assert Pow2(8) == 256;
    Pow2Adds(8, 8);
    Pow2Adds(16, 16);
    Pow2Adds(32, 32);
  }

  lemma Pow2Adds(m: nat, n: nat)
    ensures Pow2(m + n) == Pow2(m) * Pow2(n)
  {
    if m == 0 {
    } else {
      Pow2Adds(m - 1, n);
    }
  }

  lemma {:induction false} BitOfShiftLeft(w: u64, count: nat, i: nat)
    requires i < 64
    ensures Bit(ShiftLeft(w, count), i) <==> i >= count && Bit(w, i - count)
    decreases count
  {
    if count == 0 {
    } else {
      var next: u64 := 2 * w % 0x1_0000_0000_0000_0000;
      BitOfShiftLeft(next, count - 1, i);
      if i >= count - 1 {
        Pow2Of64();
        BitOfLow(2 * w, 64, i - (count - 1));
        assert 2 * w / 2 == w;
      }
    }
  }

  /** Two words of n bits join to a word of n bits. */
  lemma {:induction false} OrFits(a: nat, b: nat, n: nat)
    requires a < Pow2(n) && b < Pow2(n)
    ensures Or(a, b) < Pow2(n)
  {
    if n == 0 {
    } else {
      OrFits(a / 2, b / 2, n - 1);
    }
  }

  function Or64(a: u64, b: u64): u64 {
    Pow2Of64();
    OrFits(a, b, 64);
    Or(a, b)
  }

  /** `1 << i` is the mask of bit `i` alone. */
  lemma {:induction false} BitOfMask(i: nat, j: nat)
    requires i < 64 && j < 64
    ensures Bit(ShiftLeft(1, i), j) <==> i == j
  {
    BitOfShiftLeft(1, i, j);
    if j >= i { BitOfOne(j - i); }
  }

  lemma {:induction false} BitOfOne(i: nat)
    ensures Bit(1, i) <==> i == 0
  {
    if i == 0 {
    } else {
      BitOfZero(i - 1);
    }
  }
}

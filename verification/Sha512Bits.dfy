/** The six functions of section 4.1.3 of FIPS 180-4, and addition, bit by bit. */
module Sha512Bits {
  import opened Sha512

  /** Bit `i` of a word, from the least significant. */
  predicate Bit(x: bv64, i: bv7) requires i < 64 { (x >> i) & 1 == 1 }

  /** The place `n` bits further up, going round. */
  function Around(i: bv7, n: bv7): (j: bv7)
    requires i < 64 && n < 64
    ensures j < 64
  {
    (i + n) % 64
  }

  predicate Odd(p: bool, q: bool, r: bool) { p != (q != r) }
  predicate TwoOf(p: bool, q: bool, r: bool) { (p && q) || (p && r) || (q && r) }

  lemma AndAt(x: bv64, y: bv64, i: bv7) requires i < 64 ensures Bit(x & y, i) == (Bit(x, i) && Bit(y, i)) {}
  lemma OrAt(x: bv64, y: bv64, i: bv7) requires i < 64 ensures Bit(x | y, i) == (Bit(x, i) || Bit(y, i)) {}
  lemma XorAt(x: bv64, y: bv64, i: bv7) requires i < 64 ensures Bit(x ^ y, i) == (Bit(x, i) != Bit(y, i)) {}
  lemma NotAt(x: bv64, i: bv7) requires i < 64 ensures Bit(!x, i) == !Bit(x, i) {}

  lemma AndBit(x: bv64, y: bv64, i: bv7)
    requires i < 64
    ensures Bit(And(x, y), i) == (Bit(x, i) && Bit(y, i))
  {
    AndAt(x, y, i);
    hide Bit;
  }

  lemma OrBit(x: bv64, y: bv64, i: bv7)
    requires i < 64
    ensures Bit(Or(x, y), i) == (Bit(x, i) || Bit(y, i))
  {
    OrAt(x, y, i);
    hide Bit;
  }

  lemma XorBit(x: bv64, y: bv64, i: bv7)
    requires i < 64
    ensures Bit(Xor(x, y), i) == (Bit(x, i) != Bit(y, i))
  {
    XorAt(x, y, i);
    hide Bit;
  }

  lemma NotBit(x: bv64, i: bv7)
    requires i < 64
    ensures Bit(Not(x), i) == !Bit(x, i)
  {
    NotAt(x, i);
    hide Bit;
  }


  lemma DownFar(x: bv64, n: bv7, i: bv7)
    requires 32 <= n && n < 64 && i < 64 && i + n < 64
    ensures Bit(x >> n, i) == Bit(x, i + n)
  {}

  lemma DownHigh(x: bv64, n: bv7, i: bv7)
    requires n < 32 <= i && n < 64 && i < 64 && i + n < 64
    ensures Bit(x >> n, i) == Bit(x, i + n)
  {}

  lemma DownMiddle(x: bv64, n: bv7, i: bv7)
    requires n < 32 && 16 <= i < 32 && n < 64 && i < 64 && i + n < 64
    ensures Bit(x >> n, i) == Bit(x, i + n)
  {}

  lemma DownLow(x: bv64, n: bv7, i: bv7)
    requires n < 32 && i < 16 && n < 64 && i < 64 && i + n < 64
    ensures Bit(x >> n, i) == Bit(x, i + n)
  {}

  lemma DownAt(x: bv64, n: bv7, i: bv7)
    requires n < 64 && i < 64 && i + n < 64
    ensures Bit(x >> n, i) == Bit(x, i + n)
  {
    hide Bit;
    if 32 <= n {
      DownFar(x, n, i);
    } else if 32 <= i {
      DownHigh(x, n, i);
    } else if 16 <= i {
      DownMiddle(x, n, i);
    } else {
      DownLow(x, n, i);
    }
  }

  lemma UpFar(x: bv64, n: bv7, i: bv7)
    requires 32 <= n && n <= i < 64
    ensures Bit(x << n, i) == Bit(x, i - n)
  {}

  lemma UpHigh(x: bv64, n: bv7, i: bv7)
    requires n < 32 && 48 <= i && n <= i < 64
    ensures Bit(x << n, i) == Bit(x, i - n)
  {}

  lemma UpMiddle(x: bv64, n: bv7, i: bv7)
    requires n < 32 <= i < 48 && n <= i < 64
    ensures Bit(x << n, i) == Bit(x, i - n)
  {}

  lemma UpLow(x: bv64, n: bv7, i: bv7)
    requires i < 32 && n <= i < 64
    ensures Bit(x << n, i) == Bit(x, i - n)
  {}

  lemma UpAt(x: bv64, n: bv7, i: bv7)
    requires n <= i < 64
    ensures Bit(x << n, i) == Bit(x, i - n)
  {
    hide Bit;
    if 32 <= n {
      UpFar(x, n, i);
    } else if i < 32 {
      UpLow(x, n, i);
    } else if i < 48 {
      UpMiddle(x, n, i);
    } else {
      UpHigh(x, n, i);
    }
  }

  lemma DownNone(x: bv64, n: bv7, i: bv7)
    requires n < 64 && i < 64 && 64 <= i + n
    ensures !Bit(x >> n, i)
  {}

  lemma UpNone(x: bv64, n: bv7, i: bv7)
    requires i < n < 64
    ensures !Bit(x << n, i)
  {}

  lemma DownBit(x: bv64, n: bv7, i: bv7)
    requires n < 64 && i < 64
    ensures Bit(Shr(n, x), i) == (i + n < 64 && Bit(x, i + n))
  {
    if i + n < 64 { DownAt(x, n, i); } else { DownNone(x, n, i); }
    hide Bit;
  }

  lemma UpBit(x: bv64, n: bv7, i: bv7)
    requires n < 64 && i < 64
    ensures Bit(Shl(n, x), i) == (n <= i && Bit(x, i - n))
  {
    if n <= i { UpAt(x, n, i); } else { UpNone(x, n, i); }
    hide Bit;
  }

  lemma RotrBit(n: bv7, x: bv64, i: bv7)
    requires 0 < n < 64 && i < 64
    ensures Bit(Rotr(n, x), i) == Bit(x, Around(i, n))
  {
    hide Bit, Or, Shr, Shl;
    DownBit(x, n, i);
    UpBit(x, 64 - n, i);
    OrBit(Shr(n, x), Shl(64 - n, x), i);
  }

  /** The first word chooses between the bits of the others. */
  lemma ChBit(x: bv64, y: bv64, z: bv64, i: bv7)
    requires i < 64
    ensures Bit(Ch(x, y, z), i) == if Bit(x, i) then Bit(y, i) else Bit(z, i)
  {
    hide Bit, And, Xor, Not;
    AndBit(x, y, i);
    NotBit(x, i);
    AndBit(Not(x), z, i);
    XorBit(And(x, y), And(Not(x), z), i);
  }

  lemma ThreeBits(x: bv64, y: bv64, z: bv64, i: bv7)
    requires i < 64
    ensures Bit(Xor(Xor(x, y), z), i) == Odd(Bit(x, i), Bit(y, i), Bit(z, i))
  {
    hide Bit, Xor;
    XorBit(Xor(x, y), z, i);
    XorBit(x, y, i);
  }

  /** At least two of the three have the bit. */
  lemma MajBit(x: bv64, y: bv64, z: bv64, i: bv7)
    requires i < 64
    ensures Bit(Maj(x, y, z), i) == TwoOf(Bit(x, i), Bit(y, i), Bit(z, i))
  {
    hide Bit, And, Xor;
    AndBit(x, y, i);
    AndBit(x, z, i);
    AndBit(y, z, i);
    ThreeBits(And(x, y), And(x, z), And(y, z), i);
  }

  lemma BigSigma0Bit(x: bv64, i: bv7)
    requires i < 64
    ensures Bit(BigSigma0(x), i) == Odd(Bit(x, Around(i, 28)), Bit(x, Around(i, 34)), Bit(x, Around(i, 39)))
  {
    hide Bit, Rotr, Around, Xor;
    RotrBit(28, x, i);
    RotrBit(34, x, i);
    RotrBit(39, x, i);
    ThreeBits(Rotr(28, x), Rotr(34, x), Rotr(39, x), i);
  }

  lemma BigSigma1Bit(x: bv64, i: bv7)
    requires i < 64
    ensures Bit(BigSigma1(x), i) == Odd(Bit(x, Around(i, 14)), Bit(x, Around(i, 18)), Bit(x, Around(i, 41)))
  {
    hide Bit, Rotr, Around, Xor;
    RotrBit(14, x, i);
    RotrBit(18, x, i);
    RotrBit(41, x, i);
    ThreeBits(Rotr(14, x), Rotr(18, x), Rotr(41, x), i);
  }

  lemma SmallSigma0Bit(x: bv64, i: bv7)
    requires i < 64
    ensures Bit(SmallSigma0(x), i) == Odd(Bit(x, Around(i, 1)), Bit(x, Around(i, 8)), i + 7 < 64 && Bit(x, i + 7))
  {
    hide Bit, Rotr, Around, Xor, Shr;
    RotrBit(1, x, i);
    RotrBit(8, x, i);
    DownBit(x, 7, i);
    ThreeBits(Rotr(1, x), Rotr(8, x), Shr(7, x), i);
  }

  lemma SmallSigma1Bit(x: bv64, i: bv7)
    requires i < 64
    ensures Bit(SmallSigma1(x), i) == Odd(Bit(x, Around(i, 19)), Bit(x, Around(i, 61)), i + 6 < 64 && Bit(x, i + 6))
  {
    hide Bit, Rotr, Around, Xor, Shr;
    RotrBit(19, x, i);
    RotrBit(61, x, i);
    DownBit(x, 6, i);
    ThreeBits(Rotr(19, x), Rotr(61, x), Shr(6, x), i);
  }

  /** What adding two numbers in the binary system carries to place `i`. */
  predicate Carry(x: bv64, y: bv64, i: bv7) requires i < 64 {
    i > 0 && TwoOf(Bit(x, i - 1), Bit(y, i - 1), Carry(x, y, i - 1))
  }

  lemma CarryLow(x: bv64, y: bv64, i: bv7)
    requires 0 < i < 32
    ensures Odd(Bit(x + y, i), Bit(x, i), Bit(y, i))
            == TwoOf(Bit(x, i - 1), Bit(y, i - 1), Odd(Bit(x + y, i - 1), Bit(x, i - 1), Bit(y, i - 1)))
  {}

  lemma CarryHigh(x: bv64, y: bv64, i: bv7)
    requires 32 <= i < 64
    ensures Odd(Bit(x + y, i), Bit(x, i), Bit(y, i))
            == TwoOf(Bit(x, i - 1), Bit(y, i - 1), Odd(Bit(x + y, i - 1), Bit(x, i - 1), Bit(y, i - 1)))
  {}

  lemma CarryAt(x: bv64, y: bv64, i: bv7)
    requires 0 < i < 64
    ensures Odd(Bit(x + y, i), Bit(x, i), Bit(y, i))
            == TwoOf(Bit(x, i - 1), Bit(y, i - 1), Odd(Bit(x + y, i - 1), Bit(x, i - 1), Bit(y, i - 1)))
  {
    hide Bit;
    if i < 32 { CarryLow(x, y, i); } else { CarryHigh(x, y, i); }
  }

  lemma NoCarry(x: bv64, y: bv64) ensures !Odd(Bit(x + y, 0), Bit(x, 0), Bit(y, 0)) {}

  lemma {:induction false} CarryIs(x: bv64, y: bv64, i: bv7)
    requires i < 64
    ensures Carry(x, y, i) == Odd(Bit(x + y, i), Bit(x, i), Bit(y, i))
  {
    if i > 0 {
      CarryAt(x, y, i);
      hide Bit;
      CarryIs(x, y, i - 1);
    } else {
      NoCarry(x, y);
    }
  }

  /** Addition of words is addition of numbers without the last carry. */
  lemma PlusBit(x: bv64, y: bv64, i: bv7)
    requires i < 64
    ensures Bit(Plus(x, y), i) == Odd(Bit(x, i), Bit(y, i), Carry(x, y, i))
  {
    CarryIs(x, y, i);
    hide Bit, Carry;
  }
}

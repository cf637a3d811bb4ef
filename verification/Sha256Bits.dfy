/** The six functions of section 4.1.2 of FIPS 180-4, and addition, bit by bit. */
module Sha256Bits {
  import opened Sha256

  /** Bit `i` of a word, from the least significant. */
  predicate Bit(x: bv32, i: bv6) requires i < 32 { (x >> i) & 1 == 1 }

  /** The place `n` bits further up, going round. */
  function Around(i: bv6, n: bv6): (j: bv6)
    requires i < 32 && n < 32
    ensures j < 32
  {
    (i + n) % 32
  }

  predicate Odd(p: bool, q: bool, r: bool) { p != (q != r) }
  predicate TwoOf(p: bool, q: bool, r: bool) { (p && q) || (p && r) || (q && r) }

  lemma AndAt(x: bv32, y: bv32, i: bv6) requires i < 32 ensures Bit(x & y, i) == (Bit(x, i) && Bit(y, i)) {}
  lemma OrAt(x: bv32, y: bv32, i: bv6) requires i < 32 ensures Bit(x | y, i) == (Bit(x, i) || Bit(y, i)) {}
  lemma XorAt(x: bv32, y: bv32, i: bv6) requires i < 32 ensures Bit(x ^ y, i) == (Bit(x, i) != Bit(y, i)) {}
  lemma NotAt(x: bv32, i: bv6) requires i < 32 ensures Bit(!x, i) == !Bit(x, i) {}

  lemma AndBit(x: bv32, y: bv32, i: bv6)
    requires i < 32
    ensures Bit(And(x, y), i) == (Bit(x, i) && Bit(y, i))
  {
    AndAt(x, y, i);
    hide Bit;
  }

  lemma OrBit(x: bv32, y: bv32, i: bv6)
    requires i < 32
    ensures Bit(Or(x, y), i) == (Bit(x, i) || Bit(y, i))
  {
    OrAt(x, y, i);
    hide Bit;
  }

  lemma XorBit(x: bv32, y: bv32, i: bv6)
    requires i < 32
    ensures Bit(Xor(x, y), i) == (Bit(x, i) != Bit(y, i))
  {
    XorAt(x, y, i);
    hide Bit;
  }

  lemma NotBit(x: bv32, i: bv6)
    requires i < 32
    ensures Bit(Not(x), i) == !Bit(x, i)
  {
    NotAt(x, i);
    hide Bit;
  }

  lemma DownAt(x: bv32, n: bv6, i: bv6)
    requires n < 32 && i < 32 && i + n < 32
    ensures Bit(x >> n, i) == Bit(x, i + n)
  {}

  lemma UpAt(x: bv32, n: bv6, i: bv6)
    requires n <= i < 32
    ensures Bit(x << n, i) == Bit(x, i - n)
  {}

  lemma DownNone(x: bv32, n: bv6, i: bv6)
    requires n < 32 && i < 32 && 32 <= i + n
    ensures !Bit(x >> n, i)
  {}

  lemma UpNone(x: bv32, n: bv6, i: bv6)
    requires i < n < 32
    ensures !Bit(x << n, i)
  {}

  lemma DownBit(x: bv32, n: bv6, i: bv6)
    requires n < 32 && i < 32
    ensures Bit(Shr(n, x), i) == (i + n < 32 && Bit(x, i + n))
  {
    if i + n < 32 { DownAt(x, n, i); } else { DownNone(x, n, i); }
    hide Bit;
  }

  lemma UpBit(x: bv32, n: bv6, i: bv6)
    requires n < 32 && i < 32
    ensures Bit(Shl(n, x), i) == (n <= i && Bit(x, i - n))
  {
    if n <= i { UpAt(x, n, i); } else { UpNone(x, n, i); }
    hide Bit;
  }

  lemma RotrBit(n: bv6, x: bv32, i: bv6)
    requires 0 < n < 32 && i < 32
    ensures Bit(Rotr(n, x), i) == Bit(x, Around(i, n))
  {
    hide Bit, Or, Shr, Shl;
    DownBit(x, n, i);
    UpBit(x, 32 - n, i);
    OrBit(Shr(n, x), Shl(32 - n, x), i);
  }

  /** The first word chooses between the bits of the others. */
  lemma ChBit(x: bv32, y: bv32, z: bv32, i: bv6)
    requires i < 32
    ensures Bit(Ch(x, y, z), i) == if Bit(x, i) then Bit(y, i) else Bit(z, i)
  {
    hide Bit, And, Xor, Not;
    AndBit(x, y, i);
    NotBit(x, i);
    AndBit(Not(x), z, i);
    XorBit(And(x, y), And(Not(x), z), i);
  }

  lemma ThreeBits(x: bv32, y: bv32, z: bv32, i: bv6)
    requires i < 32
    ensures Bit(Xor(Xor(x, y), z), i) == Odd(Bit(x, i), Bit(y, i), Bit(z, i))
  {
    hide Bit, Xor;
    XorBit(Xor(x, y), z, i);
    XorBit(x, y, i);
  }

  /** At least two of the three have the bit. */
  lemma MajBit(x: bv32, y: bv32, z: bv32, i: bv6)
    requires i < 32
    ensures Bit(Maj(x, y, z), i) == TwoOf(Bit(x, i), Bit(y, i), Bit(z, i))
  {
    hide Bit, And, Xor;
    AndBit(x, y, i);
    AndBit(x, z, i);
    AndBit(y, z, i);
    ThreeBits(And(x, y), And(x, z), And(y, z), i);
  }

  lemma BigSigma0Bit(x: bv32, i: bv6)
    requires i < 32
    ensures Bit(BigSigma0(x), i) == Odd(Bit(x, Around(i, 2)), Bit(x, Around(i, 13)), Bit(x, Around(i, 22)))
  {
    hide Bit, Rotr, Around, Xor;
    RotrBit(2, x, i);
    RotrBit(13, x, i);
    RotrBit(22, x, i);
    ThreeBits(Rotr(2, x), Rotr(13, x), Rotr(22, x), i);
  }

  lemma BigSigma1Bit(x: bv32, i: bv6)
    requires i < 32
    ensures Bit(BigSigma1(x), i) == Odd(Bit(x, Around(i, 6)), Bit(x, Around(i, 11)), Bit(x, Around(i, 25)))
  {
    hide Bit, Rotr, Around, Xor;
    RotrBit(6, x, i);
    RotrBit(11, x, i);
    RotrBit(25, x, i);
    ThreeBits(Rotr(6, x), Rotr(11, x), Rotr(25, x), i);
  }

  lemma SmallSigma0Bit(x: bv32, i: bv6)
    requires i < 32
    ensures Bit(SmallSigma0(x), i) == Odd(Bit(x, Around(i, 7)), Bit(x, Around(i, 18)), i + 3 < 32 && Bit(x, i + 3))
  {
    hide Bit, Rotr, Around, Xor, Shr;
    RotrBit(7, x, i);
    RotrBit(18, x, i);
    DownBit(x, 3, i);
    ThreeBits(Rotr(7, x), Rotr(18, x), Shr(3, x), i);
  }

  lemma SmallSigma1Bit(x: bv32, i: bv6)
    requires i < 32
    ensures Bit(SmallSigma1(x), i) == Odd(Bit(x, Around(i, 17)), Bit(x, Around(i, 19)), i + 10 < 32 && Bit(x, i + 10))
  {
    hide Bit, Rotr, Around, Xor, Shr;
    RotrBit(17, x, i);
    RotrBit(19, x, i);
    DownBit(x, 10, i);
    ThreeBits(Rotr(17, x), Rotr(19, x), Shr(10, x), i);
  }

  /** What adding two numbers in the binary system carries to place `i`. */
  predicate Carry(x: bv32, y: bv32, i: bv6) requires i < 32 {
    i > 0 && TwoOf(Bit(x, i - 1), Bit(y, i - 1), Carry(x, y, i - 1))
  }

  lemma CarryAt(x: bv32, y: bv32, i: bv6)
    requires 0 < i < 32
    ensures Odd(Bit(x + y, i), Bit(x, i), Bit(y, i))
            == TwoOf(Bit(x, i - 1), Bit(y, i - 1), Odd(Bit(x + y, i - 1), Bit(x, i - 1), Bit(y, i - 1)))
  {}

  lemma NoCarry(x: bv32, y: bv32) ensures !Odd(Bit(x + y, 0), Bit(x, 0), Bit(y, 0)) {}

  lemma {:induction false} CarryIs(x: bv32, y: bv32, i: bv6)
    requires i < 32
    ensures Carry(x, y, i) == Odd(Bit(x + y, i), Bit(x, i), Bit(y, i))
  {
    if i > 0 {
      CarryAt(x, y, i);
      hide Bit;
      CarryIs(x, y, i - 1);
    } else {
      NoCarry(x, y);
    }
  }

  /** Addition of words is addition of numbers without the last carry. */
  lemma PlusBit(x: bv32, y: bv32, i: bv6)
    requires i < 32
    ensures Bit(Plus(x, y), i) == Odd(Bit(x, i), Bit(y, i), Carry(x, y, i))
  {
    CarryIs(x, y, i);
    hide Bit, Carry;
  }
}

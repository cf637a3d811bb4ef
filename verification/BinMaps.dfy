/** The 32-bit bin maps and the bit tricks that search them. */
module BinMaps {
  function And(a: bv32, b: bv32): bv32 { a & b }
  function Or(a: bv32, b: bv32): bv32 { a | b }
  function Not(a: bv32): bv32 { !a }
  function Half(a: bv32): bv32 { a >> 1 }
  function Twice(a: bv32): bv32 { a << 1 }

  /** idx2bit, mark_*map, clear_*map, *map_is_marked */
  function Idx2Bit(i: nat): bv32 requires i < 32 { (1 as bv32) << i }
  predicate Marked(m: bv32, i: nat) requires i < 32 { And(m, Idx2Bit(i)) != 0 }
  function Mark(m: bv32, i: nat): bv32 requires i < 32 { Or(m, Idx2Bit(i)) }
  function Clear(m: bv32, i: nat): bv32 requires i < 32 { And(m, Not(Idx2Bit(i))) }

  /** least_bit, left_bits, and shifts by a variable amount */
  function LeastBit(x: bv32): bv32 { x & -x }
  function LeftBits(x: bv32): bv32 { Or(Twice(x), -Twice(x)) }
  function Shr(m: bv32, i: nat): bv32 { if i == 0 then m else Shr(Half(m), i - 1) }
  function Shl(m: bv32, i: nat): bv32 { if i == 0 then m else Twice(Shl(m, i - 1)) }

  /** compute_bit2idx: the number of trailing zeros */
  function Bit2Idx(x: bv32): nat
    requires x != 0
    decreases x
  {
    if And(x, 1) != 0 then 0 else 1 + Bit2Idx(Half(x))
  }

  // ---- single bits

  lemma OneBit(i: nat, j: nat)
    requires i < 32 && j < 32
    ensures And(Idx2Bit(i), Idx2Bit(j)) == if i == j then Idx2Bit(i) else 0
    ensures Idx2Bit(i) != 0
  {}

  lemma OtherBits(i: nat, j: nat)
    requires i < 32 && j < 32
    ensures And(Idx2Bit(j), Not(Idx2Bit(i))) == if i == j then 0 else Idx2Bit(j)
  {
    OneBit(i, j);
    hide Idx2Bit, And, Not;
    BitsApart(Idx2Bit(i), Idx2Bit(j));
  }

  lemma BitsApart(a: bv32, b: bv32)
    ensures And(b, Not(b)) == 0
    ensures And(a, b) == 0 ==> And(b, Not(a)) == b
  {}

  lemma OrAnd(m: bv32, a: bv32, b: bv32)
    ensures And(Or(m, a), b) == Or(And(m, b), And(a, b))
  {
    assert (m | a) & b == (m & b) | (a & b);
  }

  lemma OrZero(x: bv32, y: bv32)
    ensures Or(x, y) != 0 <==> x != 0 || y != 0
  {}

  lemma AndAnd(m: bv32, a: bv32, b: bv32)
    ensures And(And(m, a), b) == And(m, And(b, a))
    ensures And(m, 0) == 0
  {}

  lemma AndZero(m: bv32)
    ensures And(0, m) == 0
  {}

  lemma Double(i: nat)
    requires i < 31
    ensures Idx2Bit(i + 1) == Twice(Idx2Bit(i))
    ensures Idx2Bit(i) < 0x8000_0000
  {}

  lemma HalfAnd(m: bv32, b: bv32)
    requires b < 0x8000_0000
    ensures And(Half(m), b) != 0 <==> And(m, Twice(b)) != 0
  {}

  lemma BitZero(m: bv32)
    ensures Marked(m, 0) <==> And(m, 1) != 0
    ensures Idx2Bit(0) == 1
  {}

  lemma HalfTop(m: bv32)
    ensures And(Half(m), 0x8000_0000) == 0
    ensures Idx2Bit(31) == 0x8000_0000
  {}

  // ---- marks

  lemma MarkedMark(m: bv32, i: nat, j: nat)
    requires i < 32 && j < 32
    ensures Marked(Mark(m, i), j) <==> i == j || Marked(m, j)
  {
    OneBit(i, j);
    hide Idx2Bit, And, Or, Not;
    OrAnd(m, Idx2Bit(i), Idx2Bit(j));
    OrZero(And(m, Idx2Bit(j)), And(Idx2Bit(i), Idx2Bit(j)));
  }

  lemma MarkedClear(m: bv32, i: nat, j: nat)
    requires i < 32 && j < 32
    ensures Marked(Clear(m, i), j) <==> i != j && Marked(m, j)
  {
    hide Idx2Bit, And, Or, Not;
    OtherBits(i, j);
    AndAnd(m, Not(Idx2Bit(i)), Idx2Bit(j));
  }

  /** `m'` has the marks of `m` and one at `i`; or those of `m` but the one at `i`. */
  ghost predicate AlsoMarks(m: bv32, m': bv32, i: nat) requires i < 32 {
    forall j: nat | j < 32 :: Marked(m', j) <==> j == i || Marked(m, j)
  }

  ghost predicate Unmarks(m: bv32, m': bv32, i: nat) requires i < 32 {
    forall j: nat | j < 32 :: Marked(m', j) <==> j != i && Marked(m, j)
  }

  lemma MarkAlso(m: bv32, i: nat)
    requires i < 32
    ensures AlsoMarks(m, Mark(m, i), i)
    ensures Marked(m, i) ==> AlsoMarks(m, m, i)
    ensures Unmarks(m, Clear(m, i), i)
  {
    hide Marked, Mark, Clear;
    forall j: nat | j < 32
      ensures Marked(Mark(m, i), j) <==> j == i || Marked(m, j)
      ensures Marked(Clear(m, i), j) <==> j != i && Marked(m, j)
    {
      MarkedMark(m, i, j);
      MarkedClear(m, i, j);
    }
  }

  lemma LeftBitsAbove(i: nat, j: nat)
    requires i < 32 && j < 32
    ensures And(Idx2Bit(j), LeftBits(Idx2Bit(i))) == if i < j then Idx2Bit(j) else 0
  {}

  /** `m & left_bits(idx2bit(i))` keeps exactly the marks above `i`. */
  lemma LeftMarked(m: bv32, i: nat, j: nat)
    requires i < 32 && j < 32
    ensures Marked(And(m, LeftBits(Idx2Bit(i))), j) <==> i < j && Marked(m, j)
  {
    hide Idx2Bit, And, Or, Not, LeftBits;
    LeftBitsAbove(i, j);
    AndAnd(m, LeftBits(Idx2Bit(i)), Idx2Bit(j));
  }

  lemma MarkedHalf(m: bv32, i: nat)
    requires i < 32
    ensures Marked(Half(m), i) <==> i + 1 < 32 && Marked(m, i + 1)
  {
    if i < 31 {
      hide Idx2Bit, And, Half, Twice;
      Double(i);
      HalfAnd(m, Idx2Bit(i));
    } else {
      HalfTop(m);
    }
  }

  lemma MarkedTwice(m: bv32, i: nat)
    requires i < 32
    ensures Marked(Twice(m), i) <==> 0 < i && Marked(m, i - 1)
  {
    if i > 0 {
      hide Idx2Bit, And, Half, Twice;
      Double(i - 1);
      TwiceAnd(m, Idx2Bit(i - 1));
    } else {
      BitZero(Twice(m));
    }
  }

  lemma TwiceAnd(m: bv32, b: bv32)
    requires b < 0x8000_0000
    ensures And(Twice(m), Twice(b)) != 0 <==> And(m, b) != 0
  {
    assert (m << 1) & (b << 1) == (m & b) << 1;
  }

  lemma {:induction false} MarkedShr(m: bv32, i: nat, k: nat)
    requires i < 32 && k < 32
    ensures Marked(Shr(m, i), k) <==> k + i < 32 && Marked(m, k + i)
    decreases i
  {
    if i > 0 {
      hide Marked, Half;
      MarkedShr(Half(m), i - 1, k);
      if k + i - 1 < 32 { MarkedHalf(m, k + i - 1); }
    }
  }

  lemma {:induction false} MarkedShl(m: bv32, i: nat, k: nat)
    requires k < 32
    ensures Marked(Shl(m, i), k) <==> i <= k && Marked(m, k - i)
    decreases i
  {
    if i > 0 {
      hide Marked, Twice;
      MarkedTwice(Shl(m, i - 1), k);
      if k > 0 { MarkedShl(m, i - 1, k - 1); }
    }
  }

  // ---- the lowest mark

  lemma LeastOdd(x: bv32)
    requires And(x, 1) != 0
    ensures LeastBit(x) == 1
  {}

  lemma LeastEven(x: bv32)
    requires And(x, 1) == 0
    ensures LeastBit(x) == Twice(LeastBit(Half(x)))
    ensures x != 0 ==> Half(x) != 0 && Half(x) < x
  {}

  /** Every nonzero word has a mark. */
  lemma SomeBit(x: bv32) returns (i: nat)
    requires x != 0
    ensures i < 32 && Marked(x, i)
  {
    i := 0;
    while i < 31 && !Marked(x, i)
      invariant i < 32
      invariant Shr(x, i) != 0
    {
      hide Idx2Bit, And, Or, Not, Half, Twice, Marked;
      MarkedShr(x, i, 0);
      BitZero(Shr(x, i));
      ShrStep(x, i);
      LeastEven(Shr(x, i));
      i := i + 1;
    }
    if i == 31 {
      MarkedShr(x, 31, 0);
      BitZero(Shr(x, 31));
      ShrBound(x, 31);
    }
  }

  lemma {:induction false} ShrStep(x: bv32, i: nat)
    ensures Shr(x, i + 1) == Half(Shr(x, i))
    decreases i
  {
    hide Half;
    if i > 0 { ShrStep(Half(x), i - 1); }
  }

  lemma {:induction false} ShrBound(x: bv32, i: nat)
    requires 1 <= i <= 31
    ensures Shr(x, i) < Idx2Bit(32 - i)
    ensures i == 31 && Shr(x, i) != 0 ==> And(Shr(x, i), 1) != 0
    decreases i
  {
    ShrStep(x, i - 1);
    if i == 1 {
      HalfBound(x, 0x8000_0000);
    } else {
      ShrBound(x, i - 1);
      Double(32 - i);
      hide Idx2Bit, Half, Twice, And;
      HalfBound(Shr(x, i - 1), Idx2Bit(32 - i));
    }
    if i == 31 { OnlyOne(Shr(x, 31)); }
  }

  lemma HalfBound(x: bv32, b: bv32)
    requires b <= 0x8000_0000
    ensures b == 0x8000_0000 || x < Twice(b) ==> Half(x) < b
    ensures Idx2Bit(31) == 0x8000_0000
    ensures Idx2Bit(1) == 2
  {}

  lemma OnlyOne(x: bv32)
    ensures x < 2 && x != 0 ==> And(x, 1) != 0
    ensures Idx2Bit(1) == 2
  {}

  lemma {:induction false} LowestBit(x: bv32, i: nat)
    requires i < 32 && Marked(x, i)
    ensures x != 0 && Bit2Idx(x) <= i
    ensures LeastBit(x) == Idx2Bit(Bit2Idx(x))
    ensures Marked(x, Bit2Idx(x))
    ensures forall j: nat | j < Bit2Idx(x) :: !Marked(x, j)
    decreases i
  {
    AndZero(Idx2Bit(i));
    hide Idx2Bit, And, Or, Not, Half, Twice, Marked, LeastBit;
    BitZero(x);
    if And(x, 1) != 0 {
      LeastOdd(x);
    } else {
      LeastEven(x);
      MarkedHalf(x, i - 1);
      LowestBit(Half(x), i - 1);
      var k := Bit2Idx(Half(x));
      Double(k);
      MarkedHalf(x, k);
      forall j: nat | j < Bit2Idx(x) ensures !Marked(x, j) {
        if j > 0 { MarkedHalf(x, j - 1); }
      }
    }
  }

  /** compute_bit2idx(least_bit(x)) finds the lowest mark of `x`. */
  lemma LeastMarked(x: bv32)
    requires x != 0
    ensures LeastBit(x) != 0
    ensures var i := Bit2Idx(LeastBit(x)); i < 32 && Marked(x, i) && forall j: nat | j < i :: !Marked(x, j)
  {
    var i := SomeBit(x);
    LowestBit(x, i);
    hide Idx2Bit, And, LeastBit;
    var k := Bit2Idx(x);
    OneBit(k, k);
    LowestBit(Idx2Bit(k), k);
    OneBit(k, Bit2Idx(Idx2Bit(k)));
  }

  // ---- the small-bin search of dlmalloc

  /** `smallbits & 3` looks at the exact bin and the next one. */
  lemma LowPair(m: bv32, idx: nat)
    requires idx < 32
    ensures And(Shr(m, idx), 3) != 0 <==> Marked(m, idx) || (idx + 1 < 32 && Marked(m, idx + 1))
    ensures And(Not(Shr(m, idx)), 1) == if Marked(m, idx) then 0 else 1
  {
    MarkedShr(m, idx, 0);
    MarkedShr(m, idx, 1);
    hide Marked, Shr;
    Three(Shr(m, idx));
  }

  lemma Three(s: bv32)
    ensures And(s, 3) != 0 <==> Marked(s, 0) || Marked(s, 1)
    ensures And(Not(s), 1) == if Marked(s, 0) then 0 else 1
  {
    BitZero(s);
    OnlyOne(s);
  }

  /** No bits are left when those below `idx` are shifted out: no marks from `idx` on. */
  lemma NoBits(m: bv32, idx: nat)
    requires idx < 32 && Shr(m, idx) == 0
    ensures forall j: nat | idx <= j < 32 :: !Marked(m, j)
  {
    hide Marked, Shr;
    forall j: nat | idx <= j < 32 ensures !Marked(m, j) {
      MarkedShr(m, idx, j - idx);
      if Marked(0, j - idx) { NonZero(0, j - idx); }
    }
  }

  /** With no mark at `idx` and `idx + 1`, nonzero `smallbits` leave the lowest mark above. */
  lemma NextSmall(m: bv32, idx: nat)
    requires idx < 32 && Shr(m, idx) != 0 && !Marked(m, idx)
    ensures var left := And(Shl(Shr(m, idx), idx), LeftBits(Idx2Bit(idx)));
            && left != 0 && LeastBit(left) != 0
            && var i := Bit2Idx(LeastBit(left));
               idx < i < 32 && Marked(m, i) && forall j: nat | idx < j < i :: !Marked(m, j)
  {
    hide And, LeftBits, Marked, LeastBit, Idx2Bit, Shr, Shl, Bit2Idx;
    var left := And(Shl(Shr(m, idx), idx), LeftBits(Idx2Bit(idx)));
    var k := SomeBit(Shr(m, idx));
    MarkedShr(m, idx, k);
    forall j: nat | j < 32 ensures Marked(left, j) <==> idx < j && Marked(m, j) { LeftAbove(m, idx, j); }
    NonZero(left, k + idx);
    LeastMarked(left);
  }

  lemma LeftAbove(m: bv32, idx: nat, j: nat)
    requires idx < 32 && j < 32
    ensures Marked(And(Shl(Shr(m, idx), idx), LeftBits(Idx2Bit(idx))), j) <==> idx < j && Marked(m, j)
  {
    hide And, LeftBits, Marked, Idx2Bit, Shr, Shl;
    LeftMarked(Shl(Shr(m, idx), idx), idx, j);
    MarkedShl(Shr(m, idx), idx, j);
    if idx <= j { MarkedShr(m, idx, j - idx); }
  }

  lemma NonZero(x: bv32, i: nat)
    requires i < 32 && Marked(x, i)
    ensures x != 0
  {
    AndZero(Idx2Bit(i));
    hide And, Idx2Bit;
  }
}

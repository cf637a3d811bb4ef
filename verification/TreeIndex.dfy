/** Which tree a large chunk belongs to, and the key bits that steer a walk inside it. */
module TreeIndex {
  import opened Words

  const NTREEBINS: nat := 32

  function Pow2(n: nat): (r: nat)
    ensures r > 0
  {
    if n == 0 then 1 else 2 * Pow2(n - 1)
  }

  /** Position of the highest set bit (31 - clz). */
  function Log2(x: nat): (k: nat)
    requires x > 0
    ensures Pow2(k) <= x < 2 * Pow2(k)
  {
    if x == 1 then 0 else 1 + Log2(x / 2)
  }

  /** compute_tree_index */
  function Index(s: nat): (i: nat)
    requires s < WORD
  {
    var x := s / 256;
    if x == 0 then 0
    else if x > 0xFFFF then NTREEBINS - 1
    else
      var k := Log2(x);
      2 * k + s / Pow2(k + 7) % 2
  }

  /** minsize_for_tree_index */
  function MinSize(i: nat): nat { Pow2(i / 2 + 8) + (if i % 2 == 1 then Pow2(i / 2 + 7) else 0) }

  /** The sizes tree `i` may hold are `Lo(i) <= s < Lo(i) + Pow2(Bits(i))`; the last tree is keyed on whole words. */
  function Lo(i: nat): nat { if i == NTREEBINS - 1 then 0 else MinSize(i) }
  function Bits(i: nat): nat { if i == NTREEBINS - 1 then 32 else i / 2 + 7 }

  /** leftshift_for_tree_index */
  function LeftShift(i: nat): nat
    requires i < NTREEBINS
  {
    if i == NTREEBINS - 1 then 0 else 31 - (i / 2 + 8 - 2)
  }

  lemma Quotient(s: nat, p: nat)
    requires 0 < p && 2 * p <= s < 4 * p
    ensures s / p == if s < 3 * p then 2 else 3
  {
    var q := if s < 3 * p then 2 else 3;
    DivUnique(s, p, q, s - q * p);
  }

  lemma DivUnique(s: nat, p: nat, q: nat, r: nat)
    requires 0 <= r < p && s == q * p + r
    ensures s / p == q
  {
    var d := s / p - q;
    assert s == p * (s / p) + s % p;
    assert d * p == r - s % p;
    SmallMultiple(d, p);
  }

  lemma SmallMultiple(d: int, p: nat)
    requires 0 - p < d * p < p
    ensures d == 0
  {
  }

  lemma Pow2Next(n: nat)
    ensures Pow2(n + 1) == 2 * Pow2(n)
  {}

  lemma {:induction false} Pow2Mono(a: nat, b: nat)
    requires a <= b
    ensures Pow2(a) <= Pow2(b)
    decreases b
  {
    if a < b { Pow2Mono(a, b - 1); }
  }

  lemma {:induction false} Pow2Sum(a: nat, b: nat)
    ensures Pow2(a + b) == Pow2(a) * Pow2(b)
    decreases b
  {
    if b > 0 { Pow2Sum(a, b - 1); assert Pow2(a) * (2 * Pow2(b-1)) == 2 * (Pow2(a) * Pow2(b-1)); }
  }

  lemma Log2Small(x: nat)
    requires 0 < x <= 0xFFFF
    ensures Log2(x) <= 15
  {
    if Log2(x) >= 16 { Pow2Mono(16, Log2(x)); Pow2At(); }
  }

  lemma Pow2At()
    ensures Pow2(7) == 128 && Pow2(8) == 256 && Pow2(16) == 0x1_0000 && Pow2(22) == 0x40_0000
    ensures Pow2(23) == 0x80_0000 && Pow2(31) == 0x8000_0000 && Pow2(32) == WORD
  {
    Pow2Sum(8, 8);
    Pow2Sum(16, 8);
    Pow2Sum(16, 16);
  }

  lemma Window(s: nat, x: nat, k: nat)
    requires x == s / 256 && Pow2(k) <= x < 2 * Pow2(k)
    ensures 2 * Pow2(k + 7) <= s < 4 * Pow2(k + 7)
  {
    Pow2Sum(k, 7);
    Pow2At();
    hide Pow2;
    assert 256 * x <= s < 256 * x + 256;
  }

  /** The index splits into the power of two and the half of it the size lies in. */
  lemma IndexParts(s: nat) returns (k: nat, h: nat)
    requires 256 <= s < 0x100_0000
    ensures k <= 15 && h < 2 && Index(s) == 2 * k + h
    ensures var p := Pow2(k + 7); if h == 0 then 2 * p <= s < 3 * p else 3 * p <= s < 4 * p
  {
    var x := s / 256;
    k := Log2(x);
    var p := Pow2(k + 7);
    Log2Small(x);
    Window(s, x, k);
    Quotient(s, p);
    h := if s < 3 * p then 0 else 1;
    hide Pow2, Log2;
  }

  lemma MinSizeAt(k: nat, h: nat)
    requires h < 2
    ensures MinSize(2 * k + h) == if h == 0 then 2 * Pow2(k + 7) else 3 * Pow2(k + 7)
  {
    assert (2 * k + h) / 2 == k && (2 * k + h) % 2 == h;
    Pow2Next(k + 7);
    hide Pow2;
  }

  /** Every large size falls in the range of the tree its index names. */
  lemma IndexRange(s: nat)
    requires 256 <= s < WORD
    ensures Index(s) < NTREEBINS
    ensures Lo(Index(s)) <= s < Lo(Index(s)) + Pow2(Bits(Index(s)))
    ensures MinSize(Index(s)) <= s
  {
    Pow2At();
    if s < 0x100_0000 {
      var k, h := IndexParts(s);
      MinSizeAt(k, h);
      hide Pow2;
      assert Index(s) / 2 == k;
    }
  }

  lemma MinSizeNext(i: nat)
    ensures MinSize(i) + Pow2(i / 2 + 7) == MinSize(i + 1)
  {
    hide Pow2, MinSize;
    var k, h := i / 2, i % 2;
    Pow2Next(k + 7);
    MinSizeAt(k, h);
    if h == 0 { MinSizeAt(k, 1); } else { MinSizeAt(k + 1, 0); assert i + 1 == 2 * (k + 1) + 0; }
  }

  lemma {:induction false} MinSizeMono(i: nat, j: nat)
    requires i < j
    ensures MinSize(i) + Pow2(i / 2 + 7) <= MinSize(j)
    decreases j
  {
    hide Pow2, MinSize;
    if i + 1 < j {
      MinSizeMono(i, j - 1);
      MinSizeNext(j - 1);
    } else {
      MinSizeNext(i);
    }
  }

  /** A chunk in a lower-numbered tree is smaller than any in a higher-numbered one. */
  lemma IndexMono(s: nat, t: nat)
    requires 256 <= s < WORD && 256 <= t < WORD && Index(s) < Index(t)
    ensures s < t
  {
    IndexRange(s);
    IndexRange(t);
    hide MinSize, Pow2, Index;
    MinSizeMono(Index(s), Index(t));
  }

  // ---- products, kept away from the solver's arithmetic

  function Mul(a: int, b: int): int { a * b }

  lemma MulMono(x: int, y: int, b: int)
    requires x <= y && 0 <= b
    ensures Mul(x, b) <= Mul(y, b)
  {}

  lemma MulSub(x: int, y: int, b: int)
    ensures Mul(x - y, b) == Mul(x, b) - Mul(y, b)
  {}

  lemma MulTwo(x: int, b: int)
    ensures Mul(x, 2 * b) == 2 * Mul(x, b)
    ensures Mul(1, b) == b && Mul(0, b) == 0 && Mul(2, b) == 2 * b && Mul(3, b) == 3 * b
    ensures Mul(x, 1) == x
  {}

  lemma MulPow2(a: nat, b: nat)
    ensures Mul(Pow2(a), Pow2(b)) == Pow2(a + b)
  {
    Pow2Sum(a, b);
  }

  // ---- the key bits that steer a walk

  /** x << n in 32 bits */
  function ShiftLeft(x: nat, n: nat): int { Mul(x, Pow2(n)) % WORD }

  /** `k` holds the bits of `s` not yet used, the next one in the sign position. */
  ghost predicate Key(k: int, s: int, lo: int, bits: nat) {
    bits <= 32 && lo <= s < lo + Pow2(bits) && k == Mul(s - lo, Pow2(32 - bits))
  }

  lemma KeyWindow(k: int, s: int, lo: int, bits: nat)
    requires Key(k, s, lo, bits)
    ensures 0 <= k < WORD
  {
    hide Pow2, Mul;
    var a, b := Pow2(bits), Pow2(32 - bits);
    MulPow2(bits, 32 - bits);
    Pow2At();
    MulMono(s - lo, a - 1, b);
    MulMono(0, s - lo, b);
    MulSub(a, 1, b);
    MulTwo(0, b);
  }

  lemma LoShift(i: nat)
    requires i < NTREEBINS - 1
    ensures Mul(Lo(i), Pow2(LeftShift(i))) == (if i % 2 == 0 then 2 else 3) * WORD
  {
    var k, h := i / 2, i % 2;
    MinSizeAt(k, h);
    MulPow2(k + 7, 25 - k);
    Pow2At();
    hide Pow2, Mul, MinSize;
    assert i == 2 * k + h && LeftShift(i) == 25 - k;
    var p, q := Pow2(k + 7), Pow2(25 - k);
    assert Lo(i) == if h == 0 then 2 * p else 3 * p;
    Twofold(p, q);
  }

  lemma Twofold(p: int, q: int)
    ensures Mul(2 * p, q) == 2 * Mul(p, q) && Mul(3 * p, q) == 3 * Mul(p, q)
  {}

  /** A key starts at the first bit that tells sizes of its tree apart. */
  lemma KeyStart(s: nat)
    requires 256 <= s < WORD
    ensures Index(s) < NTREEBINS
    ensures Key(ShiftLeft(s, LeftShift(Index(s))), s, Lo(Index(s)), Bits(Index(s)))
  {
    IndexRange(s);
    var i := Index(s);
    var n := LeftShift(i);
    assert n == 32 - Bits(i) && (i == NTREEBINS - 1 ==> Lo(i) == 0);
    hide Pow2, Mul, Lo, LeftShift, Bits, Index;
    var k := Mul(s - Lo(i), Pow2(n));
    KeyWindow(k, s, Lo(i), Bits(i));
    MulSub(s, Lo(i), Pow2(n));
    ModWord(k);
    if i < NTREEBINS - 1 {
      LoShift(i);
    } else {
      MulTwo(0, Pow2(n));
    }
  }

  lemma ModWord(k: int)
    requires 0 <= k < WORD
    ensures k % WORD == k && (k + 2 * WORD) % WORD == k && (k + 3 * WORD) % WORD == k
  {}

  /** The sign bit says which half of the interval the size lies in; shifting moves on to that half. */
  lemma KeyStep(k: int, s: int, lo: int, bits: nat)
    requires Key(k, s, lo, bits) && bits > 0
    ensures 0 <= k < WORD
    ensures k / 0x8000_0000 == if s >= lo + Pow2(bits - 1) then 1 else 0
    ensures Key(2 * k % WORD, s, if s >= lo + Pow2(bits - 1) then lo + Pow2(bits - 1) else lo, bits - 1)
  {
    hide Mul;
    KeyWindow(k, s, lo, bits);
    var a, b := Pow2(bits - 1), Pow2(32 - bits);
    MulPow2(bits - 1, 32 - bits);
    Pow2At();
    assert Pow2(33 - bits) == 2 * b && Pow2(bits) == 2 * a;
    hide Pow2;
    KeyHalf(k, s - lo, a, b);
  }

  lemma KeyHalf(k: int, r: int, a: int, b: int)
    requires a > 0 && b > 0 && Mul(a, b) == 0x8000_0000 && 0 <= r < 2 * a && k == Mul(r, b)
    ensures k / 0x8000_0000 == if r >= a then 1 else 0
    ensures 2 * k % WORD == Mul(if r >= a then r - a else r, 2 * b)
  {
    hide Mul;
    MulSub(a, 1, b);
    MulTwo(0, b);
    if r >= a {
      MulSub(r, a, b);
      MulMono(0, r - a, b);
      MulMono(r - a, a - 1, b);
      MulTwo(r - a, b);
    } else {
      MulMono(r, a - 1, b);
      MulMono(0, r, b);
      MulTwo(r, b);
    }
  }
}

/** Aligned allocation. */
module Aligning {
  import opened Words
  import opened TreeIndex
  import opened Bins
  import opened Chunks
  import opened Heaps
  import opened Steps
  import opened System
  import opened Resizing

  const MAX_ALIGNMENT: int := 0x8000_0000

  predicate PowerOfTwo(x: int) decreases x { x == 1 || (x > 1 && x % 2 == 0 && PowerOfTwo(x / 2)) }

  lemma {:induction false} PowGap(a: int, b: int)
    requires PowerOfTwo(a) && PowerOfTwo(b) && a < b
    ensures 2 * a <= b
    decreases b
  {
    if a > 1 { PowGap(a / 2, b / 2); }
  }

  lemma {:induction false} PowDouble(a: int)
    requires PowerOfTwo(a)
    ensures PowerOfTwo(2 * a)
  {
    assert 2 * a / 2 == a;
  }

  lemma PowSixteen(a: int)
    requires PowerOfTwo(a) && a >= 16
    ensures a % 16 == 0 && Mult8(a)
  {
    assert PowerOfTwo(a / 2) && PowerOfTwo(a / 2 / 2) && PowerOfTwo(a / 2 / 2 / 2);
    assert a == 2 * (a / 2) && a / 2 == 2 * (a / 2 / 2) && a / 2 / 2 == 2 * (a / 2 / 2 / 2);
  }

  lemma {:induction false} PowPower(k: nat)
    ensures PowerOfTwo(Pow2(k))
  {
    if k > 0 { PowPower(k - 1); PowDouble(Pow2(k - 1)); }
  }

  /** A shift left by one bit. */
  function Double32(a: int): int { 2 * a % WORD }

  lemma SmallDouble(a: int)
    requires 0 <= a && 2 * a < WORD
    ensures Double32(a) == 2 * a
  {}

  /** The least power of two that is no less than the alignment, from sixteen on. */
  ghost function LeastPower(alignment: int): (a: int)
    ensures a >= 16 && a >= alignment
    decreases alignment
  {
    if alignment <= 16 then 16 else 2 * LeastPower((alignment + 1) / 2)
  }

  lemma {:induction false} OnlyPower(alignment: int, a: int)
    requires PowerOfTwo(a) && 16 <= a && alignment <= a && (a == 16 || a < 2 * alignment)
    ensures a == LeastPower(alignment)
    decreases a
  {
    if a > 16 {
      PowSixteen(a);
      OnlyPower((alignment + 1) / 2, a / 2);
    }
  }

  /** At least sixteen, and a power of two. */
  method RoundAlignment(alignment: int) returns (a: int)
    requires 0 <= alignment <= MAX_ALIGNMENT
    ensures PowerOfTwo(a) && 16 <= a <= MAX_ALIGNMENT && alignment <= a && (a == 16 || a < 2 * alignment)
  {
    PowPower(4);
    PowPower(31);
    Pow2At();
    Pow2Four();
    hide PowerOfTwo, Pow2, Double32;
    a := if alignment < MIN_CHUNK_SIZE then MIN_CHUNK_SIZE else alignment;
    if !PowerOfTwo(a) {
      a := 16;
      while a < alignment
        invariant PowerOfTwo(a) && 16 <= a <= MAX_ALIGNMENT && (a == 16 || a < 2 * alignment)
        decreases alignment - a
      {
        PowDouble(a);
        PowGap(a, MAX_ALIGNMENT);
        SmallDouble(a);
        a := Double32(a);
      }
    }
  }

  /** What the loop has come to after `n` rounds: sixteen, doubled in 32 bits. */
  ghost function Doubled(n: nat): int { if n == 0 then 16 else Double32(Doubled(n - 1)) }

  lemma {:induction false} DoubledIs(n: nat)
    ensures Doubled(n) == if n <= 27 then Pow2(n + 4) else 0
  {
    hide Pow2;
    if n == 0 {
      Pow2Four();
    } else {
      DoubledIs(n - 1);
      if n <= 28 { DoubleFits(n); }
    }
  }

  lemma Pow2Four()
    ensures Pow2(4) == 16
  {}

  lemma DoubleFits(n: nat)
    requires 0 < n <= 28
    ensures 2 * Pow2(n + 3) % WORD == if n <= 27 then Pow2(n + 4) else 0
  {
    Pow2At();
    if n <= 27 { Pow2Mono(n + 4, 31); }
    assert Pow2(n + 4) == 2 * Pow2(n + 3);
    hide Pow2;
  }

  /** The loop comes to a value that is large enough exactly for alignments up to 2^31; above, it goes on for ever. */
  lemma DoublingEnds(alignment: int)
    ensures (exists n: nat :: Doubled(n) >= alignment) <==> alignment <= MAX_ALIGNMENT
  {
    hide Doubled, Pow2;
    Pow2At();
    forall n: nat ensures Doubled(n) <= MAX_ALIGNMENT {
      DoubledIs(n);
      if n <= 27 { Pow2Mono(n + 4, 31); }
    }
    DoubledIs(27);
  }

  /** One more than 2^31, for one, is never reached. */
  lemma NeverAligned()
    ensures forall n: nat :: Doubled(n) < 0x8000_0001
  {
    forall n: nat ensures Doubled(n) < 0x8000_0001 {
      DoubledIs(n);
      Pow2At();
      if n <= 27 { Pow2Mono(n + 4, 31); }
    }
  }

  predicate Aligned(x: int, a: int) { a > 0 && x % a == 0 }

  /** The next multiple of a power of two. */
  function AlignUp(x: int, a: int): int requires a > 0 { (x + a - 1) / a * a }

  /** The aligned spot for a block within a chunk, far enough from its start for another chunk. */
  function Spot(p: int, a: int): int requires a > 0 {
    var br := AlignUp(p + 8, a) - 8; if br - p >= MIN_CHUNK_SIZE then br else br + a
  }

  lemma AlignUpFacts(x: int, a: int)
    requires a > 0
    ensures x <= AlignUp(x, a) < x + a && AlignUp(x, a) % a == 0
  {
    var q := (x + a - 1) / a;
    DivParts(x + a - 1, a, q);
    ModUnique(AlignUp(x, a), a, q);
  }

  lemma ModUnique(x: int, n: int, q: int)
    requires n > 0 && x == n * q
    ensures x % n == 0
  {
    var d := x / n;
    DivParts(x, n, d);
    if d < q { MulOrder(n, d + 1, q); }
    if d > q { MulOrder(n, q + 1, d); }
  }

  lemma MultOf(x: int, a: int)
    requires a > 0 && x % a == 0 && a % 16 == 0
    ensures Mult8(x)
  {
    var k, j := x / a, a / 16;
    assert x == k * a && a == 16 * j;
    assert x == 8 * (k * (2 * j));
  }

  lemma PlusMod(x: int, a: int)
    requires a > 0 && x % a == 0
    ensures (x + a) % a == 0
  {
    var q := x / a;
    assert x == a * q;
    ModUnique(x + a, a, q + 1);
  }

  /** There is always such a spot, with room left for the request. */
  /** Of the aligned places that leave room for a chunk before them, it is the first. */
  lemma SpotNear(p: int, a: int)
    requires a >= MIN_CHUNK_SIZE
    ensures p + MIN_CHUNK_SIZE <= Spot(p, a) < p + MIN_CHUNK_SIZE + a
  {
    AlignUpFacts(p + 8, a);
    hide AlignUp;
  }

  lemma SpotFacts(p: int, a: int, nb: int, size: int)
    requires Mult8(p) && PowerOfTwo(a) && a >= 16 && nb >= MIN_CHUNK_SIZE && Mult8(nb) && Mult8(size)
    requires size >= nb + a + MIN_CHUNK_SIZE
    requires (p + 8) % a != 0
    ensures var q := Spot(p, a); (q + 8) % a == 0 && q >= p + MIN_CHUNK_SIZE && q + nb + 8 <= p + size && Mult8(q)
  {
    hide PowerOfTwo, AlignUp, Mult8;
    PowSixteen(a);
    var up := AlignUp(p + 8, a);
    AlignUpFacts(p + 8, a);
    MultOf(up, a);
    PlusMod(up, a);
    MultOf(up + a, a);
    SpotWithin(p, up, a, nb, size);
  }

  lemma SpotWithin(p: int, up: int, a: int, nb: int, size: int)
    requires Mult8(p) && Mult8(up) && Mult8(a) && a >= 16 && p + 8 < up < p + 8 + a && size >= nb + a + MIN_CHUNK_SIZE
    ensures var q := if up - 8 - p >= MIN_CHUNK_SIZE then up - 8 else up - 8 + a;
            q >= p + MIN_CHUNK_SIZE && q + nb + 8 <= p + size && Mult8(q)
  {}

  lemma LeadDone(m0: Mem, c0: Chunks, m1: Mem, c1: Chunks, m2: Mem, c2: Chunks, p: int, q: int)
    requires Keeps(m0, c0, m1, c1, {p, q}) && Freed(m1, c1, m2, c2, p) && q in c1 && c1[q].kind == Live && p != q
    ensures Keeps(m0, c0, m2, c2, {p, q}) && !(p in c2 && c2[p].kind == Live) && q in c2 && c2[q].kind == Live
    ensures c2[q].size == c1[q].size
  {
    assert Stays(m1, c1, m2, c2, q);
    KeepsTrans(m0, c0, m1, c1, m2, c2, {p, q}, {p});
    assert {p, q} + {p} == {p, q};
  }

  /** Handing out `p` and giving back its start hands out `q`. */
  lemma LeadHanded(m0: Mem, c0: Chunks, m1: Mem, c1: Chunks, m2: Mem, c2: Chunks, p: int, q: int)
    requires Handed(m0, c0, m1, c1, p) && Keeps(m1, c1, m2, c2, {p, q}) && !(p in c2 && c2[p].kind == Live) && q in c2
    requires c2[q].kind == Live && q !in c1
    ensures Handed(m0, c0, m2, c2, q)
  {
    KeepsTrans(m0, c0, m1, c1, m2, c2, {p}, {p, q});
    assert q in c0 && c0[q].kind == Live ==> Stays(m0, c0, m1, c1, q);
    forall x | x in c0 && c0[x].kind == Live && x !in {q}
      ensures Stays(m0, c0, m2, c2, x)
    {
      assert x !in {p} + {p, q};
    }
  }

  lemma TailHanded(m0: Mem, c0: Chunks, m1: Mem, c1: Chunks, m2: Mem, c2: Chunks, p: int)
    requires Handed(m0, c0, m1, c1, p) && Keeps(m1, c1, m2, c2, {p}) && p in c2 && c2[p].kind == Live
    ensures Handed(m0, c0, m2, c2, p)
  {
    KeepsTrans(m0, c0, m1, c1, m2, c2, {p}, {p});
    assert {p} + {p} == {p};
  }

  lemma AlignedReady(mem: Mem, smallmap: bv32, treemap: bv32, h: Homes, segs: seq<Segment>, c: Chunks, p: int, a: int,
                     nb: int)
    requires Core(mem, smallmap, treemap, h, c, segs) && p in c && c[p].size >= nb + a + MIN_CHUNK_SIZE
    requires c[p].kind == Live && PowerOfTwo(a) && a >= 16 && nb >= MIN_CHUNK_SIZE && Mult8(nb)
    ensures !Aligned(p + 8, a) ==>
      var q := Spot(p, a);
      && Aligned(q + 8, a) && LargeEnough(q - p, Live) && LargeEnough(p + c[p].size - q, Live)
      && p + c[p].size - q >= nb
  {
    hide Core, PowerOfTwo, Spot;
    ChunkMult(mem, smallmap, treemap, h, segs, c, p);
    if (p + 8) % a != 0 {
      SpotFacts(p, a, nb, c[p].size);
      SpotMult(p, Spot(p, a), c[p].size);
    }
  }

  lemma ChunkMult(mem: Mem, smallmap: bv32, treemap: bv32, h: Homes, segs: seq<Segment>, c: Chunks, p: int)
    requires Core(mem, smallmap, treemap, h, c, segs) && p in c && c[p].kind != Top
    ensures Mult8(p) && Mult8(c[p].size)
  {
    assert ChunkOk(p, c[p]);
  }

  lemma SpotMult(p: int, q: int, size: int)
    requires Mult8(p) && Mult8(q) && Mult8(size)
    ensures Mult8(q - p) && Mult8(p + size - q)
  {}
}

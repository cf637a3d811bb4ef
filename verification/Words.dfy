/** The machine: 32-bit words in a memory addressed by bytes, and the constants of the configuration. */
module Words {
  const WORD: int := 0x1_0000_0000
  const MIN_CHUNK_SIZE: int := 16
  const TOP_FOOT_SIZE: int := 40
  const MIN_LARGE_SIZE: int := 256

  /** The allocator's own static state lies below every address it gets from the system. */
  const HEAP_MIN: int := 8192
  const SMALLBINS: int := 4136
  const TREEBINS: int := 4400

  /** Word-granular memory; a word nothing was stored to reads as zero. */
  type Mem = map<int, int>

  function Rd(mem: Mem, a: int): int { if a in mem then mem[a] else 0 }

  function Wr(mem: Mem, a: int, v: int): (m: Mem)
    ensures forall b {:trigger Rd(m, b)} :: Rd(m, b) == if a == b then v else Rd(mem, b)
  {
    mem[a := v]
  }

  predicate Mult8(x: int) { x % 8 == 0 }
  predicate Mult4(x: int) { x % 4 == 0 }

  lemma MultSum(a: int, b: int)
    requires Mult8(a) && Mult8(b)
    ensures Mult8(a + b) && Mult8(a - b)
  {}

  lemma Mult4Sum(a: int, b: int)
    requires Mult4(a) && Mult4(b)
    ensures Mult4(a + b) && Mult4(a - b)
  {}

  lemma TimesEight(k: int)
    ensures Mult8(8 * k)
  {}

  lemma FourTimes(k: int)
    ensures Mult4(4 * k)
  {}

  lemma Mult8Is4(a: int)
    requires Mult8(a)
    ensures Mult4(a)
  {}

  function Down8(x: int): int { x - x % 8 }

  /** A header: the size, whose low bits are clear, with the bits for the chunk itself and the one before it. */
  function Head(size: int, pinuse: bool, cinuse: bool): int {
    size + (if cinuse then 2 else 0) + (if pinuse then 1 else 0)
  }

  function ChunkSize(head: int): int { head - head % 8 }
  predicate CInuse(head: int) { head / 2 % 2 == 1 }
  predicate PInuse(head: int) { head % 2 == 1 }

  lemma HeadFields(size: int, p: bool, c: bool)
    requires Mult8(size)
    ensures ChunkSize(Head(size, p, c)) == size
    ensures CInuse(Head(size, p, c)) == c
    ensures PInuse(Head(size, p, c)) == p
  {
    var k := size / 8;
    var h := Head(size, p, c);
    if p && c { Low(k, 3); } else if p { Low(k, 1); } else if c { Low(k, 2); } else { Low(k, 0); }
  }

  /** A size with bit 2 set, which only top may have: the bits that matter are still read right. */
  lemma TopFields(size: int)
    requires Mult4(size)
    ensures !CInuse(Head(size, true, false)) && PInuse(Head(size, true, false))
  {
    var k := size / 4;
    assert Head(size, true, false) == 4 * k + 1;
    LowOne(2 * k, 1);
    assert (4 * k + 1) / 2 == 2 * k;
    LowOne(k, 0);
  }

  lemma Low(k: int, f: int)
    requires 0 <= f < 4
    ensures (8 * k + f) % 8 == f
    ensures (8 * k + f) / 2 % 2 == f / 2
    ensures (8 * k + f) % 2 == f % 2
  {
    LowThree(k, f);
    LowOne(4 * k, f);
    LowTwo(k, f);
  }

  lemma LowThree(k: int, f: int)
    requires 0 <= f < 8
    ensures (8 * k + f) % 8 == f
  {}

  lemma LowOne(k: int, f: int)
    ensures (2 * k + f) % 2 == f % 2
  {}

  lemma LowTwo(k: int, f: int)
    requires 0 <= f < 4
    ensures (8 * k + f) / 2 % 2 == f / 2
  {
    assert (8 * k + f) / 2 == 2 * (2 * k) + f / 2;
    LowOne(2 * k, f / 2);
  }
}

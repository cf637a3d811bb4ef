/** Stores into the link words of free chunks, and what they leave alone. */
module FreeLinks {
  import opened Words

  /** Addresses and sizes of free chunks: they do not overlap and lie in the heap. */
  ghost predicate Spaced(f: map<int, int>) {
    && (forall p, q | p in f && q in f && p < q :: p + f[p] <= q)
    && (forall p | p in f :: HEAP_MIN <= p && f[p] >= MIN_CHUNK_SIZE)
  }

  /** ok_address: nothing of the allocator's is below the least address it got from the system. */
  predicate OkAddress(least: int, a: int) { a >= least }
  ghost predicate AllAbove(f: map<int, int>, least: int) { forall p | p in f :: OkAddress(least, p) }

  /** Word `w` is in the interior of a chunk of `f`, past its header and before the foot. */
  ghost predicate Inside(f: map<int, int>, w: int) { exists p :: p in f && p + 8 <= w < p + f[p] }

  /** In the heap, the two memories differ at most in the interiors of the chunks of `f`. */
  ghost predicate Confined(mem: Mem, mem': Mem, f: map<int, int>) {
    forall w {:trigger Rd(mem', w)} | w >= HEAP_MIN && !Inside(f, w) :: Rd(mem', w) == Rd(mem, w)
  }

  lemma ConfinedWrite(mem: Mem, f: map<int, int>, q: int, off: int, v: int)
    requires q in f && 8 <= off < f[q]
    ensures Confined(mem, Wr(mem, q + off, v), f)
  {
    assert Inside(f, q + off);
  }

  lemma ConfinedTrans(m: Mem, m': Mem, m'': Mem, f: map<int, int>)
    requires Confined(m, m', f) && Confined(m', m'', f)
    ensures Confined(m, m'', f)
  {
    forall w | w >= HEAP_MIN && !Inside(f, w) ensures Rd(m'', w) == Rd(m, w) {
      assert Rd(m', w) == Rd(m, w);
    }
  }
}

/** The chunks that tile the segments, what their header words say, and rewriting a stretch of them. */
module Chunks {
  import opened Words

  /**
   * Live chunks belong to callers, records hold segment descriptions. The rest are free: in a bin, the designated
   * victim, top, or on the way from one of these to another.
   */
  datatype Kind = Live | Record | Binned | Dv | Top | Limbo
  datatype Chunk = Chunk(size: int, kind: Kind, prev: int) {
    predicate Used() { kind == Live || kind == Record }
    predicate Last() { kind == Top || kind == Record }
  }
  type Chunks = map<int, Chunk>

  ghost predicate ChunkOk(p: int, k: Chunk) {
    && HEAP_MIN <= p && Mult8(p) && p + k.size < WORD
    && if k.kind == Top then Mult4(k.size) && k.size >= 4 else Mult8(k.size) && k.size >= MIN_CHUNK_SIZE
  }

  ghost predicate NextOk(c: Chunks, p: int) requires p in c {
    if c[p].Last() then p + c[p].size !in c else p + c[p].size in c && c[p + c[p].size].prev == p
  }

  ghost predicate PrevOk(c: Chunks, p: int) requires p in c {
    c[p].prev == 0 ||
    (c[p].prev in c && c[p].prev + c[c[p].prev].size == p && !c[c[p].prev].Last())
  }

  ghost predicate Sized(c: Chunks) { forall p | p in c :: ChunkOk(p, c[p]) }
  ghost predicate NextLinked(c: Chunks) { forall p {:trigger NextOk(c, p)} | p in c :: NextOk(c, p) }
  ghost predicate PrevLinked(c: Chunks) { forall p {:trigger PrevOk(c, p)} | p in c :: PrevOk(c, p) }
  ghost predicate Apart(c: Chunks) { forall p, q | p in c && q in c && p < q :: p + c[p].size <= q }

  ghost predicate Tiled(c: Chunks) {
    Sized(c) && NextLinked(c) && PrevLinked(c) && Apart(c)
  }

  ghost predicate PrevUsed(c: Chunks, p: int) requires p in c {
    c[p].prev !in c || c[c[p].prev].Used()
  }

  ghost predicate Coalesced(c: Chunks) {
    forall p {:trigger PrevUsed(c, p)} | p in c :: c[p].Used() || PrevUsed(c, p)
  }

  /** The header word carries the size and both in-use bits; a free chunk, except top, repeats its size at its end. */
  ghost predicate HeadOk(mem: Mem, c: Chunks, p: int) requires p in c {
    Rd(mem, p + 4) == Head(c[p].size, PrevUsed(c, p), c[p].Used())
  }

  ghost predicate FootOk(mem: Mem, p: int, k: Chunk) {
    k.Used() || k.kind == Top || Rd(mem, p + k.size) == k.size
  }

  ghost predicate Heads(mem: Mem, c: Chunks) { forall p {:trigger HeadOk(mem, c, p)} | p in c :: HeadOk(mem, c, p) }

  ghost predicate Feet(mem: Mem, c: Chunks) {
    forall p {:trigger FootOk(mem, p, c[p])} | p in c :: FootOk(mem, p, c[p])
  }

  /**
   * What every step of the allocator keeps: the chunks tile their segments, no two adjacent ones are free, and the
   * words say so.
   */
  ghost predicate Shape(mem: Mem, c: Chunks) {
    Tiled(c) && Coalesced(c) && Heads(mem, c) && Feet(mem, c)
  }

  /** The chunks of `c` that start in [a, b) give way to those of `n`, which run from `a` to `b`. */
  ghost function Retile(c: Chunks, a: int, b: int, n: Chunks, last: int): Chunks {
    (map q | q in c && !(a <= q < b) :: if q == b then c[q].(prev := last) else c[q]) + n
  }

  ghost predicate InnerNext(n: Chunks, p: int) requires p in n {
    !n[p].Last() && p + n[p].size in n && n[p + n[p].size].prev == p
  }

  ghost predicate InnerPrev(n: Chunks, p: int) requires p in n {
    n[p].prev in n && n[p].prev + n[n[p].prev].size == p && !n[n[p].prev].Last()
  }

  ghost predicate Stitched(n: Chunks, a: int, last: int) {
    && (forall p {:trigger InnerNext(n, p)} | p in n && p != last :: InnerNext(n, p))
    && (forall p {:trigger InnerPrev(n, p)} | p in n && p != a :: InnerPrev(n, p))
  }

  /** `n` covers [a, b) the way a stretch of a heap does. */
  ghost predicate Stretch(a: int, b: int, n: Chunks, last: int) {
    && a in n && last in n && last + n[last].size == b
    && (forall p | p in n :: a <= p < b && ChunkOk(p, n[p]))
    && Stitched(n, a, last) && Apart(n)
  }

  /** `n` fits between what `c` has before `a` and from `b` on. */
  ghost predicate Slot(c: Chunks, a: int, b: int, n: Chunks, last: int) requires a in n && last in n {
    && (forall p | p in c && p < a :: p + c[p].size <= a && (p + c[p].size == a ==> !c[p].Last() && n[a].prev == p))
    && (n[a].prev == 0 || (n[a].prev in c && n[a].prev < a && n[a].prev + c[n[a].prev].size == a))
    && (forall p | p in c && a <= p < b :: p + c[p].size <= b || c[p].Last())
    && (b in c <==> !n[last].Last()) && (b in c ==> c[b].prev == 0 || a <= c[b].prev < b)
  }

  lemma RetileNext(c: Chunks, a: int, b: int, n: Chunks, last: int)
    requires Tiled(c) && Stretch(a, b, n, last) && Slot(c, a, b, n, last)
    ensures NextLinked(Retile(c, a, b, n, last))
  {
    hide Mult8;
    hide Apart, PrevLinked;
    var d := Retile(c, a, b, n, last);
    forall p | p in d ensures NextOk(d, p) {
      if p in n {
        if p != last { assert InnerNext(n, p); }
      } else {
        assert NextOk(c, p) && ChunkOk(p, c[p]);
      }
    }
  }

  lemma RetilePrev(c: Chunks, a: int, b: int, n: Chunks, last: int)
    requires Tiled(c) && Stretch(a, b, n, last) && Slot(c, a, b, n, last)
    ensures PrevLinked(Retile(c, a, b, n, last))
  {
    hide Mult8;
    hide Apart, NextLinked;
    var d := Retile(c, a, b, n, last);
    forall p | p in d ensures PrevOk(d, p) {
      if p in n {
        if p != a { assert InnerPrev(n, p); }
      } else if p != b && c[p].prev != 0 {
        assert PrevOk(c, p) && ChunkOk(p, c[p]);
        assert !(a <= c[p].prev < b);
      }
    }
  }

  lemma RetileApart(c: Chunks, a: int, b: int, n: Chunks, last: int)
    requires Tiled(c) && Stretch(a, b, n, last) && Slot(c, a, b, n, last)
    ensures Apart(Retile(c, a, b, n, last))
  {
    hide Mult8, NextLinked, PrevLinked;
    var d := Retile(c, a, b, n, last);
    forall p, q | p in d && q in d && p < q ensures p + d[p].size <= q {
      if p in n && q !in n { assert p == last || p + n[p].size <= last; }
    }
  }

  lemma RetileTiled(c: Chunks, a: int, b: int, n: Chunks, last: int)
    requires Tiled(c) && Stretch(a, b, n, last) && Slot(c, a, b, n, last)
    ensures Tiled(Retile(c, a, b, n, last))
  {
    RetileNext(c, a, b, n, last);
    RetilePrev(c, a, b, n, last);
    RetileApart(c, a, b, n, last);
    hide NextLinked, PrevLinked, Apart, Mult8;
  }

  /** Outside the headers and interiors of [a, b) and the header of `b`, the two memories agree. */
  ghost predicate EditedIn(mem: Mem, m: Mem, a: int, b: int) {
    forall w {:trigger Rd(m, w)} | w < a + 4 || w > b + 4 :: Rd(m, w) == Rd(mem, w)
  }

  /** Whether the chunk before `p` is in use, for `p` in the new stretch. */
  ghost predicate BeforeUsed(c: Chunks, a: int, n: Chunks, p: int) requires p in n {
    if p == a then n[a].prev !in c || c[n[a].prev].Used() else n[p].prev in n && n[n[p].prev].Used()
  }

  ghost predicate NewHead(m: Mem, c: Chunks, a: int, n: Chunks, p: int) requires p in n {
    Rd(m, p + 4) == Head(n[p].size, BeforeUsed(c, a, n, p), n[p].Used())
  }

  /** The words of the new stretch, and of the chunk after it, are in order and free chunks are not adjacent. */
  ghost predicate Written(m: Mem, c: Chunks, a: int, b: int, n: Chunks, last: int) requires last in n {
    && (forall p {:trigger NewHead(m, c, a, n, p)} | p in n :: NewHead(m, c, a, n, p))
    && (forall p {:trigger FootOk(m, p, n[p])} | p in n :: FootOk(m, p, n[p]))
    && (forall p {:trigger BeforeUsed(c, a, n, p)} | p in n :: n[p].Used() || BeforeUsed(c, a, n, p))
    && (b in c ==> Rd(m, b + 4) == Head(c[b].size, n[last].Used(), c[b].Used()) && (c[b].Used() || n[last].Used()))
  }

  lemma RetilePrevUsed(c: Chunks, a: int, b: int, n: Chunks, last: int, p: int)
    requires Tiled(c) && Stretch(a, b, n, last) && Slot(c, a, b, n, last)
    requires p in Retile(c, a, b, n, last)
    ensures PrevUsed(Retile(c, a, b, n, last), p) ==
            if p in n then BeforeUsed(c, a, n, p) else if p == b then n[last].Used() else PrevUsed(c, p)
  {
    hide Mult8;
    hide Apart, NextLinked;
    if p in n {
      if p != a { assert InnerPrev(n, p); }
    } else {
      assert PrevOk(c, p);
    }
  }

  lemma RetileShape(mem: Mem, m: Mem, c: Chunks, a: int, b: int, n: Chunks, last: int)
    requires Shape(mem, c) && Stretch(a, b, n, last) && Slot(c, a, b, n, last)
    requires EditedIn(mem, m, a, b) && Written(m, c, a, b, n, last)
    ensures Shape(m, Retile(c, a, b, n, last))
  {
    var d := Retile(c, a, b, n, last);
    RetileTiled(c, a, b, n, last);
    hide NextLinked, PrevLinked, Apart, Mult8, PrevUsed, Head;
    forall p | p in d ensures HeadOk(m, d, p) && FootOk(m, p, d[p]) && (d[p].Used() || PrevUsed(d, p)) {
      RetilePrevUsed(c, a, b, n, last, p);
      if p in n {
        assert NewHead(m, c, a, n, p) && FootOk(m, p, n[p]);
      } else {
        assert HeadOk(mem, c, p) && FootOk(mem, p, c[p]) && (c[p].Used() || PrevUsed(c, p));
        assert ChunkOk(p, c[p]);
      }
    }
  }
}

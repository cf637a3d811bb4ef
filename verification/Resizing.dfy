/** Splitting chunks in use and growing them into what follows. */
module Resizing {
  import opened Words
  import opened FreeLinks
  import opened Bins
  import opened Chunks
  import opened Headers
  import opened Heaps
  import opened Steps
  import Growth
  import System

  /** [p, b) holds the chunk in use at `p` and perhaps a free one after it, ending in `z`. */
  ghost predicate WithNext(c: Chunks, segs: seq<Segment>, p: int, b: int, z: int) {
    Region(segs, c, p, b, z) && c[p].kind == Live && forall q | q in c && p <= q < b && q != p :: !c[q].Used()
  }

  lemma AnyPinuse(x: int)
    ensures PInuse(OrPinuse(x))
  {}

  /** The words of two chunks in use, [p, r) and [r, b). */
  ghost predicate SplitWords(mem: Mem, m: Mem, c: Chunks, p: int, r: int, b: int) requires p in c {
    && EditedIn(mem, m, p, b) && Rd(m, p + 4) == Head(r - p, PrevUsed(c, p), true)
    && Rd(m, r + 4) == Head(b - r, true, true)
    && AfterOk(m, c, b, true) && SamePayload(mem, m, p, r - p)
  }

  /** set_inuse on both, in either order */
  lemma SplitWritten(mem: Mem, c: Chunks, p: int, r: int, b: int)
    requires Shape(mem, c) && p in c && p + 8 <= r && r + 8 <= b && b in c && Mult8(b - r)
    ensures SplitWords(mem, SetInuse(SetInuse(mem, p, r - p), r, b - r), c, p, r, b)
    ensures SplitWords(mem, SetInuse(SetInuse(mem, r, b - r), p, r - p), c, p, r, b)
  {
    Reading(mem, c, p);
    assert HeadOk(mem, c, b) && ChunkOk(b, c[b]);
    PinuseBits(c[b].size, PrevUsed(c, b), c[b].Used());
    PinuseBits(b - r, PInuse(Rd(mem, r + 4)), true);
    AnyPinuse(Rd(mem, r + 4));
    hide Shape, Head, OrPinuse, Mult8, PInuse, Rd, PrevUsed;
  }

  lemma UsedSplit(mem: Mem, m: Mem, smallmap: bv32, treemap: bv32, h: Homes, segs: seq<Segment>, c: Chunks, p: int,
                  r: int, b: int, z: int)
    requires Core(mem, smallmap, treemap, h, c, segs) && WithNext(c, segs, p, b, z) && !c[z].Last()
    requires SplitWords(mem, m, c, p, r, b)
    requires LargeEnough(r - p, Live) && LargeEnough(b - r, Live)
    ensures var d := Two(c, p, r, b, Live, Live); Core(m, smallmap, treemap, h, d, segs) && Keeps(mem, c, m, d, {p, r})
    ensures var d := Two(c, p, r, b, Live, Live);
            p in d && d[p] == Chunk(r - p, Live, c[p].prev) && r in d && d[r] == Chunk(b - r, Live, p)
  {
    hide Core, EditedIn, Rd, Head, Keeps, PrevUsed, AfterOk, SamePayload, Held, Mult8;
    NoRecord(mem, smallmap, treemap, h, segs, c, p, b, z, r);
    RewriteTwo(mem, m, smallmap, treemap, h, segs, c, p, r, b, z, Live, Live, {p, r});
  }

  lemma NoRecord(mem: Mem, smallmap: bv32, treemap: bv32, h: Homes, segs: seq<Segment>, c: Chunks, p: int, b: int,
                 z: int, r: int)
    requires Core(mem, smallmap, treemap, h, c, segs) && Region(segs, c, p, b, z)
    ensures p <= r < b && r in c ==> c[r].kind != Record
  {
    hide Core;
  }

  /** The words of one chunk in use, [p, b). */
  ghost predicate JoinWords(mem: Mem, m: Mem, c: Chunks, p: int, b: int, n: int) requires p in c {
    EditedIn(mem, m, p, b) && Rd(m, p + 4) == Head(b - p, PrevUsed(c, p), true) && AfterOk(m, c, b, true)
        && SamePayload(mem, m, p, n)
  }

  lemma JoinWritten(mem: Mem, c: Chunks, p: int, b: int)
    requires Shape(mem, c) && p in c && p + 8 <= b && b in c
    ensures JoinWords(mem, SetInuse(mem, p, b - p), c, p, b, b - p)
  {
    Reading(mem, c, p);
    assert HeadOk(mem, c, b) && ChunkOk(b, c[b]);
    PinuseBits(c[b].size, PrevUsed(c, b), c[b].Used());
    hide Shape, Head, OrPinuse, Mult8, PInuse, Rd, PrevUsed;
  }

  lemma UsedJoined(mem: Mem, m: Mem, smallmap: bv32, treemap: bv32, h: Homes, segs: seq<Segment>, c: Chunks, p: int,
                   b: int, z: int, n: int, X: set<int>)
    requires Core(mem, smallmap, treemap, h, c, segs) && Region(segs, c, p, b, z) && c[p].kind == Live && !c[z].Last()
    requires JoinWords(mem, m, c, p, b, n)
    requires p in X && (forall q | q in c && p <= q < b && c[q].Used() :: q in X)
    requires forall q | q in X && q in c :: c[q].kind != Record
    ensures var d := One(c, p, b, Live); Core(m, smallmap, treemap, h, d, segs) && Keeps(mem, c, m, d, X)
    ensures var d := One(c, p, b, Live); p in d && d[p] == Chunk(b - p, Live, c[p].prev)
  {
    SpanLarge(mem, smallmap, treemap, h, segs, c, p, b, z);
    hide Core, EditedIn, Rd, Head, Keeps, PrevUsed, AfterOk, SamePayload, Held, Mult8;
    RewriteOne(mem, m, smallmap, treemap, h, segs, c, p, b, z, Live, X);
  }

  lemma SpanLarge(mem: Mem, smallmap: bv32, treemap: bv32, h: Homes, segs: seq<Segment>, c: Chunks, p: int, b: int,
                  z: int)
    requires Core(mem, smallmap, treemap, h, c, segs) && Region(segs, c, p, b, z) && c[p].kind == Live
    requires !c[z].Last()
    ensures LargeEnough(b - p, Live)
  {
    assert ChunkOk(p, c[p]) && ChunkOk(z, c[z]);
    SpanMult(p, z, c[z].size);
    hide Core, Held;
  }

  /** The words of a chunk in use at `p` and a free one at `r`, the second having been free or top before. */
  ghost predicate GrowWords(mem: Mem, m: Mem, c: Chunks, p: int, r: int, b: int, l: Kind, n: int) requires p in c {
    && EditedIn(mem, m, p, b) && Rd(m, p + 4) == Head(r - p, PrevUsed(c, p), true)
    && Rd(m, r + 4) == Head(b - r, true, false)
    && (l != Top ==> Rd(m, b) == b - r) && AfterOk(m, c, b, false) && SamePayload(mem, m, p, n)
  }

  lemma GrowWritten(mem: Mem, c: Chunks, p: int, r: int, b: int, z: int, n: int)
    requires Shape(mem, c) && p in c && p + 8 <= r && r + 4 <= b && z in c && z + c[z].size == b && !c[z].Used()
    requires n <= r - p
    ensures GrowWords(mem, Wr(SetInuse(mem, p, r - p), r + 4, Head(b - r, true, false)), c, p, r, b, Top, n)
    ensures b in c && r + 8 <= b ==>
      GrowWords(mem, ClearPinuse(SetFreeHead(SetInuse(mem, p, r - p), r, b - r), b), c, p, r, b, Dv, n)
  {
    Reading(mem, c, p);
    AfterFree(mem, c, z);
    if b in c {
      assert ChunkOk(b, c[b]);
      PinuseBits(c[b].size, false, c[b].Used());
    }
    hide Shape, Head, OrPinuse, WithoutPinuse, Mult8, PInuse, Rd, PrevUsed;
  }

  lemma UsedGrown(mem: Mem, m: Mem, smallmap: bv32, treemap: bv32, h: Homes, segs: seq<Segment>, c: Chunks, p: int,
                  r: int, b: int, z: int, l: Kind, n: int)
    requires Core(mem, smallmap, treemap, h, c, segs) && WithNext(c, segs, p, b, z)
    requires GrowWords(mem, m, c, p, r, b, l, n)
    requires (l == Top || l == Dv) && c[z].Last() == (l == Top) && LargeEnough(r - p, Live) && LargeEnough(b - r, l)
    ensures var d := Two(c, p, r, b, Live, l); Core(m, smallmap, treemap, h, d, segs) && Keeps(mem, c, m, d, {p})
    ensures var d := Two(c, p, r, b, Live, l);
            p in d && d[p] == Chunk(r - p, Live, c[p].prev) && r in d && d[r] == Chunk(b - r, l, p)
  {
    hide Core, EditedIn, Rd, Head, Keeps, PrevUsed, AfterOk, SamePayload, Held, Mult8;
    RewriteTwo(mem, m, smallmap, treemap, h, segs, c, p, r, b, z, Live, l, {p});
  }

  /**
   * `p` has a new size of at least `nb` bytes but less than a minimal chunk more, and the same contents as far as both
   * sizes go.
   */
  ghost predicate Reshaped(mem: Mem, c: Chunks, m: Mem, d: Chunks, p: int, nb: int, oldsize: int) {
    && Keeps(mem, c, m, d, {p}) && p in d && d[p].kind == Live && nb <= d[p].size < nb + MIN_CHUNK_SIZE
    && SamePayload(mem, m, p, if oldsize < d[p].size then oldsize else d[p].size)
  }

  lemma GrowPayload(mem: Mem, m: Mem, c: Chunks, p: int, r: int, b: int, l: Kind, n: int)
    requires p in c && GrowWords(mem, m, c, p, r, b, l, n)
    ensures SamePayload(mem, m, p, n)
  {}

  lemma GrowReady(mem: Mem, smallmap: bv32, treemap: bv32, h: Homes, segs: seq<Segment>, c: Chunks, p: int, r: int,
                  b: int, z: int, n: int)
    requires Core(mem, smallmap, treemap, h, c, segs) && p in c && p + 8 <= r && r + 4 <= b && z in c
    requires z + c[z].size == b && !c[z].Used() && n <= r - p
    ensures GrowWords(mem, Wr(SetInuse(mem, p, r - p), r + 4, Head(b - r, true, false)), c, p, r, b, Top, n)
    ensures b in c && r + 8 <= b ==>
      GrowWords(mem, ClearPinuse(SetFreeHead(SetInuse(mem, p, r - p), r, b - r), b), c, p, r, b, Dv, n)
  {
    hide Shape, SegsOk, SegWords, BinsOk, GrowWords;
    GrowWritten(mem, c, p, r, b, z, n);
  }

  /** A live chunk that is too small cannot be made larger where it is: what follows is in use or too small as well. */
  ghost predicate Stuck(c: Chunks, p: int, nb: int) {
    && p in c && c[p].size < nb && p + c[p].size in c
    && var k := c[p + c[p].size]; k.Used() || c[p].size + k.size < nb || (k.kind == Top && c[p].size + k.size == nb)
  }

  /** The chunk at `p` with the free one after it. */
  lemma GrownReady(mem: Mem, smallmap: bv32, treemap: bv32, h: Homes, segs: seq<Segment>, c: Chunks, p: int, z: int,
                   dv: int, dvsize: int, top: int, topsize: int)
    requires Core(mem, smallmap, treemap, h, c, segs) && p in c && c[p].kind == Live && z == p + c[p].size && z in c
    requires c[z].kind == Top || c[z].kind == Dv || c[z].kind == Limbo
    ensures var b := z + c[z].size;
            && WithNext(c, segs, p, b, z) && (b in c <==> !c[z].Last()) && 0 !in c && 0 < p < z < b
            && c[p].size >= MIN_CHUNK_SIZE
    ensures Mult8(c[p].size) && if c[z].kind == Top then Mult4(c[z].size) else Mult8(c[z].size)
    ensures forall q | q in c && p <= q < z + c[z].size :: q == p || q == z
  {
    Region1(segs, c, p);
    RegionNext(segs, c, p, z, p);
    assert NextOk(c, z) && ChunkOk(p, c[p]) && ChunkOk(z, c[z]);
    assert 0 in c ==> ChunkOk(0, c[0]);
    hide NextLinked, PrevLinked, SegsOk, SegWords, BinsOk, Heads, Feet, Coalesced, Held, Mult8, Mult4;
  }

  lemma LiveWords(mem: Mem, smallmap: bv32, treemap: bv32, h: Homes, c: Chunks, segs: seq<Segment>, p: int)
    requires Core(mem, smallmap, treemap, h, c, segs) && p in c && c[p].kind == Live
    ensures var next := p + c[p].size;
            && ChunkSize(Rd(mem, p + 4)) == c[p].size && Growth.IsInuse(Rd(mem, p + 4)) && next in c && p < next
            && PInuse(Rd(mem, next + 4)) && CInuse(Rd(mem, next + 4)) == c[next].Used()
            && (c[next].kind != Top ==> ChunkSize(Rd(mem, next + 4)) == c[next].size)
  {
    Reading(mem, c, p);
    Reading(mem, c, p + c[p].size);
    assert ChunkOk(p, c[p]);
    hide Core, ChunkSize, CInuse, PInuse, Mult8;
  }

  lemma JoinReady(mem: Mem, smallmap: bv32, treemap: bv32, h: Homes, segs: seq<Segment>, c: Chunks, p: int, b: int,
                  z: int, n: int)
    requires Core(mem, smallmap, treemap, h, c, segs) && p in c && p + 8 <= b && b in c && n <= b - p
    ensures JoinWords(mem, SetInuse(mem, p, b - p), c, p, b, n)
  {
    hide Shape, SegsOk, SegWords, BinsOk;
    JoinWritten(mem, c, p, b);
    hide Rd, Head, EditedIn, AfterOk;
  }

  lemma JoinNext(mem: Mem, m: Mem, smallmap: bv32, treemap: bv32, h: Homes, segs: seq<Segment>, c: Chunks, p: int,
                 b: int, z: int, n: int)
    requires Core(mem, smallmap, treemap, h, c, segs) && WithNext(c, segs, p, b, z) && !c[z].Last()
    requires JoinWords(mem, m, c, p, b, n)
    ensures var d := One(c, p, b, Live);
            Core(m, smallmap, treemap, h, d, segs) && Keeps(mem, c, m, d, {p}) && SamePayload(mem, m, p, n)
    ensures var d := One(c, p, b, Live); p in d && d[p] == Chunk(b - p, Live, c[p].prev)
  {
    hide Core, EditedIn, Rd, Head, Keeps, PrevUsed, AfterOk, SamePayload, Held;
    UsedJoined(mem, m, smallmap, treemap, h, segs, c, p, b, z, n, {p});
  }

  lemma KeptLive(m0: Mem, c0: Chunks, m1: Mem, c1: Chunks, p: int)
    requires Keeps(m0, c0, m1, c1, {}) && p in c0 && c0[p].kind == Live
    ensures p in c1 && c1[p].kind == Live && c1[p].size == c0[p].size && SamePayload(m0, m1, p, c0[p].size)
  {
    assert Stays(m0, c0, m1, c1, p);
  }

  lemma ReshapedFrom(m0: Mem, c0: Chunks, m1: Mem, c1: Chunks, m2: Mem, c2: Chunks, p: int, nb: int, oldsize: int)
    requires Keeps(m0, c0, m1, c1, {}) && p in c0 && c0[p].kind == Live && c0[p].size == oldsize
    requires Keeps(m1, c1, m2, c2, {p})
    requires p in c2 && c2[p].kind == Live && nb <= c2[p].size < nb + MIN_CHUNK_SIZE
    requires SamePayload(m1, m2, p, if oldsize < c2[p].size then oldsize else c2[p].size)
    ensures Reshaped(m0, c0, m2, c2, p, nb, oldsize)
  {
    KeptLive(m0, c0, m1, c1, p);
    KeepsTrans(m0, c0, m1, c1, m2, c2, {}, {p});
    assert {} + {p} == {p};
  }

  lemma SplitReady(mem: Mem, smallmap: bv32, treemap: bv32, h: Homes, segs: seq<Segment>, c: Chunks, p: int, r: int,
                   b: int, z: int,
                   dv: int, dvsize: int, top: int, topsize: int, limbo: set<int>)
    requires Core(mem, smallmap, treemap, h, c, segs) && Owned(c, dv, dvsize, top, topsize, limbo)
    requires WithNext(c, segs, p, b, z) && b in c
    requires LargeEnough(r - p, Live) && LargeEnough(b - r, Live) && limbo <= {z} && (z == p || c[z].kind == Limbo)
    requires forall q | q in c && p <= q < b :: q == p || q == z
    ensures SplitWords(mem, SetInuse(SetInuse(mem, p, r - p), r, b - r), c, p, r, b)
    ensures SplitWords(mem, SetInuse(SetInuse(mem, r, b - r), p, r - p), c, p, r, b)
    ensures Owned(Two(c, p, r, b, Live, Live), dv, dvsize, top, topsize, {})
    ensures p in c && p < r < b && !(r in c && c[r].kind == Live)
  {
    hide SegsOk, SegWords, BinsOk, Tiled, Heads, Feet, Coalesced, SplitWords, Owned, Held;
    NoZero(mem, smallmap, treemap, h, segs, c, p, dv, dvsize, top, topsize, limbo);
    NoZero(mem, smallmap, treemap, h, segs, c, z, dv, dvsize, top, topsize, limbo);
    SplitWritten(mem, c, p, r, b);
    SplitOwned(c, p, r, b, z, dv, dvsize, top, topsize, limbo);
  }

  lemma SplitOwned(c: Chunks, p: int, r: int, b: int, z: int, dv: int, dvsize: int, top: int, topsize: int,
                   limbo: set<int>)
    requires Owned(c, dv, dvsize, top, topsize, limbo) && 0 !in c && p in c && z in c && 0 < p < r < b
    requires c[p].kind == Live
    requires limbo <= {z} && (z == p || c[z].kind == Limbo) && p <= z < b
    requires forall q | q in c && p <= q < b :: q == p || q == z
    ensures Owned(Two(c, p, r, b, Live, Live), dv, dvsize, top, topsize, {})
  {
  }

  lemma SplitDone(m0: Mem, c0: Chunks, m1: Mem, c1: Chunks, m2: Mem, c2: Chunks, p: int, r: int, n: int)
    requires Keeps(m0, c0, m1, c1, {p, r}) && Freed(m1, c1, m2, c2, r) && p in c1 && c1[p].kind == Live
    requires c1[p].size == n && p != r && !(r in c0 && c0[r].kind == Live)
    requires SamePayload(m0, m1, p, n)
    ensures Keeps(m0, c0, m2, c2, {p}) && p in c2 && c2[p].kind == Live && c2[p].size == n && SamePayload(m0, m2, p, n)
  {
    assert Stays(m1, c1, m2, c2, p);
    KeepsTrans(m0, c0, m1, c1, m2, c2, {p, r}, {r});
    forall q | q in c0 && c0[q].kind == Live && q !in {p}
      ensures Stays(m0, c0, m2, c2, q)
    {
      assert q !in {p, r} + {r};
    }
  }

  lemma SplitPayload(mem: Mem, m: Mem, c: Chunks, p: int, r: int, b: int)
    requires p in c && SplitWords(mem, m, c, p, r, b)
    ensures SamePayload(mem, m, p, r - p)
  {}

  lemma PayloadPart(mem: Mem, m: Mem, p: int, n: int, k: int)
    requires SamePayload(mem, m, p, n) && k <= n
    ensures SamePayload(mem, m, p, k)
  {}

  // ---- contents

  function Min(a: int, b: int): int { if a < b then a else b }

  function Word(mem: Mem, a: int, k: int): int { Rd(mem, a + k) }

  /** What a word is counted in that `n` of its bytes, the first ones in memory, make up. */
  function Scale(n: int): int { if n == 1 then 256 else if n == 2 then 0x1_0000 else 0x100_0000 }
  /** The first `n` bytes of two words agree, or all of them. */
  ghost predicate SameBytes(x: int, y: int, n: int) { if n >= 4 then x == y else x % Scale(n) == y % Scale(n) }
  /** A word with its first `n` bytes replaced by those of another. */
  function Merged(was: int, now: int, n: int): int { if n >= 4 then now else was - was % Scale(n) + now % Scale(n) }

  /** The first `n` bytes of `x` are those of `now`, the others those of `was`. */
  ghost predicate Mixed(was: int, now: int, n: int, x: int) {
    SameBytes(x, now, n) && (n < 4 ==> x / Scale(n) == was / Scale(n))
  }

  lemma MergedBytes(was: int, now: int, n: int)
    requires n > 0
    ensures Mixed(was, now, n, Merged(was, now, n))
  {
    if n < 4 { Digits(was / Scale(n), now % Scale(n), Scale(n)); }
  }

  lemma Digits(q: int, r: int, s: int)
    requires 0 <= r < s && (s == 256 || s == 0x1_0000 || s == 0x100_0000)
    ensures (s * q + r) % s == r && (s * q + r) / s == q
  {}

  /** The first `n` bytes at `b` are what those at `a` were. */
  ghost predicate SameContents(mem: Mem, a: int, m: Mem, b: int, n: int) {
    forall k {:trigger Word(m, b, k)} | 0 <= k < n && k % 4 == 0 :: SameBytes(Word(m, b, k), Word(mem, a, k), n - k)
  }

  /** The first `n` bytes at `b` are zero. */
  ghost predicate ZeroContents(m: Mem, b: int, n: int) {
    forall k {:trigger Word(m, b, k)} | 0 <= k < n && k % 4 == 0 :: SameBytes(Word(m, b, k), 0, n - k)
  }

  lemma PayloadContents(mem: Mem, m: Mem, p: int, n: int, bytes: int)
    requires SamePayload(mem, m, p, n) && bytes + 4 <= n && n % 4 == 0
    ensures SameContents(mem, p + 8, m, p + 8, bytes)
  {
    hide Scale;
    forall k {:trigger Word(m, p + 8, k)} | 0 <= k < bytes && k % 4 == 0
      ensures Word(m, p + 8, k) == Word(mem, p + 8, k)
    {}
  }

  /** Only words that begin in [dst, dst + n) differ, and in the last of them only the bytes before dst + n. */
  ghost predicate WritesIn(mem: Mem, m: Mem, dst: int, n: int) {
    forall w {:trigger Rd(m, w)} | !(dst <= w < dst + n && (w - dst) % 4 == 0) :: Rd(m, w) == Rd(mem, w)
  }

  ghost predicate RestKept(mem: Mem, m: Mem, dst: int, n: int) {
    forall k {:trigger Word(m, dst, k)} | n - 4 < k < n && 0 <= k && k % 4 == 0 ::
      Word(m, dst, k) / Scale(n - k) == Word(mem, dst, k) / Scale(n - k)
  }

  /** memcpy, a word at a time. */
  method CopyWords(mem0: Mem, src: int, dst: int, n: int) returns (mem: Mem)
    requires src + n + 4 <= dst || dst + n + 4 <= src
    ensures SameContents(mem0, src, mem, dst, n) && WritesIn(mem0, mem, dst, n) && RestKept(mem0, mem, dst, n)
  {
    hide Mixed, Merged;
    mem := mem0;
    var i := 0;
    while i < n
      invariant 0 <= i && i % 4 == 0 && (i < n + 4 || n <= 0) && WritesIn(mem0, mem, dst, Min(i, n))
      invariant forall k {:trigger Word(mem, dst, k)} | 0 <= k < i && k < n && k % 4 == 0 ::
                  Mixed(Word(mem0, dst, k), Word(mem0, src, k), n - k, Word(mem, dst, k))
    {
      ghost var m := mem;
      MergedBytes(Rd(mem, dst + i), Rd(mem, src + i), n - i);
      assert Word(mem, dst, i) == Word(mem0, dst, i) && Word(mem, src, i) == Word(mem0, src, i);
      mem := Wr(mem, dst + i, Merged(Rd(mem, dst + i), Rd(mem, src + i), n - i));
      assert forall k | 0 <= k < i && k % 4 == 0 :: Word(mem, dst, k) == Word(m, dst, k);
      i := i + 4;
    }
    forall k {:trigger Word(mem, dst, k)} | 0 <= k < n && k % 4 == 0
      ensures SameBytes(Word(mem, dst, k), Word(mem0, src, k), n - k)
      ensures n - k < 4 ==> Word(mem, dst, k) / Scale(n - k) == Word(mem0, dst, k) / Scale(n - k)
    {
      MixedIs(Word(mem0, dst, k), Word(mem0, src, k), n - k, Word(mem, dst, k));
    }
  }

  lemma MixedIs(was: int, now: int, n: int, x: int)
    requires Mixed(was, now, n, x)
    ensures SameBytes(x, now, n) && (n < 4 ==> x / Scale(n) == was / Scale(n))
  {}

  /** memset to zero, a word at a time. */
  method ClearWords(mem0: Mem, dst: int, n: int) returns (mem: Mem)
    ensures ZeroContents(mem, dst, n) && WritesIn(mem0, mem, dst, n) && RestKept(mem0, mem, dst, n)
  {
    hide Mixed, Merged;
    mem := mem0;
    var i := 0;
    while i < n
      invariant 0 <= i && i % 4 == 0 && (i < n + 4 || n <= 0) && WritesIn(mem0, mem, dst, Min(i, n))
      invariant forall k {:trigger Word(mem, dst, k)} | 0 <= k < i && k < n && k % 4 == 0 ::
                  Mixed(Word(mem0, dst, k), 0, n - k, Word(mem, dst, k))
    {
      ghost var m := mem;
      MergedBytes(Rd(mem, dst + i), 0, n - i);
      assert Word(mem, dst, i) == Word(mem0, dst, i);
      mem := Wr(mem, dst + i, Merged(Rd(mem, dst + i), 0, n - i));
      assert forall k | 0 <= k < i && k % 4 == 0 :: Word(mem, dst, k) == Word(m, dst, k);
      i := i + 4;
    }
    forall k {:trigger Word(mem, dst, k)} | 0 <= k < n && k % 4 == 0
      ensures SameBytes(Word(mem, dst, k), 0, n - k)
      ensures n - k < 4 ==> Word(mem, dst, k) / Scale(n - k) == Word(mem0, dst, k) / Scale(n - k)
    {
      MixedIs(Word(mem0, dst, k), 0, n - k, Word(mem, dst, k));
    }
  }

  lemma Window(mem: Mem, m: Mem, x: int, size: int, n: int)
    requires WritesIn(mem, m, x + 8, n) && n <= size - 4 && size % 4 == 0
    ensures forall w {:trigger Rd(m, w)} | w < x + 8 || w > x + size :: Rd(m, w) == Rd(mem, w)
  {
    forall w {:trigger Rd(m, w)} | w < x + 8 || w > x + size ensures Rd(m, w) == Rd(mem, w) {
      if w > x + size && (w - x - 8) % 4 == 0 { FourGap(size - 8, w - x - 8); }
    }
  }

  lemma FourGap(a: int, b: int)
    requires a % 4 == 0 && b % 4 == 0 && a < b
    ensures a + 4 <= b
  {}

  /** Whatever is stored in a live chunk's payload, the heap stays in order. */
  lemma PayloadCore(mem: Mem, m: Mem, smallmap: bv32, treemap: bv32, h: Homes, c: Chunks, segs: seq<Segment>, x: int,
                    n: int)
    requires Core(mem, smallmap, treemap, h, c, segs) && x in c && c[x].kind == Live && n <= c[x].size - 4
    requires WritesIn(mem, m, x + 8, n)
    ensures Core(m, smallmap, treemap, h, c, segs) && Keeps(mem, c, m, c, {x})
  {
    SizeMult(mem, smallmap, treemap, h, c, segs, x);
    Window(mem, m, x, c[x].size, n);
    hide Shape, SegsOk, SegWords, BinsOk, BinView, Keeps, UsedStay, Rd;
    Growth.PayloadKeeps(mem, m, smallmap, treemap, h, c, x);
    SegWordsKept(mem, c, m, c, segs, {x});
  }

  lemma AloneReady(mem: Mem, smallmap: bv32, treemap: bv32, h: Homes, segs: seq<Segment>, c: Chunks, p: int, nb: int,
                   rsize: int)
    requires Core(mem, smallmap, treemap, h, c, segs) && p in c && c[p].kind == Live && c[p].size == nb + rsize
    requires Mult8(nb)
    ensures WithNext(c, segs, p, p + nb + rsize, p) && p + nb + rsize in c && Mult8(rsize)
    ensures forall q | q in c && p <= q < p + nb + rsize :: q == p
    ensures p > 0
  {
    Region1(segs, c, p);
    Reading(mem, c, p);
    OnlyIn(mem, c, p);
    assert ChunkOk(p, c[p]);
    hide Core, Region, Mult8;
    MultSum(nb + rsize, nb);
  }

  lemma SamePayloadAll(mem: Mem, c: Chunks, p: int, n: int)
    ensures SamePayload(mem, mem, p, n) && Keeps(mem, c, mem, c, {p})
  {
    forall q | q in c && c[q].kind == Live ensures Stays(mem, c, mem, c, q) {}
  }

  lemma InPlace(m0: Mem, c0: Chunks, m: Mem, smallmap: bv32, treemap: bv32, h: Homes, segs: seq<Segment>, c: Chunks,
                p: int, bytes: int)
    requires Core(m, smallmap, treemap, h, c, segs) && p in c0 && c0[p].size % 4 == 0 && 0 <= bytes < System.MAX_REQUEST
    requires Reshaped(m0, c0, m, c, p, System.RequestToSize(bytes), c0[p].size)
    ensures SameContents(m0, p + 8, m, p + 8, Min(c0[p].size - 4, bytes)) && Keeps(m0, c0, m, c, {p, p})
  {
    System.RequestFacts(bytes);
    assert ChunkOk(p, c[p]);
    assert {p, p} == {p};
    hide Core, Keeps, SameContents;
    PayloadContents(m0, m, p, if c0[p].size < c[p].size then c0[p].size else c[p].size, Min(c0[p].size - 4, bytes));
  }

  lemma MoveReady(m0: Mem, c0: Chunks, m: Mem, smallmap: bv32, treemap: bv32, h: Homes, segs: seq<Segment>, c: Chunks,
                  p: int, q: int, bytes: int)
    requires Core(m, smallmap, treemap, h, c, segs) && Granted(m0, c0, m, c, q, System.RequestToSize(bytes))
    requires 0 <= bytes < System.MAX_REQUEST
    requires p in c0 && c0[p].kind == Live
    ensures p in c && c[p].kind == Live && c[p].size == c0[p].size && p != q && SamePayload(m0, m, p, c[p].size)
    ensures p > 0 && c[p].size % 4 == 0 && c[q].size % 4 == 0
    ensures var n := Min(c[p].size - 4, bytes);
            (p + 8 + n + 4 <= q + 8 || q + 8 + n + 4 <= p + 8) && n <= c[q].size - 4 && n >= 0
  {
    assert Stays(m0, c0, m, c, p);
    System.RequestFacts(bytes);
    SizeMult(m, smallmap, treemap, h, c, segs, p);
    SizeMult(m, smallmap, treemap, h, c, segs, q);
    assert ChunkOk(p, c[p]) && ChunkOk(q, c[q]);
    hide SegsOk, SegWords, BinsOk, Heads, Feet, Coalesced, NextLinked, PrevLinked, Keeps, Mult8;
  }

  lemma StillLive(m1: Mem, m2: Mem, c: Chunks, p: int, q: int)
    requires Keeps(m1, c, m2, c, {q}) && p in c && p != q && c[p].kind == Live
    ensures SamePayload(m1, m2, p, c[p].size)
  {
    assert Stays(m1, c, m2, c, p);
  }

  /** Malloc, copy, free: the contents are the old ones and nobody else is affected. */
  lemma Moved(m0: Mem, c0: Chunks, m1: Mem, c1: Chunks, m2: Mem, m: Mem, c: Chunks, p: int, q: int, n: int)
    requires Handed(m0, c0, m1, c1, q) && Keeps(m1, c1, m2, c1, {q}) && Freed(m2, c1, m, c, p) && p != q
    requires p in c0 && c0[p].kind == Live && p in c1 && c1[p].kind == Live && n <= c1[p].size - 4
    requires c1[p].size % 4 == 0 && n <= c1[q].size - 4 && c1[q].size % 4 == 0
    requires SamePayload(m0, m1, p, c1[p].size) && SameContents(m1, p + 8, m2, q + 8, n)
    ensures Keeps(m0, c0, m, c, {p, q}) && q in c && c[q].kind == Live && c[q].size == c1[q].size
    ensures !(p in c && c[p].kind == Live)
    ensures SameContents(m0, p + 8, m, q + 8, n)
  {
    assert Stays(m2, c1, m, c, q);
    KeepsTrans(m0, c0, m1, c1, m2, c1, {q}, {q});
    KeepsTrans(m0, c0, m2, c1, m, c, {q} + {q}, {p});
    assert {q} + {q} + {p} == {p, q};
    hide SameBytes;
    forall k | 0 <= k < n && k % 4 == 0 ensures SameBytes(Word(m, q + 8, k), Word(m0, p + 8, k), n - k) {
      assert SameBytes(Word(m2, q + 8, k), Word(m1, p + 8, k), n - k);
      assert Word(m1, p + 8, k) == Word(m0, p + 8, k);
      assert Word(m, q + 8, k) == Word(m2, q + 8, k);
    }
  }

  lemma SizeMult(mem: Mem, smallmap: bv32, treemap: bv32, h: Homes, c: Chunks, segs: seq<Segment>, p: int)
    requires Core(mem, smallmap, treemap, h, c, segs) && p in c
    ensures c[p].size % 4 == 0
  {
    assert ChunkOk(p, c[p]);
    hide Core;
    if c[p].kind != Top { EightFour(c[p].size); }
  }

  lemma EightFour(n: int)
    requires Mult8(n)
    ensures n % 4 == 0
  {}

  lemma HandedFilled(m0: Mem, c0: Chunks, m1: Mem, m: Mem, c: Chunks, p: int)
    requires Handed(m0, c0, m1, c, p) && Keeps(m1, c, m, c, {p})
    ensures Handed(m0, c0, m, c, p)
  {
    KeepsTrans(m0, c0, m1, c, m, c, {p}, {p});
    assert {p} + {p} == {p};
  }

  /** The number of bytes asked for, or the size that is sure to fail if the product wraps. */
  function CallocRequest(n: int, e: int): int
    requires 0 <= n < WORD && 0 <= e < WORD
  {
    if n == 0 then 0
    else
      var req := n * e % WORD;
      if HighBit(n, e) && req / n != e then WORD - 1 else req
  }

  /** Either operand has a bit set above the low sixteen. */
  predicate HighBit(n: int, e: int) { n / 0x1_0000 != 0 || e / 0x1_0000 != 0 }

  /** The overflow test is exact. */
  lemma CallocFacts(n: int, e: int)
    requires 0 <= n < WORD && 0 <= e < WORD
    ensures CallocRequest(n, e) == (if n * e < WORD then n * e else WORD - 1)
  {
    if n > 0 {
      if !HighBit(n, e) { SmallProduct(n, e); }
      Wrapped(n, e, n * e, n * e % WORD);
    }
  }

  lemma SmallProduct(n: int, e: int)
    requires 0 <= n < 0x1_0000 && 0 <= e < 0x1_0000
    ensures 0 <= n * e < WORD
  {
    MulOrder(e, 0, n);
    MulOrder(e, n, 0x1_0000);
  }

  lemma MulOrder(x: int, a: int, b: int)
    requires x >= 0 && a <= b
    ensures x * a <= x * b
  {
    assert x * (b - a) >= 0;
  }

  /** Dividing the wrapped product gives the other factor exactly when nothing was lost. */
  lemma Wrapped(n: int, e: int, full: int, req: int)
    requires 0 < n < WORD && 0 <= e < WORD && full == n * e && req == full % WORD
    ensures full >= 0 && (req / n == e <==> full < WORD) && (full < WORD ==> req == full)
  {
    MulOrder(n, 0, e);
    var q := req / n;
    DivParts(req, n, q);
    if full < WORD {
      if q < e { MulOrder(n, q + 1, e); }
      if q > e { MulOrder(n, e + 1, q); }
    }
  }

  lemma DivParts(x: int, n: int, q: int)
    requires n > 0 && q == x / n
    ensures n * q <= x < n * q + n
  {}
}

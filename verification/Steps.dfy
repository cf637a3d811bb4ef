/** The steps the allocator's operations are made of: what each does to the words, and that it keeps the invariant. */
module Steps {
  import opened Words
  import opened BinMaps
  import opened Tries
  import opened TreeIndex
  import TreeBins
  import SmallBins
  import opened BestFit
  import opened FreeLinks
  import opened LargeChunks
  import opened Bins
  import opened Chunks
  import opened Headers
  import opened Heaps

  /** Who is the designated victim, who is top, and which free chunks are on their way to a home. */
  ghost predicate Owned(c: Chunks, dv: int, dvsize: int, top: int, topsize: int, limbo: set<int>) {
    && (forall p | p in c ::
         (c[p].kind == Dv ==> p == dv) && (c[p].kind == Top ==> p == top) && (c[p].kind == Limbo ==> p in limbo))
    && (if dv == 0 then dvsize == 0 else dv in c && c[dv].kind == Dv && c[dv].size == dvsize)
    && (if top == 0 then topsize == 0 && c == map[] else top in c && c[top].kind == Top && c[top].size == topsize)
  }

  function Total(segs: seq<Segment>): int { if segs == [] then 0 else segs[0].Bytes() + Total(segs[1..]) }

  ghost predicate Least(segs: seq<Segment>, leastAddr: int) {
    forall i | 0 <= i < |segs| :: leastAddr <= segs[i].Start()
  }

  /** ok_address holds of every chunk. */
  lemma AboveLeast(segs: seq<Segment>, c: Chunks, leastAddr: int, p: int)
    requires SegsOk(segs, c) && Least(segs, leastAddr) && p in c
    ensures OkAddress(leastAddr, p)
  {
    assert Placed(segs, p, c[p]);
    var i :| 0 <= i < |segs| && HeldBy(segs[i], p, p + c[p].size);
  }

  lemma BinsAbove(mem: Mem, smallmap: bv32, treemap: bv32, h: Homes, c: Chunks, segs: seq<Segment>, leastAddr: int)
    requires Core(mem, smallmap, treemap, h, c, segs) && Least(segs, leastAddr)
    ensures AllAbove(BinView(c), leastAddr)
  {
    hide Least, Shape, SegWords, BinsOk, SegsOk;
    forall p | p in BinView(c) ensures OkAddress(leastAddr, p) { AboveLeast(segs, c, leastAddr, p); }
  }

  /** The footprint is what the segments add up to, and no chunk is below the least address. */
  ghost predicate Accounts(segs: seq<Segment>, leastAddr: int, footprint: int, maxFootprint: int) {
    && footprint == Total(segs) && footprint <= maxFootprint
    && Least(segs, leastAddr)
  }

  lemma BinsReady(mem: Mem, smallmap: bv32, treemap: bv32, h: Homes, c: Chunks, segs: seq<Segment>)
    requires Core(mem, smallmap, treemap, h, c, segs)
    ensures var f := BinView(c);
            && BinsOk(mem, smallmap, treemap, h, f) && SizesIn(mem, f) && FreeIn(f, c)
            && |h.small| == 32 && |h.trees| == 32 && forall p | p in f :: 0 <= f[p] < WORD
  {
    var f := BinView(c);
    forall p | p in f ensures ChunkSize(Rd(mem, p + 4)) == f[p] { Reading(mem, c, p); }
    hide Shape, ChunkSize, Mult8, Smalls, Larges, Spaced;
  }

  lemma BinReady(mem: Mem, smallmap: bv32, treemap: bv32, h: Homes, c: Chunks, segs: seq<Segment>, p: int)
    requires Core(mem, smallmap, treemap, h, c, segs) && p in c && FreeKind(c[p].kind) && c[p].kind != Top
    requires c[p].kind != Kind.Binned
    ensures var f := BinView(c); var g := f[p := c[p].size];
      p !in f && Spaced(g) && Mult8(c[p].size) && MIN_CHUNK_SIZE <= c[p].size < WORD && FreeIn(g, c)
          && BinView(SetKind(c, p, Kind.Binned)) == g
  {
    hide Heads, Feet, NextLinked, PrevLinked, Coalesced, BinsOk, SegsOk, Mult8;
    assert ChunkOk(p, c[p]);
  }

  lemma ViewOut(c: Chunks, p: int)
    requires p in c && c[p].kind == Kind.Binned
    ensures p in BinView(c) && BinView(c)[p] == c[p].size && BinView(SetKind(c, p, Limbo)) == BinView(c) - {p}
  {
  }

  lemma OwnedMove(c: Chunks, dv: int, dvsize: int, top: int, topsize: int, limbo: set<int>, p: int, k: Kind)
    requires Owned(c, dv, dvsize, top, topsize, limbo) && p in c && c[p].kind != Dv && c[p].kind != Top
    requires (k == Limbo || k == Kind.Binned)
    ensures Owned(SetKind(c, p, k), dv, dvsize, top, topsize, if k == Limbo then limbo + {p} else limbo - {p})
  {}

  lemma Rehomed(mem: Mem, m: Mem, smallmap: bv32, treemap: bv32, smallmap': bv32, treemap': bv32, h: Homes, h': Homes,
                c: Chunks, segs: seq<Segment>, p: int, k: Kind, f: map<int, int>)
    requires Core(mem, smallmap, treemap, h, c, segs) && Movable(c, p, k) && FreeIn(f, c) && Confined(mem, m, f)
    requires BinsOk(m, smallmap', treemap', h', BinView(SetKind(c, p, k)))
    ensures Core(m, smallmap', treemap', h', SetKind(c, p, k), segs) && Keeps(mem, c, m, SetKind(c, p, k), {})
  {
    hide Shape, Confined, FreeIn, SegsOk, Keeps, SegWords, Movable, SetKind, BinsOk;
    MovedHome(mem, m, c, segs, p, k, f);
  }

  /** The heap is the same but for the home of one free chunk. */
  lemma MovedHome(mem: Mem, m: Mem, c: Chunks, segs: seq<Segment>, p: int, k: Kind, f: map<int, int>)
    requires Shape(mem, c) && SegsOk(segs, c) && SegWords(mem, segs) && Movable(c, p, k) && FreeIn(f, c)
    requires Confined(mem, m, f)
    ensures Shape(m, SetKind(c, p, k)) && SegsOk(segs, SetKind(c, p, k)) && SegWords(m, segs)
    ensures Keeps(mem, c, m, SetKind(c, p, k), {})
  {
    InteriorsKeep(mem, m, c, f);
    hide Shape, Confined, FreeIn, SegsOk, Keeps, UsedStay, SegWords, Movable, SetKind;
    SegWordsKept(mem, c, m, c, segs, {});
    SetKindShape(m, c, segs, p, k);
    KeepsTrans(mem, c, m, c, m, SetKind(c, p, k), {}, {});
  }

  /** The chunks in [p, b) are the one in use at `p0` and free ones, none in a bin, and what precedes is in use. */
  ghost predicate Gathered(c: Chunks, segs: seq<Segment>, p: int, p0: int, b: int, z: int) {
    && Region(segs, c, p, b, z) && PrevUsed(c, p) && p <= p0 < b && p0 in c && c[p0].kind == Live
    && forall q | q in c && p <= q < b && q != p0 :: !c[q].Used() && (q == p || q == z)
  }

  lemma KeepsSame(mem: Mem, c: Chunks)
    ensures Keeps(mem, c, mem, c, {})
  {
    forall p | p in c && c[p].Used() ensures Stays(mem, c, mem, c, p) {}
  }

  lemma GatheredTwo(mem: Mem, c: Chunks, segs: seq<Segment>, p: int, p0: int)
    requires Shape(mem, c) && SegsOk(segs, c) && p0 in c && c[p0].kind == Live && c[p0].prev == p && p in c
    requires c[p].kind == Limbo || c[p].kind == Dv
    ensures Gathered(c, segs, p, p0, p0 + c[p0].size, p0)
  {
    Reading(mem, c, p);
    assert PrevOk(c, p0) && ChunkOk(p, c[p]);
    Region1(segs, c, p);
    RegionNext(segs, c, p, p0, p);
    hide Heads, Feet, NextLinked, PrevLinked, Coalesced, SegsOk, Held, PrevUsed;
  }

  /**
   * The chunk before `p0`, if free, is in a bin or the designated victim; gathered with it once it has left its bin.
   */
  lemma BehindReady(mem: Mem, smallmap: bv32, treemap: bv32, h: Homes, c: Chunks, segs: seq<Segment>,
                    dv: int, dvsize: int, top: int, topsize: int, p0: int)
    requires Core(mem, smallmap, treemap, h, c, segs) && Owned(c, dv, dvsize, top, topsize, {}) && p0 in c
    requires c[p0].kind == Live
    ensures CInuse(Rd(mem, p0 + 4)) && p0 != dv
    ensures if PInuse(Rd(mem, p0 + 4)) then Gathered(c, segs, p0, p0, p0 + c[p0].size, p0)
            else Behind(mem, c, segs, dv, p0)
  {
    Reading(mem, c, p0);
    Region1(segs, c, p0);
    assert ChunkOk(p0, c[p0]) && PrevOk(c, p0);
    hide Shape, SegsOk, SegWords, BinsOk, PInuse, CInuse, Mult8;
    if !PrevUsed(c, p0) { BehindFree(mem, smallmap, treemap, h, c, segs, dv, dvsize, top, topsize, p0); }
  }

  lemma BehindFree(mem: Mem, smallmap: bv32, treemap: bv32, h: Homes, c: Chunks, segs: seq<Segment>,
                   dv: int, dvsize: int, top: int, topsize: int, p0: int)
    requires Core(mem, smallmap, treemap, h, c, segs) && Owned(c, dv, dvsize, top, topsize, {}) && p0 in c
    requires c[p0].kind == Live && !PrevUsed(c, p0)
    ensures Behind(mem, c, segs, dv, p0)
  {
    Reading(mem, c, p0);
    var p := c[p0].prev;
    assert PrevOk(c, p0) && ChunkOk(p, c[p]);
    hide SegWords, BinsOk, Shape, SegsOk, Mult8;
    if p == dv {
      GatheredTwo(mem, c, segs, p, p0);
    } else {
      assert c[p].kind == Kind.Binned;
      SetKindShape(mem, c, segs, p, Limbo);
      GatheredTwo(mem, SetKind(c, p, Limbo), segs, p, p0);
    }
  }

  ghost predicate Behind(mem: Mem, c: Chunks, segs: seq<Segment>, dv: int, p0: int) requires p0 in c {
    var p := p0 - Rd(mem, p0);
    && p in c && c[p].size == Rd(mem, p0) && p < p0
    && (if p == dv then Gathered(c, segs, p, p0, p0 + c[p0].size, p0)
        else c[p].kind == Kind.Binned && Gathered(SetKind(c, p, Limbo), segs, p, p0, p0 + c[p0].size, p0))
  }

  /** `p0` is no longer in use, nothing else changed for anyone. */
  ghost predicate Freed(mem: Mem, c: Chunks, m: Mem, d: Chunks, p0: int) {
    Keeps(mem, c, m, d, {p0}) && !(p0 in d && d[p0].kind == Live)
  }

  /** The words of one free chunk [p, b) are in place. */
  ghost predicate FreeWords(mem: Mem, m: Mem, c: Chunks, p: int, b: int, foot: bool) {
    && EditedIn(mem, m, p, b) && Rd(m, p + 4) == Head(b - p, true, false) && (foot ==> Rd(m, b) == b - p)
    && AfterOk(m, c, b, false)
  }

  lemma FreeSpan(mem: Mem, m: Mem, smallmap: bv32, treemap: bv32, h: Homes, segs: seq<Segment>, c: Chunks, p: int,
                 p0: int, b: int, z: int, k: Kind)
    requires Core(mem, smallmap, treemap, h, c, segs) && Gathered(c, segs, p, p0, b, z)
    requires FreeWords(mem, m, c, p, b, k != Top)
    requires FreeKind(k) && k != Kind.Binned && c[z].Last() == (k == Top)
    ensures Core(m, smallmap, treemap, h, One(c, p, b, k), segs) && Freed(mem, c, m, One(c, p, b, k), p0)
  {
    hide EditedIn, Head, Keeps, Mult8, Mult4, SegsOk, SegWords, BinsOk, BinView;
    SpanSize(c, segs, p, b, z, p0);
    assert p0 in One(c, p, b, k) ==> p0 == p;
    hide Core, One;
    RewriteOne(mem, m, smallmap, treemap, h, segs, c, p, b, z, k, {p0});
  }

  lemma SpanSize(c: Chunks, segs: seq<Segment>, p: int, b: int, z: int, p0: int)
    requires Tiled(c) && Region(segs, c, p, b, z) && p <= p0 < b && p0 in c && c[p0].size >= MIN_CHUNK_SIZE
    ensures b - p >= MIN_CHUNK_SIZE && if c[z].kind == Top then Mult4(b - p) else Mult8(b - p)
  {
    assert ChunkOk(p, c[p]) && ChunkOk(z, c[z]);
    assert p0 + c[p0].size <= b;
    SpanMult(p, z, c[z].size);
  }

  lemma SpanMult(p: int, z: int, size: int)
    requires Mult8(p) && Mult8(z)
    ensures (Mult8(size) ==> Mult8(z + size - p)) && (Mult4(size) ==> Mult4(z + size - p))
  {
    hide Mult8, Mult4;
    if Mult8(size) {
      MultSum(z, size);
      MultSum(z + size, p);
    }
    if Mult4(size) {
      Mult8Is4(z);
      Mult8Is4(p);
      Mult4Sum(z, size);
      Mult4Sum(z + size, p);
    }
  }

  lemma FreeWritten(mem: Mem, smallmap: bv32, treemap: bv32, h: Homes, segs: seq<Segment>, c: Chunks, p: int, p0: int,
                    next: int)
    requires Core(mem, smallmap, treemap, h, c, segs) && Gathered(c, segs, p, p0, next, p0) && next in c
    requires c[next].Used()
    ensures FreeWords(mem, SetFreeWithPinuse(mem, p, next - p, next), c, p, next, true) && !c[p0].Last() && Tiled(c)
  {
    assert HeadOk(mem, c, next) && ChunkOk(next, c[next]) && ChunkOk(p0, c[p0]);
    PinuseBits(c[next].size, PrevUsed(c, next), true);
    hide Core, Head, WithoutPinuse, Mult8, Rd, Wr, PrevUsed;
  }

  /** The designated victim and top can only be at the ends of what was gathered. */
  lemma GatheredHomes(c: Chunks, segs: seq<Segment>, p: int, p0: int, b: int, z: int, dv: int, dvsize: int, top: int,
                      topsize: int, limbo: set<int>)
    requires Tiled(c) && Gathered(c, segs, p, p0, b, z) && Owned(c, dv, dvsize, top, topsize, limbo)
    ensures 0 !in c && p in c && 0 < p < b && p0 in c && z in c && p <= z < b
    ensures p <= dv < b ==> dv == p || dv == z
    ensures p <= top < b ==> top == z
    ensures dv != p0 && top != p0
  {
    assert 0 in c ==> ChunkOk(0, c[0]);
    assert ChunkOk(p, c[p]) && ChunkOk(z, c[z]);
    hide Apart, NextLinked, PrevLinked;
  }

  lemma OwnedOne(c: Chunks, a: int, b: int, k: Kind, dv: int, dvsize: int, top: int, topsize: int, limbo: set<int>,
                 dv': int, dvsize': int, top': int, topsize': int, limbo': set<int>)
    requires Owned(c, dv, dvsize, top, topsize, limbo) && 0 !in c && a in c && 0 < a < b && k != Kind.Binned
    requires if k == Dv then dv' == a && dvsize' == b - a && (dv == 0 || a <= dv < b)
             else if a <= dv < b then dv' == dvsize' == 0 else dv' == dv && dvsize' == dvsize
    requires if k == Top then top' == a && topsize' == b - a && a <= top < b
             else !(a <= top < b) && top' == top && topsize' == topsize
    requires k == Limbo ==> a in limbo'
    requires forall q | q in limbo && !(a <= q < b) :: q in limbo'
    ensures Owned(One(c, a, b, k), dv', dvsize', top', topsize', limbo')
  {
  }

  lemma TopKind(c: Chunks, dv: int, dvsize: int, top: int, topsize: int, limbo: set<int>, p: int)
    requires Owned(c, dv, dvsize, top, topsize, limbo) && p in c
    ensures c[p].kind == Top ==> p == top
  {}

  lemma DvKind(c: Chunks, dv: int, dvsize: int, top: int, topsize: int, limbo: set<int>, p: int)
    requires Owned(c, dv, dvsize, top, topsize, limbo) && p in c
    ensures c[p].kind == Dv ==> p == dv
  {}

  lemma HomeKind(c: Chunks, dv: int, dvsize: int, top: int, topsize: int, limbo: set<int>)
    requires Owned(c, dv, dvsize, top, topsize, limbo)
    ensures if top != 0 then top in c && c[top].kind == Top && c[top].size == topsize else topsize == 0
    ensures if dv != 0 then dv in c && c[dv].kind == Dv && c[dv].size == dvsize else dvsize == 0
    ensures forall p | p in c && !c[p].Used() && p != dv && p != top && p !in limbo :: c[p].kind == Kind.Binned
  {}

  /** What follows a free chunk is in use and says so. */
  lemma AfterFree(mem: Mem, c: Chunks, q: int)
    requires Shape(mem, c) && q in c && !c[q].Used()
    ensures AfterOk(mem, c, q + c[q].size, false)
  {
    var b := q + c[q].size;
    if b in c {
      Reading(mem, c, q);
      Reading(mem, c, b);
      assert NextOk(c, q);
      assert HeadOk(mem, c, b);
    }
  }

  lemma FreeWordsFrom(mem: Mem, c: Chunks, p: int, b: int)
    requires AfterOk(mem, c, b, false) && p + 8 <= b
    ensures FreeWords(mem, Wr(mem, p + 4, Head(b - p, true, false)), c, p, b, false)
    ensures FreeWords(mem, SetFreeHead(mem, p, b - p), c, p, b, true)
  {
    hide Rd, Head;
  }

  /**
   * The gathered chunks with the free one after them, and what writing their header, and perhaps their foot, makes of
   * them.
   */
  lemma GatherMore(mem: Mem, smallmap: bv32, treemap: bv32, h: Homes, segs: seq<Segment>, c: Chunks, p: int, p0: int,
                   next: int)
    requires Core(mem, smallmap, treemap, h, c, segs) && Gathered(c, segs, p, p0, next, p0) && next in c
    requires c[next].kind == Top || c[next].kind == Dv || c[next].kind == Limbo
    ensures Tiled(c) && Gathered(c, segs, p, p0, next + c[next].size, next)
    ensures FreeWords(mem, Wr(mem, p + 4, Head(next + c[next].size - p, true, false)), c, p, next + c[next].size, false)
    ensures FreeWords(mem, SetFreeHead(mem, p, next + c[next].size - p), c, p, next + c[next].size, true)
  {
    assert ChunkOk(next, c[next]) && ChunkOk(p0, c[p0]);
    RegionNext(segs, c, p, next, p0);
    AfterFree(mem, c, next);
    FreeWordsFrom(mem, c, p, next + c[next].size);
    hide Core, Head, Mult8, Rd, Wr, PrevUsed, NextLinked, PrevLinked, Held, FreeWords;
  }

  /** The chunk after `p0` is in use, top, the designated victim or in a bin. */
  lemma NextReady(mem: Mem, smallmap: bv32, treemap: bv32, h: Homes, segs: seq<Segment>, c: Chunks,
                  dv: int, dvsize: int, top: int, topsize: int, limbo: set<int>, p: int, p0: int, next: int)
    requires Core(mem, smallmap, treemap, h, c, segs) && Owned(c, dv, dvsize, top, topsize, limbo)
    requires Gathered(c, segs, p, p0, next, p0) && limbo <= {p}
    ensures 0 !in c && next in c && p < next && CInuse(Rd(mem, next + 4)) == c[next].Used() && PInuse(Rd(mem, next + 4))
    ensures c[next].kind != Top ==> ChunkSize(Rd(mem, next + 4)) == c[next].size
    ensures (!c[next].Used() && next != top && next != dv ==> c[next].kind == Kind.Binned)
  {
    Reading(mem, c, p0);
    Reading(mem, c, next);
    assert ChunkOk(p0, c[p0]);
    assert 0 in c ==> ChunkOk(0, c[0]);
    hide Core, Mult8, CInuse, PInuse, ChunkSize;
  }

  lemma GatheredStays(c: Chunks, segs: seq<Segment>, p: int, p0: int, next: int, limbo: set<int>)
    requires Gathered(c, segs, p, p0, next, p0) && next in c && c[next].kind == Kind.Binned
    ensures Gathered(SetKind(c, next, Limbo), segs, p, p0, next, p0)
    ensures var d := SetKind(c, next, Limbo); next in d && d[next] == Chunk(c[next].size, Limbo, c[next].prev)
  {
  }

  lemma FreedAfter(m0: Mem, c0: Chunks, m1: Mem, c1: Chunks, m2: Mem, c2: Chunks, p0: int)
    requires Keeps(m0, c0, m1, c1, {}) && Freed(m1, c1, m2, c2, p0)
    ensures Freed(m0, c0, m2, c2, p0)
  {
    KeepsTrans(m0, c0, m1, c1, m2, c2, {}, {p0});
    assert {} + {p0} == {p0};
  }

  lemma FreedThen(m0: Mem, c0: Chunks, m1: Mem, c1: Chunks, m2: Mem, c2: Chunks, p0: int)
    requires Freed(m0, c0, m1, c1, p0) && Keeps(m1, c1, m2, c2, {})
    ensures Freed(m0, c0, m2, c2, p0)
  {
    KeepsTrans(m0, c0, m1, c1, m2, c2, {p0}, {});
    assert {p0} + {} == {p0};
  }

  /** `p` was free and is now in use; nothing else changed for anyone. */
  ghost predicate Handed(mem: Mem, c: Chunks, m: Mem, d: Chunks, p: int) {
    Keeps(mem, c, m, d, {p}) && !(p in c && c[p].kind == Live) && p in d && d[p].kind == Live
  }

  lemma NoZero(mem: Mem, smallmap: bv32, treemap: bv32, h: Homes, segs: seq<Segment>, c: Chunks, p: int,
               dv: int, dvsize: int, top: int, topsize: int, limbo: set<int>)
    requires Core(mem, smallmap, treemap, h, c, segs) && p in c && Owned(c, dv, dvsize, top, topsize, limbo)
    ensures 0 !in c && 0 < p < p + c[p].size && if c[p].kind == Top then Mult4(c[p].size) else Mult8(c[p].size)
    ensures p <= dv < p + c[p].size ==> dv == p
    ensures p <= top < p + c[p].size ==> top == p
    ensures forall q | q in limbo && q in c && p <= q < p + c[p].size :: q == p
  {
    assert ChunkOk(p, c[p]);
    assert 0 in c ==> ChunkOk(0, c[0]);
    hide Mult8, Mult4, BinsOk, SegsOk, Heads, Feet, Coalesced, NextLinked, PrevLinked;
  }

  /** set_inuse_and_pinuse on a free chunk. */
  lemma UsedWhole(mem: Mem, smallmap: bv32, treemap: bv32, h: Homes, segs: seq<Segment>, c: Chunks, p: int)
    requires Core(mem, smallmap, treemap, h, c, segs) && p in c && (c[p].kind == Limbo || c[p].kind == Dv)
    ensures var m, d := SetInuseAndPinuse(mem, p, c[p].size), One(c, p, p + c[p].size, Live);
            Core(m, smallmap, treemap, h, d, segs) && Keeps(mem, c, m, d, {p}) && p in d && d[p].kind == Live
                && d[p].size == c[p].size && PrevUsed(d, p)
  {
    var s := c[p].size;
    var b := p + s;
    var m := SetInuseAndPinuse(mem, p, s);
    Region1(segs, c, p);
    Reading(mem, c, p);
    AfterFree(mem, c, p);
    assert ChunkOk(p, c[p]) && ChunkOk(b, c[b]);
    PinuseBits(c[b].size, false, c[b].Used());
    assert EditedIn(mem, m, p, b) && AfterOk(m, c, b, true)
        && Rd(m, p + 4) == Head(s, true, true) by { hide Core, Region, OrPinuse, Head, Mult8; }
    assert forall q | q in c && p <= q < b && c[q].Used() :: q in {p} by { OnlyIn(mem, c, p); }
    hide Core, Region, SetInuseAndPinuse, EditedIn, Rd, Head, Mult8, Keeps, PrevUsed, AfterOk;
    RewriteOne(mem, m, smallmap, treemap, h, segs, c, p, b, p, Live, {p});
    HeadSays(m, smallmap, treemap, h, segs, One(c, p, b, Live), p);
  }

  /** A header with the PINUSE bit set tells the truth. */
  lemma HeadSays(mem: Mem, smallmap: bv32, treemap: bv32, h: Homes, segs: seq<Segment>, c: Chunks, p: int)
    requires Core(mem, smallmap, treemap, h, c, segs) && p in c && Rd(mem, p + 4) == Head(c[p].size, true, c[p].Used())
    ensures PrevUsed(c, p)
  {
    assert HeadOk(mem, c, p);
  }

  lemma SetKindPrev(c: Chunks, q: int, k: Kind, p: int)
    requires q in c && FreeKind(c[q].kind) && FreeKind(k) && p in c
    ensures PrevUsed(SetKind(c, q, k), p) == PrevUsed(c, p)
  {}

  /** A chunk in use of size `nb` at `p`, then a free one of size `rsize`. */
  ghost predicate FrontWords(mem: Mem, m: Mem, c: Chunks, p: int, nb: int, rsize: int, foot: bool) {
    && EditedIn(mem, m, p, p + nb + rsize) && Rd(m, p + 4) == Head(nb, true, true)
    && Rd(m, p + nb + 4) == Head(rsize, true, false)
    && (foot ==> Rd(m, p + nb + rsize) == rsize) && AfterOk(m, c, p + nb + rsize, false)
  }

  lemma FrontWritten(mem: Mem, smallmap: bv32, treemap: bv32, h: Homes, segs: seq<Segment>, c: Chunks, p: int, nb: int,
                     rsize: int)
    requires Core(mem, smallmap, treemap, h, c, segs) && p in c && !c[p].Used() && c[p].size == nb + rsize && nb >= 8
    requires rsize >= 4
    ensures rsize >= 8 ==> FrontWords(mem, SetFreeHead(SetInuseHead(mem, p, nb), p + nb, rsize), c, p, nb, rsize, true)
    ensures rsize >= 8 ==> FrontWords(mem, SetInuseHead(SetFreeHead(mem, p + nb, rsize), p, nb), c, p, nb, rsize, true)
    ensures FrontWords(mem, SetInuseHead(Wr(mem, p + nb + 4, Head(rsize, true, false)), p, nb), c, p, nb, rsize, false)
  {
    AfterFree(mem, c, p);
    hide Core, Rd, Head;
  }

  lemma FrontReady(mem: Mem, smallmap: bv32, treemap: bv32, h: Homes, segs: seq<Segment>, c: Chunks, p: int, nb: int,
                   rsize: int)
    requires Core(mem, smallmap, treemap, h, c, segs) && p in c
    requires (c[p].kind == Limbo || c[p].kind == Dv || c[p].kind == Top)
    requires c[p].size == nb + rsize && Mult8(nb)
    ensures Region(segs, c, p, p + nb + rsize, p) && PrevUsed(c, p)
    ensures if c[p].kind == Top then Mult4(rsize) else Mult8(rsize)
    ensures forall q | q in c && p <= q < p + nb + rsize :: q == p
  {
    hide Region, PrevUsed, Head, BinsOk, SegWords;
    Region1(segs, c, p);
    Reading(mem, c, p);
    assert ChunkOk(p, c[p]);
    OnlyIn(mem, c, p);
    hide Core;
    RestMult(nb, rsize);
  }

  lemma RestMult(nb: int, rsize: int)
    requires Mult8(nb)
    ensures (Mult8(nb + rsize) ==> Mult8(rsize)) && (Mult4(nb + rsize) ==> Mult4(rsize))
  {
    hide Mult8, Mult4;
    if Mult8(nb + rsize) { MultSum(nb + rsize, nb); }
    if Mult4(nb + rsize) {
      Mult8Is4(nb);
      Mult4Sum(nb + rsize, nb);
    }
  }

  lemma UsedFront(mem: Mem, m: Mem, smallmap: bv32, treemap: bv32, h: Homes, segs: seq<Segment>, c: Chunks, p: int,
                  nb: int, rsize: int, l: Kind)
    requires Core(mem, smallmap, treemap, h, c, segs) && p in c && FreeKind(l) && l != Kind.Binned
    requires if l == Top then c[p].kind == Top && rsize >= 4
            else (c[p].kind == Limbo || c[p].kind == Dv) && rsize >= MIN_CHUNK_SIZE
    requires FrontWords(mem, m, c, p, nb, rsize, l != Top) && c[p].size == nb + rsize && Mult8(nb)
    requires nb >= MIN_CHUNK_SIZE
    ensures var d := Two(c, p, p + nb, p + nb + rsize, Live, l);
            Core(m, smallmap, treemap, h, d, segs) && Keeps(mem, c, m, d, {p})
    ensures var d := Two(c, p, p + nb, p + nb + rsize, Live, l);
            p in d && d[p].kind == Live && d[p].size == nb && PrevUsed(d, p)
    ensures var d := Two(c, p, p + nb, p + nb + rsize, Live, l);
            p + nb in d && d[p + nb].kind == l && d[p + nb].size == rsize
  {
    hide Core, Region, EditedIn, Rd, Head, Keeps, PrevUsed, AfterOk;
    FrontReady(mem, smallmap, treemap, h, segs, c, p, nb, rsize);
    RewriteTwo(mem, m, smallmap, treemap, h, segs, c, p, p + nb, p + nb + rsize, p, Live, l, {p});
    HeadSays(m, smallmap, treemap, h, segs, Two(c, p, p + nb, p + nb + rsize, Live, l), p);
  }

  lemma OnlyIn(mem: Mem, c: Chunks, p: int)
    requires Shape(mem, c) && p in c
    ensures forall q | q in c && p <= q < p + c[p].size :: q == p
  {
    hide Mult8, NextLinked, PrevLinked, Sized, Heads, Feet, Coalesced;
  }

  lemma OwnedTwo(c: Chunks, a: int, r: int, b: int, k: Kind, l: Kind, dv: int, dvsize: int, top: int, topsize: int,
                 limbo: set<int>,
                 dv': int, dvsize': int, top': int, topsize': int, limbo': set<int>)
    requires Owned(c, dv, dvsize, top, topsize, limbo) && 0 !in c && a in c && 0 < a < r < b && k == Live
    requires l != Kind.Binned
    requires if l == Dv then dv' == r && dvsize' == b - r && (dv == 0 || a <= dv < b)
             else if a <= dv < b then dv' == dvsize' == 0 else dv' == dv && dvsize' == dvsize
    requires if l == Top then top' == r && topsize' == b - r && a <= top < b
             else !(a <= top < b) && top' == top && topsize' == topsize
    requires l == Limbo ==> r in limbo'
    requires forall q | q in limbo && !(a <= q < b) :: q in limbo'
    ensures Owned(Two(c, a, r, b, k, l), dv', dvsize', top', topsize', limbo')
  {
  }

  lemma KeepsBoth(mem: Mem, c: Chunks, m: Mem, d: Chunks, m': Mem, e: Chunks)
    requires Keeps(mem, c, m, d, {}) && Keeps(m, d, m', e, {})
    ensures Keeps(mem, c, m', e, {})
  {
    var none: set<int> := {};
    KeepsTrans(mem, c, m, d, m', e, none, none);
    assert none + none == none;
  }

  lemma InView(c: Chunks, p: int)
    requires p in BinView(c)
    ensures p in c && c[p].kind == Kind.Binned && c[p].size == BinView(c)[p]
  {}

  lemma Positive(mem: Mem, smallmap: bv32, treemap: bv32, h: Homes, c: Chunks, segs: seq<Segment>, p: int)
    requires Core(mem, smallmap, treemap, h, c, segs) && p in c
    ensures HEAP_MIN <= p && Mult8(p)
  {
    assert ChunkOk(p, c[p]);
  }

  /** `r` takes the place of the designated victim, which is left without a home. */
  ghost function DvMoved(c: Chunks, dv: int, r: int): Chunks requires r in c {
    var d := SetKind(c, r, Dv); if dv in d && dv != 0 then SetKind(d, dv, Limbo) else d
  }

  ghost predicate SamePrev(c: Chunks, d: Chunks) {
    forall x {:trigger PrevUsed(d, x)} | x in c :: x in d && PrevUsed(d, x) == PrevUsed(c, x)
  }

  lemma NewDv(mem: Mem, smallmap: bv32, treemap: bv32, h: Homes, segs: seq<Segment>, c: Chunks, dv: int, dvsize: int,
              top: int, topsize: int, r: int)
    requires Core(mem, smallmap, treemap, h, c, segs) && Owned(c, dv, dvsize, top, topsize, {r}) && r in c
    requires c[r].kind == Limbo
    ensures var d := DvMoved(c, dv, r);
            Core(mem, smallmap, treemap, h, d, segs) && Keeps(mem, c, mem, d, {}) && SamePrev(c, d)
    ensures var d := DvMoved(c, dv, r); Owned(d, r, c[r].size, top, topsize, if dvsize == 0 then {} else {dv})
    ensures var d := DvMoved(c, dv, r); dvsize != 0 ==> dv in d && d[dv].kind == Limbo && d[dv].size == dvsize
  {
    hide Core, Keeps;
    NoZero(mem, smallmap, treemap, h, segs, c, r, dv, dvsize, top, topsize, {r});
    if dv != 0 { NoZero(mem, smallmap, treemap, h, segs, c, dv, dv, dvsize, top, topsize, {r}); }
    Retagged(mem, smallmap, treemap, h, segs, c, r, Dv);
    if dv != 0 {
      Retagged(mem, smallmap, treemap, h, segs, SetKind(c, r, Dv), dv, Limbo);
      KeepsBoth(mem, c, mem, SetKind(c, r, Dv), mem, DvMoved(c, dv, r));
    }
  }

  lemma Retagged(mem: Mem, smallmap: bv32, treemap: bv32, h: Homes, segs: seq<Segment>, c: Chunks, p: int, k: Kind)
    requires Core(mem, smallmap, treemap, h, c, segs) && Movable(c, p, k) && c[p].kind != Kind.Binned
    requires k != Kind.Binned
    ensures Core(mem, smallmap, treemap, h, SetKind(c, p, k), segs) && Keeps(mem, c, mem, SetKind(c, p, k), {})
  {
    assert BinView(SetKind(c, p, k)) == BinView(c);
    hide Shape, SegsOk, SegWords, BinsOk, Keeps, BinView, SetKind;
    SetKindShape(mem, c, segs, p, k);
  }

  /** `p` is handed out with at least `nb` bytes and less than a minimal chunk to spare; what precedes it is in use. */
  ghost predicate Granted(mem: Mem, c: Chunks, m: Mem, d: Chunks, p: int, nb: int) {
    Handed(mem, c, m, d, p) && PrevUsed(d, p) && nb <= d[p].size < nb + MIN_CHUNK_SIZE
  }
  // ---- which chunk serves a request

  /** `p` is next in line among the binned chunks of size `s`: the latest in a small bin, the oldest in a tree. */
  ghost predicate NextInLine(h: Homes, s: int, p: int) {
    && |h.small| == 32 && |h.trees| == 32
    && if 0 <= s < MIN_LARGE_SIZE then h.small[s / 8] != [] && h.small[s / 8][0] == p
       else 0 <= s < WORD && Index(s) < 32 && HasSize(h.trees[Index(s)], s) && Ring(h.trees[Index(s)], s) != []
            && Ring(h.trees[Index(s)], s)[0] == p
  }

  ghost predicate Fitting(c: Chunks, nb: int, q: int) { q in c && c[q].kind == Kind.Binned && c[q].size >= nb }

  /** Of all binned chunks that are large enough, `p` is one of the smallest, and next in line among them. */
  ghost predicate Smallest(h: Homes, c: Chunks, nb: int, p: int) {
    Fitting(c, nb, p) && NextInLine(h, c[p].size, p) && forall q | Fitting(c, nb, q) :: c[p].size <= c[q].size
  }

  ghost predicate NoneFitting(c: Chunks, nb: int) { forall q :: !Fitting(c, nb, q) }

  /**
   * The designated victim comes before the bins: for a small request, unless a chunk in a small bin leaves no
   * remainder; for a large one, unless a binned chunk is smaller.
   */
  ghost predicate DvFirst(c: Chunks, nb: int, dvsize: int) {
    nb <= dvsize && forall q | Fitting(c, nb, q) && (nb >= MIN_LARGE_SIZE || c[q].size < MIN_LARGE_SIZE) ::
      c[q].size >= if nb < MIN_LARGE_SIZE then nb + MIN_CHUNK_SIZE else dvsize
  }

  /** Where a request is served from, in order of preference. */
  ghost predicate Served(h: Homes, c: Chunks, nb: int, dv: int, dvsize: int, top: int, topsize: int, p: int) {
    if DvFirst(c, nb, dvsize) then p == dv
    else if !NoneFitting(c, nb) then Smallest(h, c, nb, p)
    else nb < topsize ==> p == top
  }

  /** No free chunk is large enough. */
  ghost predicate NoneLeft(c: Chunks, nb: int, dvsize: int, topsize: int) {
    NoneFitting(c, nb) && dvsize < nb && topsize <= nb
  }

  /** What the maps say of a binned chunk. */
  lemma BinnedMark(mem: Mem, smallmap: bv32, treemap: bv32, h: Homes, c: Chunks, segs: seq<Segment>, q: int)
    requires Core(mem, smallmap, treemap, h, c, segs) && q in c && c[q].kind == Kind.Binned
    ensures MIN_CHUNK_SIZE <= c[q].size < WORD && Mult8(c[q].size)
    ensures c[q].size < MIN_LARGE_SIZE ==> Marked(smallmap, c[q].size / 8)
    ensures c[q].size >= MIN_LARGE_SIZE ==> treemap != 0
  {
    hide Shape, SegsOk, SegWords, Marked, Index, HasSize, Ring;
    var f := BinView(c);
    var s := f[q];
    if s < MIN_LARGE_SIZE {
      assert q in Smalls(f);
      assert SmallBins.SmallAt(mem, h.small[s / 8], s / 8, smallmap, Smalls(f));
    } else {
      assert q in Larges(f) && TreeBins.InTrees(h.trees, Larges(f), q);
      IndexRange(s);
      TreeMarked(mem, h.trees, treemap, Larges(f), s);
    }
  }

  lemma TreeMarked(mem: Mem, trees: seq<Tree>, treemap: bv32, f: map<int, int>, s: int)
    requires TreeBins.TreesOk(mem, trees, treemap, f) && MIN_LARGE_SIZE <= s < WORD && Index(s) < 32
    requires HasSize(trees[Index(s)], s)
    ensures treemap != 0
  {
    assert TreeBins.TreeAt(mem, trees[Index(s)], Index(s), treemap, f);
    hide Marked, Index;
    NonZero(treemap, Index(s));
  }

  /** The lowest marked small bin from the request's own on holds the smallest chunks that fit. */
  lemma LowestBin(mem: Mem, smallmap: bv32, treemap: bv32, h: Homes, c: Chunks, segs: seq<Segment>, nb: int, i: nat,
                  p: int)
    requires Core(mem, smallmap, treemap, h, c, segs) && Mult8(nb) && nb <= 8 * i && i < 32
    requires p in c && c[p].kind == Kind.Binned && c[p].size == 8 * i && |h.small| == 32 && |h.trees| == 32
    requires h.small[i] != [] && h.small[i][0] == p && forall j: nat | nb / 8 <= j < i :: !Marked(smallmap, j)
    ensures Smallest(h, c, nb, p)
  {
    hide Core, Marked;
    forall q | Fitting(c, nb, q) ensures c[p].size <= c[q].size {
      BinnedMark(mem, smallmap, treemap, h, c, segs, q);
      BinOrder(nb, c[q].size, i);
    }
  }

  lemma EightTimes(nb: int)
    requires Mult8(nb)
    ensures nb == 8 * (nb / 8)
  {}

  lemma BinOrder(nb: int, s: int, i: nat)
    requires Mult8(nb) && Mult8(s) && nb <= s
    ensures nb / 8 <= s / 8 && (s < 8 * i ==> s / 8 < i)
  {}

  /**
   * With no marks from the request's own bin on, and perhaps none in the trees, what fits is in the trees or nowhere.
   */
  lemma NoSmall(mem: Mem, smallmap: bv32, treemap: bv32, h: Homes, c: Chunks, segs: seq<Segment>, nb: int)
    requires Core(mem, smallmap, treemap, h, c, segs) && Mult8(nb) && 0 <= nb
    requires forall j: nat | nb / 8 <= j < 32 :: !Marked(smallmap, j)
    ensures forall q | Fitting(c, nb, q) :: c[q].size >= MIN_LARGE_SIZE
    ensures treemap == 0 ==> NoneFitting(c, nb)
  {
    hide Core, Marked;
    forall q | Fitting(c, nb, q) ensures c[q].size >= MIN_LARGE_SIZE && treemap != 0 {
      BinnedMark(mem, smallmap, treemap, h, c, segs, q);
      BinOrder(nb, c[q].size, 32);
    }
  }

  lemma NoTrees(mem: Mem, smallmap: bv32, treemap: bv32, h: Homes, c: Chunks, segs: seq<Segment>, nb: int)
    requires Core(mem, smallmap, treemap, h, c, segs) && nb >= MIN_LARGE_SIZE && treemap == 0
    ensures NoneFitting(c, nb)
  {
    hide Core, Marked;
    forall q | Fitting(c, nb, q) ensures false { BinnedMark(mem, smallmap, treemap, h, c, segs, q); }
  }

  /** No chunk in the request's own bin or the next one: what is binned and fits leaves a remainder. */
  lemma Remainders(mem: Mem, smallmap: bv32, treemap: bv32, h: Homes, c: Chunks, segs: seq<Segment>, nb: int)
    requires Core(mem, smallmap, treemap, h, c, segs) && Mult8(nb) && MIN_CHUNK_SIZE <= nb < MIN_LARGE_SIZE
    requires !Marked(smallmap, nb / 8) && (nb / 8 + 1 < 32 ==> !Marked(smallmap, nb / 8 + 1))
    ensures forall q | Fitting(c, nb, q) && c[q].size < MIN_LARGE_SIZE :: c[q].size >= nb + MIN_CHUNK_SIZE
  {
    hide Core, Marked;
    forall q | Fitting(c, nb, q) && c[q].size < MIN_LARGE_SIZE ensures c[q].size >= nb + MIN_CHUNK_SIZE {
      BinnedMark(mem, smallmap, treemap, h, c, segs, q);
      if c[q].size < nb + MIN_CHUNK_SIZE { NextBin(nb, c[q].size); }
    }
  }

  lemma NextBin(nb: int, s: int)
    requires Mult8(nb) && Mult8(s) && nb <= s < nb + MIN_CHUNK_SIZE
    ensures s / 8 == nb / 8 || s / 8 == nb / 8 + 1
  {}

  lemma Remainderless(c: Chunks, nb: int, dvsize: int, p: int)
    requires Fitting(c, nb, p) && nb <= c[p].size < nb + MIN_CHUNK_SIZE && c[p].size < MIN_LARGE_SIZE
    ensures !DvFirst(c, nb, dvsize)
  {}

  lemma RemainderAll(c: Chunks, nb: int, dvsize: int)
    requires nb <= dvsize && nb < MIN_LARGE_SIZE
    requires forall q | Fitting(c, nb, q) && c[q].size < MIN_LARGE_SIZE :: c[q].size >= nb + MIN_CHUNK_SIZE
    ensures DvFirst(c, nb, dvsize)
  {}

  lemma DvTooSmall(c: Chunks, nb: int, dvsize: int)
    requires dvsize < nb
    ensures !DvFirst(c, nb, dvsize)
  {}

  lemma ServedBinned(h: Homes, c: Chunks, nb: int, dv: int, dvsize: int, top: int, topsize: int, p: int)
    requires Smallest(h, c, nb, p) && !DvFirst(c, nb, dvsize)
    ensures Served(h, c, nb, dv, dvsize, top, topsize, p)
  {
    hide Fitting, NextInLine, DvFirst;
  }

  lemma TreeSmallest(h: Homes, c: Chunks, nb: int, p: int)
    requires SmallestTree(c, nb, p) && NextInLine(h, c[p].size, p)
    requires forall q | Fitting(c, nb, q) :: c[q].size >= MIN_LARGE_SIZE
    ensures Smallest(h, c, nb, p)
  {
    hide NextInLine;
  }

  lemma LargeServed(h: Homes, c: Chunks, nb: int, v: int, dvsize: int)
    requires SmallestTree(c, nb, v) && NextInLine(h, c[v].size, v) && nb >= MIN_LARGE_SIZE
    ensures Smallest(h, c, nb, v) && (DvFirst(c, nb, dvsize) <==> nb <= dvsize <= c[v].size)
  {
    hide NextInLine;
    assert Fitting(c, nb, v);
  }

  lemma NoneThenDv(c: Chunks, nb: int, dvsize: int)
    requires NoneFitting(c, nb)
    ensures DvFirst(c, nb, dvsize) || dvsize < nb
  {}

  lemma RemainderlessBin(h: Homes, c: Chunks, nb: int, dvsize: int, i: nat, p: int)
    requires Smallest(h, c, nb, p) && c[p].size == 8 * i && i < 32 && 8 * i < nb + MIN_CHUNK_SIZE
    ensures !DvFirst(c, nb, dvsize)
  {
    hide NextInLine;
    Remainderless(c, nb, dvsize, p);
  }

  lemma SetKindAt(c: Chunks, p: int, k: Kind)
    requires p in c
    ensures var d := SetKind(c, p, k); p in d && d[p].kind == k && d[p].size == c[p].size
  {}

  lemma BinCount(mem: Mem, smallmap: bv32, treemap: bv32, h: Homes, c: Chunks, segs: seq<Segment>)
    requires Core(mem, smallmap, treemap, h, c, segs)
    ensures |h.small| == 32 && |h.trees| == 32
  {
    hide Shape, SegsOk, SegWords, Spaced;
  }

  lemma LargeNone(c: Chunks, nb: int, dvsize: int)
    requires nb >= MIN_LARGE_SIZE
    requires forall q | q in c && c[q].kind == Kind.Binned && c[q].size >= MIN_LARGE_SIZE :: c[q].size < nb
    ensures NoneFitting(c, nb) && (DvFirst(c, nb, dvsize) <==> nb <= dvsize)
  {}

  /** Of all binned chunks of tree size that are large enough, `p` is one of the smallest. */
  ghost predicate SmallestTree(c: Chunks, nb: int, p: int) {
    && p in c && c[p].kind == Kind.Binned && c[p].size >= nb && c[p].size >= MIN_LARGE_SIZE
    && forall q | q in c && c[q].kind == Kind.Binned && c[q].size >= MIN_LARGE_SIZE && c[q].size >= nb ::
         c[p].size <= c[q].size
  }

  lemma HandedAfter(m0: Mem, c0: Chunks, m1: Mem, c1: Chunks, m2: Mem, c2: Chunks, p: int)
    requires Keeps(m0, c0, m1, c1, {}) && Handed(m1, c1, m2, c2, p)
    ensures Handed(m0, c0, m2, c2, p)
  {
    KeepsTrans(m0, c0, m1, c1, m2, c2, {}, {p});
    assert {} + {p} == {p};
    assert p in c0 && c0[p].kind == Live ==> Stays(m0, c0, m1, c1, p);
  }

  lemma HandedThen(m0: Mem, c0: Chunks, m1: Mem, c1: Chunks, m2: Mem, c2: Chunks, p: int)
    requires Handed(m0, c0, m1, c1, p) && Keeps(m1, c1, m2, c2, {})
    ensures Handed(m0, c0, m2, c2, p) && c2[p].size == c1[p].size
  {
    KeepsTrans(m0, c0, m1, c1, m2, c2, {p}, {});
    assert {p} + {} == {p};
    assert Stays(m1, c1, m2, c2, p);
  }

  lemma TreesReady(mem: Mem, smallmap: bv32, treemap: bv32, h: Homes, c: Chunks, segs: seq<Segment>)
    requires Core(mem, smallmap, treemap, h, c, segs)
    ensures var f := Larges(BinView(c));
            |h.trees| == 32 && TreeBins.TreesOk(mem, h.trees, treemap, f) && SizesIn(mem, f) && Spaced(f)
  {
    var f := BinView(c);
    BinsReady(mem, smallmap, treemap, h, c, segs);
    SpacedPart(f, Larges(f));
    hide Shape, SegsOk, TreeBins.TreesOk, SmallBins.SmallOk, Spaced;
  }

  /** The best of the trees is the best of all the chunks they hold. */
  lemma BestAll(trees: seq<Tree>, f: map<int, int>, nb: int, q: int)
    requires |trees| == 32 && TreeBins.AllInTrees(trees, f) && q in f && MIN_LARGE_SIZE <= f[q] < WORD
    ensures forall p | BestFits(trees, f, nb, p) && f[q] >= nb :: f[p] <= f[q]
    ensures NoneFits(trees, nb) ==> f[q] < nb
  {
    assert TreeBins.InTrees(trees, f, q);
    IndexRange(f[q]);
    hide Index, Ring;
  }

  lemma LargesView(mem: Mem, smallmap: bv32, treemap: bv32, h: Homes, c: Chunks, segs: seq<Segment>)
    requires Core(mem, smallmap, treemap, h, c, segs)
    ensures |h.trees| == 32 && TreeBins.AllInTrees(h.trees, Larges(BinView(c)))
    ensures forall q :: q in Larges(BinView(c)) <==> q in c && c[q].kind == Kind.Binned && c[q].size >= MIN_LARGE_SIZE
    ensures forall q | q in Larges(BinView(c)) :: Larges(BinView(c))[q] == c[q].size < WORD
  {
    BinsReady(mem, smallmap, treemap, h, c, segs);
    hide Shape, SegsOk, TreeBins.TreesOk, SmallBins.SmallOk, Spaced, TreeBins.InTrees, SmallBins.AllInSmall;
  }

  lemma BestReady(mem: Mem, smallmap: bv32, treemap: bv32, h: Homes, c: Chunks, segs: seq<Segment>, nb: int, p: int)
    requires Core(mem, smallmap, treemap, h, c, segs) && |h.trees| == 32 && BestFits(h.trees, Larges(BinView(c)), nb, p)
    ensures SmallestTree(c, nb, p) && p in Larges(BinView(c)) && Larges(BinView(c))[p] == c[p].size && p > 0
    ensures p in c && c[p].kind == Kind.Binned && c[p].size >= nb && (|h.small| == 32 ==> NextInLine(h, c[p].size, p))
  {
    assert ChunkOk(p, c[p]);
    hide Core, Larges, BinView, Index, Ring, HasSize, TreeBins.AllInTrees;
    LargesView(mem, smallmap, treemap, h, c, segs);
    var f := Larges(BinView(c));
    forall q | q in f ensures f[q] >= nb ==> f[p] <= f[q] { BestAll(h.trees, f, nb, q); }
  }

  lemma NoneReady(mem: Mem, smallmap: bv32, treemap: bv32, h: Homes, c: Chunks, segs: seq<Segment>, nb: int)
    requires Core(mem, smallmap, treemap, h, c, segs) && |h.trees| == 32 && NoneFits(h.trees, nb)
    ensures forall q | q in c && c[q].kind == Kind.Binned && c[q].size >= MIN_LARGE_SIZE :: c[q].size < nb
  {
    hide Core, Larges, BinView, NoneFits, TreeBins.AllInTrees;
    LargesView(mem, smallmap, treemap, h, c, segs);
    var f := Larges(BinView(c));
    forall q | q in f ensures f[q] < nb { BestAll(h.trees, f, nb, q); }
  }

  lemma Sub32Is(a: int, b: int)
    requires 0 <= a < WORD && 0 < b < WORD
    ensures Sub32(a, b) == if a >= b then a - b else a - b + WORD
  {}

  /** The comparison of unsigned remainders says whether the designated victim fits at least as tightly. */
  lemma LargeFit(mem: Mem, smallmap: bv32, treemap: bv32, h: Homes, c: Chunks, segs: seq<Segment>, nb: int, v: int,
                 dv: int, dvsize: int, top: int, topsize: int)
    requires Core(mem, smallmap, treemap, h, c, segs) && Owned(c, dv, dvsize, top, topsize, {}) && v in c
    requires nb <= c[v].size && 0 < nb
    ensures c[v].size - nb < Sub32(dvsize, nb) <==> !(nb <= dvsize <= c[v].size)
  {
    hide Mult8;
    assert ChunkOk(v, c[v]);
    if dv != 0 { assert ChunkOk(dv, c[dv]); }
    hide Core, Owned;
    Sub32Is(dvsize, nb);
  }

  lemma PrevThen(c: Chunks, d: Chunks, v: int)
    requires SamePrev(c, d) && v in d && FreeKind(d[v].kind)
    ensures SamePrev(c, SetKind(d, v, Kind.Binned))
  {
    forall x | x in c
      ensures x in SetKind(d, v, Kind.Binned) && PrevUsed(SetKind(d, v, Kind.Binned), x) == PrevUsed(c, x)
    {
      assert x in d && PrevUsed(d, x) == PrevUsed(c, x);
      SetKindPrev(d, v, Kind.Binned, x);
    }
  }
}

/** The allocator's state and the operations on it. */
module Malloc {
  import opened Words
  import opened BinMaps
  import opened BestFit
  import opened FreeLinks
  import opened LargeChunks
  import opened Bins
  import opened Chunks
  import opened Headers
  import opened Heaps
  import opened Steps
  import opened Growth
  import opened System
  import opened Resizing
  import opened Aligning
  import opened Bulk
  import opened Effects
  import opened NewMemory
  import Tries

  class MallocState {
    var mem: Mem
    var smallmap: bv32
    var treemap: bv32
    var dv: int
    var dvsize: int
    var top: int
    var topsize: int
    var leastAddr: int
    var trimCheck: int
    var footprint: int
    var maxFootprint: int
    const footprintLimit: int
    var noncontiguous: bool
    var segs: seq<Segment>
    /** The system's break, and the requests it has refused so far. */
    var brk: int
    ghost var refusals: seq<int>
    ghost var c: Chunks
    ghost var h: Homes

    ghost predicate Sound(limbo: set<int>)
      reads this
    {
      && Core(mem, smallmap, treemap, h, c, segs) && Owned(c, dv, dvsize, top, topsize, limbo)
      && Least(segs, leastAddr)
    }

    /** The threshold for trimming is two megabytes, or one that is never reached. */
    ghost predicate Checked()
      reads this
    {
      if top == 0 then trimCheck == 0 else trimCheck == 0x20_0000 || trimCheck == WORD - 1
    }

    ghost predicate Valid()
      reads this
    {
      Sound({}) && Accounts(segs, leastAddr, footprint, maxFootprint) && BrkOk(brk) && Checked()
    }

    ghost function Now(): View reads this { View(c, h, dv, dvsize, top, topsize) }

    ghost function Deals(): Dealings
      reads this
    {
      Dealings(segs, leastAddr, trimCheck, footprint, maxFootprint, noncontiguous, brk, refusals)
    }

    /** ok_address holds of every chunk. */
    lemma Addressed(p: int)
      requires Core(mem, smallmap, treemap, h, c, segs) && Least(segs, leastAddr) && p in c
      ensures OkAddress(leastAddr, p)
    {
      hide Least, Shape, SegWords, BinsOk, SegsOk;
      AboveLeast(segs, c, leastAddr, p);
    }

    /** unlink_chunk */
    method Unlink(p: int, s: int, ghost limbo: set<int>)
      requires Sound(limbo) && p in c && c[p].kind == Kind.Binned && c[p].size == s
      modifies `mem, `smallmap, `treemap, `c, `h
      ensures Sound(limbo + {p}) && c == SetKind(old(c), p, Limbo) && Keeps(old(mem), old(c), mem, c, {})
      ensures Homed(old(h)) && 0 <= s < WORD && h == Unbinned(old(h), p, s) && Homed(h)
    {
      hide Least, Core, Keeps, Owned, Accounts, BinView, BinsOk, SizesIn, Confined, SetKind, FreeIn;
      ghost var f := BinView(c);
      ghost var m0, c0, h0, sm, tm := mem, c, h, smallmap, treemap;
      BinsReady(mem, smallmap, treemap, h, c, segs);
      OwnedMove(c, dv, dvsize, top, topsize, limbo, p, Limbo);
      ViewOut(c, p);
      BinsAbove(mem, smallmap, treemap, h, c, segs, leastAddr);
      mem, smallmap, treemap := UnlinkChunk(mem, smallmap, treemap, leastAddr, p, s, h, f);
      h := Unbinned(h, p, s);
      c := SetKind(c, p, Limbo);
      Rehomed(m0, mem, sm, tm, smallmap, treemap, h0, h, c0, segs, p, Limbo, f);
    }

    /** insert_chunk */
    method Insert(p: int, s: int, ghost limbo: set<int>)
      requires Sound(limbo) && p in c && c[p].kind == Limbo && c[p].size == s
      modifies `mem, `smallmap, `treemap, `c, `h
      ensures Sound(limbo - {p}) && c == SetKind(old(c), p, Kind.Binned) && Keeps(old(mem), old(c), mem, c, {})
      ensures Homed(old(h)) && 0 <= s < WORD && h == Bins.Binned(old(h), p, s) && Homed(h)
    {
      hide Least, Core, Keeps, Owned, Accounts, BinView, BinsOk, SizesIn, Confined, SetKind, FreeIn, Spaced, Mult8;
      ghost var f := BinView(c);
      ghost var m0, c0, h0, sm, tm := mem, c, h, smallmap, treemap;
      BinsReady(mem, smallmap, treemap, h, c, segs);
      BinReady(mem, smallmap, treemap, h, c, segs, p);
      OwnedMove(c, dv, dvsize, top, topsize, limbo, p, Kind.Binned);
      BinsAbove(mem, smallmap, treemap, h, c, segs, leastAddr);
      mem, smallmap, treemap := InsertChunk(mem, smallmap, treemap, leastAddr, p, s, h, f);
      h := Bins.Binned(h, p, s);
      c := SetKind(c, p, Kind.Binned);
      Rehomed(m0, mem, sm, tm, smallmap, treemap, h0, h, c0, segs, p, Kind.Binned, f[p := s]);
    }

    /**
     * The part of dispose_chunk that looks backward: a free predecessor leaves its bin, unless it is the designated
     * victim.
     */
    method GatherBack(p0: int, psize0: int) returns (p: int, psize: int, ghost limbo: set<int>)
      requires Valid() && p0 in c && c[p0].kind == Live && c[p0].size == psize0
      modifies `mem, `smallmap, `treemap, `c, `h
      ensures Sound(limbo) && Gathered(c, segs, p, p0, p0 + psize0, p0) && psize == p0 + psize0 - p
      ensures limbo == (if p == p0 || p == dv then {} else {p}) && (p != p0 && p != dv ==> c[p].kind == Limbo)
      ensures Keeps(old(mem), old(c), mem, c, {})
      ensures p == Lead(old(c), p0) && Withdrawn(old(Now()), Now(), p) && (p == dv <==> IsA(old(c), p, Dv))
    {
      hide Least, Core, Keeps, Owned, Accounts, Gathered, Rd, CInuse, PInuse, PrevUsed;
      HomeKind(c, dv, dvsize, top, topsize, {});
      p, psize, limbo := p0, psize0, {};
      KeepsSame(mem, c);
      LeadRead(mem, smallmap, treemap, h, c, segs, p0);
      NoZero(mem, smallmap, treemap, h, segs, c, p0, dv, dvsize, top, topsize, {});
      BehindReady(mem, smallmap, treemap, h, c, segs, dv, dvsize, top, topsize, p0);
      if !PInuse(Rd(mem, p0 + 4)) {
        assert CInuse(Rd(mem, p0 + 4)); // not an mmapped chunk
        var prevsize := Rd(mem, p0);
        p, psize := p0 - prevsize, psize0 + prevsize;
        Addressed(p);
        assert OkAddress(leastAddr, p);
        if p != dv {
          Unlink(p, prevsize, {});
          limbo := {} + {p};
        }
      }
    }

    /** set_free_with_pinuse: the gathered chunks become one free chunk before a chunk in use. */
    method FreeBeforeUsed(p: int, psize: int, next: int, ghost p0: int, ghost k: Kind, ghost limbo: set<int>)
      requires Sound(limbo) && Gathered(c, segs, p, p0, next, p0) && psize == next - p && next in c && c[next].Used()
      requires k == (if p == dv then Dv else Limbo) && limbo <= {p}
      modifies `mem, `dvsize, `c
      ensures Sound(if k == Dv then {} else {p}) && c == One(old(c), p, next, k) && Freed(old(mem), old(c), mem, c, p0)
      ensures OthersSame(old(c), c, {p, p0}) && Has(c, p, psize, k)
      ensures dvsize == if p == dv then psize else old(dvsize)
    {
      hide Least, Core, Keeps, Owned, Accounts, Gathered, One, Freed, SetFreeWithPinuse, Tiled, FreeWords, OthersSame;
      ghost var m0, c0 := mem, c;
      FreeWritten(mem, smallmap, treemap, h, segs, c, p, p0, next);
      GatheredHomes(c, segs, p, p0, next, p0, dv, dvsize, top, topsize, limbo);
      mem := SetFreeWithPinuse(mem, p, psize, next);
      if p == dv { dvsize := psize; }
      c := One(c, p, next, k);
      FreeSpan(m0, mem, smallmap, treemap, h, segs, c0, p, p0, next, p0, k);
      GatheredSame(segs, c0, p, p0, next, p0, k);
      assert {p, p0, p0} == {p, p0};
      OwnedOne(c0, p, next, k, dv, old(dvsize), top, topsize, limbo, dv, dvsize, top, topsize,
          if k == Dv then {} else {p});
    }

    /** Consolidation into top. */
    method FreeIntoTop(p: int, psize: int, next: int, ghost p0: int, ghost limbo: set<int>)
      requires Sound(limbo) && Gathered(c, segs, p, p0, next, p0) && psize == next - p && next == top && top != 0
      requires limbo <= {p}
      modifies `mem, `top, `topsize, `dv, `dvsize, `c
      ensures Sound({}) && top == p != 0 && topsize == old(topsize) + psize && Freed(old(mem), old(c), mem, c, p0)
      ensures OthersSame(old(c), c, {p, p0, next})
      ensures if p == old(dv) then dv == 0 && dvsize == 0 else dv == old(dv) && dvsize == old(dvsize)
    {
      hide Least, Core, Keeps, Owned, Accounts, Gathered, One, Freed, Tiled, FreeWords, OthersSame;
      ghost var m0, c0 := mem, c;
      ghost var b := next + topsize;
      HomeKind(c, dv, dvsize, top, topsize, limbo);
      GatherMore(mem, smallmap, treemap, h, segs, c, p, p0, next);
      GatheredHomes(c, segs, p, p0, b, next, dv, dvsize, top, topsize, limbo);
      topsize := topsize + psize;
      top := p;
      mem := Wr(mem, p + 4, Head(topsize, true, false));
      if p == dv { dv, dvsize := 0, 0; }
      c := One(c, p, b, Top);
      FreeSpan(m0, mem, smallmap, treemap, h, segs, c0, p, p0, b, next, Top);
      GatheredSame(segs, c0, p, p0, b, next, Top);
      OwnedOne(c0, p, b, Top, old(dv), old(dvsize), old(top), old(topsize), limbo, dv, dvsize, top, topsize, {});
    }

    /** Consolidation into the designated victim that follows. */
    method FreeIntoDv(p: int, psize: int, next: int, ghost p0: int, ghost limbo: set<int>)
      requires Sound(limbo) && Gathered(c, segs, p, p0, next, p0) && psize == next - p && next == dv && dv != 0
      requires limbo <= {p}
      modifies `mem, `dv, `dvsize, `c
      ensures Sound({}) && Freed(old(mem), old(c), mem, c, p0)
      ensures OthersSame(old(c), c, {p, p0, next}) && dv == p && dvsize == old(dvsize) + psize
    {
      hide Least, Core, Keeps, Owned, Accounts, Gathered, One, Freed, Tiled, FreeWords, SetFreeHead, OthersSame;
      ghost var m0, c0 := mem, c;
      ghost var b := next + dvsize;
      HomeKind(c, dv, dvsize, top, topsize, limbo);
      GatherMore(mem, smallmap, treemap, h, segs, c, p, p0, next);
      GatheredHomes(c, segs, p, p0, b, next, dv, dvsize, top, topsize, limbo);
      dvsize := dvsize + psize;
      dv := p;
      mem := SetFreeHead(mem, p, dvsize);
      c := One(c, p, b, Dv);
      FreeSpan(m0, mem, smallmap, treemap, h, segs, c0, p, p0, b, next, Dv);
      GatheredSame(segs, c0, p, p0, b, next, Dv);
      OwnedOne(c0, p, b, Dv, old(dv), old(dvsize), top, topsize, limbo, dv, dvsize, top, topsize, {});
    }

    /** Consolidation with a free chunk that has left its bin; the designated victim stays so. */
    method FreeWithNext(p: int, psize: int, next: int, ghost p0: int, ghost limbo: set<int>)
      requires Sound(limbo) && Gathered(c, segs, p, p0, next, p0) && next in c && c[next].kind == Limbo
      requires psize == next + c[next].size - p
      requires limbo <= {p, next} && p != next
      modifies `mem, `dvsize, `c
      ensures Sound(if p == dv then {} else {p}) && Freed(old(mem), old(c), mem, c, p0)
      ensures p != dv ==> p in c && c[p].kind == Limbo && c[p].size == psize
      ensures OthersSame(old(c), c, {p, p0, next}) && dvsize == if p == dv then psize else old(dvsize)
    {
      hide Least, Core, Keeps, Owned, Accounts, Gathered, Freed, Tiled, FreeWords, SetFreeHead, OthersSame, One;
      ghost var m0, c0 := mem, c;
      ghost var b := next + c[next].size;
      ghost var k := if p == dv then Dv else Limbo;
      HomeKind(c, dv, dvsize, top, topsize, limbo);
      GatherMore(mem, smallmap, treemap, h, segs, c, p, p0, next);
      GatheredHomes(c, segs, p, p0, b, next, dv, dvsize, top, topsize, limbo);
      mem := SetFreeHead(mem, p, psize);
      if p == dv { dvsize := psize; }
      c := One(c, p, b, k);
      FreeSpan(m0, mem, smallmap, treemap, h, segs, c0, p, p0, b, next, k);
      GatheredSame(segs, c0, p, p0, b, next, k);
      OwnedOne(c0, p, b, k, dv, old(dvsize), top, topsize, limbo, dv, dvsize, top, topsize,
          if p == dv then {} else {p});
    }

    /**
     * Consolidation with an ordinary free chunk, if one follows, and binning the result unless it is the designated
     * victim.
     */
    method FreeToBin(p: int, psize0: int, next: int, ghost p0: int, ghost limbo: set<int>)
      requires Sound(limbo) && Gathered(c, segs, p, p0, next, p0) && psize0 == next - p && limbo <= {p} && p < next
      requires next in c && (c[next].kind == Kind.Binned || (c[next].Used() && p != dv))
      requires CInuse(Rd(mem, next + 4)) == c[next].Used()
      requires ChunkSize(Rd(mem, next + 4)) == c[next].size
      modifies `mem, `smallmap, `treemap, `dvsize, `c, `h
      ensures Sound({}) && Freed(old(mem), old(c), mem, c, p0)
      ensures Rejoined(old(Now()), Now(), p, p0, next)
    {
      hide Least, Core, Keeps, Owned, Accounts, Gathered, Freed, Rd, CInuse, ChunkSize, OthersSame, SetKind, One;
      hide Unbinned, Bins.Binned;
      var psize := psize0;
      if !CInuse(Rd(mem, next + 4)) {
        var nsize := ChunkSize(Rd(mem, next + 4));
        psize := psize + nsize;
        GatheredStays(c, segs, p, p0, next, limbo);
        Unlink(next, nsize, limbo);
        ghost var m1, c1 := mem, c;
        FreeWithNext(p, psize, next, p0, limbo + {next});
        FreedAfter(old(mem), old(c), m1, c1, mem, c, p0);
        UnlinkedSame(old(c), next, c, {p, p0, next});
        if p == dv { return; }
      } else {
        FreeBeforeUsed(p, psize, next, p0, Limbo, limbo);
      }
      ghost var m2, c2 := mem, c;
      HomeSame(old(c), c, if Idle(old(c), next) then {p, p0, next} else {p, p0}, p, Kind.Binned);
      Insert(p, psize, {p});
      assert {p} - {p} == {};
      FreedThen(old(mem), old(c), m2, c2, mem, c, p0);
    }

    /** The part of dispose_chunk that looks forward; `v` is what things were before it looked backward. */
    method FreeForward(p: int, psize: int, next: int, ghost p0: int, ghost limbo: set<int>, ghost v: View)
      returns (intoTop: bool)
      requires Sound(limbo) && Gathered(c, segs, p, p0, next, p0) && psize == next - p && limbo <= {p}
      requires p0 in v.c && next == p0 + v.c[p0].size && p == Lead(v.c, p0)
      requires Withdrawn(v, Now(), p) && (p == dv <==> IsA(v.c, p, Dv))
      modifies `mem, `smallmap, `treemap, `dv, `dvsize, `top, `topsize, `c, `h
      ensures Sound({}) && Freed(old(mem), old(c), mem, c, p0)
      ensures Coalescing(v, Now(), p0) && intoTop == IsA(v.c, next, Top)
      ensures top + topsize == old(top) + old(topsize) && (top == 0 <==> old(top) == 0)
    {
      hide Least, Core, Keeps, Owned, Accounts, Gathered, Freed, Rd, CInuse, PInuse, SetKind, ChunkSize;
      hide Coalescing, Rejoined, Lead, Less, OthersSame, Withdrawn, Unbinned, Bins.Binned, One, Homed;
      intoTop := false;
      ghost var u := Now();
      HomeKind(c, dv, dvsize, top, topsize, limbo);
      NextReady(mem, smallmap, treemap, h, segs, c, dv, dvsize, top, topsize, limbo, p, p0, next);
      WithdrawnKind(v, u, p, next);
      if p == dv && CInuse(Rd(mem, next + 4)) && PInuse(Rd(mem, next + 4)) {
        FreeBeforeUsed(p, psize, next, p0, Dv, limbo);
        MergedDv(v, u, Now(), p, p0, next);
      } else {
        Addressed(next);
        assert OkAddress(leastAddr, next);
        if !CInuse(Rd(mem, next + 4)) && next == top {
          FreeIntoTop(p, psize, next, p0, limbo);
          MergedTop(v, u, Now(), p, p0, next);
          intoTop := true;
        } else if !CInuse(Rd(mem, next + 4)) && next == dv {
          FreeIntoDv(p, psize, next, p0, limbo);
          MergedDv(v, u, Now(), p, p0, next);
        } else {
          FreeToBin(p, psize, next, p0, limbo);
          MergedBin(v, u, Now(), p, p0, next);
        }
      }
    }

    /** Consolidate the chunk at `p0` with free neighbours; the result is top, the designated victim or in a bin. */
    method Dispose(p0: int, psize0: int) returns (intoTop: bool)
      requires Valid() && p0 in c && c[p0].kind == Live && c[p0].size == psize0
      modifies `mem, `smallmap, `treemap, `dv, `dvsize, `top, `topsize, `c, `h
      ensures Valid() && Freed(old(mem), old(c), mem, c, p0)
      ensures Coalescing(old(Now()), Now(), p0) && intoTop == IsA(old(c), p0 + psize0, Top)
      ensures top + topsize == old(top) + old(topsize) && (top == 0 <==> old(top) == 0)
    {
      hide Least, Core, Keeps, Owned, Accounts, Gathered, Freed, Coalescing, Lead, Withdrawn, IsA;
      ghost var limbo;
      var p, psize;
      p, psize, limbo := GatherBack(p0, psize0);
      ghost var m1, c1 := mem, c;
      intoTop := FreeForward(p, psize, p0 + psize0, p0, limbo, old(Now()));
      FreedAfter(old(mem), old(c), m1, c1, mem, c, p0);
    }

    /** A free chunk without a home, or the designated victim, is handed out whole. */
    method UseWhole(p: int, s: int, ghost limbo: set<int>)
      requires Sound(limbo) && p in c && (c[p].kind == Limbo || c[p].kind == Dv) && c[p].size == s
      modifies `mem, `dv, `dvsize, `c
      ensures Sound(limbo - {p}) && Handed(old(mem), old(c), mem, c, p) && c[p].size == s && PrevUsed(c, p)
      ensures OthersSame(old(c), c, {p})
      ensures if old(c[p].kind) == Limbo then dv == old(dv) && dvsize == old(dvsize) else dv == 0 && dvsize == 0
    {
      hide Least, Core, Keeps, Owned, Accounts, SetInuseAndPinuse, One, OthersSame;
      ghost var m0, c0 := mem, c;
      HomeKind(c, dv, dvsize, top, topsize, limbo);
      NoZero(mem, smallmap, treemap, h, segs, c, p, dv, dvsize, top, topsize, limbo);
      DvKind(c, dv, dvsize, top, topsize, limbo, p);
      OneSame(mem, smallmap, treemap, h, segs, c, p, Live);
      if p == dv { dv, dvsize := 0, 0; }
      mem := SetInuseAndPinuse(mem, p, s);
      c := One(c, p, p + s, Live);
      UsedWhole(m0, smallmap, treemap, h, segs, c0, p);
      OwnedOne(c0, p, p + s, Live, old(dv), old(dvsize), top, topsize, limbo, dv, dvsize, top, topsize, limbo - {p});
    }

    /** The front of a free chunk without a home is handed out; the rest is such a chunk. */
    method UseFront(p: int, nb: int, rsize: int, ghost limbo: set<int>)
      requires Sound(limbo) && p in c && c[p].kind == Limbo && c[p].size == nb + rsize && Mult8(nb)
      requires nb >= MIN_CHUNK_SIZE && rsize >= MIN_CHUNK_SIZE
      modifies `mem, `c
      ensures Sound(limbo - {p} + {p + nb}) && Handed(old(mem), old(c), mem, c, p) && c[p].size == nb && PrevUsed(c, p)
      ensures p + nb in c && c[p + nb].kind == Limbo && c[p + nb].size == rsize
      ensures OthersSame(old(c), c, {p})
    {
      hide Least, Core, Keeps, Owned, Accounts, SetInuseHead, SetFreeHead, Mult8, FrontWords, Two, OthersSame;
      ghost var m0, c0 := mem, c;
      HomeKind(c, dv, dvsize, top, topsize, limbo);
      NoZero(mem, smallmap, treemap, h, segs, c, p, dv, dvsize, top, topsize, limbo);
      FrontWritten(mem, smallmap, treemap, h, segs, c, p, nb, rsize);
      mem := SetInuseHead(mem, p, nb);
      mem := SetFreeHead(mem, p + nb, rsize);
      TwoSame(m0, smallmap, treemap, h, segs, c, p, p + nb, Live, Limbo);
      c := Two(c, p, p + nb, p + nb + rsize, Live, Limbo);
      UsedFront(m0, mem, smallmap, treemap, h, segs, c0, p, nb, rsize, Limbo);
      OwnedTwo(c0, p, p + nb, p + nb + rsize, Live, Limbo, dv, dvsize, top, topsize, limbo, dv, dvsize, top, topsize,
          limbo - {p} + {p + nb});
    }

    /** The front of the designated victim is handed out. */
    method UseFrontOfDv(nb: int, rsize: int) returns (p: int)
      requires Valid() && dv != 0 && dvsize == nb + rsize && Mult8(nb) && nb >= MIN_CHUNK_SIZE
      requires rsize >= MIN_CHUNK_SIZE
      modifies `mem, `dv, `dvsize, `c
      ensures Valid() && Handed(old(mem), old(c), mem, c, p) && c[p].size == nb && p == old(dv) && PrevUsed(c, p)
      ensures OthersSame(old(c), c, {p}) && dv == p + nb && dvsize == rsize
    {
      hide Least, Core, Keeps, Owned, Accounts, SetInuseHead, SetFreeHead, Mult8, FrontWords, Two, OthersSame;
      ghost var m0, c0 := mem, c;
      HomeKind(c, dv, dvsize, top, topsize, {});
      NoZero(mem, smallmap, treemap, h, segs, c, dv, dv, dvsize, top, topsize, {});
      p := dv;
      FrontWritten(mem, smallmap, treemap, h, segs, c, p, nb, rsize);
      dv, dvsize := p + nb, rsize;
      mem := SetFreeHead(mem, dv, rsize);
      mem := SetInuseHead(mem, p, nb);
      TwoSame(m0, smallmap, treemap, h, segs, c, p, p + nb, Live, Dv);
      c := Two(c, p, p + nb, p + nb + rsize, Live, Dv);
      UsedFront(m0, mem, smallmap, treemap, h, segs, c0, p, nb, rsize, Dv);
      OwnedTwo(c0, p, p + nb, p + nb + rsize, Live, Dv, p, old(dvsize), top, topsize, {}, dv, dvsize, top, topsize, {});
    }

    /** The front of top is handed out. */
    method UseFrontOfTop(nb: int) returns (p: int)
      requires Valid() && nb < topsize && Mult8(nb) && nb >= MIN_CHUNK_SIZE
      modifies `mem, `top, `topsize, `c
      ensures Valid() && Handed(old(mem), old(c), mem, c, p) && c[p].size == nb && p == old(top) && PrevUsed(c, p)
      ensures FromTop(old(Now()), Now(), nb, p)
    {
      hide Least, Core, Keeps, Owned, Accounts, SetInuseHead, Mult8, Mult4, FrontWords, Two, OthersSame;
      ghost var m0, c0 := mem, c;
      HomeKind(c, dv, dvsize, top, topsize, {});
      NoZero(mem, smallmap, treemap, h, segs, c, top, dv, dvsize, top, topsize, {});
      p := top;
      Mult4Gap(nb, topsize);
      FrontWritten(mem, smallmap, treemap, h, segs, c, p, nb, topsize - nb);
      topsize := topsize - nb;
      top := p + nb;
      mem := Wr(mem, top + 4, Head(topsize, true, false));
      mem := SetInuseHead(mem, p, nb);
      TwoSame(m0, smallmap, treemap, h, segs, c, p, p + nb, Live, Top);
      c := Two(c, p, p + nb, p + nb + topsize, Live, Top);
      UsedFront(m0, mem, smallmap, treemap, h, segs, c0, p, nb, topsize, Top);
      OwnedTwo(c0, p, p + nb, p + nb + topsize, Live, Top, dv, dvsize, p, old(topsize), {}, dv, dvsize, top, topsize,
          {});
    }

    /** unlink_first_small_chunk on a bin the map marks. */
    method UnlinkFirst(i: nat) returns (p: int)
      requires Valid() && i < 32 && Marked(smallmap, i)
      modifies `mem, `smallmap, `c, `h
      ensures Sound({p}) && p in old(c) && old(c[p].kind) == Kind.Binned && old(c[p].size) == 8 * i
      ensures c == SetKind(old(c), p, Limbo) && Keeps(old(mem), old(c), mem, c, {}) && p > 0
      ensures |old(h.small)| == 32 && |old(h.trees)| == 32 && old(h.small)[i] != [] && old(h.small)[i][0] == p
      ensures h == Unbinned(old(h), p, 8 * i) && Homed(h)
    {
      hide Least, Core, Keeps, Owned, Accounts, BinView, BinsOk, SizesIn, Confined, SetKind, FreeIn, Marked, Mult8;
      ghost var f := BinView(c);
      ghost var m0, c0, h0, sm := mem, c, h, smallmap;
      BinsReady(mem, smallmap, treemap, h, c, segs);
      BinsAbove(mem, smallmap, treemap, h, c, segs, leastAddr);
      mem, smallmap, p := TakeFirst(mem, smallmap, leastAddr, i, treemap, h, f);
      InView(c, p);
      Positive(m0, sm, treemap, h, c, segs, p);
      OwnedMove(c, dv, dvsize, top, topsize, {}, p, Limbo);
      ViewOut(c, p);
      assert {} + {p} == {p};
      h := Unbinned(h, p, 8 * i);
      c := SetKind(c, p, Limbo);
      Rehomed(m0, mem, sm, treemap, smallmap, treemap, h0, h, c0, segs, p, Limbo, f);
    }

    /** replace_dv: `r` is the new designated victim, the old one, known to be small, goes to a bin. */
    method ReplaceDv(r: int, rsize: int)
      requires Sound({r}) && r in c && c[r].kind == Limbo && c[r].size == rsize && dvsize < MIN_LARGE_SIZE
      modifies `mem, `smallmap, `treemap, `dv, `dvsize, `c, `h
      ensures Sound({}) && dv == r && dvsize == rsize && Keeps(old(mem), old(c), mem, c, {}) && SamePrev(old(c), c)
      ensures OthersSame(old(c), c, {r, old(dv)}) && Victimised(old(h), h, c, old(dv), old(dvsize))
    {
      hide Least, Core, Keeps, Owned, Accounts, SetKind, OthersSame;
      ghost var c0 := c;
      MovedSame(c, dv, dvsize, r);
      var dvs, victim := dvsize, dv;
      NewDv(mem, smallmap, treemap, h, segs, c, dv, dvsize, top, topsize, r);
      dv, dvsize := r, rsize;
      c := DvMoved(c, victim, r);
      ghost var c1 := c;
      if dvs != 0 {
        Insert(victim, dvs, {victim});
        assert {victim} - {victim} == {};
        PrevThen(c0, c1, victim);
        KeepsBoth(old(mem), c0, old(mem), c1, mem, c);
        HomeSame(c0, c1, {r, victim}, victim, Kind.Binned);
      }
    }

    /** A binned chunk serves a request; what is left, if enough for a chunk, is for the caller to place. */
    method Carve(p: int, nb: int, rsize: int)
      requires Valid() && p in c && c[p].kind == Kind.Binned && c[p].size == nb + rsize && Mult8(nb)
      requires nb >= MIN_CHUNK_SIZE && rsize >= 0
      modifies `mem, `smallmap, `treemap, `dv, `dvsize, `c, `h
      ensures Sound(if rsize < MIN_CHUNK_SIZE then {} else {p + nb}) && Granted(old(mem), old(c), mem, c, p, nb)
      ensures dv == old(dv) && dvsize == old(dvsize)
      ensures rsize >= MIN_CHUNK_SIZE ==> p + nb in c && c[p + nb].kind == Limbo && c[p + nb].size == rsize
      ensures Cut(old(Now()), c, h, nb, p) && p != dv
    {
      hide Least, Core, Keeps, Owned, Accounts, Handed, Mult8;
      NothingInside(mem, smallmap, treemap, h, segs, c, p, p + nb, dv, dvsize, top, topsize);
      Unlink(p, nb + rsize, {});
      ghost var m1, c1 := mem, c;
      if rsize < MIN_CHUNK_SIZE {
        UseWhole(p, nb + rsize, {} + {p});
        assert {} + {p} - {p} == {};
      } else {
        UseFront(p, nb, rsize, {} + {p});
        assert {} + {p} - {p} + {p + nb} == {p + nb};
      }
      HandedAfter(old(mem), old(c), m1, c1, mem, c, p);
    }

    /** The best fitting tree chunk serves a small request; the rest becomes the designated victim. */
    method TmallocSmall(nb: int) returns (p: int)
      requires Valid() && treemap != 0 && Mult8(nb) && MIN_CHUNK_SIZE <= nb < MIN_LARGE_SIZE && dvsize < MIN_LARGE_SIZE
      modifies `mem, `smallmap, `treemap, `dv, `dvsize, `c, `h
      ensures Valid() && Granted(old(mem), old(c), mem, c, p, nb) && p != 0
      ensures SmallestTree(old(c), nb, p) && NextInLine(old(h), old(c)[p].size, p)
      ensures FromBin(old(Now()), Now(), nb, p)
    {
      hide Least, Core, Keeps, Owned, Accounts, PrevUsed, BinView, BinsOk, SizesIn, SetKind, Mult8, BestFits, Larges;
      hide NextInLine, SmallestTree, Cut, FromBin, Victimised, OthersSame;
      BinsReady(mem, smallmap, treemap, h, c, segs);
      TreesReady(mem, smallmap, treemap, h, c, segs);
      var rsize;
      p, rsize := SearchSmall(mem, treemap, nb, h.trees, Larges(BinView(c)));
      BestReady(mem, smallmap, treemap, h, c, segs, nb, p);
      Addressed(p);
      assert OkAddress(leastAddr, p) && p < p + nb;
      Carve(p, nb, rsize);
      if rsize >= MIN_CHUNK_SIZE {
        ghost var m1, c1, h1 := mem, c, h;
        ReplaceDv(p + nb, rsize);
        HandedThen(old(mem), old(c), m1, c1, mem, c, p);
        CutSmall(old(Now()), c1, h1, Now(), nb, p);
      } else {
        CutWhole(old(Now()), Now(), nb, p);
      }
    }

    /** The best fitting tree chunk serves a large request unless the designated victim fits at least as tightly. */
    method TmallocLarge(nb: int) returns (p: int)
      requires Valid() && Mult8(nb) && MIN_LARGE_SIZE <= nb < WORD
      modifies `mem, `smallmap, `treemap, `dv, `dvsize, `c, `h
      ensures Valid() && (p != 0 ==> Granted(old(mem), old(c), mem, c, p, nb))
      ensures p != 0 ==> Smallest(old(h), old(c), nb, p) && !DvFirst(old(c), nb, old(dvsize))
      ensures p == 0 ==>
        mem == old(mem) && smallmap == old(smallmap) && treemap == old(treemap) && c == old(c) && h == old(h)
      ensures p == 0 ==> DvFirst(c, nb, dvsize) || (NoneFitting(c, nb) && dvsize < nb)
      ensures dv == old(dv) && dvsize == old(dvsize)
      ensures p != 0 ==> FromBin(old(Now()), Now(), nb, p)
    {
      hide Least, Core, Keeps, Owned, Accounts, PrevUsed, BinView, BinsOk, SizesIn, SetKind, Mult8, BestFits, NoneFits;
      hide Larges;
      hide Fitting, NextInLine, SmallestTree, DvFirst, Smallest, NoneFitting, Cut, FromBin;
      hide Bins.Binned, Unbinned, Homed, Has;
      BinCount(mem, smallmap, treemap, h, c, segs);
      TreesReady(mem, smallmap, treemap, h, c, segs);
      var v, rsize := SearchLarge(mem, treemap, nb, h.trees, Larges(BinView(c)));
      if v != 0 {
        BestReady(mem, smallmap, treemap, h, c, segs, nb, v);
        LargeFit(mem, smallmap, treemap, h, c, segs, nb, v, dv, dvsize, top, topsize);
        LargeServed(h, c, nb, v, dvsize);
      } else {
        NoneReady(mem, smallmap, treemap, h, c, segs, nb);
        LargeNone(c, nb, dvsize);
      }
      p := 0;
      if v != 0 && rsize < Sub32(dvsize, nb) {
        Addressed(v);
        assert OkAddress(leastAddr, v) && v < v + nb;
        p := v;
        Carve(p, nb, rsize);
        if rsize >= MIN_CHUNK_SIZE {
          ghost var m1, c1, h1 := mem, c, h;
          Insert(p + nb, rsize, {p + nb});
          assert {p + nb} - {p + nb} == {};
          SetKindPrev(c1, p + nb, Kind.Binned, p);
          HandedThen(old(mem), old(c), m1, c1, mem, c, p);
          CutLarge(old(Now()), c1, h1, Now(), nb, p);
        } else {
          CutWhole(old(Now()), Now(), nb, p);
        }
      }
    }

    /** The small bins and the trees, for a request of small size. */
    method AllocSmall(nb: int) returns (p: int)
      requires Valid() && Mult8(nb) && MIN_CHUNK_SIZE <= nb < MIN_LARGE_SIZE
      modifies `mem, `smallmap, `treemap, `dv, `dvsize, `c, `h
      ensures Valid() && (p != 0 ==> Granted(old(mem), old(c), mem, c, p, nb))
      ensures p != 0 ==> Smallest(old(h), old(c), nb, p) && !DvFirst(old(c), nb, old(dvsize))
      ensures p == 0 ==> mem == old(mem) && c == old(c) && dv == old(dv) && dvsize == old(dvsize) && h == old(h)
      ensures p == 0 ==> DvFirst(c, nb, dvsize) || (NoneFitting(c, nb) && dvsize < nb)
      ensures p != 0 ==> FromBin(old(Now()), Now(), nb, p)
    {
      hide Core, Keeps, Owned, Accounts, Handed, Marked, And, Shr, Not, Shl, LeftBits, Idx2Bit, LeastBit, Bit2Idx;
      hide Least;
      hide Fitting, Smallest, NextInLine, NoneFitting, SmallestTree, SetKind, Mult8, DvFirst, FromBin, OthersSame;
      hide Bins.Binned, Unbinned, Homed;
      ghost var m0, sm, tm, h0, c0 := mem, smallmap, treemap, h, c;
      EightTimes(nb);
      var idx: nat := nb / 8;
      var smallbits := Shr(smallmap, idx);
      p := 0;
      LowPair(smallmap, idx);
      if And(smallbits, 3) != 0 {
        if And(Not(smallbits), 1) == 1 { idx := idx + 1; }
        p := UnlinkFirst(idx);
        LowestBin(m0, sm, tm, h0, c0, segs, nb, idx, p);
        RemainderlessBin(h0, c0, nb, dvsize, idx, p);
        SetKindAt(c0, p, Limbo);
        ghost var m1, c1 := mem, c;
        UseWhole(p, 8 * idx, {p});
        assert {p} - {p} == {};
        HandedAfter(old(mem), old(c), m1, c1, mem, c, p);
        TakenWhole(old(Now()), c1, Now(), nb, p);
      } else if nb > dvsize {
        DvTooSmall(c, nb, dvsize);
        if smallbits != 0 {
          NextSmall(smallmap, idx);
          var leftbits := And(Shl(smallbits, idx), LeftBits(Idx2Bit(idx)));
          var i := Bit2Idx(LeastBit(leftbits));
          p := SplitFirst(i, nb);
          LowestBin(m0, sm, tm, h0, c0, segs, nb, i, p);
        } else {
          NoBits(smallmap, idx);
          NoSmall(mem, smallmap, treemap, h, c, segs, nb);
          if treemap != 0 {
            p := TmallocSmall(nb);
            TreeSmallest(h0, c0, nb, p);
          }
        }
      } else {
        Remainders(mem, smallmap, treemap, h, c, segs, nb);
        RemainderAll(c, nb, dvsize);
      }
    }

    /** The first chunk of a small bin serves a request it exceeds; the rest becomes the designated victim. */
    method SplitFirst(i: nat, nb: int) returns (p: int)
      requires Valid() && i < 32 && Marked(smallmap, i) && Mult8(nb) && MIN_CHUNK_SIZE <= nb
      requires nb + MIN_CHUNK_SIZE <= 8 * i
      requires dvsize < nb
      modifies `mem, `smallmap, `treemap, `dv, `dvsize, `c, `h
      ensures Valid() && Granted(old(mem), old(c), mem, c, p, nb) && p != 0
      ensures p in old(c) && old(c[p].kind) == Kind.Binned && old(c[p].size) == 8 * i
      ensures |old(h.small)| == 32 && |old(h.trees)| == 32 && old(h.small)[i] != [] && old(h.small)[i][0] == p
      ensures nb < MIN_LARGE_SIZE ==> FromBin(old(Now()), Now(), nb, p)
    {
      hide Core, Keeps, Owned, Accounts, Handed, Marked, Least, SetKind, Mult8, FromBin, OthersSame, Victimised;
      hide Bins.Binned, Unbinned;
      p := UnlinkFirst(i);
      NothingInside(old(mem), old(smallmap), treemap, old(h), segs, old(c), p, p + nb, dv, dvsize, top, topsize);
      SetKindAt(old(c), p, Limbo);
      var rsize := 8 * i - nb;
      // with no chunk in the next bin up either, what is left makes a chunk
      assert rsize >= MIN_CHUNK_SIZE;
      ghost var m1, c1 := mem, c;
      UseFront(p, nb, rsize, {p});
      HandedAfter(old(mem), old(c), m1, c1, mem, c, p);
      assert {p} - {p} + {p + nb} == {p + nb};
      ghost var m2, c2 := mem, c;
      TakenFront(old(Now()), c1, c2, h, nb, p);
      ghost var h2 := h;
      ReplaceDv(p + nb, rsize);
      HandedThen(old(mem), old(c), m2, c2, mem, c, p);
      if nb < MIN_LARGE_SIZE { CutSmall(old(Now()), c2, h2, Now(), nb, p); }
    }

    /** init_top, for any address and size: see `TopReadsFree` for what the header then says. */
    method InitTop(p0: int, psize0: int)
      modifies `mem, `top, `topsize, `trimCheck
      ensures top == Up8(p0) && topsize == psize0 - Pad(p0) && trimCheck == TRIM_THRESHOLD
      ensures mem == Wr(Wr(old(mem), top + 4, TopHeader(topsize)), top + topsize + 4, TOP_FOOT_SIZE)
      ensures Mult4(topsize) ==> mem == TopWords(old(mem), top, topsize)
    {
      var offset := Pad(p0);
      var p, psize := p0 + offset, psize0 - offset;
      top := p;
      topsize := psize;
      mem := Wr(mem, p + 4, TopHeader(psize));
      mem := Wr(mem, p + psize + 4, TOP_FOOT_SIZE);
      trimCheck := TRIM_THRESHOLD;
      if Mult4(psize) { TopHeaderIs(psize); }
      hide Up8, TopHeader, Head;
    }

    /** add_segment: the current segment gets a record and fenceposts at its end, the new one holds top. */
    method AddSegment(tbase: int, tsize: int) returns (ghost sp0: int)
      requires Sound({}) && top != 0 && Got(segs, tbase, tsize) && leastAddr <= tbase
      modifies `mem, `smallmap, `treemap, `top, `topsize, `trimCheck, `segs, `c, `h
      ensures Sound({}) && top == Up8(tbase) && topsize == tsize - Pad(tbase) - TOP_FOOT_SIZE
      ensures Keeps(old(mem), old(c), mem, c, {})
      ensures |old(segs)| > 0 && segs == Added(old(segs), Up8(tbase), tsize - Pad(tbase), Pad(tbase), sp0)
      ensures top !in old(c) && Retired(old(Now()), Now(), old(segs)[0].End(), sp0) && trimCheck == TRIM_THRESHOLD
    {
      hide Least, Core, Keeps, Owned, OldEnding, SetInuseHead, DescriptionWords, SetFreeWithPinuse, TopWords;
      hide EndingStart, Retired, OthersSame, Bins.Binned, SetKind, Homed, NewSegment;
      hide Up8, Got, TopHeader, Adding, Mult8, Mult4, Rd, AddedChunks, Added;
      ghost var m0, c0, s0, b0 := mem, c, segs, topsize;
      ghost var base, pad := Up8(tbase), Pad(tbase);
      ghost var size := tsize - pad;
      AddReady(mem, smallmap, treemap, h, segs, c, tbase, tsize, dv, dvsize, top, topsize);
      var oldTop := top;
      var oldEnd := segs[0].End();
      var asp := Up8(oldEnd - (RECORD_SIZE + 16 + 7));
      var sp := if asp < oldTop + MIN_CHUNK_SIZE then oldTop else asp;
      sp0 := sp;
      InitTop(tbase, tsize - TOP_FOOT_SIZE);
      EndSegment(oldTop, sp, oldEnd);
      LeastAdded(segs, base, size, pad, sp, leastAddr);
      segs := Added(segs, Up8(tbase), tsize - Pad(tbase), Pad(tbase), sp);
      c := AddedChunks(c, oldTop, sp, base, size);
      ghost var c1 := c;
      AddDone(m0, mem, smallmap, treemap, h, s0, c0, oldTop, sp, base, size, pad, dv, dvsize, b0);
      if sp != oldTop {
        ghost var m2, c2 := mem, c;
        Insert(oldTop, sp - oldTop, {oldTop});
        assert {oldTop} - {oldTop} == {};
        KeepsBoth(m0, c0, m2, c2, mem, c);
      }
      RetiredNow(old(Now()), c1, Now(), s0, sp, base, size, pad);
    }

    /**
     * The end of the current segment: its record with its description, fenceposts, and the rest of old top as a free
     * chunk.
     */
    method EndSegment(oldTop: int, sp: int, oldEnd: int)
      requires |segs| > 0 && oldEnd == segs[0].End()
      requires (sp == oldTop || oldTop + 8 <= sp) && sp + RECORD_SIZE + 16 <= oldEnd
      modifies `mem
      ensures OldEnding(old(mem), mem, segs, oldTop, sp)
    {
      hide OldEnding, SetInuseHead, DescriptionWords, SetFreeWithPinuse, Rd;
      ghost var m1 := mem;
      mem := SetInuseHead(mem, sp, RECORD_SIZE);
      mem := DescriptionWords(mem, sp, segs[0], if |segs| > 1 then segs[1].rec + 8 else 0);
      var nfences;
      ghost var last;
      mem, nfences, last := Fence(mem, sp + RECORD_SIZE, oldEnd);
      assert nfences >= 2;
      EndingWritten(m1, mem, segs, oldTop, sp);
      if sp != oldTop {
        mem := SetFreeWithPinuse(mem, oldTop, sp - oldTop, sp);
      }
    }

    /** The front of segment `i` moves down to `p`, or `pad` bytes below. */
    method MoveFront(i: nat, p: int, pad: nat)
      requires i < |segs|
      modifies `mem, `segs
      ensures mem == MovedWords(old(mem), old(segs), i, p, pad) && segs == Extended(old(segs), i, p, pad)
      ensures old(Least(segs, leastAddr)) && leastAddr <= p - pad ==> Least(segs, leastAddr)
    {
      mem := MovedWords(mem, segs, i, p, pad);
      segs := Extended(segs, i, p, pad);
    }

    /** The last case of prepend_alloc: the rest of the space, with a free first chunk, goes to a bin. */
    method PrependBin(i: nat, p: int, pad: nat, nb: int)
      requires Sound({}) && FrontSpace(segs, i, p, nb) && PadClear(segs, i, p, pad) && leastAddr <= p - pad
      requires segs[i].base != top && segs[i].base != dv
      modifies `mem, `smallmap, `treemap, `segs, `c, `h
      ensures Sound({}) && segs == Extended(old(segs), i, p, pad) && Handed(old(mem), old(c), mem, c, p)
      ensures c[p].size == nb
      ensures PrevUsed(c, p)
      ensures Front(old(Now()), Now(), old(segs)[i].base, p, nb)
    {
      hide Least, Core, Keeps, Owned, Prepending, PrependWords, Prepended, SetInuseHead, SetFreeWithPinuse, MovedWords;
      hide Extended, Handed, Rd, ChunkSize, IsInuse, Front, OthersSame;
      hide Bins.Binned, Unbinned, SetKind;
      ghost var m0, c0, s0 := mem, c, segs;
      var next := segs[i].base;
      var q := p + nb;
      var qsize := next - p - nb;
      ghost var limbo: set<int> := {};
      KeepsSame(mem, c);
      PrependFrom(mem, smallmap, treemap, h, segs, c, i, p, nb, dv, dvsize, top, topsize);
      if !IsInuse(Rd(mem, next + 4)) {
        var nsize := ChunkSize(Rd(mem, next + 4));
        Unlink(next, nsize, {});
        limbo := {} + {next};
        next := next + nsize;
        qsize := qsize + nsize;
      }
      ghost var m1, c1, h1 := mem, c, h;
      PrependReady(mem, smallmap, treemap, h, segs, c, i, p, nb, next, Limbo);
      OwnedPrepend(segs, c, i, p, nb, next, Limbo, dv, dvsize, top, topsize, limbo, dv, dvsize, top, topsize, {q});
      mem := SetInuseHead(mem, p, nb);
      mem := SetFreeWithPinuse(mem, q, qsize, next);
      PrependDone(m1, mem, smallmap, treemap, h, s0, c1, i, p, nb, next, Limbo, pad);
      MoveFront(i, p, pad);
      c := Prepended(c, p, nb, next, Limbo);
      PrependHanded(m1, mem, s0, c1, i, p, nb, next, Limbo);
      PrependedSame(s0, c1, i, p, nb, next, Limbo);
      HandedAfter(m0, c0, m1, c1, mem, c, p);
      ghost var m2, c2 := mem, c;
      Insert(q, qsize, {q});
      assert {q} - {q} == {};
      SetKindPrev(c2, q, Kind.Binned, p);
      HandedThen(m0, c0, m2, c2, mem, c, p);
      FrontBin(old(Now()), c1, c2, h1, Now(), s0[i].base, p, nb, next);
    }

    /** New space before top joins it. */
    method PrependTop(i: nat, p: int, pad: nat, nb: int)
      requires Sound({}) && FrontSpace(segs, i, p, nb) && PadClear(segs, i, p, pad) && leastAddr <= p - pad
      requires segs[i].base == top
      modifies `mem, `top, `topsize, `segs, `c
      ensures Sound({}) && top != 0 && segs == Extended(old(segs), i, p, pad) && Handed(old(mem), old(c), mem, c, p)
      ensures c[p].size == nb
      ensures PrevUsed(c, p)
      ensures Front(old(Now()), Now(), old(segs)[i].base, p, nb)
    {
      hide Least, Core, Keeps, Owned, Prepending, PrependWords, Prepended, SetInuseHead, MovedWords, Extended, Handed;
      hide SetKind, OthersSame;
      ghost var m0, c0, s0 := mem, c, segs;
      var q := p + nb;
      var qsize := top - p - nb;
      PrependFrom(mem, smallmap, treemap, h, segs, c, i, p, nb, dv, dvsize, top, topsize);
      ghost var b := top + topsize;
      PrependReady(mem, smallmap, treemap, h, segs, c, i, p, nb, b, Top);
      OwnedPrepend(segs, c, i, p, nb, b, Top, dv, dvsize, top, topsize, {}, dv, dvsize, q, topsize + qsize, {});
      topsize := topsize + qsize;
      top := q;
      mem := SetInuseHead(mem, p, nb);
      mem := Wr(mem, q + 4, Head(topsize, true, false));
      PrependDone(m0, mem, smallmap, treemap, h, s0, c0, i, p, nb, b, Top, pad);
      MoveFront(i, p, pad);
      c := Prepended(c, p, nb, b, Top);
      PrependHanded(m0, mem, s0, c0, i, p, nb, b, Top);
      PrependedSame(s0, c0, i, p, nb, b, Top);
    }

    /** New space before the designated victim joins it. */
    method PrependDv(i: nat, p: int, pad: nat, nb: int)
      requires Sound({}) && FrontSpace(segs, i, p, nb) && PadClear(segs, i, p, pad) && leastAddr <= p - pad
      requires segs[i].base == dv
      modifies `mem, `dv, `dvsize, `segs, `c
      ensures Sound({}) && segs == Extended(old(segs), i, p, pad) && Handed(old(mem), old(c), mem, c, p)
      ensures c[p].size == nb
      ensures PrevUsed(c, p)
      ensures Front(old(Now()), Now(), old(segs)[i].base, p, nb)
    {
      hide Least, Core, Keeps, Owned, Prepending, PrependWords, Prepended, SetInuseHead, SetFreeHead, MovedWords;
      hide Extended, Handed, SetKind, OthersSame;
      ghost var m0, c0, s0 := mem, c, segs;
      HomeKind(c, dv, dvsize, top, topsize, {});
      var q := p + nb;
      var qsize := dv - p - nb;
      PrependFrom(mem, smallmap, treemap, h, segs, c, i, p, nb, dv, dvsize, top, topsize);
      ghost var b := dv + dvsize;
      PrependReady(mem, smallmap, treemap, h, segs, c, i, p, nb, b, Dv);
      OwnedPrepend(segs, c, i, p, nb, b, Dv, dv, dvsize, top, topsize, {}, q, dvsize + qsize, top, topsize, {});
      dvsize := dvsize + qsize;
      dv := q;
      mem := SetInuseHead(mem, p, nb);
      mem := SetFreeHead(mem, q, dvsize);
      PrependDone(m0, mem, smallmap, treemap, h, s0, c0, i, p, nb, b, Dv, pad);
      MoveFront(i, p, pad);
      c := Prepended(c, p, nb, b, Dv);
      PrependHanded(m0, mem, s0, c0, i, p, nb, b, Dv);
      PrependedSame(s0, c0, i, p, nb, b, Dv);
    }

    /**
     * prepend_alloc: the request is met at the start of new space before segment `i`; the rest joins a free first
     * chunk.
     */
    method PrependAlloc(i: nat, p: int, pad: nat, nb: int)
      requires Sound({}) && FrontSpace(segs, i, p, nb) && PadClear(segs, i, p, pad) && leastAddr <= p - pad
      modifies `mem, `smallmap, `treemap, `dv, `dvsize, `top, `topsize, `segs, `c, `h
      ensures old(top) != 0 ==> top != 0
      ensures Sound({}) && segs == Extended(old(segs), i, p, pad) && Handed(old(mem), old(c), mem, c, p)
      ensures c[p].size == nb
      ensures PrevUsed(c, p)
      ensures Front(old(Now()), Now(), old(segs)[i].base, p, nb)
    {
      hide Least, Core, Keeps, Owned, Handed, Front;
      var first := segs[i].base;
      if first == top {
        PrependTop(i, p, pad, nb);
      } else if first == dv {
        PrependDv(i, p, pad, nb);
      } else {
        PrependBin(i, p, pad, nb);
      }
    }

    /**
     * MORECORE, that is sbrk: on success the old break is returned and the break has moved. The system may refuse;
     * it does not hand out memory it gave before, and what it hands out ends on a word.
     */
    method Morecore(inc: int) returns (br: int)
      requires BrkOk(brk)
      modifies `brk, `refusals
      ensures BrkOk(brk)
      ensures Supplied(old(brk), inc, br, brk)
      ensures br != CMFAIL && inc >= PADDING ==> Got(segs, br, inc)
      ensures inc == 0 ==> br != CMFAIL
      ensures refusals == if br == CMFAIL then old(refusals) + [inc] else old(refusals)
    {
      var granted: bool := *;
      if inc == 0 {
        br := brk;
      } else if granted && HEAP_MIN <= brk + inc < HEAP_MAX
         && (inc <= 0 || Mult4(brk + inc))
         && (inc <= 0 || forall i | 0 <= i < |segs| :: segs[i].End() <= brk || brk + inc <= segs[i].Start())
      {
        br := brk;
        brk := brk + inc;
      } else {
        br := CMFAIL;
        refusals := refusals + [inc];
      }
    }

    /** The record of the segment after number `i` in the list, if there is one. */
    ghost function RecordAfter(i: int): int
      requires 0 <= i < |segs|
      reads this
    {
      if i + 1 < |segs| then segs[i + 1].rec + 8 else 0
    }

    /** What the state says of the current segment. */
    method Current() returns (start: int, end: int, next: int)
      requires |segs| > 0
      ensures start == segs[0].Start() && end == segs[0].End() && next == RecordAfter(0)
    {
      start, end := segs[0].Start(), segs[0].End();
      next := if |segs| > 1 then segs[1].rec + 8 else 0;
    }

    /** What the record at `at` says of its segment. */
    method Older(at: int, ghost i: nat) returns (start: int, end: int, next: int)
      requires Core(mem, smallmap, treemap, h, c, segs) && i < |segs| && at == RecordAfter(i) != 0
      ensures i + 1 < |segs| && start == segs[i + 1].Start() && end == segs[i + 1].End() && next == RecordAfter(i + 1)
    {
      hide Shape, SegsOk, BinsOk;
      assert RecordWords(mem, segs, i + 1);
      start, next := Rd(mem, at), Rd(mem, at + 8);
      end := start + Rd(mem, at + 4);
    }

    lemma LastRecord(i: nat)
      requires Core(mem, smallmap, treemap, h, c, segs) && i < |segs|
      ensures RecordAfter(i) == 0 <==> i + 1 == |segs|
    {
      if i + 1 < |segs| {
        hide SegWords, BinsOk;
        assert RecordOk(segs[i + 1], c) && SegmentOk(segs[i + 1]);
      }
    }

    /** segment_holding: from the current segment through the records of the older ones. */
    method SegmentHolding(addr: int) returns (i: nat)
      requires Core(mem, smallmap, treemap, h, c, segs)
      ensures i <= |segs| && (i < |segs| ==> segs[i].Start() <= addr < segs[i].End())
      ensures forall j | 0 <= j < i :: !(segs[j].Start() <= addr < segs[j].End())
    {
      hide Core;
      i := 0;
      if |segs| == 0 { return; }
      var start, end, next := Current();
      while !(start <= addr < end)
        invariant i < |segs| && start == segs[i].Start() && end == segs[i].End() && next == RecordAfter(i)
        invariant forall j | 0 <= j < i :: !(segs[j].Start() <= addr < segs[j].End())
        decreases |segs| - i
      {
        LastRecord(i);
        if next == 0 { return i + 1; }
        start, end, next := Older(next, i);
        i := i + 1;
      }
    }

    /** The first segment in the list that ends at an address. */
    method EndingAt(addr: int) returns (i: nat)
      requires Core(mem, smallmap, treemap, h, c, segs)
      ensures i <= |segs| && (i < |segs| ==> segs[i].End() == addr) && forall j | 0 <= j < i :: segs[j].End() != addr
    {
      hide Core;
      i := 0;
      if |segs| == 0 { return; }
      var start, end, next := Current();
      while end != addr
        invariant i < |segs| && start == segs[i].Start() && end == segs[i].End() && next == RecordAfter(i)
        invariant forall j | 0 <= j < i :: segs[j].End() != addr
        decreases |segs| - i
      {
        LastRecord(i);
        if next == 0 { return i + 1; }
        start, end, next := Older(next, i);
        i := i + 1;
      }
    }

    /** The first segment in the list that starts at an address. */
    method StartingAt(addr: int) returns (i: nat)
      requires Core(mem, smallmap, treemap, h, c, segs)
      ensures i <= |segs| && (i < |segs| ==> segs[i].Start() == addr)
      ensures forall j | 0 <= j < i :: segs[j].Start() != addr
    {
      hide Core;
      i := 0;
      if |segs| == 0 { return; }
      var start, end, next := Current();
      while start != addr
        invariant i < |segs| && start == segs[i].Start() && end == segs[i].End() && next == RecordAfter(i)
        invariant forall j | 0 <= j < i :: segs[j].Start() != addr
        decreases |segs| - i
      {
        LastRecord(i);
        if next == 0 { return i + 1; }
        start, end, next := Older(next, i);
        i := i + 1;
      }
    }

    /** The first time: from wherever the break is, to end on a page boundary. */
    method FirstSpace(nb: int, asize: int) returns (tbase: int, tsize: int, br: int)
      requires BrkOk(brk) && SysRequest(nb, asize)
      modifies `brk, `refusals
      ensures BrkOk(brk) && (tbase != CMFAIL ==> Got(segs, tbase, tsize) && tsize >= nb + PADDING)
      ensures tbase != CMFAIL ==> OnPage(tbase + tsize) && asize <= tsize < asize + PAGE
      ensures tbase != CMFAIL ==> tbase == old(brk) && brk == tbase + tsize && refusals == old(refusals)
      ensures tbase == CMFAIL ==> br == CMFAIL && brk == old(brk) && old(refusals) <= refusals
      ensures tbase == CMFAIL && footprintLimit == 0 && asize + PAGE <= HALF_MAX ==> |refusals| > |old(refusals)|
    {
      hide Got, PageAlign, Mult8, Mult4, OnPage, Add32;
      tbase, tsize, br := CMFAIL, 0, CMFAIL;
      var ssize := asize;
      var base := Morecore(0);
      if base != CMFAIL {
        AlignFacts(base);
        if !OnPage(base) { ssize := Add32(ssize, PageAlign(base) - base); }
        if !OnPage(base) && asize + PAGE <= HALF_MAX { Add32Small(asize, PageAlign(base) - base); }
        if !OnPage(base) && ssize > nb { FirstSize(nb, asize, PageAlign(base) - base); }
        PageSum(asize, if OnPage(base) then base else PageAlign(base));
        var fp := Add32(footprint, ssize);
        if ssize > nb && ssize < HALF_MAX && (footprintLimit == 0 || (fp > footprint && fp <= footprintLimit)) {
          br := Morecore(ssize);
          if br == base { tbase, tsize := base, ssize; }
        }
      }
    }

    /** Later: just enough to extend top. */
    method MoreSpace(nb: int) returns (tbase: int, tsize: int, br: int, ssize: int)
      requires BrkOk(brk) && nb >= topsize >= 0 && nb + PADDING + PAGE <= WORD && |segs| > 0
      requires Core(mem, smallmap, treemap, h, c, segs)
      requires segs[0].Start() <= top < segs[0].End()
      modifies `brk, `refusals
      ensures BrkOk(brk) && OnPage(ssize) && old(refusals) <= refusals
      ensures nb - topsize + PADDING <= ssize < nb - topsize + PADDING + PAGE
      ensures br != CMFAIL ==> Got(segs, br, ssize) && brk == br + ssize && ssize < HALF_MAX
      ensures br != CMFAIL ==> br == old(brk) && refusals == old(refusals)
      ensures br == CMFAIL ==> brk == old(brk) && (ssize < HALF_MAX ==> |refusals| > |old(refusals)|)
      ensures if br != CMFAIL && br == segs[0].End() then tbase == br && tsize == ssize else tbase == CMFAIL
    {
      hide Got, PageAlign, Mult8, Mult4, OnPage, Add32;
      tbase, tsize, br := CMFAIL, 0, CMFAIL;
      var s := SegmentHolding(top);
      AlignFacts(nb - topsize + PADDING);
      Add32Small(nb - topsize, PADDING);
      ssize := PageAlign(Add32(nb - topsize, PADDING));
      if ssize < HALF_MAX {
        br := Morecore(ssize);
        if br == segs[s].End() { tbase, tsize := br, ssize; }
      }
    }

    /** Space that does not extend top: ask for the rest of what is needed, or give it back. */
    method Salvage(nb: int, br0: int, ssize0: int) returns (br: int, ssize: int)
      requires Valid() && br0 != CMFAIL && Got(segs, br0, ssize0) && brk == br0 + ssize0 && OnPage(ssize0)
      requires ssize0 < HALF_MAX
      requires top != 0 && nb >= topsize && nb + PADDING + PAGE <= WORD && ssize0 >= nb - topsize + PADDING
      modifies `brk, `refusals
      ensures BrkOk(brk) && (br != CMFAIL ==> Got(segs, br, ssize) && ssize >= nb + PADDING)
      ensures br != CMFAIL ==> br == br0 && brk == br + ssize && refusals == old(refusals)
      ensures br != CMFAIL ==> ssize == ssize0 || (OnPage(ssize) && ssize < nb + PADDING + PAGE)
      ensures ssize0 >= nb + PADDING ==> br != CMFAIL && ssize == ssize0
      ensures br == CMFAIL ==> |refusals| > |old(refusals)| && old(refusals) <= refusals
      ensures br == CMFAIL ==> brk == br0 || (brk == br0 + ssize0 && |refusals| > |old(refusals)| + 1)
    {
      hide Least, Core, Accounts, Owned, Got, PageAlign, Mult8, Mult4, OnPage, Add32;
      br, ssize := br0, ssize0;
      HomeKind(c, dv, dvsize, top, topsize, {});
      TopSize(mem, smallmap, treemap, h, c, segs, top);
      Add32Small(nb, PADDING);
      if ssize < HALF_MAX && ssize < Add32(nb, PADDING) {
        AlignFacts(Add32(nb, PADDING) - ssize);
        var esize := PageAlign(Add32(nb, PADDING) - ssize);
        assert esize < HALF_MAX; // because top is
        if esize < HALF_MAX {
          var end := Morecore(esize);
          if end != CMFAIL {
            GotJoin(mem, smallmap, treemap, h, c, segs, br, ssize, esize);
            PageSum(ssize, esize);
            ssize := ssize + esize;
          } else {
            var released := Morecore(-ssize);
            br := CMFAIL;
          }
        }
      }
    }

    /** Memory at the break, that extends top if it can; if there is none, the break is not relied upon again. */
    method Contiguous(nb: int, asize: int) returns (tbase: int, tsize: int)
      requires Valid() && SysRequest(nb, asize) && nb >= topsize && !noncontiguous
      modifies `brk, `refusals, `noncontiguous
      ensures BrkOk(brk) && (tbase != CMFAIL ==> Enough(segs, top, topsize, tbase, tsize, nb))
      ensures tbase != CMFAIL ==> tbase == old(brk) && brk == tbase + tsize && nb - topsize + PADDING <= tsize
      ensures tbase != CMFAIL ==> tsize < nb + PADDING + (if top == 0 then 2 * PAGE else PAGE)
      ensures tbase != CMFAIL ==> refusals == old(refusals) && !noncontiguous && (top == 0 ==> OnPage(brk))
      ensures tbase != CMFAIL && top != 0 && |segs| > 0 && tbase == segs[0].End() ==>
        Pages(tsize, nb - topsize + PADDING)
      ensures tbase == CMFAIL ==> noncontiguous && old(refusals) <= refusals
      ensures tbase == CMFAIL && refusals == old(refusals) ==> brk == old(brk)
      ensures tbase == CMFAIL && asize + PAGE <= HALF_MAX && (top != 0 || footprintLimit == 0) ==>
        |refusals| > |old(refusals)|
    {
      hide Least, Core, Accounts, Got, Owned, Mult8, Mult4, OnPage;
      HomeKind(c, dv, dvsize, top, topsize, {});
      TopBound();
      var br, ssize;
      if top == 0 {
        tbase, tsize, br := FirstSpace(nb, asize);
      } else {
        TopSize(mem, smallmap, treemap, h, c, segs, top);
        tbase, tsize, br, ssize := MoreSpace(nb);
      }
      if tbase == CMFAIL {
        if br != CMFAIL { br, ssize := Salvage(nb, br, ssize); }
        if br != CMFAIL { tbase, tsize := br, ssize; } else { noncontiguous := true; }
      }
    }

    /** Memory wherever it is. */
    method Anywhere(nb: int, asize: int) returns (tbase: int, tsize: int)
      requires BrkOk(brk) && SysRequest(nb, asize)
      modifies `brk, `refusals
      ensures BrkOk(brk) && (tbase != CMFAIL ==> Enough(segs, top, topsize, tbase, tsize, nb))
      ensures tbase != CMFAIL ==> tbase == old(brk) && brk == tbase + tsize && tsize == asize
      ensures tbase != CMFAIL ==> refusals == old(refusals) && asize < HALF_MAX
      ensures tbase == CMFAIL ==> brk == old(brk)
      ensures tbase == CMFAIL ==> refusals == if asize < HALF_MAX then old(refusals) + [asize] else old(refusals)
    {
      hide Got, Mult8, Mult4, OnPage;
      tbase, tsize := CMFAIL, 0;
      if asize < HALF_MAX {
        var br := Morecore(asize);
        var end := Morecore(0);
        if br != CMFAIL && end != CMFAIL && br < end {
          var ssize := end - br;
          if ssize > nb + TOP_FOOT_SIZE {
            tbase, tsize := br, ssize;
          }
        }
      }
    }

    /** All ways of asking for memory, in order of preference. */
    method FindSpace(nb: int, asize: int) returns (tbase: int, tsize: int)
      requires Valid() && SysRequest(nb, asize) && nb >= topsize
      modifies `brk, `refusals, `noncontiguous
      ensures BrkOk(brk) && (tbase != CMFAIL ==> Enough(segs, top, topsize, tbase, tsize, nb))
      ensures old(refusals) <= refusals
      ensures tbase == CMFAIL ==> asize >= HALF_MAX || LastRefused(old(refusals), refusals, asize)
      ensures tbase != CMFAIL ==> brk == tbase + tsize
      ensures tbase != CMFAIL ==> Asked(old(Deals()), Deals(), top, topsize, footprintLimit, nb, tsize)
    {
      hide Least, Core, Accounts, Got, Owned, Mult8, Mult4, OnPage, Enough;
      tbase, tsize := CMFAIL, 0;
      TopBound();
      if !noncontiguous {
        tbase, tsize := Contiguous(nb, asize);
      }
      if tbase == CMFAIL {
        tbase, tsize := Anywhere(nb, asize);
      }
    }

    /** First-time initialisation. */
    method FirstSegment(tbase: int, tsize: int)
      requires Sound({}) && top == 0 && Got(segs, tbase, tsize) && leastAddr <= tbase
      modifies `mem, `top, `topsize, `trimCheck, `segs, `c
      ensures Sound({}) && top == Up8(tbase) && topsize == tsize - Pad(tbase) - TOP_FOOT_SIZE
      ensures segs == [Segment(Up8(tbase), tsize - Pad(tbase), 0, Pad(tbase))]
      ensures Keeps(old(mem), old(c), mem, c, {})
      ensures Topped(old(Now()), Now(), old(segs), segs, tbase, tsize) && trimCheck == TRIM_THRESHOLD
      ensures old(segs) == []
    {
      hide Core, TopWords, Owned, Up8, TopHeader;
      NoSegments(mem, smallmap, treemap, h, c, segs, dv, dvsize, topsize);
      GotFresh(segs, tbase, tsize);
      ghost var m0, base, size, pad := mem, Up8(tbase), tsize - Pad(tbase), Pad(tbase);
      NewTopSize(segs, base, size, pad, tbase);
      segs := [Segment(Up8(tbase), tsize - Pad(tbase), 0, Pad(tbase))];
      mem := InitBins(mem);
      ghost var m1 := mem;
      InitTop(tbase, tsize - TOP_FOOT_SIZE);
      c := map[base := Chunk(size - TOP_FOOT_SIZE, Top, 0)];
      FirstDone(m0, m1, smallmap, treemap, h, base, size, pad);
      FirstOwned(base, size - TOP_FOOT_SIZE);
      PadFacts(tbase);
    }

    method FirstMemory(tbase: int, tsize: int)
      requires Sound({}) && BrkOk(brk) && top == 0 && Got(segs, tbase, tsize)
      requires footprint == Total(segs) + tsize <= maxFootprint
      modifies `mem, `top, `topsize, `leastAddr, `trimCheck, `segs, `c
      ensures Valid() && Keeps(old(mem), old(c), mem, c, {}) && topsize == tsize - Pad(tbase) - TOP_FOOT_SIZE
      ensures Topped(old(Now()), Now(), old(segs), segs, tbase, tsize) && trimCheck == TRIM_THRESHOLD
      ensures leastAddr == if old(leastAddr) == 0 || tbase < old(leastAddr) then tbase else old(leastAddr)
    {
      hide Core, Owned, Least, Accounts, Up8, Got;
      NoSegments(mem, smallmap, treemap, h, c, segs, dv, dvsize, topsize);
      PadFacts(tbase);
      GotFacts(segs, tbase, tsize);
      if leastAddr == 0 || tbase < leastAddr { leastAddr := tbase; }
      LeastNone(leastAddr);
      FirstSegment(tbase, tsize);
      AccountsFirst(Up8(tbase), tsize - Pad(tbase), Pad(tbase), leastAddr, footprint, maxFootprint);
    }

    /** Top, with its segment, gets a new size. */
    method SizeTop(size: int)
      requires Sound({}) && top != 0 && |segs| > 0 && Resizable(segs, c, top, top + size) && Mult4(size) && size >= 4
      modifies `mem, `top, `topsize, `trimCheck, `segs, `c
      ensures Sound({}) && top == old(top) && topsize == size && Keeps(old(mem), old(c), mem, c, {})
      ensures segs == Resized(old(segs), old(top) + size)
      ensures OthersSame(old(c), c, {top}) && trimCheck == TRIM_THRESHOLD
    {
      hide Core, Owned, TopWords, Keeps, One, Resizable, EditedIn, Up8, TopHeader, Least, Mult8, Mult4, OthersSame;
      ghost var m0, c0, s0, b := mem, c, segs, top + size;
      HomeKind(c, dv, dvsize, top, topsize, {});
      TopSize(mem, smallmap, treemap, h, c, segs, top);
      PadFacts(top);
      TopEdited(mem, top, size);
      LeastFirst(segs, leastAddr);
      LeastUpdate(segs, 0, Resized(segs, b)[0], leastAddr);
      segs := Resized(segs, top + size);
      InitTop(top, size);
      ResizeTop(m0, mem, smallmap, treemap, h, s0, c0, top, b);
      ResizedSame(m0, smallmap, treemap, h, s0, c0, top, b);
      c := One(c, top, b, Top);
      TopOwned(m0, smallmap, treemap, h, s0, c0, dv, dvsize, top, old(topsize), b);
    }

    /** Space that follows the current segment extends top. */
    method Append(tsize: int)
      requires Sound({}) && top != 0 && |segs| > 0 && Got(segs, segs[0].End(), tsize)
      modifies `mem, `top, `topsize, `trimCheck, `segs, `c
      ensures Sound({}) && top == old(top) && topsize == old(topsize) + tsize && Keeps(old(mem), old(c), mem, c, {})
      ensures segs == old(segs)[0 := old(segs)[0].(size := old(segs)[0].size + tsize)]
      ensures OthersSame(old(c), c, {top}) && trimCheck == TRIM_THRESHOLD
    {
      hide Core, Owned, Keeps, Resizable, Resized, Least, Got, Mult4, OthersSame;
      HomeKind(c, dv, dvsize, top, topsize, {});
      TopSize(mem, smallmap, treemap, h, c, segs, top);
      GotFacts(segs, segs[0].End(), tsize);
      ResizeReady(mem, smallmap, treemap, h, c, segs, top, segs[0].End(), tsize);
      TopAgain(segs, tsize, top, topsize);
      SizeTop(topsize + tsize);
    }

    method Lengthen(tsize: int)
      requires Sound({}) && BrkOk(brk) && top != 0 && |segs| > 0 && Got(segs, segs[0].End(), tsize)
      requires footprint == Total(segs) + tsize <= maxFootprint
      modifies `mem, `top, `topsize, `trimCheck, `segs, `c
      ensures Valid() && Keeps(old(mem), old(c), mem, c, {}) && topsize == old(topsize) + tsize
      ensures Topped(old(Now()), Now(), old(segs), segs, old(segs)[0].End(), tsize) && trimCheck == TRIM_THRESHOLD
    {
      hide Core, Owned, Accounts, Keeps, Least, Got, Total, OthersSame;
      ghost var s0 := segs;
      LeastFirst(segs, leastAddr);
      Append(tsize);
      AccountsUpdate(s0, 0, segs[0], leastAddr, footprint, maxFootprint);
    }

    /** Memory that does not extend top: in front of a segment it borders, else a segment of its own. */
    method PlaceApart(tbase: int, tsize: int, nb: int) returns (p: int)
      requires Sound({}) && BrkOk(brk) && Checked() && top != 0 && Got(segs, tbase, tsize) && tsize >= nb + PADDING
      requires Mult8(nb) && nb >= MIN_CHUNK_SIZE && |segs| > 0 && tbase != segs[0].End()
      requires Least(segs, leastAddr) && leastAddr <= tbase && footprint == Total(segs) + tsize <= maxFootprint
      modifies `mem, `smallmap, `treemap, `dv, `dvsize, `top, `topsize, `trimCheck, `segs, `c, `h
      ensures Valid()
      ensures if p == 0 then nb < topsize && Keeps(old(mem), old(c), mem, c, {})
              else Handed(old(mem), old(c), mem, c, p) && c[p].size == nb && PrevUsed(c, p)
      ensures if p == 0 then
                && Topped(old(Now()), Now(), old(segs), segs, tbase, tsize) && !Fronting(old(segs), tbase + tsize)
                && trimCheck == TRIM_THRESHOLD
              else
                && Fronted(old(Now()), Now(), old(segs), segs, tbase, tsize, nb, p)
                && Fronting(old(segs), tbase + tsize) && trimCheck == old(trimCheck)
    {
      hide Core, Owned, Accounts, Keeps, Handed, Added, Extended, Mult8, Mult4, FrontSpace, PadClear, Least, Got, Up8;
      hide Front, Fronted, Topped, Retired;
      ghost var s0 := segs;
      PadFacts(tbase);
      GotFacts(segs, tbase, tsize);
      p := 0;
      var i := StartingAt(tbase + tsize);
      if i < |segs| {
        ApartSegs(mem, smallmap, treemap, h, c, segs);
        BeforeSegment(segs, i, tbase, tsize, nb);
        p := Up8(tbase);
        PrependAlloc(i, p, Pad(tbase), nb);
        FrontedNow(old(Now()), Now(), s0, segs, i, tbase, tsize, nb, p);
        AccountsUpdate(s0, i, segs[i], leastAddr, footprint, maxFootprint);
      } else {
        ghost var base, size, pad := Up8(tbase), tsize - Pad(tbase), Pad(tbase);
        ghost var sp := AddSegment(tbase, tsize);
        ToppedNew(old(Now()), Now(), s0, segs, tbase, tsize, sp);
        AccountsAdded(s0, base, size, pad, sp, leastAddr, footprint, maxFootprint);
      }
    }

    /**
     * New memory becomes part of the heap; unless it went in front of a segment, with the request, top now suffices.
     */
    method Integrate(tbase: int, tsize: int, nb: int) returns (p: int)
      requires Valid() && Enough(segs, top, topsize, tbase, tsize, nb) && Mult8(nb) && nb >= MIN_CHUNK_SIZE
      modifies `mem, `smallmap, `treemap, `dv, `dvsize, `top, `topsize, `leastAddr, `trimCheck, `footprint
      modifies `maxFootprint, `segs, `c, `h
      ensures Valid() && footprint == old(footprint) + tsize
      ensures maxFootprint == if footprint > old(maxFootprint) then footprint else old(maxFootprint)
      ensures tbase < old(leastAddr) || (old(top) == 0 && old(leastAddr) == 0) ==> leastAddr == tbase
      ensures tbase >= old(leastAddr) && (old(top) != 0 || old(leastAddr) != 0) ==> leastAddr == old(leastAddr)
      ensures if p == 0 then nb < topsize && Keeps(old(mem), old(c), mem, c, {})
              else Handed(old(mem), old(c), mem, c, p) && c[p].size == nb && PrevUsed(c, p)
      ensures old(top) != 0 ==> |old(segs)| > 0
      ensures p == 0 ==> Topped(old(Now()), Now(), old(segs), segs, tbase, tsize) && trimCheck == TRIM_THRESHOLD
      ensures p != 0 ==>
        Fronted(old(Now()), Now(), old(segs), segs, tbase, tsize, nb, p) && trimCheck == old(trimCheck)
      ensures p != 0 <==> InFront(old(top), old(segs), tbase, tsize)
    {
      hide Core, Owned, Accounts, Keeps, Handed, Added, Extended, Mult8, Mult4, FrontSpace, Up8, Least, Total, Got;
      hide Front, Fronted, Topped, Retired, Fronting;
      hide Bins.Binned, Unbinned, Homed;
      HomeKind(c, dv, dvsize, top, topsize, {});
      AccountsParts(segs, leastAddr, footprint, maxFootprint);
      PadFacts(tbase);
      GotFacts(segs, tbase, tsize);
      p := 0;
      footprint := footprint + tsize;
      if footprint > maxFootprint { maxFootprint := footprint; }
      if top == 0 {
        FirstMemory(tbase, tsize);
      } else {
        TopSize(mem, smallmap, treemap, h, c, segs, top);
        HoldsTop(mem, smallmap, treemap, h, c, segs, top);
        LeastFirst(segs, leastAddr);
        var i := EndingAt(tbase);
        if i < |segs| && segs[i].Start() <= top < segs[i].End() {
          Lengthen(tsize);
        } else {
          if tbase < leastAddr { leastAddr := tbase; }
          p := PlaceApart(tbase, tsize, nb);
        }
      }
    }

    /** The last part of sys_alloc: new memory joins the heap, and the request is met. */
    method MeetWith(tbase: int, tsize: int, nb: int) returns (p: int)
      requires Valid() && Enough(segs, top, topsize, tbase, tsize, nb) && Mult8(nb) && nb >= MIN_CHUNK_SIZE
      requires brk == tbase + tsize
      modifies `mem, `smallmap, `treemap, `dv, `dvsize, `top, `topsize, `leastAddr, `trimCheck, `footprint
      modifies `maxFootprint, `segs, `c, `h
      ensures Valid() && p != 0 && Handed(old(mem), old(c), mem, c, p) && c[p].size == nb && PrevUsed(c, p)
      ensures footprint == old(footprint) + tsize && FromSystem(old(Now()), Now(), old(Deals()), Deals(), nb, p)
      ensures Max(old(maxFootprint), footprint, maxFootprint)
      ensures tbase < old(leastAddr) || (old(top) == 0 && old(leastAddr) == 0) ==> leastAddr == tbase
      ensures tbase >= old(leastAddr) && (old(top) != 0 || old(leastAddr) != 0) ==> leastAddr == old(leastAddr)
    {
      hide Core, Owned, Accounts, Keeps, Handed, Mult8, Enough, Least, Fronted, Topped, InFront, FromTop;
      p := Integrate(tbase, tsize, nb);
      if p == 0 {
        ghost var m1, c1, u := mem, c, Now();
        NonZeroTop(mem, smallmap, treemap, h, c, segs, dv, dvsize, top, topsize);
        HomeKind(c, dv, dvsize, top, topsize, {});
        p := UseFrontOfTop(nb);
        HandedAfter(old(mem), old(c), m1, c1, mem, c, p);
        ToppedThen(old(Now()), u, Now(), old(segs), segs, tbase, tsize, nb, p);
      }
    }

    /** sys_alloc: once memory is got, the request is met. */
    method SysAlloc(nb: int) returns (p: int)
      requires Valid() && nb >= topsize && (nb == WORD - 1 || (Mult8(nb) && MIN_CHUNK_SIZE <= nb < WORD))
      modifies this
      ensures Valid()
      ensures p != 0 ==>
        nb != WORD - 1 && Handed(old(mem), old(c), mem, c, p) && c[p].size == nb && PrevUsed(c, p)
      ensures p != 0 ==> Enlarged(old(Deals()), Deals(), old(top), old(topsize), footprintLimit, nb)
      ensures p != 0 ==> FromSystem(old(Now()), Now(), old(Deals()), Deals(), nb, p)
      ensures p == 0 ==> mem == old(mem) && Unmet(old(Now()), Now(), old(Deals()), Deals())
      ensures p == 0 ==> Denied(nb, old(footprint), footprintLimit, old(refusals), refusals)
    {
      hide Core, Owned, Accounts, Keeps, Handed, Mult8, Enough, PageAlign, Add32, Least, FromSystem, OnPage;
      p := 0;
      AsizeFacts(nb);
      TooLarge();
      var asize := PageAlign(Add32(nb, PADDING));
      if asize <= nb { return; }
      if footprintLimit != 0 {
        var fp := Add32(footprint, asize);
        if fp <= footprint || fp > footprintLimit { return; }
      }
      var tbase, tsize := FindSpace(nb, asize);
      if tbase != CMFAIL {
        ghost var d := Deals();
        p := MeetWith(tbase, tsize, nb);
        SystemLater(old(Now()), Now(), old(Deals()), d, Deals(), nb, p);
        AskedLater(old(Deals()), d, Deals(), old(top), old(topsize), footprintLimit, nb, tsize);
      }
    }

    /** The designated victim, top, and finally the system. */
    method AllocRest(nb: int) returns (p: int)
      requires Valid() && (nb == WORD - 1 || (Mult8(nb) && MIN_CHUNK_SIZE <= nb < WORD))
      requires nb == WORD - 1 || DvFirst(c, nb, dvsize) || (NoneFitting(c, nb) && dvsize < nb)
      modifies this
      ensures Valid() && (p != 0 ==> nb != WORD - 1 && Granted(old(mem), old(c), mem, c, p, nb))
      ensures p != 0 ==> Served(old(h), old(c), nb, old(dv), old(dvsize), old(top), old(topsize), p)
      ensures p != 0 ==> Met(old(Now()), Now(), old(Deals()), Deals(), footprintLimit, nb, p)
      ensures p != 0 ==> Dealt(old(Now()), old(Deals()), Deals(), footprintLimit, nb)
      ensures p == 0 ==> mem == old(mem) && Unmet(old(Now()), Now(), old(Deals()), Deals())
      ensures p == 0 && nb != WORD - 1 ==>
        Exhausted(old(c), nb, old(dvsize), old(topsize), old(footprint), footprintLimit, old(refusals), refusals)
    {
      hide Least, Core, Owned, Accounts, Keeps, Mult8, NoneFitting, Denied, Smallest, OthersSame;
      hide FromSystem, Enlarged, FromBin, FromTop;
      if nb != WORD - 1 && dvsize < nb { DvTooSmall(c, nb, dvsize); }
      HomeKind(c, dv, dvsize, top, topsize, {});
      SizesBelow(mem, smallmap, treemap, h, c, segs, dv, dvsize, top, topsize);
      if nb <= dvsize {
        var rsize := dvsize - nb;
        p := dv;
        if rsize >= MIN_CHUNK_SIZE {
          p := UseFrontOfDv(nb, rsize);
        } else {
          UseWhole(dv, dvsize, {});
          assert {} - {p} == {};
        }
      } else if nb < topsize {
        p := UseFrontOfTop(nb);
      } else {
        p := SysAlloc(nb);
        if p != 0 { SystemOrigin(old(Now()), Now(), old(Deals()), Deals(), nb, p); }
      }
    }

    /** dlmalloc */
    method Malloc(bytes: int) returns (r: int)
      requires Valid() && 0 <= bytes < WORD
      modifies this
      ensures Valid()
      ensures r != 0 ==>
        bytes < MAX_REQUEST && Granted(old(mem), old(c), mem, c, r - 8, RequestToSize(bytes)) && Mult8(r)
      ensures r != 0 ==>
        Served(old(h), old(c), RequestToSize(bytes), old(dv), old(dvsize), old(top), old(topsize), r - 8)
      ensures r != 0 ==>
        Met(old(Now()), Now(), old(Deals()), Deals(), footprintLimit, RequestToSize(bytes), r - 8)
      ensures r != 0 ==> Dealt(old(Now()), old(Deals()), Deals(), footprintLimit, RequestToSize(bytes))
      ensures r == 0 ==> mem == old(mem) && Unmet(old(Now()), Now(), old(Deals()), Deals())
      ensures r == 0 ==>
        (bytes >= MAX_REQUEST || Exhausted(old(c), RequestToSize(bytes), old(dvsize), old(topsize), old(footprint),
                                           footprintLimit, old(refusals), refusals))
    {
      hide Least, Core, Owned, Accounts, Keeps, Mult8, Exhausted, Served, DvFirst, NoneFitting, Smallest;
      hide FromBin, FromVictim, FromTop, FromSystem, Enlarged;
      hide Bins.Binned, Unbinned, Homed;
      ghost var h0, c0, dv0, dvsize0, top0, topsize0 := h, c, dv, dvsize, top, topsize;
      var nb;
      var p := 0;
      RequestFacts(bytes);
      SizesBelow(mem, smallmap, treemap, h, c, segs, dv, dvsize, top, topsize);
      if bytes <= MAX_SMALL_REQUEST {
        nb := if bytes < MIN_REQUEST then MIN_CHUNK_SIZE else PadRequest(bytes);
        p := AllocSmall(nb);
      } else if bytes >= MAX_REQUEST {
        nb := WORD - 1;
      } else {
        nb := PadRequest(bytes);
        if treemap != 0 {
          p := TmallocLarge(nb);
        } else {
          NoTrees(mem, smallmap, treemap, h, c, segs, nb);
          NoneThenDv(c, nb, dvsize);
        }
      }
      if p != 0 {
        ServedBinned(h0, c0, nb, dv0, dvsize0, top0, topsize0, p);
        BinServes(old(Now()), Now(), nb, p);
      } else {
        p := AllocRest(nb);
      }
      r := 0;
      if p != 0 {
        r := p + 8;
        LiveAligned(mem, smallmap, treemap, h, c, segs, p);
      }
    }

    /** The current segment loses its last `released` bytes. */
    method Shrink(released: int)
      requires Valid() && top != 0 && 0 < released < topsize && Mult8(released)
      modifies `mem, `top, `topsize, `trimCheck, `footprint, `segs, `c
      ensures Valid() && Keeps(old(mem), old(c), mem, c, {}) && top == old(top) && topsize == old(topsize) - released
      ensures footprint == old(footprint) - released && trimCheck == TRIM_THRESHOLD && OthersSame(old(c), c, {top})
      ensures |old(segs)| > 0 && segs == old(segs)[0 := old(segs)[0].(size := old(segs)[0].size - released)]
    {
      hide Core, Owned, Accounts, Keeps, Resizable, Mult8, Mult4, Least, Total, OthersSame;
      ghost var s0 := segs;
      HomeKind(c, dv, dvsize, top, topsize, {});
      TopSize(mem, smallmap, treemap, h, c, segs, top);
      ShrinkReady(mem, smallmap, treemap, h, c, segs, top, released);
      TopStays(mem, smallmap, treemap, h, c, segs, top, released);
      AccountsParts(segs, leastAddr, footprint, maxFootprint);
      footprint := footprint - released;
      SizeTop(topsize - released);
      AccountsUpdate(s0, 0, segs[0], leastAddr, footprint, maxFootprint);
    }

    /** The `extra` bytes before the break are given back, if the break is at `end`, where they are. */
    method Release(extra: int, end: int) returns (released: int)
      requires BrkOk(brk) && extra >= 0
      modifies `brk, `refusals
      ensures BrkOk(brk) && brk == old(brk) - released
      ensures if extra == 0 || old(brk) != end then released == 0 && refusals == old(refusals)
              else if released == 0 then refusals == old(refusals) + [-extra]
              else released == extra && refusals == old(refusals)
    {
      released := 0;
      var oldBrk := Morecore(0);
      if oldBrk == end {
        var relBrk := Morecore(-extra);
        var newBrk := Morecore(0);
        if relBrk != CMFAIL && newBrk < oldBrk { released := oldBrk - newBrk; }
      }
    }

    /** sys_trim: whole pages at the end of top, but one, go back to the system. */
    method SysTrim(pad0: int) returns (trimmed: bool)
      requires Valid() && 0 <= pad0 < WORD
      modifies `mem, `top, `topsize, `trimCheck, `footprint, `segs, `brk, `refusals, `c
      ensures Valid() && Keeps(old(mem), old(c), mem, c, {}) && top == old(top) && OthersSame(old(c), c, {top})
      ensures topsize == old(topsize) - (old(footprint) - footprint)
      ensures if trimmed then GivenBack(old(Deals()), Deals(), old(topsize), pad0)
              else
                && mem == old(mem) && Now() == old(Now())
                && NotGiven(old(Deals()), Deals(), old(top), old(topsize), pad0)
    {
      hide Least, Core, Owned, Accounts, Keeps, Mult8, Mult4, Got, OthersSame, OnPage, GivenBack, NotGiven;
      hide Bins.Binned, Unbinned, Homed;
      KeepsSame(mem, c);
      SameSelf(c, {top});
      trimmed := false;
      if pad0 < MAX_REQUEST && top != 0 {
        var pad := pad0 + TOP_FOOT_SIZE;
        if topsize > pad {
          HomeKind(c, dv, dvsize, top, topsize, {});
          TopSize(mem, smallmap, treemap, h, c, segs, top);
          HoldsTop(mem, smallmap, treemap, h, c, segs, top);
          var extra := ((topsize - pad + PAGE - 1) / PAGE - 1) * PAGE;
          ExtraFacts(topsize - pad, extra);
          var s := SegmentHolding(top);
          if extra >= HALF_MAX { extra := HALF_MAX + 1 - PAGE; }
          var released := Release(extra, segs[s].End());
          if released != 0 {
            Shrink(released);
            trimmed := true;
            GivenNow(old(Deals()), Deals(), old(topsize), pad0, released);
          }
        }
        if !trimmed && topsize > trimCheck { trimCheck := WORD - 1; }
      }
      if !trimmed { NotGivenNow(old(Deals()), Deals(), top, topsize, pad0); }
    }

    lemma TopBound()
      requires Valid()
      ensures 0 <= topsize < HEAP_MAX && (if top == 0 then topsize == 0 else topsize < footprint)
    {
      hide Core, Owned, Accounts, Least, Total;
      HomeKind(c, dv, dvsize, top, topsize, {});
      AccountsParts(segs, leastAddr, footprint, maxFootprint);
      if top != 0 {
        TopSize(mem, smallmap, treemap, h, c, segs, top);
        FirstWithin(mem, smallmap, treemap, h, c, segs);
      }
    }

    /** The part of dlfree before trimming: the tests of the chunk, and what `Dispose` does. */
    method FreeChunk(p: int) returns (intoTop: bool)
      requires Valid() && p in c && c[p].kind == Live
      modifies `mem, `smallmap, `treemap, `dv, `dvsize, `top, `topsize, `c, `h
      ensures Valid() && Freed(old(mem), old(c), mem, c, p) && Coalescing(old(Now()), Now(), p)
      ensures intoTop == IsA(old(c), p + old(c)[p].size, Top)
      ensures if intoTop then top != 0 && topsize == TopWith(old(Now()), p) > old(topsize)
              else top == old(top) && topsize == old(topsize)
      ensures topsize < HEAP_MAX && (top != 0 ==> topsize < footprint)
    {
      hide Least, Core, Owned, Accounts, Keeps, Freed, Rd, ChunkSize, IsInuse, PInuse, Coalescing, PrevUsed;
      Addressed(p);
      LiveWords(mem, smallmap, treemap, h, c, segs, p);
      ghost var next := p + c[p].size;
      assert OkAddress(leastAddr, p) && IsInuse(Rd(mem, p + 4)) && p < next && PInuse(Rd(mem, next + 4));
      TopKind(c, dv, dvsize, top, topsize, {}, next);
      HomeKind(c, dv, dvsize, top, topsize, {});
      NoZero(mem, smallmap, treemap, h, segs, c, p, dv, dvsize, top, topsize, {});
      LeadRead(mem, smallmap, treemap, h, c, segs, p);
      TopBound();
      intoTop := Dispose(p, ChunkSize(Rd(mem, p + 4)));
      TopBound();
      CoalescingTop(old(Now()), Now(), p);
    }

    /** dlfree */
    method Free(r: int) returns (ghost trimmed: bool)
      requires Valid() && (r == 0 || (r - 8 in c && c[r - 8].kind == Live))
      modifies this
      ensures Valid()
      ensures r == 0 ==> mem == old(mem) && Now() == old(Now()) && Deals() == old(Deals())
      ensures r != 0 ==> Freed(old(mem), old(c), mem, c, r - 8)
      ensures r != 0 ==> GaveBack(old(Now()), Now(), old(Deals()), Deals(), r - 8)
      ensures trimmed <==> footprint < old(footprint)
      ensures !trimmed ==> segs == old(segs) && footprint == old(footprint)
      ensures !trimmed ==> topsize == old(topsize) || old(topsize) < topsize <= trimCheck
      ensures old(trimCheck) >= HEAP_MAX || old(footprint) <= 0x20_0000 ==> !trimmed && Deals() == old(Deals())
    {
      hide Least, Core, Owned, Accounts, Keeps, Freed, Coalescing, OthersSame, GivenBack, NotGiven, TopWith;
      trimmed := false;
      if r != 0 {
        ghost var p := r - 8;
        var intoTop := FreeChunk(r - 8);
        if intoTop && topsize > trimCheck {
          ghost var m1, c1, u := mem, c, Now();
          var some := SysTrim(0);
          trimmed := some;
          FreedThen(old(mem), old(c), m1, c1, mem, c, p);
          CoalescingThen(old(Now()), u, Now(), p);
          TrimFacts(old(Deals()), Deals(), top, u.topsize, 0);
        }
      }
    }

    /**
     * set_inuse on both parts of [p, b), which the chunk in use at `p` ends or shares with a free one.
     */
    method CutUsed(p: int, nb: int, rsize: int, ghost b: int, ghost z: int, ghost limbo: set<int>)
      requires Sound(limbo) && Accounts(segs, leastAddr, footprint, maxFootprint) && BrkOk(brk) && Checked()
      requires WithNext(c, segs, p, b, z) && !c[z].Last() && b == p + nb + rsize && b in c && limbo <= {z}
      requires LargeEnough(nb, Live) && LargeEnough(rsize, Live) && (z == p || c[z].kind == Limbo)
      requires forall q | q in c && p <= q < b :: q == p || q == z
      modifies `mem, `c
      ensures Valid() && p in old(c) && c == Two(old(c), p, p + nb, b, Live, Live)
      ensures Has(c, p, nb, Live) && Has(c, p + nb, rsize, Live) && p < p + nb < b && !IsA(old(c), p + nb, Live)
      ensures Keeps(old(mem), old(c), mem, c, {p, p + nb}) && SamePayload(old(mem), mem, p, nb)
    {
      hide Least, Core, Keeps, Owned, Accounts, WithNext, SetInuse, SamePayload, Rd, Head, LargeEnough, Two, One;
      hide Bins.Binned, Unbinned, Homed, Less, Tail, SetKind;
      ghost var m0, c0 := mem, c;
      var r := p + nb;
      SplitReady(mem, smallmap, treemap, h, segs, c, p, r, b, z, dv, dvsize, top, topsize, limbo);
      mem := SetInuse(mem, p, nb);
      mem := SetInuse(mem, r, rsize);
      UsedSplit(m0, mem, smallmap, treemap, h, segs, c0, p, r, b, z);
      SplitPayload(m0, mem, c0, p, r, b);
      c := Two(c, p, r, b, Live, Live);
    }

    /** The second part is given back. */
    method SplitUsed(p: int, nb: int, rsize: int, ghost b: int, ghost z: int, ghost limbo: set<int>)
      requires Sound(limbo) && Accounts(segs, leastAddr, footprint, maxFootprint) && BrkOk(brk) && Checked()
      requires WithNext(c, segs, p, b, z) && !c[z].Last() && b == p + nb + rsize && b in c && limbo <= {z}
      requires LargeEnough(nb, Live) && LargeEnough(rsize, Live) && (z == p || c[z].kind == Limbo)
      requires forall q | q in c && p <= q < b :: q == p || q == z
      modifies `mem, `smallmap, `treemap, `dv, `dvsize, `top, `topsize, `c, `h
      ensures Valid() && Keeps(old(mem), old(c), mem, c, {p}) && p in c && c[p].kind == Live && c[p].size == nb
      ensures SamePayload(old(mem), mem, p, nb)
      ensures Rest(old(Now()), Now(), p + nb, b)
      ensures OthersSame(old(c), c, if Idle(old(c), b) then {p, z, b} else {p, z})
    {
      hide Least, Core, Keeps, Owned, Accounts, WithNext, SamePayload, LargeEnough, Rest, OthersSame, Coalescing, Two;
      ghost var m0, c0 := mem, c;
      CutUsed(p, nb, rsize, b, z, limbo);
      ghost var m1, c1 := mem, c;
      var r := p + nb;
      var intoTop := Dispose(r, rsize);
      SplitDone(m0, c0, m1, c1, mem, c, p, r, nb);
      SplitRest(old(Now()), Now(), p, r, b, z);
    }

    /** Grow into top. */
    method GrowIntoTop(p: int, oldsize: int, nb: int)
      requires Valid() && p in c && c[p].kind == Live && c[p].size == oldsize && p + oldsize == top && top != 0
      requires oldsize < nb < oldsize + topsize && Mult8(nb)
      modifies `mem, `top, `topsize, `c
      ensures Valid() && Reshaped(old(mem), old(c), mem, c, p, nb, oldsize) && Fitted(old(Now()), Now(), p, nb)
    {
      hide Least, Core, Owned, Accounts, Two, SetInuse, Mult8, Fitted, Reshaped, Head;
      TopCut(mem, smallmap, treemap, segs, Now(), p, nb);
      NoZero(mem, smallmap, treemap, h, segs, c, p, dv, dvsize, top, topsize, {});
      var newsize := oldsize + topsize;
      var newtopsize := newsize - nb;
      var newtop := p + nb;
      c := Two(c, p, newtop, top + topsize, Live, Top);
      mem := SetInuse(mem, p, nb);
      mem := Wr(mem, newtop + 4, Head(newtopsize, true, false));
      top := newtop;
      topsize := newtopsize;
    }

    /** The designated victim is used up. */
    method TakeDv(p: int, oldsize: int, nb: int)
      requires Valid() && p in c && c[p].kind == Live && c[p].size == oldsize && p + oldsize == dv && dv != 0
      requires oldsize < nb <= oldsize + dvsize < nb + MIN_CHUNK_SIZE
      modifies `mem, `dv, `dvsize, `c
      ensures Valid() && Reshaped(old(mem), old(c), mem, c, p, nb, oldsize) && Fitted(old(Now()), Now(), p, nb)
    {
      hide Least, Core, Keeps, Owned, Accounts, One, WithNext, JoinWords, SetInuse, Mult8, SamePayload, Rd, Head;
      hide OthersSame;
      ghost var m0, c0 := mem, c;
      HomeKind(c, dv, dvsize, top, topsize, {});
      ghost var b := dv + dvsize;
      GrownReady(mem, smallmap, treemap, h, segs, c, p, dv, dv, dvsize, top, topsize);
      JoinReady(mem, smallmap, treemap, h, segs, c, p, b, dv, oldsize);
      mem := SetInuse(mem, p, oldsize + dvsize);
      JoinNext(m0, mem, smallmap, treemap, h, segs, c0, p, b, dv, oldsize);
      OwnedOne(c0, p, b, Live, dv, dvsize, top, topsize, {}, 0, 0, top, topsize, {});
      JoinedSame(m0, smallmap, treemap, h, segs, c, p, b, Live);
      c := One(c, p, b, Live);
      dvsize := 0;
      dv := 0;
    }

    /** The front of the designated victim is used up. */
    method CutDv(p: int, oldsize: int, nb: int)
      requires Valid() && p in c && c[p].kind == Live && c[p].size == oldsize && p + oldsize == dv && dv != 0
      requires oldsize < nb && nb + MIN_CHUNK_SIZE <= oldsize + dvsize && Mult8(nb)
      modifies `mem, `dv, `dvsize, `c
      ensures Valid() && Reshaped(old(mem), old(c), mem, c, p, nb, oldsize) && Fitted(old(Now()), Now(), p, nb)
    {
      hide Least, Core, Owned, Accounts, Two, SetInuse, SetFreeHead, ClearPinuse, Mult8, Fitted, Reshaped;
      DvCut(mem, smallmap, treemap, segs, Now(), p, nb);
      var dsize := oldsize + dvsize - nb;
      var r := p + nb;
      c := Two(c, p, r, dv + dvsize, Live, Dv);
      mem := SetInuse(mem, p, nb);
      mem := SetFreeHead(mem, r, dsize);
      mem := ClearPinuse(mem, r + dsize);
      dvsize := dsize;
      dv := r;
    }

    /** Grow into the designated victim, or take all of it. */
    method GrowIntoDv(p: int, oldsize: int, nb: int)
      requires Valid() && p in c && c[p].kind == Live && c[p].size == oldsize && p + oldsize == dv && dv != 0
      requires oldsize < nb <= oldsize + dvsize && Mult8(nb)
      modifies `mem, `dv, `dvsize, `c
      ensures Valid() && Reshaped(old(mem), old(c), mem, c, p, nb, oldsize) && Fitted(old(Now()), Now(), p, nb)
    {
      hide Least, Core, Keeps, Owned, Accounts, Mult8, Fitted, Reshaped;
      if oldsize + dvsize - nb >= MIN_CHUNK_SIZE {
        CutDv(p, oldsize, nb);
      } else {
        TakeDv(p, oldsize, nb);
      }
    }

    /** A free chunk that has left its bin is used up. */
    method JoinFree(p: int, oldsize: int, next: int, nextsize: int)
      requires Sound({} + {next}) && Accounts(segs, leastAddr, footprint, maxFootprint) && BrkOk(brk) && Checked()
      requires Has(c, p, oldsize, Live) && next == p + oldsize && Has(c, next, nextsize, Limbo)
      modifies `mem, `c
      ensures Valid() && Keeps(old(mem), old(c), mem, c, {p}) && SamePayload(old(mem), mem, p, oldsize)
      ensures OthersSame(old(c), c, WithIdle(old(c), p, next)) && Has(c, p, oldsize + nextsize, Live)
    {
      hide Least, Core, Keeps, Owned, Accounts, One, WithNext, JoinWords, SetInuse, Mult8, SamePayload, Rd, Head;
      hide OthersSame;
      ghost var m1, c1, b := mem, c, next + nextsize;
      GrownReady(mem, smallmap, treemap, h, segs, c, p, next, dv, dvsize, top, topsize);
      JoinReady(mem, smallmap, treemap, h, segs, c, p, b, next, oldsize);
      mem := SetInuse(mem, p, oldsize + nextsize);
      JoinNext(m1, mem, smallmap, treemap, h, segs, c1, p, b, next, oldsize);
      HomeKind(c, dv, dvsize, top, topsize, {} + {next});
      OwnedOne(c1, p, b, Live, dv, dvsize, top, topsize, {} + {next}, dv, dvsize, top, topsize, {});
      JoinedSame(m1, smallmap, treemap, h, segs, c, p, b, Live);
      c := One(c, p, b, Live);
    }

    /** Grow into an ordinary free chunk, giving back what is left if it makes a chunk. */
    method GrowIntoFree(p: int, oldsize: int, nb: int)
      requires Valid() && p in c && c[p].kind == Live && c[p].size == oldsize && p + oldsize in c
      requires c[p + oldsize].kind == Kind.Binned
      requires oldsize < nb <= oldsize + c[p + oldsize].size && Mult8(nb)
      modifies `mem, `smallmap, `treemap, `dv, `dvsize, `top, `topsize, `c, `h
      ensures Valid() && Reshaped(old(mem), old(c), mem, c, p, nb, oldsize) && Fitted(old(Now()), Now(), p, nb)
    {
      hide Least, Core, Keeps, Owned, Accounts, One, WithNext, JoinWords, SetInuse, Mult8, SamePayload, Rd, Head;
      hide ChunkSize, Reshaped, OthersSame, Rest, Fitted;
      hide Bins.Binned, Unbinned, Homed, Less;
      LiveWords(mem, smallmap, treemap, h, c, segs, p);
      ghost var m0, c0 := mem, c;
      var next := p + oldsize;
      var nextsize := ChunkSize(Rd(mem, next + 4));
      var rsize := oldsize + nextsize - nb;
      Unlink(next, nextsize, {});
      ghost var m1, c1 := mem, c;
      ghost var b := next + nextsize;
      KeptLive(m0, c0, m1, c1, p);
      GrownReady(mem, smallmap, treemap, h, segs, c, p, next, dv, dvsize, top, topsize);
      if rsize < MIN_CHUNK_SIZE {
        JoinFree(p, oldsize, next, nextsize);
        FittedWhole(old(Now()), c1, Now(), p, nb);
        ReshapedFrom(m0, c0, m1, c1, mem, c, p, nb, oldsize);
      } else {
        MultSum(oldsize, nextsize);
        MultSum(oldsize + nextsize, nb);
        BinnedNext(m0, old(smallmap), old(treemap), old(h), segs, c0, next);
        ghost var u := Now();
        SplitUsed(p, nb, rsize, b, next, {} + {next});
        FittedPart(old(Now()), u, Now(), p, nb);
        PayloadPart(m1, mem, p, nb, oldsize);
        ReshapedFrom(m0, c0, m1, c1, mem, c, p, nb, oldsize);
      }
    }

    /** try_realloc_chunk */
    method TryRealloc(p: int, nb: int) returns (done: bool)
      requires Valid() && p in c && c[p].kind == Live && LargeEnough(nb, Live)
      modifies `mem, `smallmap, `treemap, `dv, `dvsize, `top, `topsize, `c, `h
      ensures Valid()
      ensures if done then
                Reshaped(old(mem), old(c), mem, c, p, nb, old(c[p].size)) && Fitted(old(Now()), Now(), p, nb)
              else Stuck(c, p, nb) && mem == old(mem) && Now() == old(Now())
      ensures !done ==> smallmap == old(smallmap) && treemap == old(treemap)
    {
      hide Least, Core, Keeps, Owned, Accounts, WithNext, SamePayload, Rd, ChunkSize, CInuse, PInuse, IsInuse, Mult8;
      hide Rest, OthersSame;
      LiveWords(mem, smallmap, treemap, h, c, segs, p);
      HomeKind(c, dv, dvsize, top, topsize, {});
      Addressed(p);
      done := false;
      var oldsize := ChunkSize(Rd(mem, p + 4));
      var next := p + oldsize;
      TopKind(c, dv, dvsize, top, topsize, {}, next);
      Positive(mem, smallmap, treemap, h, c, segs, next);
      assert OkAddress(leastAddr, p) && IsInuse(Rd(mem, p + 4)) && p < next && PInuse(Rd(mem, next + 4));
      if oldsize >= nb {
        var rsize := oldsize - nb;
        AloneReady(mem, smallmap, treemap, h, segs, c, p, nb, rsize);
        if rsize >= MIN_CHUNK_SIZE {
          SplitUsed(p, nb, rsize, next, p, {});
          FittedShrunk(old(Now()), Now(), p, nb);
        } else {
          SamePayloadAll(mem, c, p, oldsize);
        }
        done := true;
      } else if next == top {
        if oldsize + topsize > nb {
          GrowIntoTop(p, oldsize, nb);
          done := true;
        }
      } else if next == dv {
        if oldsize + dvsize >= nb {
          GrowIntoDv(p, oldsize, nb);
          done := true;
        }
      } else if !CInuse(Rd(mem, next + 4)) {
        if oldsize + ChunkSize(Rd(mem, next + 4)) >= nb {
          GrowIntoFree(p, oldsize, nb);
          done := true;
        }
      }
    }

    /** The rest of dlrealloc once a new block is got: copy, then free the old block. */
    method Move(ghost m0: Mem, ghost c0: Chunks, oldr: int, r: int, bytes: int)
      requires Valid() && Granted(m0, c0, mem, c, r - 8, RequestToSize(bytes)) && 0 <= bytes < MAX_REQUEST
      requires oldr - 8 in c0 && c0[oldr - 8].kind == Live
      modifies this
      ensures Valid() && Keeps(m0, c0, mem, c, {oldr - 8, r - 8}) && r - 8 in c && c[r - 8].kind == Live
      ensures c[r - 8].size == old(c[r - 8].size)
      ensures !(oldr - 8 in c && c[oldr - 8].kind == Live)
      ensures SameContents(m0, oldr, mem, r, Min(c0[oldr - 8].size - 4, bytes))
      ensures GaveBack(old(Now()), Now(), old(Deals()), Deals(), oldr - 8)
    {
      hide Least, Core, Keeps, Owned, Accounts, SamePayload, SameContents, Mult8, Rd, ChunkSize, Freed, GaveBack;
      var oldp := oldr - 8;
      ghost var m1, c1 := mem, c;
      MoveReady(m0, c0, m1, smallmap, treemap, h, segs, c1, oldp, r - 8, bytes);
      LiveWords(mem, smallmap, treemap, h, c, segs, oldp);
      var oc := ChunkSize(Rd(mem, oldp + 4)) - 4;
      var n := Min(oc, bytes);
      mem := CopyWords(mem, oldr, r, n);
      ghost var m2 := mem;
      PayloadCore(m1, m2, smallmap, treemap, h, c1, segs, r - 8, n);
      StillLive(m1, m2, c1, oldp, r - 8);
      ghost var trimmed := Free(oldr);
      Moved(m0, c0, m1, c1, m2, mem, c, oldp, r - 8, n);
    }

    /** dlrealloc */
    method Realloc(oldr: int, bytes: int) returns (r: int)
      requires Valid() && 0 <= bytes < WORD && (oldr == 0 || (oldr - 8 in c && c[oldr - 8].kind == Live))
      modifies this
      ensures Valid()
      ensures r == 0 ==> mem == old(mem) && Unmet(old(Now()), Now(), old(Deals()), Deals())
      ensures r == 0 ==>
        (bytes >= MAX_REQUEST || Exhausted(old(c), RequestToSize(bytes), old(dvsize), old(topsize), old(footprint),
                                           footprintLimit, old(refusals), refusals))
      ensures r != 0 && r != oldr ==>
        Served(old(h), old(c), RequestToSize(bytes), old(dv), old(dvsize), old(top), old(topsize), r - 8)
      ensures oldr == 0 && r != 0 ==>
        && Met(old(Now()), Now(), old(Deals()), Deals(), footprintLimit, RequestToSize(bytes), r - 8)
        && Dealt(old(Now()), old(Deals()), Deals(), footprintLimit, RequestToSize(bytes))
      ensures oldr != 0 && r == oldr ==>
        Fitted(old(Now()), Now(), r - 8, RequestToSize(bytes)) && Deals() == old(Deals())
      ensures oldr != 0 && r != 0 && r != oldr ==>
        Moving(old(Now()), Now(), old(Deals()), Deals(), footprintLimit, RequestToSize(bytes), r - 8, oldr - 8)
      ensures r != 0 ==> bytes < MAX_REQUEST && Mult8(r) && r - 8 in c && c[r - 8].kind == Live
      ensures r != 0 ==> RequestToSize(bytes) <= c[r - 8].size < RequestToSize(bytes) + MIN_CHUNK_SIZE
      ensures oldr == 0 && r != 0 ==> Granted(old(mem), old(c), mem, c, r - 8, RequestToSize(bytes))
      ensures oldr != 0 && r != 0 ==> Keeps(old(mem), old(c), mem, c, {oldr - 8, r - 8})
      ensures oldr != 0 && r != 0 && r != oldr ==> Stuck(old(c), oldr - 8, RequestToSize(bytes))
      ensures oldr != 0 && r != 0 && r != oldr ==>
        !(oldr - 8 in c && c[oldr - 8].kind == Live) && !(r - 8 in old(c) && old(c)[r - 8].kind == Live)
      ensures oldr != 0 && r != 0 ==> SameContents(old(mem), oldr, mem, r, Min(old(c)[oldr - 8].size - 4, bytes))
    {
      hide Least, Core, Keeps, Owned, Accounts, SamePayload, SameContents, Mult8, Rd, ChunkSize, Freed, Exhausted;
      hide Served, Met, Dealt, Moving, GaveBack, Fitted;
      hide Bins.Binned, Unbinned, Homed;
      RequestFacts(bytes);
      r := 0;
      if oldr == 0 {
        r := Malloc(bytes);
      } else if bytes < MAX_REQUEST {
        var nb := RequestToSize(bytes);
        var oldp := oldr - 8;
        LiveAligned(mem, smallmap, treemap, h, c, segs, oldp);
        SizeMult(mem, smallmap, treemap, h, c, segs, oldp);
        var done := TryRealloc(oldp, nb);
        if done {
          r := oldr;
          InPlace(old(mem), old(c), mem, smallmap, treemap, h, segs, c, oldp, bytes);
        } else {
          r := Malloc(bytes);
          if r != 0 {
            ghost var u, f := Now(), Deals();
            Move(old(mem), old(c), oldr, r, bytes);
            MovingNow(old(Now()), u, Now(), old(Deals()), f, Deals(), footprintLimit, nb, r - 8, oldp);
          }
        }
      }
    }

    /** dlcalloc */
    method Calloc(nElements: int, elemSize: int) returns (r: int)
      requires Valid() && 0 <= nElements < WORD && 0 <= elemSize < WORD
      modifies this
      ensures Valid()
      ensures r == 0 ==> mem == old(mem) && Unmet(old(Now()), Now(), old(Deals()), Deals())
      ensures r == 0 ==>
        var n := nElements * elemSize;
        (n >= MAX_REQUEST || Exhausted(old(c), RequestToSize(n), old(dvsize), old(topsize), old(footprint),
                                       footprintLimit, old(refusals), refusals))
      ensures r != 0 ==>
        nElements * elemSize < MAX_REQUEST
            && Granted(old(mem), old(c), mem, c, r - 8, RequestToSize(nElements * elemSize)) && Mult8(r)
      ensures r != 0 ==> ZeroContents(mem, r, nElements * elemSize)
      ensures r != 0 ==>
        var nb := RequestToSize(nElements * elemSize);
        && Served(old(h), old(c), nb, old(dv), old(dvsize), old(top), old(topsize), r - 8)
        && Met(old(Now()), Now(), old(Deals()), Deals(), footprintLimit, nb, r - 8)
        && Dealt(old(Now()), old(Deals()), Deals(), footprintLimit, nb)
    {
      hide Least, Core, Keeps, Owned, Accounts, Mult8, Rd, Exhausted, Served, CallocRequest, Met, Dealt;
      var req := CallocRequest(nElements, elemSize);
      CallocFacts(nElements, elemSize);
      RequestFacts(req);
      r := Malloc(req);
      if r != 0 {
        ghost var m1 := mem;
        mem := ClearWords(mem, r, req);
        PayloadCore(m1, mem, smallmap, treemap, h, c, segs, r - 8, req);
        HandedFilled(old(mem), old(c), m1, mem, c, r - 8);
      }
    }

    /** The leading part of a live chunk is given back, the rest stays live. */
    method GiveBackLead(p: int, newp: int)
      requires Valid() && p in c && c[p].kind == Live && LargeEnough(newp - p, Live)
      requires LargeEnough(p + c[p].size - newp, Live)
      modifies `mem, `smallmap, `treemap, `dv, `dvsize, `top, `topsize, `c, `h
      ensures Valid() && Keeps(old(mem), old(c), mem, c, {p, newp}) && !(p in c && c[p].kind == Live)
      ensures newp in c && c[newp].kind == Live && c[newp].size == p + old(c[p].size) - newp && newp !in old(c)
    {
      hide Least, Core, Keeps, Owned, Accounts, WithNext, SetInuse, SamePayload, Rd, Head, Freed, ChunkSize;
      ghost var m0, c0 := mem, c;
      LiveWords(mem, smallmap, treemap, h, c, segs, p);
      var leadsize := newp - p;
      var newsize := ChunkSize(Rd(mem, p + 4)) - leadsize;
      ghost var b := newp + newsize;
      AloneReady(mem, smallmap, treemap, h, segs, c, p, leadsize, newsize);
      SplitReady(mem, smallmap, treemap, h, segs, c, p, newp, b, p, dv, dvsize, top, topsize, {});
      mem := SetInuse(mem, newp, newsize);
      mem := SetInuse(mem, p, leadsize);
      UsedSplit(m0, mem, smallmap, treemap, h, segs, c0, p, newp, b, p);
      c := Two(c, p, newp, b, Live, Live);
      ghost var m1, c1 := mem, c;
      var intoTop := Dispose(p, leadsize);
      LeadDone(m0, c0, m1, c1, mem, c, p, newp);
    }

    /** Spare room at the end of a live chunk is given back. */
    method GiveBackTail(p: int, nb: int)
      requires Valid() && p in c && c[p].kind == Live && LargeEnough(nb, Live) && c[p].size >= nb
      modifies `mem, `smallmap, `treemap, `dv, `dvsize, `top, `topsize, `c, `h
      ensures Valid() && Keeps(old(mem), old(c), mem, c, {p}) && p in c && c[p].kind == Live
      ensures nb <= c[p].size <= nb + MIN_CHUNK_SIZE
    {
      hide Least, Core, Keeps, Owned, Accounts, Mult8, Rd, ChunkSize, WithNext;
      LiveWords(mem, smallmap, treemap, h, c, segs, p);
      SamePayloadAll(mem, c, p, 0);
      var size := ChunkSize(Rd(mem, p + 4));
      AloneReady(mem, smallmap, treemap, h, segs, c, p, nb, size - nb);
      if size > nb + MIN_CHUNK_SIZE {
        SplitUsed(p, nb, size - nb, p + size, p, {});
      }
    }

    /** The aligned part of a block with room for alignment. */
    method AlignBlock(r0: int, alignment: int, nb: int, ghost m0: Mem, ghost c0: Chunks) returns (r: int)
      requires Valid() && Handed(m0, c0, mem, c, r0 - 8) && c[r0 - 8].size >= nb + alignment + MIN_CHUNK_SIZE
      requires LargeEnough(nb, Live)
      requires PowerOfTwo(alignment) && alignment >= 16
      modifies `mem, `smallmap, `treemap, `dv, `dvsize, `top, `topsize, `c, `h
      ensures Valid() && Handed(m0, c0, mem, c, r - 8) && nb <= c[r - 8].size <= nb + MIN_CHUNK_SIZE
      ensures Aligned(r, alignment) && r != 0
      ensures if Aligned(r0, alignment) then r == r0
              else r0 + MIN_CHUNK_SIZE <= r < r0 + MIN_CHUNK_SIZE + alignment
    {
      hide Least, Core, Keeps, Owned, Accounts, Mult8, PowerOfTwo, Spot, Aligned;
      var p := r0 - 8;
      ghost var m1, c1 := mem, c;
      AlignedReady(mem, smallmap, treemap, h, segs, c, p, alignment, nb);
      if !Aligned(r0, alignment) {
        var newp := Spot(p, alignment);
        SpotNear(p, alignment);
        GiveBackLead(p, newp);
        LeadHanded(m0, c0, m1, c1, mem, c, p, newp);
        p := newp;
      }
      ghost var m2, c2 := mem, c;
      GiveBackTail(p, nb);
      TailHanded(m0, c0, m2, c2, mem, c, p);
      LiveAligned(mem, smallmap, treemap, h, c, segs, p);
      r := p + 8;
    }

    /** internal_memalign */
    method Memalign(alignment0: int, bytes: int) returns (r: int, ghost a: int, ghost r0: int)
      requires Valid() && 0 <= alignment0 <= MAX_ALIGNMENT && 0 <= bytes < WORD
      modifies this
      ensures Valid()
      ensures r == 0 ==> mem == old(mem) && Unmet(old(Now()), Now(), old(Deals()), Deals())
      ensures 16 <= a <= MAX_ALIGNMENT && PowerOfTwo(a) && alignment0 <= a && (a == 16 || a < 2 * alignment0)
      ensures a == LeastPower(alignment0)
      ensures r == 0 ==>
        var req := RequestToSize(bytes) + a + MIN_CHUNK_SIZE - 4;
        (bytes >= MAX_REQUEST - a || req >= MAX_REQUEST
         || Exhausted(old(c), RequestToSize(req), old(dvsize), old(topsize), old(footprint), footprintLimit,
                      old(refusals), refusals))
      ensures r != 0 ==> Aligned(r, a)
      ensures r != 0 ==> if Aligned(r0, a) then r == r0 else r0 + MIN_CHUNK_SIZE <= r < r0 + MIN_CHUNK_SIZE + a
      ensures r != 0 ==>
        var nb := RequestToSize(RequestToSize(bytes) + a + MIN_CHUNK_SIZE - 4);
        && RequestToSize(bytes) + a + MIN_CHUNK_SIZE - 4 < MAX_REQUEST
        && Served(old(h), old(c), nb, old(dv), old(dvsize), old(top), old(topsize), r0 - 8)
        && Dealt(old(Now()), old(Deals()), Deals(), footprintLimit, nb)
      ensures r != 0 ==>
        Handed(old(mem), old(c), mem, c, r - 8)
            && RequestToSize(bytes) <= c[r - 8].size <= RequestToSize(bytes) + MIN_CHUNK_SIZE
    {
      hide Least, Core, Keeps, Owned, Accounts, Mult8, PowerOfTwo, Aligned, Exhausted, Served, Met, Dealt;
      r, r0 := 0, 0;
      var alignment := RoundAlignment(alignment0);
      a := alignment;
      OnlyPower(alignment0, a);
      RequestFacts(bytes);
      if bytes < MAX_REQUEST - alignment {
        var nb := RequestToSize(bytes);
        var req := nb + alignment + MIN_CHUNK_SIZE - 4;
        RequestFacts(req);
        r := Malloc(req);
        r0 := r;
        if r != 0 {
          r := AlignBlock(r, alignment, nb, old(mem), old(c));
        }
      }
    }

    /** Two adjacent live chunks become one. */
    method Merge(p: int, next: int)
      requires Valid() && p in c && c[p].kind == Live && next == p + c[p].size && next in c && c[next].kind == Live
      modifies `mem, `c
      ensures Valid() && Keeps(old(mem), old(c), mem, c, {p, next}) && p in c && c[p].kind == Live && next !in c
      ensures (forall x | x in old(c) && x != p && x != next :: x in c && c[x].kind == old(c)[x].kind)
      ensures forall x | x in c && c[x].kind == Live :: x == p || (x in old(c) && old(c)[x].kind == Live && x != next)
    {
      hide Least, Core, Keeps, Owned, Accounts, JoinWords, SetInuse, Rd, ChunkSize;
      hide Bins.Binned, Unbinned, Homed;
      ghost var m0, c0 := mem, c;
      LiveWords(mem, smallmap, treemap, h, c, segs, p);
      var newsize := ChunkSize(Rd(mem, next + 4)) + ChunkSize(Rd(mem, p + 4));
      ghost var b := p + newsize;
      MergeReady(mem, smallmap, treemap, h, segs, c, p, next, dv, dvsize, top, topsize);
      JoinReady(mem, smallmap, treemap, h, segs, c, p, b, next, 0);
      mem := SetInuse(mem, p, newsize);
      UsedJoined(m0, mem, smallmap, treemap, h, segs, c0, p, b, next, 0, {p, next});
      OwnedOne(c0, p, b, Live, dv, dvsize, top, topsize, {}, dv, dvsize, top, topsize, {});
      MergeKeys(c0, p, next, b);
      c := One(c, p, b, Live);
    }

    /** The end of internal_bulk_free: top is trimmed, if it exceeds the threshold. */
    method TrimLarge() returns (trimmed: bool)
      requires Valid()
      modifies `mem, `top, `topsize, `trimCheck, `footprint, `segs, `brk, `refusals, `c
      ensures Valid() && Keeps(old(mem), old(c), mem, c, {}) && top == old(top)
      ensures topsize == old(topsize) - (old(footprint) - footprint)
      ensures if old(topsize) > old(trimCheck) then Trimming(old(Deals()), Deals(), top, old(topsize))
              else Deals() == old(Deals())
      ensures trimmed <==> footprint < old(footprint)
      ensures !trimmed ==> segs == old(segs) && footprint == old(footprint) && topsize <= trimCheck
      ensures old(trimCheck) >= HEAP_MAX || old(footprint) <= 0x20_0000 ==> !trimmed && Deals() == old(Deals())
    {
      hide Least, Core, Keeps, Owned, Accounts, GivenBack, NotGiven, OthersSame;
      trimmed := false;
      KeepsSame(mem, c);
      TopBound();
      if topsize > trimCheck {
        trimmed := SysTrim(0);
        TrimFacts(old(Deals()), Deals(), top, old(topsize), 0);
        TopBound();
      }
    }

    /** One entry of the array: its block is merged with the next entry's, if that follows it, or freed. */
    method BulkOne(a: array<int>, i: nat, ghost X: set<int>, ghost m0: Mem, ghost c0: Chunks)
      requires Valid() && i < a.Length && a[i] != 0 && Pending(a[..], i, c, X) && Keeps(m0, c0, mem, c, X) && -8 !in c
      modifies `mem, `smallmap, `treemap, `dv, `dvsize, `top, `topsize, `c, `h, a
      ensures Valid() && Pending(a[..], i + 1, c, X) && Keeps(m0, c0, mem, c, X)
      ensures a[i] == 0 && (forall k | 0 <= k < i :: a[k] == old(a[k])) && top + topsize == old(top) + old(topsize)
    {
      hide Least, Core, Keeps, Owned, Accounts, Pending, Rd, ChunkSize, IsInuse, Freed, Coalescing;
      ghost var s, m1, c1 := a[..], mem, c;
      PendingAt(s, i, c, X);
      var p := a[i] - 8;
      LiveWords(mem, smallmap, treemap, h, c, segs, p);
      Addressed(p);
      var psize := ChunkSize(Rd(mem, p + 4));
      a[i] := 0;
      assert OkAddress(leastAddr, p) && IsInuse(Rd(mem, p + 4));
      var next := p + psize;
      if i + 1 < a.Length && a[i + 1] == next + 8 {
        NextPending(mem, smallmap, treemap, h, c, segs, s, i, X, p, next);
        Merge(p, next);
        a[i + 1] := p + 8;
        PendingJoined(s, i, c1, c, X, p, next);
        assert a[..] == s[i := 0][i + 1 := p + 8];
        KeepsInto(m0, c0, m1, c1, mem, c, X, {p, next});
      } else {
        var intoTop := Dispose(p, psize);
        PendingFreed(s, i, m1, c1, mem, c, X);
        assert a[..] == s[i := 0];
        KeepsFreed(m0, c0, m1, c1, mem, c, X, p);
      }
    }

    /** internal_bulk_free: adjacent blocks that follow one another in the array are merged before they are freed. */
    method BulkFree(a: array<int>, ghost X: set<int>) returns (ghost trimmed: bool)
      requires Valid() && Pending(a[..], 0, c, X)
      modifies this, a
      ensures Valid() && AllFreed(old(mem), old(c), mem, c, X)
      ensures forall k | 0 <= k < a.Length :: a[k] == 0
      ensures trimmed <==> footprint < old(footprint)
      ensures !trimmed ==> segs == old(segs) && footprint == old(footprint) && topsize <= trimCheck
      ensures var size := old(top) + old(topsize) - top;
              && topsize == size - (old(footprint) - footprint)
              && if size > old(trimCheck) then Trimming(old(Deals()), Deals(), top, size) else Deals() == old(Deals())
      ensures old(trimCheck) >= HEAP_MAX || old(footprint) <= 0x20_0000 ==> !trimmed && Deals() == old(Deals())
    {
      trimmed := false;
      hide Least, Core, Keeps, Owned, Accounts, Pending, Rd, ChunkSize, IsInuse, Freed, Coalescing, Trimming;
      hide Bins.Binned, Unbinned, Homed, Less;
      var i := 0;
      KeepsSame(mem, c);
      KeepsMore(mem, c, mem, c, X);
      while i < a.Length
        invariant 0 <= i <= a.Length && Valid() && Pending(a[..], i, c, X) && Keeps(old(mem), old(c), mem, c, X)
        invariant forall k | 0 <= k < i :: a[k] == 0
        invariant Deals() == old(Deals()) && top + topsize == old(top) + old(topsize)
      {
        NoNegative(mem, smallmap, treemap, h, c, segs);
        if a[i] != 0 { BulkOne(a, i, X, old(mem), old(c)); } else { PendingZero(a[..], i, c, X); }
        i := i + 1;
      }
      NonePending(a[..], i, c, X);
      ghost var m1, c1 := mem, c;
      var some := TrimLarge();
      trimmed := some;
      AllFreedThen(old(mem), old(c), m1, c1, mem, c, X);
    }

    /** The loop of ialloc that splits out elements; the last one absorbs what is left. */
    method CutElements(r: int, es: seq<int>, rem0: int, marray: int, ghost m0: Mem, ghost c0: Chunks,
                       ghost X0: set<int>) returns (blocks: seq<int>, ghost X: set<int>, ghost last: int)
      requires Core(Ahead(mem, r - 8, rem0), smallmap, treemap, h, c, segs) && Owned(c, dv, dvsize, top, topsize, {})
      requires Least(segs, leastAddr)
      requires forall j | 0 <= j < |es| :: LargeEnough(es[j], Live)
      requires Cutting(Ahead(mem, r - 8, rem0), c, m0, c0, X0, r, es, [], r - 8, rem0, marray)
      modifies `mem, `c
      ensures Sound({}) && HandedAll(m0, c0, mem, c, X) && InRow(X, blocks) && |blocks| == |es|
      ensures Pointers(mem, marray, blocks)
      ensures Row(c, r, es[|es| - 1 := last], blocks, r + rem0) && last >= es[|es| - 1] && X0 <= X
      ensures last == es[|es| - 1] + rem0 - Sum(es)
      ensures Later(old(c), c, r - 8 + rem0) && Untouched(old(mem), mem, r, r - 4 + rem0, X)
    {
      hide Least, Core, Keeps, Owned, Accounts, Ahead, Mult8, LargeEnough, Row, InRow, Pointers, HandedAll, Rd, Two;
      hide SetInuseHead, Word, ArrayOk;
      blocks, X := [], X0;
      var p, rem := r - 8, rem0;
      assert es[0..] == es;
      while true
        invariant Core(Ahead(mem, p, rem), smallmap, treemap, h, c, segs) && Owned(c, dv, dvsize, top, topsize, {})
        invariant Cutting(Ahead(mem, p, rem), c, m0, c0, X, r, es, blocks, p, rem, marray) && p + rem == r - 8 + rem0
        invariant X0 <= X && |blocks| < |es| && rem - Sum(es[|blocks|..]) == rem0 - Sum(es)
        invariant Later(old(c), c, r - 8 + rem0) && Untouched(old(mem), mem, r, r - 4 + rem0, X) && p in X
        decreases |es| - |blocks|
      {
        if marray != 0 {
          SizePositive(Ahead(mem, p, rem), smallmap, treemap, h, c, segs, p);
          CutStore(mem, smallmap, treemap, h, segs, c, m0, c0, X, r, es, blocks, p, rem, marray);
          StoreUntouched(old(mem), mem, r, r - 4 + rem0, X, marray + 4 * |blocks|, p + 8);
          mem := Wr(mem, marray + 4 * |blocks|, p + 8);
        }
        if |blocks| != |es| - 1 {
          var size := es[|blocks|];
          CutOne(mem, smallmap, treemap, h, segs, c, m0, c0, X, r, es, blocks, p, rem, marray, dv, dvsize, top,
              topsize);
          HeadUntouched(old(mem), mem, r, r - 4 + rem0, X, X + {p + size}, p, size);
          mem := SetInuseHead(mem, p, size);
          c := Two(c, p, p + size, p + rem, Live, Live);
          X := X + {p + size};
          blocks := blocks + [p + 8];
          rem := rem - size;
          p := p + size;
        } else {
          CutLast(Ahead(mem, p, rem), c, m0, c0, X, r, es, blocks, p, rem, marray);
          LastSize(es, rem);
          last := rem;
          AheadIs(mem, p, rem);
          HeadUntouched(old(mem), mem, r, r - 4 + rem0, X, X, p, rem);
          mem := SetInuseHead(mem, p, rem);
          blocks := blocks + [p + 8];
          break;
        }
      }
    }

    /** The part of ialloc after the allocation: the array of pointers, if it is to be in the heap, and the elements. */
    method CutAll(r: int, es: seq<int>, contents: int, given: bool, ghost m0: Mem, ghost c0: Chunks)
      returns (blocks: seq<int>, marray: int, ghost X: set<int>, ghost last: int)
      requires Valid() && Handed(m0, c0, mem, c, r - 8) && PrevUsed(c, r - 8)
      requires es != [] && contents == Sum(es) && contents >= MIN_CHUNK_SIZE && Mult8(contents)
      requires forall j | 0 <= j < |es| :: LargeEnough(es[j], Live)
      requires c[r - 8].size >= contents
      requires (!given ==> c[r - 8].size - contents >= MIN_CHUNK_SIZE && c[r - 8].size - contents >= 4 * |es| + 4)
      modifies `mem, `c
      ensures Valid() && HandedAll(m0, c0, mem, c, X) && InRow(X, blocks) && |blocks| == |es| && blocks[0] == r
      ensures Row(c, r, es[|es| - 1 := last], blocks, blocks[|es| - 1] + last) && last >= es[|es| - 1]
      ensures Pointers(mem, marray, blocks) && (marray == 0 <==> given) && (marray != 0 ==> marray - 8 in X)
      ensures last == es[|es| - 1] + if given then old(c[r - 8].size) - contents else 0
      ensures blocks[|es| - 1] + last == r + if given then old(c[r - 8].size) else contents
      ensures Untouched(old(mem), mem, r, blocks[|es| - 1] + last - 4, X)
      ensures !given ==>
        && marray == blocks[|es| - 1] + last && marray - 8 in c
        && c[marray - 8].size == old(c[r - 8].size) - contents
    {
      hide Least, Core, Keeps, Owned, Accounts, Ahead, Mult8, Row, InRow, Pointers, HandedAll, Rd, ChunkSize, PrevUsed;
      hide Two, Sum;
      var p := r - 8;
      LiveWords(mem, smallmap, treemap, h, c, segs, p);
      var rem := ChunkSize(Rd(mem, p + 4));
      ChunkMult(mem, smallmap, treemap, h, segs, c, p);
      Positive(mem, smallmap, treemap, h, c, segs, p);
      HandedOne(m0, c0, mem, c, p);
      AheadSame(mem, smallmap, treemap, h, segs, c, p);
      ghost var X0 := {p};
      marray := 0;
      if !given {
        var size := rem - contents;
        MultSum(rem, contents);
        CutStep(mem, smallmap, treemap, h, segs, c, p, rem, contents, dv, dvsize, top, topsize);
        ghost var d, m := Two(c, p, p + contents, p + rem, Live, Live), Ahead(SetInuseHead(mem, p, contents),
            p + contents, size);
        HandedMore(m0, c0, mem, c, m, d, X0, p, p + contents);
        ArraySwap(mem, p, contents, size);
        HeadUntouched(mem, mem, r, r - 4 + contents, {}, {}, p + contents, size);
        mem := SetInuseHead(mem, p + contents, size);
        c := d;
        X0 := X0 + {p + contents};
        marray := p + contents + 8;
        rem := contents;
      }
      CutInit(Ahead(mem, p, rem), c, m0, c0, X0, r, es, rem, marray);
      ghost var m1 := mem;
      blocks, X, last := CutElements(r, es, rem, marray, m0, c0, X0);
      UntouchedBoth(old(mem), m1, mem, r, r - 4 + rem, X);
      RowEnd(c, r, es[|es| - 1 := last], blocks, r + rem);
    }

    /** The bytes of a new block are zeroed, but for those the array of pointers will have. */
    method ClearElements(r: int, arraySize: int, ghost m0: Mem, ghost c0: Chunks)
      requires Valid() && Handed(m0, c0, mem, c, r - 8) && PrevUsed(c, r - 8)
      requires 0 <= arraySize <= c[r - 8].size - 4
      modifies `mem
      ensures Valid() && Handed(m0, c0, mem, c, r - 8) && ZeroContents(mem, r, c[r - 8].size - 4 - arraySize)
    {
      hide Least, Core, Keeps, Owned, Accounts, Rd, ChunkSize, ZeroContents;
      ghost var m1 := mem;
      LiveWords(mem, smallmap, treemap, h, c, segs, r - 8);
      var n := ChunkSize(Rd(mem, r - 8 + 4)) - 4 - arraySize;
      mem := ClearWords(mem, r, n);
      PayloadCore(m1, mem, smallmap, treemap, h, c, segs, r - 8, n);
      HandedFilled(m0, c0, m1, mem, c, r - 8);
    }

    /** What was zeroed is still zero when it is cut. */
    lemma CutZero(m1: Mem, es: seq<int>, blocks: seq<int>, X: set<int>, last: int, n: int, m0: Mem, c0: Chunks)
      requires Valid() && HandedAll(m0, c0, mem, c, X) && es != [] && |blocks| == |es|
      requires Row(c, blocks[0], es[|es| - 1 := last], blocks, blocks[|es| - 1] + last)
      requires ZeroContents(m1, blocks[0], n) && blocks[|es| - 1] + last - blocks[0] - 4 <= n
      requires Untouched(m1, mem, blocks[0], blocks[|es| - 1] + last - 4, X)
      ensures AllZero(mem, es[|es| - 1 := last], blocks)
    {
      hide Core, Owned, Accounts, Least, Keeps, Row, Untouched, ZeroContents, AllZero;
      var k := |es| - 1;
      RowBlocks(c, blocks[0], es[k := last], blocks, blocks[k] + last);
      ChunkMult(mem, smallmap, treemap, h, segs, c, blocks[0] - 8);
      ChunkMult(mem, smallmap, treemap, h, segs, c, blocks[k] - 8);
      MultSum(blocks[k] - 8, 8);
      RowZero(mem, smallmap, treemap, h, segs, c, m1, X, blocks[0], n, es[k := last], blocks, blocks[k] + last);
    }

    /** The part of ialloc after the allocation, the elements zeroed first if they are to be. */
    method CutCleared(r: int, es: seq<int>, contents: int, arraySize: int, zero: bool, given: bool, ghost m0: Mem,
                      ghost c0: Chunks)
      returns (blocks: seq<int>, marray: int, ghost X: set<int>, ghost last: int)
      requires Valid() && Handed(m0, c0, mem, c, r - 8) && PrevUsed(c, r - 8)
      requires es != [] && contents == Sum(es) && contents >= MIN_CHUNK_SIZE && Mult8(contents)
      requires forall j | 0 <= j < |es| :: LargeEnough(es[j], Live)
      requires 0 <= arraySize <= c[r - 8].size - contents
      requires if given then arraySize == 0 else arraySize >= MIN_CHUNK_SIZE && arraySize >= 4 * |es| + 4
      modifies `mem, `c
      ensures Valid() && HandedAll(m0, c0, mem, c, X) && InRow(X, blocks) && |blocks| == |es| && blocks[0] == r
      ensures Row(c, r, es[|es| - 1 := last], blocks, blocks[|es| - 1] + last) && last >= es[|es| - 1]
      ensures Pointers(mem, marray, blocks) && (marray == 0 <==> given) && (marray != 0 ==> marray - 8 in X)
      ensures last == es[|es| - 1] + if given then old(c[r - 8].size) - contents else 0
      ensures !given ==>
        && marray == blocks[|es| - 1] + last && marray - 8 in c
        && c[marray - 8].size == old(c[r - 8].size) - contents
      ensures zero ==> AllZero(mem, es[|es| - 1 := last], blocks)
    {
      hide Least, Core, Keeps, Owned, Accounts, Mult8, Row, InRow, Pointers, HandedAll, PrevUsed, Sum, AllZero;
      hide LargeEnough, Untouched, ZeroContents;
      if zero { ClearElements(r, arraySize, m0, c0); }
      ghost var m1 := mem;
      blocks, marray, X, last := CutAll(r, es, contents, given, m0, c0);
      if zero { CutZero(m1, es, blocks, X, last, old(c[r - 8].size) - 4 - arraySize, m0, c0); }
    }

    /** The array of pointers to no elements, unless one is given. */
    method NoElements(given: bool) returns (marray: int, ghost X: set<int>)
      requires Valid()
      modifies this
      ensures Valid() && HandedAll(old(mem), old(c), mem, c, X)
      ensures given ==> marray == 0 && mem == old(mem) && Now() == old(Now()) && Deals() == old(Deals())
      ensures marray != 0 ==>
        && Served(old(h), old(c), 16, old(dv), old(dvsize), old(top), old(topsize), marray - 8)
        && Met(old(Now()), Now(), old(Deals()), Deals(), footprintLimit, 16, marray - 8)
    {
      hide Least, Core, Keeps, Owned, Accounts, Mult8, HandedAll, PrevUsed, Exhausted, Served, Met, Dealt;
      marray, X := 0, {};
      NoneHanded(mem, c);
      if !given {
        RequestFacts(0);
        marray := Malloc(0);
        if marray != 0 {
          X := {marray - 8};
          HandedOne(old(mem), old(c), mem, c, marray - 8);
        }
      }
    }

    /**
     * ialloc: one chunk is got and cut into adjacent elements, and a chunk for the array of pointers unless one is
     * given.
     */
    method Ialloc(n: nat, sizes: seq<int>, same: bool, zero: bool, given: bool)
      returns (blocks: seq<int>, marray: int, ghost X: set<int>, ghost last: int)
      requires Valid() && (if same then |sizes| > 0 else |sizes| == n)
      requires forall i | 0 <= i < |sizes| :: 0 <= sizes[i] < WORD
      requires TrueSize(n, sizes, same, given) < WORD
      modifies this
      ensures Valid() && HandedAll(old(mem), old(c), mem, c, X) && (blocks == [] || |blocks| == n)
      ensures blocks != [] ==>
        && InRow(X, blocks) && Pointers(mem, marray, blocks) && (marray == 0 <==> given)
        && (marray != 0 ==> marray - 8 in X)
      ensures blocks != [] ==>
        var es := ElementSizes(n, sizes, same);
        Row(c, blocks[0], es[n - 1 := last], blocks, blocks[n - 1] + last) && last >= es[n - 1]
      ensures blocks != [] ==>
        var es := ElementSizes(n, sizes, same);
        if given then last < es[n - 1] + MIN_CHUNK_SIZE
        else
          && last == es[n - 1] && marray == blocks[n - 1] + last && marray - 8 in c
          && RequestToSize(4 * n) <= c[marray - 8].size < RequestToSize(4 * n) + MIN_CHUNK_SIZE
      ensures blocks != [] && zero ==> AllZero(mem, ElementSizes(n, sizes, same)[n - 1 := last], blocks)
      ensures n == 0 && given ==> marray == 0 && mem == old(mem) && Now() == old(Now()) && Deals() == old(Deals())
      ensures n == 0 && marray != 0 ==>
        && Served(old(h), old(c), 16, old(dv), old(dvsize), old(top), old(topsize), marray - 8)
        && Met(old(Now()), Now(), old(Deals()), Deals(), footprintLimit, 16, marray - 8)
      ensures blocks != [] ==>
        var nb := RequestToSize(TrueSize(n, sizes, same, given) - 4);
        && 4 <= TrueSize(n, sizes, same, given) < MAX_REQUEST + 4
        && Served(old(h), old(c), nb, old(dv), old(dvsize), old(top), old(topsize), blocks[0] - 8)
        && Dealt(old(Now()), old(Deals()), Deals(), footprintLimit, nb)
      ensures blocks == [] && n > 0 ==> X == {} && mem == old(mem) && Unmet(old(Now()), Now(), old(Deals()), Deals())
      ensures blocks == [] && n > 0 ==>
        var req := TrueSize(n, sizes, same, given) - 4;
        (req >= MAX_REQUEST || Exhausted(old(c), RequestToSize(req), old(dvsize), old(topsize), old(footprint),
                                         footprintLimit, old(refusals), refusals))
    {
      hide Least, Core, Keeps, Owned, Accounts, Ahead, Mult8, LargeEnough, Row, InRow, Pointers, HandedAll, Rd;
      hide ChunkSize, PrevUsed, Exhausted, Served, Met, Dealt, Sum, AllZero;
      blocks, marray, X, last := [], 0, {}, 0;
      NoneHanded(mem, c);
      if n == 0 {
        marray, X := NoElements(given);
        return;
      }
      ghost var es := ElementSizes(n, sizes, same);
      ElementsLarge(n, sizes, same);
      CodeSizeExact(n, sizes, same, given);
      var arraySize := ArraySize32(n, given);
      var contents := Contents(n, sizes, same);
      IallocFacts(es, n, arraySize, Sum(es));
      WordSum(Sum(es), arraySize);
      var r := Malloc((contents + arraySize) % WORD - 4);
      if r != 0 {
        assert Granted(old(mem), old(c), mem, c, r - 8, RequestToSize(contents + arraySize - 4));
        blocks, marray, X, last :=
          CutCleared(r, ElementSizes(n, sizes, same), contents, arraySize, zero, given, old(mem), old(c));
      }
    }

    /** Before any call: everything zero, nothing owned. */
    constructor (brk0: int, limit: int)
      requires BrkOk(brk0)
      ensures Valid() && c == map[] && segs == [] && footprint == 0
    {
      mem := map[];
      smallmap, treemap := 0, 0;
      dv, dvsize, top, topsize := 0, 0, 0, 0;
      leastAddr, trimCheck, footprint, maxFootprint, footprintLimit := 0, 0, 0, 0, limit;
      noncontiguous := false;
      segs := [];
      brk := brk0;
      refusals := [];
      c := map[];
      h := Homes(seq(32, i => []), seq(32, i => Tries.Nil));
      new;
      EmptyHeap();
    }

    /** A caller stores into a live block. */
    method Store(r: int, k: int, v: int)
      requires Valid() && r - 8 in c && c[r - 8].kind == Live && 0 <= k && 4 * k + 8 <= c[r - 8].size
      modifies `mem
      ensures Valid() && Keeps(old(mem), old(c), mem, c, {r - 8}) && mem == Wr(old(mem), r + 4 * k, v)
    {
      hide Least, Core, Keeps, Owned, Accounts;
      ghost var m0 := mem;
      mem := Wr(mem, r + 4 * k, v);
      assert WritesIn(m0, mem, r, 4 * k + 4);
      PayloadCore(m0, mem, smallmap, treemap, h, c, segs, r - 8, 4 * k + 4);
    }

    /** Other code moves the break, between calls. */
    method MoveBreak(brk1: int)
      requires Valid() && BrkOk(brk1)
      modifies `brk
      ensures Valid() && brk == brk1
    {
      brk := brk1;
    }
  }
}

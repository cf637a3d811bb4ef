/** What the invariant means, in the terms of the debugging checks the allocator was written with. */
module Checks {
  import opened Words
  import opened BinMaps
  import opened TreeIndex
  import opened Tries
  import TreeBins
  import SmallBins
  import LargeChunks
  import opened TreeLinks
  import opened Bins
  import opened Chunks
  import opened FreeLinks
  import opened Headers
  import opened Heaps
  import opened Steps
  import opened Growth
  import opened System

  /** The chunk address `x` belongs to. */
  ghost predicate Owns(c: Chunks, p: int, x: int) { p in c && p <= x < p + c[p].size }

  /** Where the chunks of a segment end. */
  ghost function ChunksEnd(segs: seq<Segment>, c: Chunks, i: int): int requires 0 <= i < |segs| {
    if i == 0 then segs[0].End() - TOP_FOOT_SIZE else segs[i].rec + RECORD_SIZE
  }

  lemma {:induction false} Reached(segs: seq<Segment>, c: Chunks, i: int, x: int, q: int) returns (p: int)
    requires Tiled(c) && SegsOk(segs, c) && 0 <= i < |segs| && q in c && segs[i].base <= q < segs[i].End()
    requires segs[i].base <= x < q + c[q].size
    ensures Owns(c, p, x)
    decreases q
  {
    if q <= x {
      p := q;
    } else {
      BeforeSame(segs, c, i, q);
      p := Reached(segs, c, i, x, c[q].prev);
    }
  }

  /** Within a segment, every chunk but the first has its predecessor there too. */
  lemma BeforeSame(segs: seq<Segment>, c: Chunks, i: int, q: int)
    requires Tiled(c) && SegsOk(segs, c) && 0 <= i < |segs| && q in c && segs[i].base < q < segs[i].End()
    ensures c[q].prev in c && segs[i].base <= c[q].prev < q && c[q].prev + c[c[q].prev].size == q
  {
    hide Mult8, Mult4, RecordOk, NextLinked, Apart;
    assert Placed(segs, q, c[q]) && PrevOk(c, q);
    forall j | 0 <= j < |segs| ensures segs[j].base != q { assert SegmentOk(segs[j]); }
    var p := c[q].prev;
    assert p != 0;
    assert Placed(segs, p, c[p]) && ChunkOk(p, c[p]);
    var j :| 0 <= j < |segs| && HeldBy(segs[j], p, p + c[p].size);
    assert j == i;
  }

  /** The chunks tile each segment exactly: every address up to the last chunk's end is in one chunk and no other. */
  lemma TilesExactly(segs: seq<Segment>, c: Chunks, top: int, i: int, x: int) returns (p: int)
    requires Tiled(c) && SegsOk(segs, c) && top in c && c[top].kind == Top && 0 <= i < |segs|
    requires segs[i].base <= x < ChunksEnd(segs, c, i)
    ensures Owns(c, p, x) && forall q | Owns(c, q, x) :: q == p
  {
    if i == 0 {
      assert Placed(segs, top, c[top]) && ChunkOk(top, c[top]);
      p := Reached(segs, c, 0, x, top);
    } else {
      assert RecordOk(segs[i], c);
      p := Reached(segs, c, i, x, segs[i].rec);
    }
    hide SegsOk, Mult8, NextLinked, PrevLinked;
  }

  /** `p` is in the list of small bin `i`. */
  ghost predicate InSmall(h: Homes, i: nat, p: int) { i < |h.small| && p in h.small[i] }

  /** A chunk found in a bin is a binned chunk whose size selects that bin. */
  lemma SmallMember(mem: Mem, smallmap: bv32, treemap: bv32, h: Homes, c: Chunks, segs: seq<Segment>, i: nat, p: int)
    requires Core(mem, smallmap, treemap, h, c, segs) && i < 32 && InSmall(h, i, p)
    ensures p in c && c[p].kind == Kind.Binned && c[p].size == 8 * i < MIN_LARGE_SIZE
  {
    var f := BinView(c);
    assert SmallBins.SmallAt(mem, h.small[i], i, smallmap, Smalls(f));
    hide Shape, SegsOk, SegWords, TreeBins.TreesOk, SmallBins.Chain, Marked;
    assert p in Smalls(f) && Smalls(f)[p] == 8 * i;
  }

  lemma TreeMember(mem: Mem, smallmap: bv32, treemap: bv32, h: Homes, c: Chunks, segs: seq<Segment>, i: nat, s: int,
                   p: int)
    requires Core(mem, smallmap, treemap, h, c, segs) && i < 32 && |h.trees| == 32 && HasSize(h.trees[i], s)
    requires p in Ring(h.trees[i], s)
    ensures p in c && c[p].kind == Kind.Binned && c[p].size == s && MIN_LARGE_SIZE <= s < WORD && Index(s) == i
  {
    var f := Larges(BinView(c));
    assert TreeBins.TreeAt(mem, h.trees[i], i, treemap, f);
    RingBacked(h.trees[i], f, s);
    hide Shape, SegsOk, SegWords, SmallBins.SmallOk, Marked, Index, HasSize, Ring, Trie, Backed;
  }

  /**
   * Every chunk that is not in use has exactly one home: top, the designated victim, or the one bin its size selects;
   * no chunk in use has any.
   */
  ghost predicate BinHome(h: Homes, c: Chunks, p: int)
    requires p in c && |h.small| == 32 && |h.trees| == 32 && 0 <= c[p].size < WORD
  {
    if c[p].size < MIN_LARGE_SIZE then InSmall(h, c[p].size / 8, p)
    else
      IndexRange(c[p].size);
      var t := h.trees[Index(c[p].size)];
      HasSize(t, c[p].size) && p in Ring(t, c[p].size)
  }

  lemma OneHome(mem: Mem, smallmap: bv32, treemap: bv32, h: Homes, c: Chunks, segs: seq<Segment>, dv: int, dvsize: int,
                top: int, topsize: int, p: int)
    requires Core(mem, smallmap, treemap, h, c, segs) && Owned(c, dv, dvsize, top, topsize, {}) && p in c
    ensures |h.small| == 32 && |h.trees| == 32 && 0 <= c[p].size < WORD
    ensures c[p].Used() ==> p != top && p != dv && !BinHome(h, c, p)
    ensures !c[p].Used() ==>
      (p == top && p != dv && !BinHome(h, c, p)) || (p != top && p == dv && !BinHome(h, c, p))
          || (p != top && p != dv && BinHome(h, c, p))
    ensures forall i: nat | i < 32 && InSmall(h, i, p) ::
      c[p].kind == Kind.Binned && i == c[p].size / 8 && c[p].size < MIN_LARGE_SIZE
    ensures forall i: nat, s | i < 32 && HasSize(h.trees[i], s) && p in Ring(h.trees[i], s) ::
      c[p].kind == Kind.Binned && s == c[p].size && i == Index(s)
  {
    hide Core, Owned, SmallBins.SmallOk, HasSize, Ring, Index;
    BinsReady(mem, smallmap, treemap, h, c, segs);
    NoZero(mem, smallmap, treemap, h, segs, c, p, dv, dvsize, top, topsize, {});
    HomeKind(c, dv, dvsize, top, topsize, {});
    SizeRange(mem, smallmap, treemap, h, c, segs, p);
    if c[p].kind == Kind.Binned { BinnedHome(mem, smallmap, treemap, h, c, segs, p); }
    forall i: nat | i < 32 && InSmall(h, i, p)
      ensures c[p].kind == Kind.Binned && i == c[p].size / 8 && c[p].size < MIN_LARGE_SIZE
    {
      SmallMember(mem, smallmap, treemap, h, c, segs, i, p);
    }
    forall i: nat, s | i < 32 && HasSize(h.trees[i], s) && p in Ring(h.trees[i], s)
      ensures c[p].kind == Kind.Binned && s == c[p].size && i == Index(s)
    {
      TreeMember(mem, smallmap, treemap, h, c, segs, i, s, p);
    }
    if c[p].size >= MIN_LARGE_SIZE { IndexRange(c[p].size); }
  }

  lemma SizeRange(mem: Mem, smallmap: bv32, treemap: bv32, h: Homes, c: Chunks, segs: seq<Segment>, p: int)
    requires Core(mem, smallmap, treemap, h, c, segs) && p in c
    ensures 0 <= c[p].size < WORD
  {
    assert ChunkOk(p, c[p]);
  }

  lemma BinnedHome(mem: Mem, smallmap: bv32, treemap: bv32, h: Homes, c: Chunks, segs: seq<Segment>, p: int)
    requires Core(mem, smallmap, treemap, h, c, segs) && p in c && c[p].kind == Kind.Binned && |h.small| == 32
    requires |h.trees| == 32 && 0 <= c[p].size < WORD
    ensures BinHome(h, c, p)
  {
    var f := BinView(c);
    hide Shape, SegsOk, SegWords, TreeBins.TreesOk, SmallBins.SmallOk, HasSize, Ring, Index;
    if c[p].size < MIN_LARGE_SIZE {
      assert p in Smalls(f);
    } else {
      assert p in Larges(f) && TreeBins.InTrees(h.trees, Larges(f), p);
    }
  }

  /** Bit `i` of a map is set exactly when bin `i` holds a chunk. */
  lemma SmallMapExact(mem: Mem, smallmap: bv32, treemap: bv32, h: Homes, c: Chunks, segs: seq<Segment>, i: nat)
    requires Core(mem, smallmap, treemap, h, c, segs) && i < 32
    ensures Marked(smallmap, i) <==> exists p :: p in c && c[p].kind == Kind.Binned && c[p].size == 8 * i
  {
    hide Core, Marked;
    BinsReady(mem, smallmap, treemap, h, c, segs);
    MarkedSmall(mem, smallmap, treemap, h, c, segs, i);
    if Marked(smallmap, i) {
      SmallMember(mem, smallmap, treemap, h, c, segs, i, h.small[i][0]);
    }
    forall p | p in c && c[p].kind == Kind.Binned && c[p].size == 8 * i ensures Marked(smallmap, i) {
      BinnedHome(mem, smallmap, treemap, h, c, segs, p);
    }
  }

  lemma MarkedSmall(mem: Mem, smallmap: bv32, treemap: bv32, h: Homes, c: Chunks, segs: seq<Segment>, i: nat)
    requires Core(mem, smallmap, treemap, h, c, segs) && i < 32 && |h.small| == 32
    ensures Marked(smallmap, i) <==> h.small[i] != []
  {
    assert SmallBins.SmallAt(mem, h.small[i], i, smallmap, Smalls(BinView(c)));
    hide Shape, SegsOk, SegWords, TreeBins.TreesOk, Marked;
  }

  lemma TreeMapExact(mem: Mem, smallmap: bv32, treemap: bv32, h: Homes, c: Chunks, segs: seq<Segment>, i: nat)
    requires Core(mem, smallmap, treemap, h, c, segs) && i < 32
    ensures Marked(treemap, i) <==> exists p ::
      p in c && c[p].kind == Kind.Binned && MIN_LARGE_SIZE <= c[p].size < WORD && Index(c[p].size) == i
  {
    hide Core, Marked, Index;
    BinsReady(mem, smallmap, treemap, h, c, segs);
    MarkedTree(mem, smallmap, treemap, h, c, segs, i);
    var t := h.trees[i];
    if Marked(treemap, i) {
      TreeMember(mem, smallmap, treemap, h, c, segs, i, t.size, t.ring[0]);
    }
    forall p | p in c && c[p].kind == Kind.Binned && MIN_LARGE_SIZE <= c[p].size < WORD && Index(c[p].size) == i
      ensures Marked(treemap, i)
    {
      BinnedHome(mem, smallmap, treemap, h, c, segs, p);
    }
  }

  lemma MarkedTree(mem: Mem, smallmap: bv32, treemap: bv32, h: Homes, c: Chunks, segs: seq<Segment>, i: nat)
    requires Core(mem, smallmap, treemap, h, c, segs) && i < 32 && |h.trees| == 32
    ensures Marked(treemap, i) <==> h.trees[i].Node?
    ensures Marked(treemap, i) ==> h.trees[i].ring != []
  {
    assert TreeBins.TreeAt(mem, h.trees[i], i, treemap, Larges(BinView(c)));
    hide Shape, SegsOk, SegWords, SmallBins.SmallOk, Marked, Index;
  }

  // ---- the checks on single chunks

  /** do_check_inuse_chunk */
  lemma InuseChecks(mem: Mem, smallmap: bv32, treemap: bv32, h: Homes, c: Chunks, segs: seq<Segment>, least: int,
                    p: int)
    requires Core(mem, smallmap, treemap, h, c, segs) && Least(segs, least) && p in c && c[p].kind == Live
    ensures Mult8(p + 8) && OkAddress(least, p) && IsInuse(Rd(mem, p + 4))
    ensures PInuse(Rd(mem, p + ChunkSize(Rd(mem, p + 4)) + 4))
    ensures !PInuse(Rd(mem, p + 4)) ==> var q := p - Rd(mem, p); q in c && q + ChunkSize(Rd(mem, q + 4)) == p
  {
    hide BinsOk, SegWords, Head, Least, PInuse, CInuse, ChunkSize, Rd, NextLinked, PrevLinked, Apart;
    AboveLeast(segs, c, least, p);
    assert ChunkOk(p, c[p]);
    Reading(mem, c, p);
    Reading(mem, c, p + c[p].size);
    if !PInuse(Rd(mem, p + 4)) { Reading(mem, c, c[p].prev); }
    hide SegsOk, Shape;
  }

  /** The neighbours of a binned chunk on its list or ring point back at it. */
  lemma BackLinks(mem: Mem, smallmap: bv32, treemap: bv32, h: Homes, c: Chunks, segs: seq<Segment>, p: int)
    requires Core(mem, smallmap, treemap, h, c, segs) && p in c && c[p].kind == Kind.Binned
    ensures Bk(mem, Fd(mem, p)) == p && Fd(mem, Bk(mem, p)) == p
  {
    hide Shape, SegsOk, SegWords, Fd, Bk, Marked, Mult8;
    BinsReady(mem, smallmap, treemap, h, c, segs);
    var f := BinView(c);
    if f[p] < MIN_LARGE_SIZE {
      assert p in Smalls(f);
      var i := f[p] / 8;
      assert SmallBins.SmallAt(mem, h.small[i], i, smallmap, Smalls(f));
      var k :| 0 <= k < |h.small[i]| && h.small[i][k] == p;
      SmallBins.ChainBack(mem, SmallBins.BinAt(i), h.small[i], k);
    } else {
      assert p in Larges(f) && Spaced(Larges(f));
      hide BinsOk, TreeBins.TreesOk, TreeBins.InTrees;
      var u, k := LargeChunks.FindOnRing(mem, h.trees, treemap, Larges(f), p);
      LargeChunks.ReadNode(mem, h.trees, treemap, Larges(f), p, u, k);
      hide LargeChunks.OnRing;
      LargeChunks.Neighbours(mem, u, k, Larges(f));
    }
  }

  /** do_check_free_chunk, and that no two free chunks are adjacent */
  lemma FreeChecks(mem: Mem, smallmap: bv32, treemap: bv32, h: Homes, c: Chunks, segs: seq<Segment>, least: int, p: int)
    requires Core(mem, smallmap, treemap, h, c, segs) && Least(segs, least) && p in c && !c[p].Used()
    requires c[p].kind != Top
    ensures Mult8(p + 8) && OkAddress(least, p) && !IsInuse(Rd(mem, p + 4)) && PInuse(Rd(mem, p + 4))
    ensures var sz := ChunkSize(Rd(mem, p + 4)); var next := p + sz;
            && Mult8(sz) && sz >= MIN_CHUNK_SIZE && Rd(mem, next) == sz && !PInuse(Rd(mem, next + 4))
            && IsInuse(Rd(mem, next + 4))
    ensures c[p].prev == 0 || (c[p].prev in c && c[c[p].prev].Used())
    ensures c[p].kind == Kind.Binned ==> Bk(mem, Fd(mem, p)) == p && Fd(mem, Bk(mem, p)) == p
  {
    hide BinsOk, SegWords, Head, Least, PInuse, CInuse, ChunkSize, Rd, NextLinked, Apart, Fd, Bk;
    if c[p].kind == Kind.Binned { BackLinks(mem, smallmap, treemap, h, c, segs, p); }
    AboveLeast(segs, c, least, p);
    assert ChunkOk(p, c[p]) && PrevOk(c, p) && FootOk(mem, p, c[p]);
    Reading(mem, c, p);
    Reading(mem, c, p + c[p].size);
    hide SegsOk, Shape;
  }

  /** do_check_top_chunk: bit 2 of the size may be set, so only the in-use bits are masked. */
  lemma TopChecks(mem: Mem, smallmap: bv32, treemap: bv32, h: Homes, c: Chunks, segs: seq<Segment>, dv: int,
                  dvsize: int,
                  top: int, topsize: int, least: int)
    requires Core(mem, smallmap, treemap, h, c, segs) && Owned(c, dv, dvsize, top, topsize, {}) && Least(segs, least)
    requires top != 0
    ensures |segs| > 0 && segs[0].Start() <= top < segs[0].End() && Mult8(top + 8) && OkAddress(least, top)
    ensures var sz := Rd(mem, top + 4) - Rd(mem, top + 4) % 4;
            sz == topsize > 0 && sz == segs[0].End() - top - TOP_FOOT_SIZE
    ensures PInuse(Rd(mem, top + 4))
  {
    hide BinsOk, SegWords, Least, PInuse, CInuse, ChunkSize, Rd, NextLinked, PrevLinked, Apart, Owned;
    HomeKind(c, dv, dvsize, top, topsize, {});
    TopSize(mem, smallmap, treemap, h, c, segs, top);
    AboveLeast(segs, c, least, top);
    Reading(mem, c, top);
    assert HeadOk(mem, c, top) && ChunkOk(top, c[top]);
    hide SegsOk, Shape;
    Masked(topsize);
  }

  lemma Masked(size: int)
    requires Mult4(size)
    ensures var w := Head(size, true, false); w - w % 4 == size
  {}

  // ---- the sum of all chunks

  /** The sizes of the chunks from `q` to the end of its segment. */
  ghost function SizesFrom(c: Chunks, q: int): int
    requires Tiled(c) && q in c
    decreases WORD - q
  {
    assert ChunkOk(q, c[q]) && NextOk(c, q);
    c[q].size + if c[q].Last() then 0 else SizesFrom(c, q + c[q].size)
  }

  lemma {:induction false} SizesSpan(segs: seq<Segment>, c: Chunks, i: int, q: int)
    requires Tiled(c) && SegsOk(segs, c) && 0 <= i < |segs| && q in c && HeldBy(segs[i], q, q + c[q].size)
    ensures SizesFrom(c, q) == ChunksEnd(segs, c, i) - q
    decreases WORD - q
  {
    hide Mult8, Mult4, PrevLinked, Apart;
    assert ChunkOk(q, c[q]) && NextOk(c, q) && Placed(segs, q, c[q]);
    if c[q].Last() {
      LastHere(segs, c, i, q);
    } else {
      NextHere(segs, c, i, q);
      SizesSpan(segs, c, i, q + c[q].size);
    }
  }

  lemma LastHere(segs: seq<Segment>, c: Chunks, i: int, q: int)
    requires SegsOk(segs, c) && 0 <= i < |segs| && q in c && HeldBy(segs[i], q, q + c[q].size) && c[q].Last()
    requires c[q].size > 0
    ensures q + c[q].size == ChunksEnd(segs, c, i)
  {
    assert Placed(segs, q, c[q]);
    if c[q].kind == Top {
      assert SegmentOk(segs[0]) && SegmentOk(segs[i]);
      assert i == 0;
    } else {
      var j :| 0 < j < |segs| && segs[j].rec == q;
      assert RecordOk(segs[j], c);
      assert i == j;
    }
  }

  lemma NextHere(segs: seq<Segment>, c: Chunks, i: int, q: int)
    requires Tiled(c) && SegsOk(segs, c) && 0 <= i < |segs| && q in c && HeldBy(segs[i], q, q + c[q].size)
    requires !c[q].Last()
    ensures var p := q + c[q].size; p in c && HeldBy(segs[i], p, p + c[p].size)
  {
    hide Mult8, Mult4, PrevLinked, Apart;
    assert ChunkOk(q, c[q]) && NextOk(c, q);
    var p := q + c[q].size;
    assert Placed(segs, p, c[p]) && ChunkOk(p, c[p]);
    var j :| 0 <= j < |segs| && HeldBy(segs[j], p, p + c[p].size);
    assert j == i;
  }

  /** The sizes of all chunks, segment by segment. */
  ghost function AllSizes(segs: seq<Segment>, c: Chunks, n: nat): int
    requires Tiled(c) && n <= |segs| && forall i | 0 <= i < |segs| :: segs[i].base in c
  {
    if n == 0 then 0 else AllSizes(segs, c, n - 1) + SizesFrom(c, segs[n - 1].base)
  }

  ghost function Sizes(segs: seq<Segment>, n: nat): int
    requires n <= |segs|
  {
    if n == 0 then 0 else Sizes(segs, n - 1) + segs[n - 1].Bytes()
  }

  lemma {:induction false} SizesBelow(segs: seq<Segment>, c: Chunks, n: nat)
    requires Tiled(c) && SegsOk(segs, c) && n <= |segs|
    ensures AllSizes(segs, c, n) + (if n == 0 then 0 else TOP_FOOT_SIZE) <= Sizes(segs, n)
  {
    if n > 0 {
      SizesBelow(segs, c, n - 1);
      FirstHere(segs, c, n - 1);
      SizesSpan(segs, c, n - 1, segs[n - 1].base);
      if n > 1 { assert RecordOk(segs[n - 1], c); }
      hide Tiled, Placed, SizesFrom;
    }
  }

  lemma FirstHere(segs: seq<Segment>, c: Chunks, i: int)
    requires Tiled(c) && SegsOk(segs, c) && 0 <= i < |segs|
    ensures var q := segs[i].base; q in c && HeldBy(segs[i], q, q + c[q].size)
  {
    hide Mult8, Mult4, PrevLinked, NextLinked, Apart;
    var q := segs[i].base;
    assert Placed(segs, q, c[q]) && ChunkOk(q, c[q]) && SegmentOk(segs[i]);
    var j :| 0 <= j < |segs| && HeldBy(segs[j], q, q + c[q].size);
    assert j == i;
  }

  lemma {:induction false} SizesTotal(segs: seq<Segment>, n: nat)
    requires n <= |segs|
    ensures Sizes(segs, n) + Total(segs[n..]) == Total(segs)
  {
    if n == 0 {
      assert segs[0..] == segs;
    } else {
      SizesTotal(segs, n - 1);
      assert segs[n - 1..][1..] == segs[n..];
    }
  }

  /** traverse_and_check: the chunks and what top keeps free for itself add up to no more than the footprint. */
  lemma TraversalTotal(mem: Mem, smallmap: bv32, treemap: bv32, h: Homes, c: Chunks, segs: seq<Segment>, least: int,
                       footprint: int, maxFootprint: int)
    requires Core(mem, smallmap, treemap, h, c, segs) && Accounts(segs, least, footprint, maxFootprint)
    ensures Tiled(c) && forall i | 0 <= i < |segs| :: segs[i].base in c
    ensures AllSizes(segs, c, |segs|) + (if segs == [] then 0 else TOP_FOOT_SIZE) <= footprint <= maxFootprint
  {
    SizesBelow(segs, c, |segs|);
    SizesTotal(segs, |segs|);
    assert segs[|segs|..] == [];
    hide BinsOk, SegWords, Placed, RecordOk;
  }

  // ---- the footprint

  ghost function Span(a: int, b: int): (s: set<int>)
    ensures forall x :: x in s <==> a <= x < b
    decreases b - a
  {
    if a >= b then {} else Span(a, b - 1) + {b - 1}
  }

  lemma {:induction false} SpanSize(a: int, b: int)
    requires a <= b
    ensures |Span(a, b)| == b - a
    decreases b - a
  {
    if a < b { SpanSize(a, b - 1); }
  }

  ghost function Covered(segs: seq<Segment>): set<int> {
    if segs == [] then {} else Span(segs[0].Start(), segs[0].End()) + Covered(segs[1..])
  }

  lemma {:induction false} CoveredBy(segs: seq<Segment>, x: int)
    requires x in Covered(segs)
    ensures exists i :: 0 <= i < |segs| && segs[i].Start() <= x < segs[i].End()
  {
    if x in Span(segs[0].Start(), segs[0].End()) {
      assert segs[0].Start() <= x < segs[0].End();
    } else {
      CoveredBy(segs[1..], x);
      var i :| 0 <= i < |segs[1..]| && segs[1..][i].Start() <= x < segs[1..][i].End();
      assert segs[i + 1].Start() <= x < segs[i + 1].End();
    }
  }

  lemma {:induction false} TotalCovered(segs: seq<Segment>)
    requires Disjoint(segs) && forall i | 0 <= i < |segs| :: segs[i].Bytes() >= 0
    ensures |Covered(segs)| == Total(segs)
  {
    if segs != [] {
      TotalCovered(segs[1..]);
      var a := Span(segs[0].Start(), segs[0].End());
      SpanSize(segs[0].Start(), segs[0].End());
      forall x | x in Covered(segs[1..]) ensures x !in a {
        CoveredBy(segs[1..], x);
        var i :| 0 <= i < |segs[1..]| && segs[1..][i].Start() <= x < segs[1..][i].End();
        assert segs[1..][i] == segs[i + 1];
      }
      assert a * Covered(segs[1..]) == {};
    }
  }

  lemma Contained(a: set<int>, b: set<int>)
    requires a <= b
    ensures |a| <= |b|
  {
    assert b == a + (b - a);
  }

  /** The segments do not overlap, so the footprint is a count of bytes of memory and cannot wrap around. */
  lemma FootprintBound(segs: seq<Segment>, c: Chunks)
    requires SegsOk(segs, c)
    ensures 0 <= Total(segs) <= HEAP_MAX
  {
    assert forall i | 0 <= i < |segs| :: SegmentOk(segs[i]);
    TotalCovered(segs);
    forall x | x in Covered(segs) ensures x in Span(0, HEAP_MAX) {
      CoveredBy(segs, x);
      var i :| 0 <= i < |segs| && segs[i].Start() <= x < segs[i].End();
      assert SegmentOk(segs[i]);
    }
    SpanSize(0, HEAP_MAX);
    Contained(Covered(segs), Span(0, HEAP_MAX));
  }
}

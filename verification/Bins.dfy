/**
 * All the bins: small lists and trees, with their maps, holding every free chunk except the designated victim and top.
 */
module Bins {
  import opened Words
  import opened BinMaps
  import opened TreeIndex
  import opened Tries
  import opened TreeLinks
  import opened FreeLinks
  import opened TreeEdits
  import opened TreeBins
  import opened LargeChunks
  import opened SmallBins

  /** The lists and trees the bins stand for. */
  datatype Homes = Homes(small: seq<seq<int>>, trees: seq<Tree>)

  predicate IsSmall(s: nat) { s / 8 < 32 }

  ghost function Smalls(f: map<int, int>): map<int, int> { map p | p in f && f[p] < MIN_LARGE_SIZE :: f[p] }
  ghost function Larges(f: map<int, int>): map<int, int> { map p | p in f && f[p] >= MIN_LARGE_SIZE :: f[p] }

  /**
   * `f` gives the binned chunks and their sizes. Each is in the one bin its size selects, and nothing else is in any.
   */
  ghost predicate BinsOk(mem: Mem, smallmap: bv32, treemap: bv32, h: Homes, f: map<int, int>) {
    && Spaced(f) && (forall p | p in f :: Mult8(f[p]) && f[p] < WORD)
    && SmallOk(mem, h.small, smallmap, Smalls(f)) && AllInSmall(h.small, Smalls(f))
    && TreesOk(mem, h.trees, treemap, Larges(f)) && AllInTrees(h.trees, Larges(f))
  }

  ghost predicate InteriorSame(mem: Mem, m: Mem, p: int, n: int) {
    forall w | p + 8 <= w < p + n :: Rd(m, w) == Rd(mem, w)
  }

  lemma TreesFrame(mem: Mem, m: Mem, trees: seq<Tree>, treemap: bv32, f: map<int, int>)
    requires TreesOk(mem, trees, treemap, f)
    requires forall p | p in f :: f[p] >= MIN_LARGE_SIZE && InteriorSame(mem, m, p, f[p])
    requires forall a | TREEBINS <= a < HEAP_MIN :: Rd(m, a) == Rd(mem, a)
    ensures TreesOk(m, trees, treemap, f)
  {
    forall p | p in f ensures Same(mem, m, p) { assert InteriorSame(mem, m, p, f[p]); }
    hide Same, Marked, InteriorSame;
    forall j: nat | j < 32 ensures TreeAt(m, trees[j], j, treemap, f) {
      assert TreeAt(mem, trees[j], j, treemap, f);
      hide Linked, Trie, Backed;
      LinkedFrame(mem, m, trees[j], TreeBin(j), j, f);
    }
  }

  lemma SmallFrame(mem: Mem, m: Mem, small: seq<seq<int>>, smallmap: bv32, f: map<int, int>)
    requires SmallOk(mem, small, smallmap, f)
    requires forall p | p in f :: f[p] >= MIN_CHUNK_SIZE && InteriorSame(mem, m, p, f[p])
    requires forall a | a < TREEBINS :: Rd(m, a) == Rd(mem, a)
    ensures SmallOk(m, small, smallmap, f)
  {
    forall p | p in f ensures Kept(mem, m, p) { assert InteriorSame(mem, m, p, f[p]); }
    hide Marked, InteriorSame, NoDup, Chain;
    forall i: nat | i < 32 ensures SmallAt(m, small[i], i, smallmap, f) {
      assert SmallAt(mem, small[i], i, smallmap, f);
      assert Kept(mem, m, BinAt(i));
      ChainFrame(mem, m, BinAt(i), small[i]);
    }
  }

  /** Writes that reach no binned chunk's interior and no bin leave the bins as they are. */
  lemma BinsFrame(mem: Mem, m: Mem, smallmap: bv32, treemap: bv32, h: Homes, f: map<int, int>)
    requires BinsOk(mem, smallmap, treemap, h, f)
    requires forall p | p in f :: InteriorSame(mem, m, p, f[p])
    requires forall a | a < HEAP_MIN :: Rd(m, a) == Rd(mem, a)
    ensures BinsOk(m, smallmap, treemap, h, f)
  {
    hide SmallOk, TreesOk, InteriorSame, AllInSmall, AllInTrees;
    SmallFrame(mem, m, h.small, smallmap, Smalls(f));
    TreesFrame(mem, m, h.trees, treemap, Larges(f));
  }

  /** A chunk apart from those written keeps its interior. */
  lemma InteriorKept(mem: Mem, m: Mem, f: map<int, int>, g: map<int, int>, p: int)
    requires Spaced(f) && Confined(mem, m, g) && p in f && p !in g && forall q | q in g :: q in f && f[q] == g[q]
    ensures InteriorSame(mem, m, p, f[p])
  {
    forall w | p + 8 <= w < p + f[p] ensures Rd(m, w) == Rd(mem, w) {
      forall q | q in g ensures !(q + 8 <= w < q + g[q]) {}
      assert !Inside(g, w);
    }
  }

  lemma ConfinedMore(mem: Mem, m: Mem, g: map<int, int>, f: map<int, int>)
    requires Confined(mem, m, g) && forall q | q in g :: q in f && f[q] == g[q]
    ensures Confined(mem, m, f)
  {
    forall w | w >= HEAP_MIN && !Inside(f, w) ensures Rd(m, w) == Rd(mem, w) {
      forall q | q in g ensures !(q + 8 <= w < q + g[q]) { assert q in f; }
      assert !Inside(g, w);
    }
  }

  lemma PartsInsert(f: map<int, int>, p: int, s: int)
    requires p !in f
    ensures s < MIN_LARGE_SIZE ==> Smalls(f[p := s]) == Smalls(f)[p := s] && Larges(f[p := s]) == Larges(f)
    ensures s >= MIN_LARGE_SIZE ==> Larges(f[p := s]) == Larges(f)[p := s] && Smalls(f[p := s]) == Smalls(f)
  {}

  lemma PartsRemove(f: map<int, int>, p: int)
    requires p in f
    ensures f[p] < MIN_LARGE_SIZE ==> Smalls(f - {p}) == Smalls(f) - {p} && Larges(f - {p}) == Larges(f)
    ensures f[p] >= MIN_LARGE_SIZE ==> Larges(f - {p}) == Larges(f) - {p} && Smalls(f - {p}) == Smalls(f)
  {}

  lemma SpacedPart(f: map<int, int>, g: map<int, int>)
    requires Spaced(f) && forall q | q in g :: q in f && f[q] == g[q]
    ensures Spaced(g)
  {}

  lemma PushAll(mem: Mem, small: seq<seq<int>>, smallmap: bv32, f: map<int, int>, p: int, s: int)
    requires SmallOk(mem, small, smallmap, f) && AllInSmall(small, f) && MIN_CHUNK_SIZE <= s < MIN_LARGE_SIZE
    requires Mult8(s) && p !in f
    ensures AllInSmall(Pushed(small, p, s), f[p := s])
  {
    var g, r := f[p := s], Pushed(small, p, s);
    forall q | q in g ensures MIN_CHUNK_SIZE <= g[q] < MIN_LARGE_SIZE && Mult8(g[q]) && q in r[g[q] / 8] {
      if q == p { assert r[s / 8][0] == p; }
      else if g[q] / 8 == s / 8 { assert q in small[s / 8]; }
    }
  }

  lemma DropAll(mem: Mem, small: seq<seq<int>>, smallmap: bv32, f: map<int, int>, p: int, s: int)
    requires SmallOk(mem, small, smallmap, f) && AllInSmall(small, f) && MIN_CHUNK_SIZE <= s < MIN_LARGE_SIZE && p in f
    requires f[p] == s
    ensures AllInSmall(Dropped(small, p, s), f - {p})
  {
    var i := SmallIndex(s);
    assert SmallAt(mem, small[i], i, smallmap, f);
    WithoutProps(small[i], p);
  }

  ghost function Binned(h: Homes, p: int, s: int): Homes
    requires |h.small| == 32 && |h.trees| == 32 && 0 <= s < WORD
  {
    if s < MIN_LARGE_SIZE then h.(small := Pushed(h.small, p, s)) else h.(trees := TreeBins.Inserted(h.trees, p, s))
  }

  ghost function Unbinned(h: Homes, p: int, s: int): Homes
    requires |h.small| == 32 && |h.trees| == 32 && 0 <= s < WORD
  {
    if s < MIN_LARGE_SIZE then h.(small := Dropped(h.small, p, s)) else h.(trees := Deleted(h.trees, p, s))
  }

  /** A small-bin operation, seen from all the bins. */
  lemma SmallDone(mem: Mem, m: Mem, smallmap: bv32, smallmap': bv32, treemap: bv32, h: Homes, small: seq<seq<int>>,
                  f: map<int, int>, f': map<int, int>, g: map<int, int>, s: int)
    requires BinsOk(mem, smallmap, treemap, h, f)
    requires SmallOk(m, small, smallmap', Smalls(f')) && |small| == 32 && AllInSmall(small, Smalls(f'))
    requires Larges(f') == Larges(f)
    requires Spaced(f') && (forall p | p in f' :: Mult8(f'[p]) && f'[p] < WORD)
    requires Spaced(g) && (forall p | p in f || p in f' :: p in g && g[p] == if p in f then f[p] else f'[p])
    requires s < MIN_LARGE_SIZE && Confined(mem, m, OfSize(g, s))
    requires forall a | TREEBINS <= a < HEAP_MIN :: Rd(m, a) == Rd(mem, a)
    ensures BinsOk(m, smallmap', treemap, h.(small := small), f') && Confined(mem, m, g)
  {
    ConfinedMore(mem, m, OfSize(g, s), g);
    forall p | p in Larges(f)
      ensures InteriorSame(mem, m, p, Larges(f)[p])
    {
      InteriorKept(mem, m, g, OfSize(g, s), p);
    }
    hide SmallOk, TreesOk, InteriorSame, AllInSmall, AllInTrees, Confined, Spaced;
    TreesFrame(mem, m, h.trees, treemap, Larges(f));
  }

  /** A tree operation, seen from all the bins. */
  lemma LargeDone(mem: Mem, m: Mem, smallmap: bv32, treemap: bv32, treemap': bv32, h: Homes, trees: seq<Tree>,
                  f: map<int, int>, f': map<int, int>, g: map<int, int>)
    requires BinsOk(mem, smallmap, treemap, h, f)
    requires TreesOk(m, trees, treemap', Larges(f')) && |trees| == 32 && AllInTrees(trees, Larges(f'))
    requires Smalls(f') == Smalls(f)
    requires Spaced(f') && (forall p | p in f' :: Mult8(f'[p]) && f'[p] < WORD)
    requires Spaced(g) && (forall p | p in f || p in f' :: p in g && g[p] == if p in f then f[p] else f'[p])
    requires Confined(mem, m, Larges(g)) && forall a | a < TREEBINS :: Rd(m, a) == Rd(mem, a)
    ensures BinsOk(m, smallmap, treemap', h.(trees := trees), f') && Confined(mem, m, g)
  {
    ConfinedMore(mem, m, Larges(g), g);
    forall p | p in Smalls(f)
      ensures InteriorSame(mem, m, p, Smalls(f)[p]) && Smalls(f)[p] >= MIN_CHUNK_SIZE
    {
      InteriorKept(mem, m, g, Larges(g), p);
    }
    hide SmallOk, TreesOk, InteriorSame, AllInSmall, AllInTrees, Confined, Spaced;
    SmallFrame(mem, m, h.small, smallmap, Smalls(f));
  }

  lemma PartsAbove(f: map<int, int>, least: int)
    requires AllAbove(f, least)
    ensures AllAbove(Smalls(f), least) && AllAbove(Larges(f), least)
  {}

  method InsertChunk(mem0: Mem, smallmap0: bv32, treemap0: bv32, least: int, p: int, s: int, ghost h: Homes,
                     ghost f: map<int, int>)
    returns (mem: Mem, smallmap: bv32, treemap: bv32)
    requires AllAbove(f, least)
    requires BinsOk(mem0, smallmap0, treemap0, h, f) && SizesIn(mem0, f)
    requires p !in f && Mult8(s) && MIN_CHUNK_SIZE <= s < WORD && Spaced(f[p := s])
    ensures BinsOk(mem, smallmap, treemap, Binned(h, p, s), f[p := s])
    ensures Confined(mem0, mem, f[p := s])
  {
    hide SmallOk, TreesOk, AllInSmall, AllInTrees, Confined, Spaced, Smalls, Larges, OfSize, SizesIn;
    mem, smallmap, treemap := mem0, smallmap0, treemap0;
    ghost var g := f[p := s];
    PartsAbove(f, least);
    BinCounts(mem0, smallmap0, treemap0, h, f);
    InsertParts(mem0, f, p, s);
    SpacedPart(g, Smalls(g));
    SpacedPart(g, Larges(g));
    if IsSmall(s) {
      PushAll(mem0, h.small, smallmap0, Smalls(f), p, s);
      SizePart(f, g, s);
      mem, smallmap := InsertSmallChunk(mem0, smallmap0, least, p, s, h.small, Smalls(f));
      SmallDone(mem0, mem, smallmap0, smallmap, treemap, h, Pushed(h.small, p, s), f, g, g, s);
    } else {
      InsertAll(mem0, h.trees, treemap0, Larges(f), p, s);
      mem, treemap := InsertLargeChunk(mem0, treemap0, least, p, s, h.trees, Larges(f));
      LargeDone(mem0, mem, smallmap0, treemap0, treemap, h, TreeBins.Inserted(h.trees, p, s), f, g, g);
    }
  }

  lemma BinCounts(mem: Mem, smallmap: bv32, treemap: bv32, h: Homes, f: map<int, int>)
    requires BinsOk(mem, smallmap, treemap, h, f)
    ensures |h.small| == 32 && |h.trees| == 32
  {}

  lemma InsertParts(mem: Mem, f: map<int, int>, p: int, s: int)
    requires p !in f && SizesIn(mem, f)
    ensures var g := f[p := s]; (forall q | q in Smalls(g) || q in Larges(g) :: q in g)
    ensures var g := f[p := s];
            (forall q | q in Smalls(g) :: Smalls(g)[q] == g[q]) && (forall q | q in Larges(g) :: Larges(g)[q] == g[q])
    ensures s < MIN_LARGE_SIZE ==> Smalls(f[p := s]) == Smalls(f)[p := s] && Larges(f[p := s]) == Larges(f)
    ensures s >= MIN_LARGE_SIZE ==> Larges(f[p := s]) == Larges(f)[p := s] && Smalls(f[p := s]) == Smalls(f)
    ensures SizesIn(mem, Larges(f)) && p !in Smalls(f) && p !in Larges(f)
  {
    PartsInsert(f, p, s);
  }

  lemma SizePart(f: map<int, int>, g: map<int, int>, s: int)
    requires s < MIN_LARGE_SIZE
    ensures OfSize(Smalls(g), s) == OfSize(g, s)
  {}

  method UnlinkChunk(mem0: Mem, smallmap0: bv32, treemap0: bv32, least: int, p: int, s: int, ghost h: Homes,
                     ghost f: map<int, int>)
    returns (mem: Mem, smallmap: bv32, treemap: bv32)
    requires AllAbove(f, least)
    requires BinsOk(mem0, smallmap0, treemap0, h, f) && p in f && f[p] == s
    ensures BinsOk(mem, smallmap, treemap, Unbinned(h, p, s), f - {p})
    ensures Confined(mem0, mem, f)
  {
    mem, smallmap, treemap := mem0, smallmap0, treemap0;
    ghost var g := f - {p};
    PartsAbove(f, least);
    PartsRemove(f, p);
    SpacedPart(f, g);
    SpacedPart(f, Smalls(f));
    SpacedPart(f, Larges(f));
    assert s >= MIN_CHUNK_SIZE;
    if IsSmall(s) {
      assert p in Smalls(f) && p in h.small[SmallIndex(s)];
      DropAll(mem0, h.small, smallmap0, Smalls(f), p, s);
      SizePart(f, f, s);
      hide SmallOk, TreesOk, AllInSmall, AllInTrees, Confined, Spaced, Smalls, Larges, OfSize;
      mem, smallmap := UnlinkSmallChunk(mem0, smallmap0, least, p, s, h.small, Smalls(f));
      SmallDone(mem0, mem, smallmap0, smallmap, treemap, h, Dropped(h.small, p, s), f, g, f, s);
    } else {
      assert p in Larges(f) && InTrees(h.trees, Larges(f), p);
      RemoveAll(mem0, h.trees, treemap0, Larges(f), p, s);
      hide SmallOk, TreesOk, AllInSmall, AllInTrees, Confined, Spaced, Smalls, Larges, InTrees;
      mem, treemap := UnlinkLargeChunk(mem0, treemap0, least, p, h.trees, Larges(f));
      LargeDone(mem0, mem, smallmap0, treemap0, treemap, h, Deleted(h.trees, p, s), f, g, f);
    }
  }

  /** unlink_first_small_chunk on a marked bin. */
  method TakeFirst(mem0: Mem, smallmap0: bv32, least: int, i: nat, ghost treemap: bv32, ghost h: Homes,
                   ghost f: map<int, int>)
    returns (mem: Mem, smallmap: bv32, p: int)
    requires AllAbove(f, least)
    requires BinsOk(mem0, smallmap0, treemap, h, f) && i < 32 && Marked(smallmap0, i)
    ensures h.small[i] != [] && p == h.small[i][0] && p in f && f[p] == 8 * i
    ensures BinsOk(mem, smallmap, treemap, Unbinned(h, p, 8 * i), f - {p})
    ensures Confined(mem0, mem, f)
  {
    ghost var s := 8 * i;
    PartsAbove(f, least);
    SpacedPart(f, Smalls(f));
    BinTwo(mem0, h.small, smallmap0, Smalls(f), i);
    SizePart(f, f, s);
    assert AllInSmall(h.small, Smalls(f));
    mem, smallmap, p := UnlinkFirstSmall(mem0, smallmap0, least, i, h.small, Smalls(f));
    ghost var g := f - {p};
    PartsRemove(f, p);
    SpacedPart(f, g);
    DropAll(mem0, h.small, smallmap0, Smalls(f), p, s);
    assert Dropped(h.small, p, s) == h.small[i := h.small[i][1..]];
    hide SmallOk, TreesOk, AllInSmall, AllInTrees, Confined, Spaced, Smalls, Larges, OfSize, Marked;
    SmallDone(mem0, mem, smallmap0, smallmap, treemap, h, Dropped(h.small, p, s), f, g, f, s);
  }

  lemma BinTwo(mem: Mem, small: seq<seq<int>>, smallmap: bv32, f: map<int, int>, i: nat)
    requires SmallOk(mem, small, smallmap, f) && i < 32 && Marked(smallmap, i)
    requires forall p | p in f :: f[p] >= MIN_CHUNK_SIZE
    ensures i >= 2
  {
    assert SmallAt(mem, small[i], i, smallmap, f);
    assert small[i][0] in small[i];
  }
}

/** What the operations leave behind: chunks, bins, designated victim and top. */
module Effects {
  import opened Words
  import opened Tries
  import opened TreeIndex
  import TreeBins
  import SmallBins
  import opened FreeLinks
  import opened LargeChunks
  import opened Bins
  import opened Chunks
  import opened Headers
  import opened Heaps
  import opened Steps

  /** The chunks and their homes. */
  datatype View = View(c: Chunks, h: Homes, dv: int, dvsize: int, top: int, topsize: int)

  ghost predicate SameDv(v: View, w: View) { w.dv == v.dv && w.dvsize == v.dvsize }
  ghost predicate SameTop(v: View, w: View) { w.top == v.top && w.topsize == v.topsize }

  /** The chunks apart from those of `X` have the sizes and homes they had. */
  ghost predicate OthersSame(c: Chunks, d: Chunks, X: set<int>) {
    forall q | q in c && q !in X :: q in d && d[q].size == c[q].size && d[q].kind == c[q].kind
  }

  ghost predicate IsA(c: Chunks, p: int, k: Kind) { p in c && c[p].kind == k }

  ghost predicate Has(c: Chunks, p: int, size: int, k: Kind) { p in c && c[p].size == size && c[p].kind == k }

  // ---- the order in the bins

  ghost predicate Homed(h: Homes) { |h.small| == 32 && |h.trees| == 32 }

  /** The binned chunks of a size, in the order in which they will be taken. */
  ghost function Line(h: Homes, s: int): seq<int>
    requires Homed(h) && 0 <= s < WORD
  {
    if s < MIN_LARGE_SIZE then h.small[s / 8]
    else
      IndexRange(s);
      var t := h.trees[Index(s)];
      if HasSize(t, s) then Ring(t, s) else []
  }

  /** Sizes that share a small bin are the same size. */
  lemma SameBin(s: int, z: int)
    requires Mult8(s) && Mult8(z) && s != z
    ensures s / 8 != z / 8
  {}

  /** A chunk that is binned comes first among the small ones of its size, and last among the large ones. */
  lemma LineBinned(mem: Mem, smallmap: bv32, treemap: bv32, h: Homes, f: map<int, int>, p: int, s: int, z: int)
    requires BinsOk(mem, smallmap, treemap, h, f) && Homed(h) && Mult8(s) && Mult8(z) && 0 <= s < WORD && 0 <= z < WORD
    ensures Homed(Bins.Binned(h, p, s))
    ensures Line(Bins.Binned(h, p, s), z)
            == if z != s then Line(h, z) else if s < MIN_LARGE_SIZE then [p] + Line(h, s) else Line(h, s) + [p]
  {
    hide Smalls, Larges, Spaced, SmallBins.AllInSmall, TreeBins.AllInTrees, SmallBins.SmallAt, Index;
    if s < MIN_LARGE_SIZE {
      if z != s { SameBin(s, z); }
    } else {
      IndexRange(s);
      if z >= MIN_LARGE_SIZE { IndexRange(z); }
      var i := Index(s);
      assert TreeBins.TreeAt(mem, h.trees[i], i, treemap, Larges(f));
      InsertTree(h.trees[i], p, s, Lo(i), Bits(i));
      hide Insert, Trie, Backed;
    }
  }

  lemma NextIsFirst(h: Homes, s: int, p: int)
    requires Homed(h) && 0 <= s < WORD
    ensures NextInLine(h, s, p) <==> Line(h, s) != [] && Line(h, s)[0] == p
  {
    if s >= MIN_LARGE_SIZE { IndexRange(s); }
  }

  /** A small chunk just binned is the next of its size to serve; a large one only if it is the only one of its size. */
  lemma NextAfterBinning(mem: Mem, smallmap: bv32, treemap: bv32, h: Homes, f: map<int, int>, p: int, s: int, q: int)
    requires BinsOk(mem, smallmap, treemap, h, f) && Homed(h) && Mult8(s) && 0 <= s < WORD
    ensures NextInLine(Bins.Binned(h, p, s), s, q)
            <==> if s < 0x100 || Line(h, s) == [] then q == p else NextInLine(h, s, q)
  {
    LineBinned(mem, smallmap, treemap, h, f, p, s, s);
    hide BinsOk, Bins.Binned, Line;
    NextIsFirst(Bins.Binned(h, p, s), s, q);
    NextIsFirst(h, s, q);
    hide NextInLine;
  }

  /** The tree a large chunk is in. */
  lemma TreeOf(mem: Mem, smallmap: bv32, treemap: bv32, h: Homes, f: map<int, int>, p: int, s: int)
    requires BinsOk(mem, smallmap, treemap, h, f) && Homed(h) && p in f && f[p] == s >= MIN_LARGE_SIZE
    ensures s < WORD && Index(s) < 32
    ensures var i := Index(s);
            && Trie(h.trees[i], Lo(i), Bits(i)) && Backed(h.trees[i], Larges(f))
            && HasSize(h.trees[i], s) && p in Ring(h.trees[i], s)
  {
    hide Smalls, Spaced, SmallBins.AllInSmall, SmallBins.SmallAt, Index;
    IndexRange(s);
    assert p in Larges(f) && TreeBins.InTrees(h.trees, Larges(f), p);
    hide Larges;
    assert TreeBins.TreeAt(mem, h.trees[Index(s)], Index(s), treemap, Larges(f));
  }

  lemma TreeLine(t: Tree, p: int, s: int, lo: int, bits: nat, f: map<int, int>, z: int)
    requires Trie(t, lo, bits) && Backed(t, f) && HasSize(t, s) && p in Ring(t, s)
    ensures var t' := Remove(t, p, s, lo, bits);
            && (z != s ==> (HasSize(t', z) <==> HasSize(t, z)) && (HasSize(t, z) ==> Ring(t', z) == Ring(t, z)))
            && (if HasSize(t', s) then Ring(t', s) else []) == Without(Ring(t, s), p)
  {
    RemoveTree(t, p, s, lo, bits, f);
    hide Remove, Trie, Backed;
    if |Ring(t, s)| <= 1 { assert Ring(t, s) == [p]; }
  }

  /** A chunk that leaves its bin leaves the order of the others as it is. */
  lemma LineUnbinned(mem: Mem, smallmap: bv32, treemap: bv32, h: Homes, f: map<int, int>, p: int, s: int, z: int)
    requires BinsOk(mem, smallmap, treemap, h, f) && Homed(h) && p in f && f[p] == s && Mult8(z) && 0 <= z < WORD
    ensures 0 <= s < WORD && Homed(Unbinned(h, p, s))
    ensures Line(Unbinned(h, p, s), z) == if z != s then Line(h, z) else Without(Line(h, s), p)
  {
    assert f[p] >= MIN_CHUNK_SIZE && Mult8(s);
    if s < MIN_LARGE_SIZE {
      hide BinsOk;
      if z != s { SameBin(s, z); }
    } else {
      TreeOf(mem, smallmap, treemap, h, f, p, s);
      hide BinsOk, Index, Remove, Trie, Backed;
      if z >= MIN_LARGE_SIZE { IndexRange(z); }
      TreeLine(h.trees[Index(s)], p, s, Lo(Index(s)), Bits(Index(s)), Larges(f), z);
    }
  }

  // ---- steps

  lemma OneSame(mem: Mem, smallmap: bv32, treemap: bv32, h: Homes, segs: seq<Segment>, c: Chunks, p: int, k: Kind)
    requires Core(mem, smallmap, treemap, h, c, segs) && p in c
    ensures OthersSame(c, One(c, p, p + c[p].size, k), {p})
  {
    hide SegsOk, SegWords, BinsOk, BinView, Tiled, Coalesced, Heads, Feet;
    OnlyIn(mem, c, p);
  }

  lemma TwoSame(mem: Mem, smallmap: bv32, treemap: bv32, h: Homes, segs: seq<Segment>, c: Chunks, p: int, r: int,
                k: Kind, l: Kind)
    requires Core(mem, smallmap, treemap, h, c, segs) && p in c && p < r < p + c[p].size
    ensures OthersSame(c, Two(c, p, r, p + c[p].size, k, l), {p})
  {
    hide SegsOk, SegWords, BinsOk, BinView, Tiled, Coalesced, Heads, Feet;
    OnlyIn(mem, c, p);
  }

  lemma MovedSame(c: Chunks, dv: int, dvsize: int, r: int)
    requires r in c
    ensures OthersSame(c, DvMoved(c, dv, r), {r, dv})
  {}

  lemma HomeSame(c: Chunks, d: Chunks, X: set<int>, p: int, k: Kind)
    requires OthersSame(c, d, X) && p in X && p in d
    ensures OthersSame(c, SetKind(d, p, k), X) && Has(SetKind(d, p, k), p, d[p].size, k)
  {}

  /** What was the designated victim, if there was one, is in a bin. */
  ghost predicate Victimised(h: Homes, h': Homes, c: Chunks, dv: int, dvsize: int) {
    if dvsize == 0 then h' == h
    else Homed(h) && 0 <= dvsize < WORD && h' == Bins.Binned(h, dv, dvsize) && Has(c, dv, dvsize, Kind.Binned)
  }

  // ---- what serving a request leaves behind

  /** The designated victim serves: it shrinks to the rest, or goes. */
  ghost predicate FromVictim(v: View, w: View, nb: int, p: int) {
    && p == v.dv && w.h == v.h && SameTop(v, w) && OthersSame(v.c, w.c, {p})
    && if v.dvsize - nb >= MIN_CHUNK_SIZE then Has(w.c, p, nb, Live) && w.dv == p + nb && w.dvsize == v.dvsize - nb
       else Has(w.c, p, v.dvsize, Live) && w.dv == 0 && w.dvsize == 0
  }

  /** Top serves. */
  ghost predicate FromTop(v: View, w: View, nb: int, p: int) {
    && p == v.top && w.h == v.h && SameDv(v, w) && OthersSame(v.c, w.c, {p})
    && Has(w.c, p, nb, Live) && w.top == p + nb && w.topsize == v.topsize - nb
  }

  /**
   * A binned chunk serves, whole if the rest makes no chunk. The rest of a small request becomes the designated victim,
   * and what was the victim is binned; the rest of a large one is binned.
   */
  ghost predicate FromBin(v: View, w: View, nb: int, p: int) {
    && p in v.c && v.c[p].kind == Kind.Binned && 0 <= v.c[p].size < WORD && Homed(v.h) && SameTop(v, w)
    && var s := v.c[p].size;
       if s - nb < MIN_CHUNK_SIZE then
         Has(w.c, p, s, Live) && OthersSame(v.c, w.c, {p}) && SameDv(v, w) && w.h == Unbinned(v.h, p, s)
       else if nb < MIN_LARGE_SIZE then
         && Has(w.c, p, nb, Live) && OthersSame(v.c, w.c, {p, v.dv}) && w.dv == p + nb && w.dvsize == s - nb
         && Victimised(Unbinned(v.h, p, s), w.h, w.c, v.dv, v.dvsize)
       else
         && Has(w.c, p, nb, Live) && OthersSame(v.c, w.c, {p}) && SameDv(v, w)
         && Has(w.c, p + nb, s - nb, Kind.Binned)
         && Homed(Unbinned(v.h, p, s)) && w.h == Bins.Binned(Unbinned(v.h, p, s), p + nb, s - nb)
  }

  lemma BinServes(v: View, w: View, nb: int, p: int)
    requires FromBin(v, w, nb, p)
    ensures p in v.c && v.c[p].kind == Kind.Binned
  {}

  /** A binned chunk has been cut: the front is live, the rest, if enough for a chunk, has no home yet. */
  ghost predicate Cut(v: View, c: Chunks, h: Homes, nb: int, p: int) {
    && p in v.c && v.c[p].kind == Kind.Binned && 0 <= v.c[p].size < WORD && Homed(v.h) && Homed(h)
    && h == Unbinned(v.h, p, v.c[p].size) && OthersSame(v.c, c, {p})
    && if v.c[p].size - nb < MIN_CHUNK_SIZE then Has(c, p, v.c[p].size, Live)
       else Has(c, p, nb, Live) && Has(c, p + nb, v.c[p].size - nb, Limbo) && p + nb !in v.c && nb > 0
  }

  lemma CutWhole(v: View, w: View, nb: int, p: int)
    requires Cut(v, w.c, w.h, nb, p) && v.c[p].size - nb < MIN_CHUNK_SIZE && SameTop(v, w) && SameDv(v, w)
    ensures FromBin(v, w, nb, p)
  {
    hide OthersSame;
  }

  lemma CutSmall(v: View, c: Chunks, h: Homes, w: View, nb: int, p: int)
    requires Cut(v, c, h, nb, p) && v.c[p].size - nb >= MIN_CHUNK_SIZE && SameTop(v, w) && nb < MIN_LARGE_SIZE
    requires w.dv == p + nb && w.dvsize == v.c[p].size - nb && OthersSame(c, w.c, {p + nb, v.dv}) && p != v.dv
    requires Victimised(h, w.h, w.c, v.dv, v.dvsize)
    ensures FromBin(v, w, nb, p)
  {
    hide Victimised;
    assert p in w.c;
  }

  lemma CutLarge(v: View, c: Chunks, h: Homes, w: View, nb: int, p: int)
    requires Cut(v, c, h, nb, p) && v.c[p].size - nb >= MIN_CHUNK_SIZE && SameTop(v, w) && SameDv(v, w)
    requires nb >= MIN_LARGE_SIZE && w.c == SetKind(c, p + nb, Kind.Binned)
    requires w.h == Bins.Binned(h, p + nb, v.c[p].size - nb)
    ensures FromBin(v, w, nb, p)
  {}

  lemma NothingInside(mem: Mem, smallmap: bv32, treemap: bv32, h: Homes, segs: seq<Segment>, c: Chunks, p: int, r: int,
                      dv: int, dvsize: int, top: int, topsize: int)
    requires Core(mem, smallmap, treemap, h, c, segs) && Owned(c, dv, dvsize, top, topsize, {}) && p in c
    ensures p < r < p + c[p].size ==> r !in c
    ensures c[p].kind == Kind.Binned ==> p != dv
  {
    hide SegsOk, SegWords, BinsOk, BinView, Tiled, Coalesced, Heads, Feet;
    OnlyIn(mem, c, p);
    NoZero(mem, smallmap, treemap, h, segs, c, p, dv, dvsize, top, topsize, {});
  }

  lemma TakenWhole(v: View, c1: Chunks, w: View, nb: int, p: int)
    requires p in v.c && v.c[p].kind == Kind.Binned && 0 <= v.c[p].size < WORD && Homed(v.h)
    requires c1 == SetKind(v.c, p, Limbo) && OthersSame(c1, w.c, {p}) && Has(w.c, p, v.c[p].size, Live)
    requires w.h == Unbinned(v.h, p, v.c[p].size) && SameTop(v, w) && SameDv(v, w)
    requires v.c[p].size - nb < MIN_CHUNK_SIZE
    ensures FromBin(v, w, nb, p)
  {}

  lemma TakenFront(v: View, c1: Chunks, c2: Chunks, h: Homes, nb: int, p: int)
    requires p in v.c && v.c[p].kind == Kind.Binned && 0 <= v.c[p].size < WORD && Homed(v.h) && Homed(h)
    requires c1 == SetKind(v.c, p, Limbo) && OthersSame(c1, c2, {p}) && Has(c2, p, nb, Live)
    requires h == Unbinned(v.h, p, v.c[p].size) && v.c[p].size - nb >= MIN_CHUNK_SIZE && nb > 0
    requires Has(c2, p + nb, v.c[p].size - nb, Limbo) && p + nb !in v.c
    ensures Cut(v, c2, h, nb, p)
  {}

  // ---- what giving a chunk back leaves behind

  lemma SameSelf(c: Chunks, X: set<int>) ensures OthersSame(c, c, X) {}

  lemma SameTrans(c: Chunks, d: Chunks, e: Chunks, X: set<int>, Y: set<int>)
    requires OthersSame(c, d, X) && OthersSame(d, e, Y)
    ensures OthersSame(c, e, X + Y)
  {}

  lemma SameMore(c: Chunks, d: Chunks, X: set<int>, Y: set<int>)
    requires OthersSame(c, d, X) && X <= Y
    ensures OthersSame(c, d, Y)
  {}

  lemma UnlinkedSame(c: Chunks, n: int, d: Chunks, X: set<int>)
    requires n in c && n in X && OthersSame(SetKind(c, n, Limbo), d, X)
    ensures OthersSame(c, d, X)
  {}

  lemma GatheredSame(segs: seq<Segment>, c: Chunks, p: int, p0: int, b: int, z: int, k: Kind)
    requires Gathered(c, segs, p, p0, b, z) && p in c
    ensures OthersSame(c, One(c, p, b, k), {p, p0, z}) && Has(One(c, p, b, k), p, b - p, k)
  {
    hide Region, PrevUsed;
  }

  /** Where the free chunk starts of which the chunk at `p` becomes part. */
  ghost function Lead(c: Chunks, p: int): int requires p in c { if PrevUsed(c, p) then p else c[p].prev }

  /** The header says where that is. */
  lemma LeadRead(mem: Mem, smallmap: bv32, treemap: bv32, h: Homes, c: Chunks, segs: seq<Segment>, p: int)
    requires Core(mem, smallmap, treemap, h, c, segs) && p in c
    ensures PInuse(Rd(mem, p + 4)) == PrevUsed(c, p)
    ensures !PrevUsed(c, p) ==> c[p].prev == p - Rd(mem, p) && c[p].prev + c[c[p].prev].size == p
    ensures c[p].size > 0 && (!PrevUsed(c, p) ==> c[p].prev < p)
  {
    Reading(mem, c, p);
    assert ChunkOk(p, c[p]) && (!PrevUsed(c, p) ==> ChunkOk(c[p].prev, c[c[p].prev]));
    hide Core, PInuse, Rd;
  }

  /** Where it ends, if the chunk ends at `n`. */
  ghost function Tail(c: Chunks, n: int): int { if Idle(c, n) then n + c[n].size else n }
  ghost predicate Idle(c: Chunks, n: int) { n in c && !c[n].Used() }

  /** The bins without the chunk at `q`. */
  ghost function Less(h: Homes, c: Chunks, q: int): Homes {
    if Homed(h) && q in c && c[q].kind == Kind.Binned && 0 <= c[q].size < WORD then Unbinned(h, q, c[q].size) else h
  }

  /**
   * The chunk at `p` and the free ones next to it have become one chunk: top, if one of them was; otherwise the
   * designated victim, if one of them was; otherwise it is in a bin.
   */
  ghost predicate Coalescing(v: View, w: View, p: int) requires p in v.c {
    var a, n := Lead(v.c, p), p + v.c[p].size;
    var b := Tail(v.c, n);
    && OthersSame(v.c, w.c, if Idle(v.c, n) then {a, p, n} else {a, p})
    && if IsA(v.c, n, Top) then
         && w.top == a && w.topsize == b - a && w.h == Less(v.h, v.c, a)
         && if IsA(v.c, a, Dv) then w.dv == 0 && w.dvsize == 0 else SameDv(v, w)
       else if IsA(v.c, n, Dv) || IsA(v.c, a, Dv) then
         SameTop(v, w) && w.dv == a && w.dvsize == b - a && w.h == Less(Less(v.h, v.c, a), v.c, n)
       else
         && SameTop(v, w) && SameDv(v, w) && Has(w.c, a, b - a, Kind.Binned)
         && 0 <= b - a < WORD && Homed(Less(Less(v.h, v.c, a), v.c, n))
         && w.h == Bins.Binned(Less(Less(v.h, v.c, a), v.c, n), a, b - a)
  }

  /** What has been gathered in front of `n`, from `a` on, is joined with a binned chunk at `n`. */
  ghost predicate Rejoined(v: View, w: View, a: int, p: int, n: int) {
    var b := Tail(v.c, n);
    && OthersSame(v.c, w.c, if Idle(v.c, n) then {a, p, n} else {a, p}) && SameTop(v, w) && w.dv == v.dv
    && if a == v.dv then w.dvsize == b - a && w.h == Less(v.h, v.c, n)
       else
         && w.dvsize == v.dvsize && Has(w.c, a, b - a, Kind.Binned) && 0 <= b - a < WORD && Homed(Less(v.h, v.c, n))
         && w.h == Bins.Binned(Less(v.h, v.c, n), a, b - a)
  }

  /** The part of the bins' change that precedes it. */
  ghost predicate Withdrawn(v: View, u: View, a: int) {
    && a in v.c && u.h == Less(v.h, v.c, a) && SameTop(v, u) && SameDv(v, u)
    && (u.c == v.c || (IsA(v.c, a, Kind.Binned) && u.c == SetKind(v.c, a, Limbo)))
  }

  lemma WithdrawnSame(v: View, u: View, a: int, n: int)
    requires Withdrawn(v, u, a) && a < n
    ensures OthersSame(v.c, u.c, {a}) && Tail(u.c, n) == Tail(v.c, n) && Idle(u.c, n) == Idle(v.c, n)
    ensures Less(u.h, u.c, n) == Less(u.h, v.c, n)
  {}

  lemma WithdrawnKind(v: View, u: View, a: int, n: int)
    requires Withdrawn(v, u, a) && a < n
    ensures SameTop(v, u) && SameDv(v, u) && (n in u.c <==> n in v.c)
    ensures n in u.c ==> u.c[n].kind == v.c[n].kind && u.c[n].size == v.c[n].size
  {}

  lemma MergedSame(v: View, u: View, w: View, a: int, X: set<int>)
    requires Withdrawn(v, u, a) && OthersSame(u.c, w.c, X) && a in X
    ensures OthersSame(v.c, w.c, X)
  {}

  lemma MergedBin(v: View, u: View, w: View, a: int, p: int, n: int)
    requires p in v.c && n == p + v.c[p].size && a == Lead(v.c, p) < n && Withdrawn(v, u, a)
    requires Rejoined(u, w, a, p, n) && (a == v.dv <==> IsA(v.c, a, Dv)) && !IsA(v.c, n, Top) && !IsA(v.c, n, Dv)
    ensures Coalescing(v, w, p)
  {
    WithdrawnSame(v, u, a, n);
    MergedSame(v, u, w, a, if Idle(v.c, n) then {a, p, n} else {a, p});
    hide OthersSame, Withdrawn, Less, Tail, Lead, Bins.Binned, Idle, Has;
  }

  lemma MergedTop(v: View, u: View, w: View, a: int, p: int, n: int)
    requires p in v.c && n == p + v.c[p].size && a == Lead(v.c, p) < n && Withdrawn(v, u, a) && IsA(v.c, n, Top)
    requires OthersSame(u.c, w.c, {a, p, n}) && w.h == u.h && w.top == a && w.topsize == n + v.c[n].size - a
    requires if IsA(v.c, a, Dv) then w.dv == 0 && w.dvsize == 0 else SameDv(v, w)
    ensures Coalescing(v, w, p)
  {
    MergedSame(v, u, w, a, {a, p, n});
    hide OthersSame, Less, Lead, Bins.Binned, Has;
  }

  lemma MergedDv(v: View, u: View, w: View, a: int, p: int, n: int)
    requires p in v.c && n == p + v.c[p].size && a == Lead(v.c, p) < n && Withdrawn(v, u, a) && n in v.c
    requires IsA(v.c, n, Dv) || (IsA(v.c, a, Dv) && v.c[n].Used())
    requires OthersSame(u.c, w.c, if Idle(v.c, n) then {a, p, n} else {a, p}) && w.h == u.h && SameTop(v, w)
    requires w.dv == a && w.dvsize == Tail(v.c, n) - a
    ensures Coalescing(v, w, p)
  {
    MergedSame(v, u, w, a, if Idle(v.c, n) then {a, p, n} else {a, p});
    assert Less(u.h, v.c, n) == u.h;
    hide OthersSame, Lead, Bins.Binned, Has;
  }

  // ---- what a new size leaves behind

  /** The space from `r` to `n`, behind a chunk in use, is free together with what is free at `n`. */
  ghost predicate Rest(v: View, w: View, r: int, n: int) {
    var b := Tail(v.c, n);
    if IsA(v.c, n, Top) then SameDv(v, w) && w.h == v.h && w.top == r && w.topsize == b - r
    else if IsA(v.c, n, Dv) then SameTop(v, w) && w.h == v.h && w.dv == r && w.dvsize == b - r
    else
      && SameTop(v, w) && SameDv(v, w) && Has(w.c, r, b - r, Kind.Binned) && 0 <= b - r < WORD
      && Homed(Less(v.h, v.c, n)) && w.h == Bins.Binned(Less(v.h, v.c, n), r, b - r)
  }

  ghost function WithIdle(c: Chunks, p: int, n: int): set<int> { if Idle(c, n) then {p, n} else {p} }

  /**
   * The chunk at `p` has been fitted to `nb` bytes, with the help of a free chunk after it if it was smaller. What is
   * left over is free, unless it makes no chunk.
   */
  ghost predicate Fitted(v: View, w: View, p: int, nb: int) requires p in v.c {
    var n := p + v.c[p].size;
    var b := Tail(v.c, n);
    if nb <= v.c[p].size < nb + MIN_CHUNK_SIZE then w == v
    else
      && OthersSame(v.c, w.c, WithIdle(v.c, p, n))
      && if nb <= v.c[p].size || IsA(v.c, n, Top) || b - p >= nb + MIN_CHUNK_SIZE then
           Has(w.c, p, nb, Live) && Rest(v, w, p + nb, n)
         else
           && Has(w.c, p, b - p, Live) && SameTop(v, w) && w.h == Less(v.h, v.c, n)
           && if IsA(v.c, n, Dv) then w.dv == 0 && w.dvsize == 0 else SameDv(v, w)
  }

  /** A chunk in use, alone or with the homeless one at `z`, has been cut at `r` and the rest disposed of. */
  lemma SplitRest(v: View, w: View, p: int, r: int, b: int, z: int)
    requires p in v.c && p < r < b && b in v.c && forall q | q in v.c && p <= q < b :: q == p || q == z
    requires r in Two(v.c, p, r, b, Live, Live) && Coalescing(v.(c := Two(v.c, p, r, b, Live, Live)), w, r)
    ensures Rest(v, w, r, b) && Has(w.c, p, r - p, Live)
    ensures OthersSame(v.c, w.c, if Idle(v.c, b) then {p, z, b} else {p, z})
  {
    hide OthersSame, Two, Bins.Binned, Unbinned, Lead, Homed;
    var u := v.(c := Two(v.c, p, r, b, Live, Live));
    CutFacts(v.c, p, r, b, z);
    assert Less(u.h, u.c, r) == u.h && Less(u.h, u.c, b) == Less(u.h, v.c, b);
    assert {r, r} == {r} && {r, r, b} == {r, b};
    CutSame(v.c, u.c, w.c, p, r, b, z);
    hide Less;
  }

  lemma CutFacts(c: Chunks, p: int, r: int, b: int, z: int)
    requires p in c && p < r < b && b in c && forall q | q in c && p <= q < b :: q == p || q == z
    ensures var d := Two(c, p, r, b, Live, Live);
            && r in d && d[r] == Chunk(b - r, Live, p) && Has(d, p, r - p, Live) && Lead(d, r) == r
            && b in d && d[b].size == c[b].size && d[b].kind == c[b].kind && OthersSame(c, d, {p, z})
  {}

  lemma CutSame(c: Chunks, d: Chunks, e: Chunks, p: int, r: int, b: int, z: int)
    requires OthersSame(c, d, {p, z}) && p in d && p != r && p != b && (r in c ==> r == z)
    requires OthersSame(d, e, if Idle(c, b) then {r, b} else {r})
    ensures OthersSame(c, e, if Idle(c, b) then {p, z, b} else {p, z})
    ensures p in e && e[p].size == d[p].size && e[p].kind == d[p].kind
  {}

  lemma PairOnly(mem: Mem, smallmap: bv32, treemap: bv32, h: Homes, segs: seq<Segment>, c: Chunks, p: int)
    requires Core(mem, smallmap, treemap, h, c, segs) && p in c && p + c[p].size in c
    ensures forall q | q in c && p <= q < p + c[p].size + c[p + c[p].size].size :: q == p || q == p + c[p].size
  {
    hide SegsOk, SegWords, BinsOk, BinView, Tiled, Coalesced, Heads, Feet;
    OnlyIn(mem, c, p);
    OnlyIn(mem, c, p + c[p].size);
  }

  lemma PairOne(c: Chunks, p: int, n: int, b: int, k: Kind)
    requires p in c && Idle(c, n) && forall q | q in c && p <= q < b :: q == p || q == n
    ensures OthersSame(c, One(c, p, b, k), WithIdle(c, p, n)) && Has(One(c, p, b, k), p, b - p, k)
  {}

  lemma PairTwo(c: Chunks, p: int, n: int, r: int, b: int, k: Kind, l: Kind)
    requires p in c && p < r < b && Idle(c, n) && forall q | q in c && p <= q < b :: q == p || q == n
    ensures OthersSame(c, Two(c, p, r, b, k, l), WithIdle(c, p, n)) && Has(Two(c, p, r, b, k, l), p, r - p, k)
  {}

  /** A live chunk and the free one after it give way to one or two chunks. */
  lemma JoinedSame(mem: Mem, smallmap: bv32, treemap: bv32, h: Homes, segs: seq<Segment>, c: Chunks, p: int, b: int,
                   k: Kind)
    requires Core(mem, smallmap, treemap, h, c, segs) && p in c && Idle(c, p + c[p].size)
    requires b == p + c[p].size + c[p + c[p].size].size
    ensures OthersSame(c, One(c, p, b, k), WithIdle(c, p, p + c[p].size)) && Has(One(c, p, b, k), p, b - p, k)
  {
    hide Core, OthersSame, One, WithIdle, Has;
    PairOnly(mem, smallmap, treemap, h, segs, c, p);
    PairOne(c, p, p + c[p].size, b, k);
  }

  lemma GrownSame(mem: Mem, smallmap: bv32, treemap: bv32, h: Homes, segs: seq<Segment>, c: Chunks, p: int, r: int,
                  b: int, k: Kind, l: Kind)
    requires Core(mem, smallmap, treemap, h, c, segs) && p in c && Idle(c, p + c[p].size)
    requires b == p + c[p].size + c[p + c[p].size].size && p < r < b
    ensures OthersSame(c, Two(c, p, r, b, k, l), WithIdle(c, p, p + c[p].size))
    ensures Has(Two(c, p, r, b, k, l), p, r - p, k)
  {
    hide Core, OthersSame, Two, WithIdle, Has;
    PairOnly(mem, smallmap, treemap, h, segs, c, p);
    PairTwo(c, p, p + c[p].size, r, b, k, l);
  }

  /** What follows a binned chunk is in use. */
  lemma BinnedNext(mem: Mem, smallmap: bv32, treemap: bv32, h: Homes, segs: seq<Segment>, c: Chunks, n: int)
    requires Core(mem, smallmap, treemap, h, c, segs) && IsA(c, n, Kind.Binned)
    ensures n + c[n].size in c && c[n + c[n].size].Used() && c[n].size > 0
  {
    Reading(mem, c, n);
    assert ChunkOk(n, c[n]);
    Reading(mem, c, n + c[n].size);
    hide Core;
  }

  lemma FittedWhole(v: View, c1: Chunks, w: View, p: int, nb: int)
    requires p in v.c && v.c[p].size < nb && IsA(v.c, p + v.c[p].size, Kind.Binned) && p + v.c[p].size != p
    requires var n := p + v.c[p].size;
             var b := n + v.c[n].size;
             && b - p < nb + MIN_CHUNK_SIZE && c1 == SetKind(v.c, n, Limbo) && OthersSame(c1, w.c, WithIdle(c1, p, n))
             && Has(w.c, p, b - p, Live) && SameTop(v, w) && SameDv(v, w)
             && Homed(v.h) && 0 <= v.c[n].size < WORD && w.h == Unbinned(v.h, n, v.c[n].size)
    ensures Fitted(v, w, p, nb)
  {
    hide Bins.Binned, Unbinned;
  }

  lemma FittedShrunk(v: View, w: View, p: int, nb: int)
    requires p in v.c && v.c[p].size >= nb + MIN_CHUNK_SIZE && Has(w.c, p, nb, Live)
    requires var b := p + v.c[p].size;
             Rest(v, w, p + nb, b) && OthersSame(v.c, w.c, if Idle(v.c, b) then {p, p, b} else {p, p})
    ensures Fitted(v, w, p, nb)
  {
    hide Rest, OthersSame;
    assert {p, p} == {p} && {p, p, p + v.c[p].size} == {p, p + v.c[p].size};
  }

  lemma FittedTop(v: View, w: View, p: int, nb: int)
    requires p in v.c && v.c[p].size < nb && IsA(v.c, p + v.c[p].size, Top) && Has(w.c, p, nb, Live)
    requires var n := p + v.c[p].size;
             && w.top == p + nb && w.topsize == n + v.c[n].size - w.top
             && SameDv(v, w) && w.h == v.h && OthersSame(v.c, w.c, WithIdle(v.c, p, n))
    ensures Fitted(v, w, p, nb)
  {
    hide OthersSame;
  }

  lemma FittedDv(v: View, w: View, p: int, nb: int)
    requires p in v.c && v.c[p].size < nb && IsA(v.c, p + v.c[p].size, Dv) && Has(w.c, p, nb, Live)
    requires var n := p + v.c[p].size;
             && w.dv == p + nb && w.dvsize == n + v.c[n].size - w.dv >= MIN_CHUNK_SIZE
             && SameTop(v, w) && w.h == v.h && OthersSame(v.c, w.c, WithIdle(v.c, p, n))
    ensures Fitted(v, w, p, nb)
  {
    hide OthersSame;
  }

  lemma FittedPart(v: View, u: View, w: View, p: int, nb: int)
    requires p in v.c && v.c[p].size < nb && IsA(v.c, p + v.c[p].size, Kind.Binned)
    requires var n := p + v.c[p].size;
             var b := n + v.c[n].size;
             && b - p >= nb + MIN_CHUNK_SIZE && n != p && b != n && b in v.c && v.c[b].Used()
             && u == v.(c := SetKind(v.c, n, Limbo), h := u.h) && Homed(u.h)
             && Homed(v.h) && 0 <= v.c[n].size < WORD && u.h == Unbinned(v.h, n, v.c[n].size)
             && Rest(u, w, p + nb, b) && Has(w.c, p, nb, Live) && OthersSame(u.c, w.c, {p, n})
    ensures Fitted(v, w, p, nb)
  {
    hide OthersSame, Bins.Binned, Unbinned, Homed;
    var n := p + v.c[p].size;
    UnlinkedSame(v.c, n, w.c, {p, n});
    assert Less(v.h, v.c, n) == u.h && Less(u.h, u.c, n + v.c[n].size) == u.h;
    hide Less;
  }
}

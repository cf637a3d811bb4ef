/** The whole heap: segments tiled by chunks, with every free chunk in its one home, and the steps that rewrite it. */
module Heaps {
  import opened Words
  import opened FreeLinks
  import opened LargeChunks
  import opened Bins
  import opened Chunks

  /** The system's limit on the break. */
  const HEAP_MAX: int := 0x8000_0000
  const RECORD_SIZE: int := 24

  /**
   * A region got from the system. Its first chunk is at `base`, up to seven bytes above the address the system gave;
   * `rec` is the chunk holding its description, 0 for the current one.
   */
  datatype Segment = Segment(base: int, size: int, rec: int, pad: nat) {
    function End(): int { base + size }
    function Start(): int { base - pad }
    function Bytes(): int { size + pad }
  }

  /** [lo, hi) lies in one segment, clear of the words reserved at its end. */
  ghost predicate HeldBy(s: Segment, lo: int, hi: int) { s.base <= lo && hi + 16 <= s.End() }

  ghost predicate Held(segs: seq<Segment>, lo: int, hi: int) {
    exists i :: 0 <= i < |segs| && HeldBy(segs[i], lo, hi)
  }

  ghost predicate IsBase(segs: seq<Segment>, p: int) { exists i :: 0 <= i < |segs| && segs[i].base == p }
  ghost predicate IsRecord(segs: seq<Segment>, p: int) { exists i :: 0 < i < |segs| && segs[i].rec == p }

  ghost predicate SegmentOk(s: Segment) {
    HEAP_MIN <= s.Start() && s.pad < 8 && Mult8(s.base) && Mult4(s.size) && 0 < s.size && s.End() <= HEAP_MAX
  }

  ghost predicate Disjoint(segs: seq<Segment>) {
    forall i, j | 0 <= i < |segs| && 0 <= j < |segs| && i != j ::
      segs[i].End() <= segs[j].Start() || segs[j].End() <= segs[i].Start()
  }

  ghost predicate RecordOk(s: Segment, c: Chunks) {
    && s.rec in c && c[s.rec].kind == Record && c[s.rec].size == RECORD_SIZE
    && s.base <= s.rec && s.rec + 40 <= s.End() <= s.rec + 52
  }

  /** How chunk `p` sits in its segment. */
  ghost predicate Placed(segs: seq<Segment>, p: int, k: Chunk) {
    && Held(segs, p, p + k.size)
    && (k.prev == 0 <==> IsBase(segs, p))
    && (k.kind == Record ==> IsRecord(segs, p))
    && (k.kind == Top ==> |segs| > 0 && segs[0].base <= p && p + k.size + TOP_FOOT_SIZE == segs[0].End())
  }

  /** Each segment starts with a chunk and ends in top, if it is the current one, or in its own record. */
  ghost predicate SegsOk(segs: seq<Segment>, c: Chunks) {
    && Disjoint(segs)
    && (forall i | 0 <= i < |segs| :: SegmentOk(segs[i]) && segs[i].base in c)
    && (forall i | 0 < i < |segs| :: RecordOk(segs[i], c))
    && (forall p {:trigger Placed(segs, p, c[p])} | p in c :: Placed(segs, p, c[p]))
  }

  lemma HeldJoin(segs: seq<Segment>, lo: int, mid: int, hi: int)
    requires Disjoint(segs) && Held(segs, lo, mid) && Held(segs, mid, hi) && lo <= mid <= hi
    ensures Held(segs, lo, hi)
  {
    var i :| 0 <= i < |segs| && HeldBy(segs[i], lo, mid);
    var j :| 0 <= j < |segs| && HeldBy(segs[j], mid, hi);
    assert i == j;
    assert HeldBy(segs[i], lo, hi);
  }

  lemma HeldPart(segs: seq<Segment>, lo: int, hi: int, lo': int, hi': int)
    requires Held(segs, lo, hi) && lo <= lo' && hi' <= hi
    ensures Held(segs, lo', hi')
  {
    var i :| 0 <= i < |segs| && HeldBy(segs[i], lo, hi);
    assert HeldBy(segs[i], lo', hi');
  }

  /** The chunks in [a, b) follow one another, the last being `z`; none is a record or in a bin. */
  ghost predicate Region(segs: seq<Segment>, c: Chunks, a: int, b: int, z: int) {
    && a in c && z in c && a <= z && z + c[z].size == b && Held(segs, a, b)
    && (forall p | p in c && a <= p < b ::
         && c[p].kind != Record && c[p].kind != Kind.Binned && p + c[p].size <= b && (p == a || c[p].prev != 0)
         && (c[p].kind == Top ==> p == z))
  }

  lemma Region1(segs: seq<Segment>, c: Chunks, a: int)
    requires Tiled(c) && SegsOk(segs, c) && a in c && c[a].kind != Record && c[a].kind != Kind.Binned
    ensures Region(segs, c, a, a + c[a].size, a)
  {
    hide Mult8, NextLinked, PrevLinked;
    assert ChunkOk(a, c[a]) && Placed(segs, a, c[a]);
  }

  lemma RegionNext(segs: seq<Segment>, c: Chunks, a: int, b: int, z: int)
    requires Tiled(c) && SegsOk(segs, c) && Region(segs, c, a, b, z) && !c[z].Last()
    requires b in c && c[b].kind != Record && c[b].kind != Kind.Binned
    ensures Region(segs, c, a, b + c[b].size, b)
  {
    hide Mult8, Mult4, PrevLinked, Held, Disjoint, SegmentOk, RecordOk, IsBase, IsRecord;
    assert NextOk(c, z) && ChunkOk(z, c[z]) && ChunkOk(b, c[b]) && Placed(segs, b, c[b]);
    HeldJoin(segs, a, b, b + c[b].size);
    hide NextLinked;
  }

  /** `n` replaces the chunks of a region. */
  ghost predicate Inner(c: Chunks, a: int, n: Chunks, last: int,
                        z: int) requires a in c && z in c && a in n && last in n {
    && n[a].prev == c[a].prev && c[z].Last() == n[last].Last()
    && (forall p | p in n :: n[p].kind != Record && n[p].kind != Kind.Binned && (n[p].kind == Top ==> p == last))
  }

  lemma InnerSlot(segs: seq<Segment>, c: Chunks, a: int, b: int, z: int, n: Chunks, last: int)
    requires Tiled(c) && Region(segs, c, a, b, z) && Stretch(a, b, n, last) && Inner(c, a, n, last, z)
    ensures Slot(c, a, b, n, last) && (b in c ==> c[b].prev != 0)
  {
    hide Mult8;
    forall p | p in c && p < a ensures p + c[p].size <= a && (p + c[p].size == a ==> !c[p].Last() && n[a].prev == p) {
      assert NextOk(c, p);
    }
    assert PrevOk(c, a) && NextOk(c, z) && ChunkOk(z, c[z]);
    if c[a].prev != 0 { assert ChunkOk(c[a].prev, c[c[a].prev]); }
    hide NextLinked, PrevLinked, Apart, Stitched;
  }

  lemma TopRegion(segs: seq<Segment>, c: Chunks, a: int, b: int, z: int)
    requires Sized(c) && SegsOk(segs, c) && Region(segs, c, a, b, z) && c[z].kind == Top
    ensures segs[0].base <= a && b + TOP_FOOT_SIZE == segs[0].End()
  {
    var i :| 0 <= i < |segs| && HeldBy(segs[i], a, b);
    assert ChunkOk(z, c[z]) && Placed(segs, z, c[z]);
    assert i == 0;
  }

  /** A new chunk sits in the segment of those it replaces. */
  lemma PlacedNew(segs: seq<Segment>, c: Chunks, a: int, b: int, z: int, n: Chunks, last: int, p: int)
    requires Sized(c) && SegsOk(segs, c) && Region(segs, c, a, b, z) && Stretch(a, b, n, last)
    requires Inner(c, a, n, last, z) && p in n
    ensures Placed(segs, p, n[p])
  {
    assert p + n[p].size <= b;
    HeldPart(segs, a, b, p, p + n[p].size);
    assert Placed(segs, a, c[a]) && Placed(segs, z, c[z]);
    if p != a {
      assert InnerPrev(n, p) && ChunkOk(n[p].prev, n[n[p].prev]);
      assert p in c ==> Placed(segs, p, c[p]);
    }
    if n[p].kind == Top { TopRegion(segs, c, a, b, z); }
    hide Mult8, Apart, Stitched, Held, IsRecord, IsBase;
  }

  lemma PlacedOld(segs: seq<Segment>, c: Chunks, a: int, b: int, z: int, n: Chunks, last: int, p: int)
    requires SegsOk(segs, c) && Tiled(c) && Stretch(a, b, n, last) && Slot(c, a, b, n, last)
    requires p in Retile(c, a, b, n, last) && p !in n && (b in c ==> c[b].prev != 0)
    ensures Placed(segs, p, Retile(c, a, b, n, last)[p])
  {
    assert Placed(segs, p, c[p]) && ChunkOk(a, n[a]);
    hide SegsOk, Tiled, Held, IsRecord, IsBase, Stitched, Apart;
  }

  lemma BasesStay(segs: seq<Segment>, c: Chunks, a: int, b: int, z: int, n: Chunks, last: int)
    requires SegsOk(segs, c) && Region(segs, c, a, b, z) && a in n
    ensures var d := Retile(c, a, b, n, last); forall i | 0 <= i < |segs| :: segs[i].base in d
  {
    forall i | 0 <= i < |segs| ensures segs[i].base in Retile(c, a, b, n, last) {
      assert IsBase(segs, segs[i].base) && Placed(segs, segs[i].base, c[segs[i].base]);
    }
  }

  lemma RecordsStay(segs: seq<Segment>, c: Chunks, a: int, b: int, z: int, n: Chunks, last: int)
    requires SegsOk(segs, c) && Region(segs, c, a, b, z) && Stretch(a, b, n, last)
    ensures var d := Retile(c, a, b, n, last); forall i | 0 < i < |segs| :: RecordOk(segs[i], d)
  {
    var d := Retile(c, a, b, n, last);
    forall i | 0 < i < |segs| ensures RecordOk(segs[i], d) {
      assert RecordOk(segs[i], c);
      assert segs[i].rec !in n;
    }
  }

  lemma AllPlaced(segs: seq<Segment>, c: Chunks, a: int, b: int, z: int, n: Chunks, last: int)
    requires Tiled(c) && SegsOk(segs, c) && Region(segs, c, a, b, z) && Stretch(a, b, n, last)
    requires Inner(c, a, n, last, z)
    ensures var d := Retile(c, a, b, n, last);
            forall p {:trigger Placed(segs, p, d[p])} | p in d :: Placed(segs, p, d[p])
  {
    var d := Retile(c, a, b, n, last);
    InnerSlot(segs, c, a, b, z, n, last);
    hide Placed, Slot, Inner, SegsOk;
    forall p | p in d ensures Placed(segs, p, d[p]) {
      if p in n {
        PlacedNew(segs, c, a, b, z, n, last, p);
      } else {
        PlacedOld(segs, c, a, b, z, n, last, p);
      }
    }
  }

  lemma RetileSegs(segs: seq<Segment>, c: Chunks, a: int, b: int, z: int, n: Chunks, last: int)
    requires Tiled(c) && SegsOk(segs, c) && Region(segs, c, a, b, z) && Stretch(a, b, n, last)
    requires Inner(c, a, n, last, z)
    ensures SegsOk(segs, Retile(c, a, b, n, last))
  {
    AllPlaced(segs, c, a, b, z, n, last);
    BasesStay(segs, c, a, b, z, n, last);
    RecordsStay(segs, c, a, b, z, n, last);
    hide Tiled, Stretch, Inner, Held, Placed, Region, RecordOk, Retile;
  }

  /** The binned chunks and their sizes. */
  ghost function BinView(c: Chunks): map<int, int> { map p | p in c && c[p].kind == Kind.Binned :: c[p].size }

  /** The description of each segment but the current one is kept in its record, linked to the next older one. */
  ghost predicate RecordWords(mem: Mem, segs: seq<Segment>, i: int) requires 0 < i < |segs| {
    && Rd(mem, segs[i].rec + 8) == segs[i].Start()
    && Rd(mem, segs[i].rec + 12) == segs[i].Bytes()
    && Rd(mem, segs[i].rec + 16) == if i + 1 < |segs| then segs[i + 1].rec + 8 else 0
  }

  ghost predicate SegWords(mem: Mem, segs: seq<Segment>) {
    forall i {:trigger RecordWords(mem, segs, i)} | 0 < i < |segs| :: RecordWords(mem, segs, i)
  }

  /** The heap's invariant, apart from who is the designated victim and top. */
  ghost predicate Core(mem: Mem, smallmap: bv32, treemap: bv32, h: Homes, c: Chunks, segs: seq<Segment>) {
    Shape(mem, c) && SegsOk(segs, c) && SegWords(mem, segs) && BinsOk(mem, smallmap, treemap, h, BinView(c))
  }

  /** The payload of a chunk in use reaches into the word after it. */
  ghost predicate SamePayload(mem: Mem, m: Mem, p: int, n: int) {
    forall w {:trigger Rd(m, w)} | p + 8 <= w <= p + n :: Rd(m, w) == Rd(mem, w)
  }

  ghost predicate Stays(mem: Mem, c: Chunks, m: Mem, d: Chunks, p: int) requires p in c {
    p in d && d[p].kind == c[p].kind && d[p].size == c[p].size && SamePayload(mem, m, p, c[p].size)
  }

  ghost predicate UsedStay(mem: Mem, c: Chunks, m: Mem, d: Chunks, X: set<int>) {
    forall p {:trigger Stays(mem, c, m, d, p)} | p in c && c[p].Used() && p !in X :: Stays(mem, c, m, d, p)
  }

  /** Except at `X`, the live chunks are the same, with the same sizes and contents. */
  ghost predicate Keeps(mem: Mem, c: Chunks, m: Mem, d: Chunks, X: set<int>) {
    && (forall p {:trigger Stays(mem, c, m, d, p)} | p in c && c[p].kind == Live && p !in X :: Stays(mem, c, m, d, p))
    && (forall p | p in d && d[p].kind == Live && p !in X :: p in c && c[p].kind == Live)
  }

  lemma KeepsTrans(mem: Mem, c: Chunks, m: Mem, d: Chunks, m': Mem, e: Chunks, X: set<int>, Y: set<int>)
    requires Keeps(mem, c, m, d, X) && Keeps(m, d, m', e, Y)
    ensures Keeps(mem, c, m', e, X + Y)
  {
    forall p | p in c && c[p].kind == Live && p !in X + Y ensures Stays(mem, c, m', e, p) {
      assert Stays(mem, c, m, d, p) && Stays(m, d, m', e, p);
    }
  }

  lemma SegWordsKept(mem: Mem, c: Chunks, m: Mem, d: Chunks, segs: seq<Segment>, X: set<int>)
    requires SegWords(mem, segs) && SegsOk(segs, c) && UsedStay(mem, c, m, d, X)
    requires forall p | p in X && p in c :: c[p].kind != Record
    ensures SegWords(m, segs)
  {
    forall i | 0 < i < |segs| ensures RecordWords(m, segs, i) {
      assert RecordOk(segs[i], c) && RecordWords(mem, segs, i) && Stays(mem, c, m, d, segs[i].rec);
    }
  }

  lemma RetileKeeps(mem: Mem, m: Mem, c: Chunks, a: int, b: int, n: Chunks, last: int, X: set<int>)
    requires Tiled(c) && Stretch(a, b, n, last) && Slot(c, a, b, n, last) && EditedIn(mem, m, a, b)
    requires forall p | p in c && a <= p < b && c[p].Used() :: p in X
    requires forall p | p in n && n[p].kind == Live :: p in X
    ensures Keeps(mem, c, m, Retile(c, a, b, n, last), X) && UsedStay(mem, c, m, Retile(c, a, b, n, last), X)
  {
    var d := Retile(c, a, b, n, last);
    hide Mult8, Stitched, Apart, NextLinked, PrevLinked;
    forall p | p in c && c[p].Used() && p !in X ensures Stays(mem, c, m, d, p) {
      assert ChunkOk(p, c[p]);
    }
  }

  lemma RetileBins(mem: Mem, m: Mem, smallmap: bv32, treemap: bv32, h: Homes, c: Chunks, a: int, b: int, n: Chunks,
                   last: int)
    requires Tiled(c) && Stretch(a, b, n, last) && Slot(c, a, b, n, last) && EditedIn(mem, m, a, b)
    requires forall p | p in c && a <= p < b :: c[p].kind != Kind.Binned
    requires forall p | p in n :: n[p].kind != Kind.Binned
    requires BinsOk(mem, smallmap, treemap, h, BinView(c))
    ensures BinsOk(m, smallmap, treemap, h, BinView(Retile(c, a, b, n, last)))
  {
    var d := Retile(c, a, b, n, last);
    forall p | p in BinView(c) || p in BinView(d)
      ensures p in BinView(c) && p in BinView(d) && BinView(c)[p] == BinView(d)[p]
    {
      assert p in n ==> a <= p < b;
    }
    assert BinView(d) == BinView(c);
    assert ChunkOk(a, n[a]);
    var f := BinView(c);
    forall p | p in f ensures InteriorSame(mem, m, p, f[p]) {}
    hide Tiled, Stretch, Slot, BinsOk, InteriorSame, Retile;
    BinsFrame(mem, m, smallmap, treemap, h, BinView(c));
  }

  lemma Rewrite(mem: Mem, m: Mem, smallmap: bv32, treemap: bv32, h: Homes, segs: seq<Segment>,
                c: Chunks, a: int, b: int, z: int, n: Chunks, last: int, X: set<int>)
    requires Core(mem, smallmap, treemap, h, c, segs) && Region(segs, c, a, b, z)
    requires Stretch(a, b, n, last) && Inner(c, a, n, last, z) && EditedIn(mem, m, a, b) && Written(m, c, a, b, n, last)
    requires forall p | p in c && a <= p < b && c[p].Used() :: p in X
    requires forall p | p in n && n[p].Used() :: p in X
    requires forall p | p in X && p in c :: c[p].kind != Record
    ensures Core(m, smallmap, treemap, h, Retile(c, a, b, n, last), segs)
    ensures Keeps(mem, c, m, Retile(c, a, b, n, last), X)
  {
    InnerSlot(segs, c, a, b, z, n, last);
    RetileSegs(segs, c, a, b, z, n, last);
    hide Stretch, Slot, Retile, Written, EditedIn, SegWords, Tiled, Keeps, UsedStay, SegsOk, BinsOk, BinView;
    hide RecordWords;
    RetileShape(mem, m, c, a, b, n, last);
    RetileKeeps(mem, m, c, a, b, n, last, X);
    RetileBins(mem, m, smallmap, treemap, h, c, a, b, n, last);
    SegWordsKept(mem, c, m, Retile(c, a, b, n, last), segs, X);
  }

  ghost predicate FreeKind(k: Kind) { k != Live && k != Record }

  /** One chunk of kind `k` in place of a region. */
  ghost function One(c: Chunks, a: int, b: int, k: Kind): Chunks requires a in c {
    Retile(c, a, b, map[a := Chunk(b - a, k, c[a].prev)], a)
  }

  /** Two chunks, meeting at `r`, in place of a region. */
  ghost function Two(c: Chunks, a: int, r: int, b: int, k: Kind, l: Kind): Chunks requires a in c {
    Retile(c, a, b, map[a := Chunk(r - a, k, c[a].prev), r := Chunk(b - r, l, a)], r)
  }

  /** The header of the chunk after the region, if there is one. */
  ghost predicate AfterOk(m: Mem, c: Chunks, b: int, used: bool) {
    b in c ==> Rd(m, b + 4) == Head(c[b].size, used, c[b].Used()) && (c[b].Used() || used)
  }

  ghost predicate LargeEnough(n: int, k: Kind) {
    if k == Top then Mult4(n) && n >= 4 else Mult8(n) && n >= MIN_CHUNK_SIZE
  }

  lemma RewriteOne(mem: Mem, m: Mem, smallmap: bv32, treemap: bv32, h: Homes, segs: seq<Segment>,
                   c: Chunks, a: int, b: int, z: int, k: Kind, X: set<int>)
    requires Core(mem, smallmap, treemap, h, c, segs) && Region(segs, c, a, b, z)
    requires k != Record && k != Kind.Binned && c[z].Last() == (k == Top) && LargeEnough(b - a, k)
    requires EditedIn(mem, m, a, b) && AfterOk(m, c, b, !FreeKind(k))
    requires Rd(m, a + 4) == Head(b - a, PrevUsed(c, a), !FreeKind(k))
    requires FreeKind(k) ==> PrevUsed(c, a) && (k == Top || Rd(m, b) == b - a)
    requires forall p | p in c && a <= p < b && c[p].Used() :: p in X
    requires !FreeKind(k) ==> a in X
    requires forall p | p in X && p in c :: c[p].kind != Record
    ensures Core(m, smallmap, treemap, h, One(c, a, b, k), segs)
    ensures Keeps(mem, c, m, One(c, a, b, k), X)
  {
    var n := map[a := Chunk(b - a, k, c[a].prev)];
    assert ChunkOk(a, c[a]) && ChunkOk(z, c[z]);
    assert ChunkOk(a, n[a]);
    assert NewHead(m, c, a, n, a);
    assert FootOk(m, a, n[a]);
    assert Written(m, c, a, b, n, a);
    hide Core, Region, Written, ChunkOk, Head, EditedIn, Mult8;
    Rewrite(mem, m, smallmap, treemap, h, segs, c, a, b, z, n, a, X);
  }

  lemma TwoStretch(c: Chunks, a: int, r: int, b: int, k: Kind, l: Kind)
    requires a in c && HEAP_MIN <= a && Mult8(a) && b < WORD && LargeEnough(r - a, k) && LargeEnough(b - r, l)
    requires k != Top && k != Record
    ensures Stretch(a, b, map[a := Chunk(r - a, k, c[a].prev), r := Chunk(b - r, l, a)], r)
  {
    var n := map[a := Chunk(r - a, k, c[a].prev), r := Chunk(b - r, l, a)];
    assert ChunkOk(a, n[a]) && ChunkOk(r, n[r]);
    assert InnerNext(n, a) && InnerPrev(n, r);
  }

  lemma RewriteTwo(mem: Mem, m: Mem, smallmap: bv32, treemap: bv32, h: Homes, segs: seq<Segment>,
                   c: Chunks, a: int, r: int, b: int, z: int, k: Kind, l: Kind, X: set<int>)
    requires Core(mem, smallmap, treemap, h, c, segs) && Region(segs, c, a, b, z)
    requires k != Record && k != Kind.Binned && k != Top && l != Record && l != Kind.Binned && c[z].Last() == (l == Top)
    requires LargeEnough(r - a, k) && LargeEnough(b - r, l)
    requires EditedIn(mem, m, a, b) && AfterOk(m, c, b, !FreeKind(l))
    requires Rd(m, a + 4) == Head(r - a, PrevUsed(c, a), !FreeKind(k))
    requires Rd(m, r + 4) == Head(b - r, !FreeKind(k), !FreeKind(l))
    requires !(FreeKind(k) && FreeKind(l))
    requires FreeKind(k) ==> PrevUsed(c, a) && Rd(m, r) == r - a
    requires FreeKind(l) ==> l == Top || Rd(m, b) == b - r
    requires forall p | p in c && a <= p < b && c[p].Used() :: p in X
    requires (!FreeKind(k) ==> a in X) && (!FreeKind(l) ==> r in X)
    requires forall p | p in X && p in c :: c[p].kind != Record
    ensures Core(m, smallmap, treemap, h, Two(c, a, r, b, k, l), segs)
    ensures Keeps(mem, c, m, Two(c, a, r, b, k, l), X)
  {
    var n := map[a := Chunk(r - a, k, c[a].prev), r := Chunk(b - r, l, a)];
    TwoStretch(c, a, r, b, k, l) by { assert ChunkOk(a, c[a]) && ChunkOk(z, c[z]); hide Apart; }
    hide Core, Region, ChunkOk, Head, EditedIn, Mult8, Stretch;
    assert NewHead(m, c, a, n, a) && NewHead(m, c, a, n, r);
    assert FootOk(m, a, n[a]) && FootOk(m, r, n[r]);
    assert BeforeUsed(c, a, n, r) == !FreeKind(k);
    assert Written(m, c, a, b, n, r);
    hide Core, Region, Written, ChunkOk, Head, EditedIn, Mult8, Stretch;
    Rewrite(mem, m, smallmap, treemap, h, segs, c, a, b, z, n, r, X);
  }

  /** `f` names free chunks and their sizes. */
  ghost predicate FreeIn(f: map<int, int>, c: Chunks) {
    forall q | q in f :: q in c && c[q].size == f[q] && FreeKind(c[q].kind)
  }

  /** Stores into the interiors of free chunks reach no header, no foot and no payload. */
  lemma InteriorsKeep(mem: Mem, m: Mem, c: Chunks, f: map<int, int>)
    requires Shape(mem, c) && Confined(mem, m, f) && FreeIn(f, c)
    ensures Shape(m, c) && Keeps(mem, c, m, c, {}) && UsedStay(mem, c, m, c, {})
  {
    hide NextLinked, PrevLinked, PrevUsed, Head, Mult8;
    forall p | p in c
      ensures HeadOk(m, c, p) && FootOk(m, p, c[p])
      ensures c[p].Used() ==> Stays(mem, c, m, c, p)
    {
      assert ChunkOk(p, c[p]) && HeadOk(mem, c, p) && FootOk(mem, p, c[p]);
      assert !Inside(f, p + 4) && !Inside(f, p + c[p].size);
      if c[p].Used() {
        forall w | p + 8 <= w <= p + c[p].size ensures Rd(m, w) == Rd(mem, w) { assert !Inside(f, w); }
      }
    }
  }

  ghost function SetKind(c: Chunks, p: int, k: Kind): Chunks requires p in c { c[p := c[p].(kind := k)] }

  ghost predicate Movable(c: Chunks, p: int, k: Kind) {
    p in c && FreeKind(c[p].kind) && c[p].kind != Top && FreeKind(k) && k != Top
  }

  lemma SetKindTiled(c: Chunks, p: int, k: Kind)
    requires Tiled(c) && Movable(c, p, k)
    ensures Tiled(SetKind(c, p, k)) && forall q | q in c :: PrevUsed(SetKind(c, p, k), q) == PrevUsed(c, q)
  {
    var d := SetKind(c, p, k);
    hide Mult8;
    forall q | q in d ensures NextOk(d, q) && PrevOk(d, q) && ChunkOk(q, d[q]) {
      assert NextOk(c, q) && PrevOk(c, q) && ChunkOk(q, c[q]);
    }
    hide NextLinked, PrevLinked, Sized;
    assert Apart(d);
  }

  lemma SetKindSegs(c: Chunks, segs: seq<Segment>, p: int, k: Kind)
    requires SegsOk(segs, c) && Movable(c, p, k)
    ensures SegsOk(segs, SetKind(c, p, k))
  {
    var d := SetKind(c, p, k);
    forall q | q in d ensures Placed(segs, q, d[q]) {
      assert Placed(segs, q, c[q]);
      hide Held, IsBase, IsRecord;
    }
    hide Placed, Mult8;
    forall i | 0 < i < |segs| ensures RecordOk(segs[i], d) { assert RecordOk(segs[i], c); }
  }

  /** Moving a free chunk from one home to another changes nothing its neighbours see. */
  lemma SetKindShape(mem: Mem, c: Chunks, segs: seq<Segment>, p: int, k: Kind)
    requires Shape(mem, c) && SegsOk(segs, c) && Movable(c, p, k)
    ensures Shape(mem, SetKind(c, p, k)) && SegsOk(segs, SetKind(c, p, k)) && Keeps(mem, c, mem, SetKind(c, p, k), {})
  {
    hide SegsOk, Tiled, PrevUsed, Head;
    var d := SetKind(c, p, k);
    SetKindTiled(c, p, k);
    SetKindSegs(c, segs, p, k);
    forall q | q in d ensures HeadOk(mem, d, q) && FootOk(mem, q, d[q]) && (d[q].Used() || PrevUsed(d, q)) {
      assert HeadOk(mem, c, q) && FootOk(mem, q, c[q]) && (c[q].Used() || PrevUsed(c, q));
    }
    forall q | q in c && c[q].Used() ensures Stays(mem, c, mem, d, q) {}
  }
}

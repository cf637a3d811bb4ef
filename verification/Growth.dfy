/** How segments come, grow and shrink. */
module Growth {
  import opened Words
  import opened FreeLinks
  import opened Bins
  import opened Chunks
  import opened Headers
  import opened Heaps
  import opened Steps

  /** A chunk of top's segment above its base has a predecessor. */
  lemma InTopSegment(segs: seq<Segment>, c: Chunks, top: int, p: int)
    requires Sized(c) && SegsOk(segs, c) && top in c && c[top].kind == Top && p in c && p > top
    ensures |segs| > 0 && segs[0].End() == top + c[top].size + TOP_FOOT_SIZE
    ensures p < segs[0].End() ==> c[p].prev != 0 && p + c[p].size + 16 <= segs[0].End()
    ensures c[p].kind == Top ==> p + c[p].size == top + c[top].size
  {
    hide Mult8, Mult4, RecordOk, IsRecord;
    assert Placed(segs, top, c[top]) && Placed(segs, p, c[p]) && ChunkOk(p, c[p]);
    var i :| 0 <= i < |segs| && HeldBy(segs[i], p, p + c[p].size);
    assert p < segs[0].End() ==> i == 0;
    assert p < segs[0].End() ==> forall j | 0 <= j < |segs| :: segs[j].base != p by {
      assert forall j | 0 <= j < |segs| :: SegmentOk(segs[j]);
      hide Held;
    }
    hide SegsOk;
  }

  /** Top is the last chunk of its segment. */
  lemma AfterTop(segs: seq<Segment>, c: Chunks, top: int, p: int)
    requires Tiled(c) && SegsOk(segs, c) && top in c && c[top].kind == Top && p in c && p > top
    ensures |segs| > 0 && p >= segs[0].End()
  {
    InTopSegment(segs, c, top, p);
    hide Mult8, Mult4, SegsOk, NextLinked;
    var q := c[p].prev;
    assert PrevOk(c, p) && ChunkOk(p, c[p]) && (q in c ==> ChunkOk(q, c[q]));
    hide PrevLinked, Sized;
    if p < segs[0].End() { assert false; }
  }

  /** The segments after top's end moved to `b`. */
  function Resized(segs: seq<Segment>, b: int): seq<Segment> requires |segs| > 0 {
    segs[0 := segs[0].(size := b + TOP_FOOT_SIZE - segs[0].base)]
  }

  ghost predicate Resizable(segs: seq<Segment>, c: Chunks, top: int, b: int) {
    && top in c && c[top].kind == Top && Mult4(b - top) && b >= top + 4 && b + TOP_FOOT_SIZE <= HEAP_MAX
    && |segs| > 0 && Disjoint(Resized(segs, b))
  }

  lemma Beyond(segs: seq<Segment>, c: Chunks, top: int, b: int, p: int)
    requires Tiled(c) && SegsOk(segs, c) && Resizable(segs, c, top, b) && p in c && p > top
    ensures p > b
  {
    hide NextLinked, PrevLinked, Apart, Mult8;
    AfterTop(segs, c, top, p);
    assert Placed(segs, top, c[top]) && Placed(segs, p, c[p]) && ChunkOk(p, c[p]);
    var i :| 0 <= i < |segs| && HeldBy(segs[i], p, p + c[p].size);
    var r := Resized(segs, b);
    assert i != 0;
    assert r[i] == segs[i];
    assert r[0].End() <= r[i].base;
  }

  lemma ResizeSlot(segs: seq<Segment>, c: Chunks, top: int, b: int)
    requires Tiled(c) && SegsOk(segs, c) && Resizable(segs, c, top, b)
    ensures var n := map[top := Chunk(b - top, Top, c[top].prev)]; Stretch(top, b, n, top) && Slot(c, top, b, n, top)
  {
    var n := map[top := Chunk(b - top, Top, c[top].prev)];
    assert ChunkOk(top, c[top]) && PrevOk(c, top);
    assert ChunkOk(top, n[top]);
    if c[top].prev != 0 { assert ChunkOk(c[top].prev, c[c[top].prev]); }
    forall p | p in c && p > top ensures p > b { Beyond(segs, c, top, b, p); }
    forall p | p in c && p < top
      ensures p + c[p].size <= top && (p + c[p].size == top ==> !c[p].Last() && n[top].prev == p)
    {
      assert NextOk(c, p);
    }
    hide NextLinked, PrevLinked, SegsOk, Mult8;
  }

  lemma ResizePlaced(segs: seq<Segment>, c: Chunks, top: int, b: int, p: int)
    requires Tiled(c) && SegsOk(segs, c) && Resizable(segs, c, top, b) && p in c
    ensures p != top ==> Placed(Resized(segs, b), p, c[p])
    ensures p == top ==> Placed(Resized(segs, b), p, c[p].(size := b - top))
  {
    hide Mult8, Mult4, SegmentOk, RecordOk, NextLinked, PrevLinked, IsBase, Disjoint;
    var r := Resized(segs, b);
    assert Placed(segs, p, c[p]) && Placed(segs, top, c[top]);
    var i :| 0 <= i < |segs| && HeldBy(segs[i], p, p + c[p].size);
    assert IsBase(r, p) == IsBase(segs, p) by { SameBases(segs, r, p); }
    if p == top {
      assert HeldBy(r[0], top, b);
    } else {
      if p > top { AfterTop(segs, c, top, p); assert ChunkOk(p, c[p]); assert i != 0; }
      assert HeldBy(r[i], p, p + c[p].size);
    }
    if c[p].kind == Record { var j :| 0 < j < |segs| && segs[j].rec == p; assert r[j].rec == p; }
  }

  lemma SameBases(segs: seq<Segment>, r: seq<Segment>, p: int)
    requires |r| == |segs| && forall i | 0 <= i < |segs| :: r[i].base == segs[i].base
    ensures IsBase(r, p) == IsBase(segs, p)
  {
    if IsBase(segs, p) { var j :| 0 <= j < |segs| && segs[j].base == p; assert r[j].base == p; }
  }

  /** Growing top at its end, or shrinking it, with its segment. */
  lemma ResizeTop(mem: Mem, m: Mem, smallmap: bv32, treemap: bv32, h: Homes, segs: seq<Segment>, c: Chunks, top: int,
                  b: int)
    requires Core(mem, smallmap, treemap, h, c, segs) && Resizable(segs, c, top, b)
    requires EditedIn(mem, m, top, b) && Rd(m, top + 4) == Head(b - top, true, false)
    ensures Core(m, smallmap, treemap, h, One(c, top, b, Top), Resized(segs, b))
    ensures Keeps(mem, c, m, One(c, top, b, Top), {})
  {
    var n := map[top := Chunk(b - top, Top, c[top].prev)];
    var d := One(c, top, b, Top);
    TopFacts(mem, c, segs, top, b);
    ResizeSlot(segs, c, top, b);
    assert NewHead(m, c, top, n, top);
    assert Written(m, c, top, b, n, top);
    hide Core, Resizable, SegsOk, SegWords, BinsOk, Shape, Stretch, Slot, Written, EditedIn, Keeps, UsedStay, Tiled;
    hide BinView, Head, Retile, Resized;
    CoreParts(mem, smallmap, treemap, h, c, segs);
    RetileShape(mem, m, c, top, b, n, top);
    RetileKeeps(mem, m, c, top, b, n, top, {});
    RetileBins(mem, m, smallmap, treemap, h, c, top, b, n, top);
    ResizeSegs(segs, c, top, b);
    SegWordsKept(mem, c, m, d, segs, {});
    ResizedWords(m, segs, b);
    PartsCore(m, smallmap, treemap, h, d, Resized(segs, b));
  }

  lemma CoreParts(mem: Mem, smallmap: bv32, treemap: bv32, h: Homes, c: Chunks, segs: seq<Segment>)
    requires Core(mem, smallmap, treemap, h, c, segs)
    ensures Shape(mem, c) && Tiled(c) && SegsOk(segs, c) && SegWords(mem, segs)
    ensures BinsOk(mem, smallmap, treemap, h, BinView(c))
  {
    hide SegsOk, SegWords, BinsOk, BinView, Tiled;
  }

  lemma PartsCore(mem: Mem, smallmap: bv32, treemap: bv32, h: Homes, c: Chunks, segs: seq<Segment>)
    requires Shape(mem, c) && SegsOk(segs, c) && SegWords(mem, segs) && BinsOk(mem, smallmap, treemap, h, BinView(c))
    ensures Core(mem, smallmap, treemap, h, c, segs)
  {
    hide Shape, SegsOk, SegWords, BinsOk, BinView;
  }

  lemma TopFacts(mem: Mem, c: Chunks, segs: seq<Segment>, top: int, b: int)
    requires Shape(mem, c) && SegsOk(segs, c) && Resizable(segs, c, top, b)
    ensures PrevUsed(c, top) && forall p | p in c && top <= p < b :: p == top
  {
    Reading(mem, c, top);
    forall p | p in c && p > top ensures p > b { Beyond(segs, c, top, b, p); }
  }

  lemma ResizeAll(segs: seq<Segment>, c: Chunks, top: int, b: int)
    requires Tiled(c) && SegsOk(segs, c) && Resizable(segs, c, top, b)
    ensures var r, d := Resized(segs, b), One(c, top, b, Top);
            forall p {:trigger Placed(r, p, d[p])} | p in d :: Placed(r, p, d[p])
  {
    hide Tiled, SegsOk, Placed, Resized;
    var r, d := Resized(segs, b), One(c, top, b, Top);
    assert forall p | p in d :: p in c;
    forall p | p in d ensures Placed(r, p, d[p]) {
      ResizePlaced(segs, c, top, b, p);
      Gone(segs, c, top, b, p);
    }
  }

  lemma ResizeSegs(segs: seq<Segment>, c: Chunks, top: int, b: int)
    requires Tiled(c) && SegsOk(segs, c) && Resizable(segs, c, top, b)
    ensures SegsOk(Resized(segs, b), One(c, top, b, Top))
  {
    hide Tiled, Placed, RecordOk, SegmentOk, One;
    ResizeAll(segs, c, top, b);
    ResizeEnds(segs, c, top, b);
  }

  lemma ResizeEnds(segs: seq<Segment>, c: Chunks, top: int, b: int)
    requires Tiled(c) && SegsOk(segs, c) && Resizable(segs, c, top, b)
    ensures var r, d := Resized(segs, b), One(c, top, b, Top);
            && (forall i | 0 <= i < |r| :: SegmentOk(r[i]) && r[i].base in d)
            && (forall i | 0 < i < |r| :: RecordOk(r[i], d))
  {
    var r, d := Resized(segs, b), One(c, top, b, Top);
    ResizedFirst(segs, c, top, b);
    hide Tiled, Placed, One;
    forall i | 0 <= i < |r| ensures SegmentOk(r[i]) && r[i].base in d {
      assert SegmentOk(segs[i]);
      Gone(segs, c, top, b, segs[i].base);
    }
    ResizedRecords(segs, c, top, b);
    hide SegsOk, Mult8;
  }

  lemma ResizedFirst(segs: seq<Segment>, c: Chunks, top: int, b: int)
    requires Tiled(c) && SegsOk(segs, c) && Resizable(segs, c, top, b)
    ensures SegmentOk(Resized(segs, b)[0])
  {
    assert Placed(segs, top, c[top]) && ChunkOk(top, c[top]) && SegmentOk(segs[0]);
    hide Tiled, Held;
  }

  lemma ResizedRecords(segs: seq<Segment>, c: Chunks, top: int, b: int)
    requires Tiled(c) && SegsOk(segs, c) && Resizable(segs, c, top, b)
    ensures var r, d := Resized(segs, b), One(c, top, b, Top); forall i | 0 < i < |r| :: RecordOk(r[i], d)
  {
    var r, d := Resized(segs, b), One(c, top, b, Top);
    hide Tiled, Placed, One;
    forall i | 0 < i < |r| ensures RecordOk(r[i], d) {
      assert RecordOk(segs[i], c);
      Gone(segs, c, top, b, segs[i].rec);
    }
  }

  lemma Gone(segs: seq<Segment>, c: Chunks, top: int, b: int, p: int)
    requires Tiled(c) && SegsOk(segs, c) && Resizable(segs, c, top, b) && p in c
    ensures var d := One(c, top, b, Top); p in d && d[p] == if p == top then c[p].(size := b - top) else c[p]
  {
    if p > top { Beyond(segs, c, top, b, p); }
  }

  lemma ResizedWords(m: Mem, segs: seq<Segment>, b: int)
    requires SegWords(m, segs) && |segs| > 0
    ensures SegWords(m, Resized(segs, b))
  {
    var r := Resized(segs, b);
    forall i | 0 < i < |r| ensures RecordWords(m, r, i) { assert RecordWords(m, segs, i); }
  }

  // ---- a new segment

  /** No chunk touches [lo, hi). */
  ghost predicate Clear(c: Chunks, lo: int, hi: int) { forall p | p in c :: p + c[p].size < lo || p >= hi }

  /** The chunks and the bins are in order; the segments are looked at apart. */
  ghost predicate Laid(mem: Mem, smallmap: bv32, treemap: bv32, h: Homes, c: Chunks) {
    Shape(mem, c) && BinsOk(mem, smallmap, treemap, h, BinView(c))
  }

  /** A stretch with neither binned chunks nor, outside `X`, used ones, is replaced. */
  lemma Relaid(mem: Mem, m: Mem, smallmap: bv32, treemap: bv32, h: Homes, c: Chunks, a: int, b: int, n: Chunks,
               last: int, X: set<int>)
    requires Laid(mem, smallmap, treemap, h, c) && Stretch(a, b, n, last) && Slot(c, a, b, n, last)
    requires EditedIn(mem, m, a, b) && Written(m, c, a, b, n, last)
    requires forall p | p in c && a <= p < b :: c[p].kind != Kind.Binned && (c[p].Used() ==> p in X)
    requires forall p | p in n :: n[p].kind != Kind.Binned && (n[p].kind == Live ==> p in X)
    ensures Laid(m, smallmap, treemap, h, Retile(c, a, b, n, last))
    ensures Keeps(mem, c, m, Retile(c, a, b, n, last), X) && UsedStay(mem, c, m, Retile(c, a, b, n, last), X)
  {
    hide Stretch, Slot, Retile, Written, EditedIn, Tiled, Keeps, UsedStay, BinsOk, BinView;
    RetileShape(mem, m, c, a, b, n, last);
    RetileKeeps(mem, m, c, a, b, n, last, X);
    RetileBins(mem, m, smallmap, treemap, h, c, a, b, n, last);
  }

  lemma NewTop(mem: Mem, m: Mem, smallmap: bv32, treemap: bv32, h: Homes, c: Chunks, a: int, b: int)
    requires Laid(mem, smallmap, treemap, h, c) && Clear(c, a, b + TOP_FOOT_SIZE)
    requires HEAP_MIN <= a && Mult8(a) && Mult4(b - a) && a + 4 <= b < WORD
    requires EditedIn(mem, m, a, b) && Rd(m, a + 4) == Head(b - a, true, false)
    ensures var d := c[a := Chunk(b - a, Top, 0)];
            Laid(m, smallmap, treemap, h, d) && Keeps(mem, c, m, d, {}) && UsedStay(mem, c, m, d, {})
  {
    hide Laid, Stretch, Slot, EditedIn, Keeps, UsedStay, Mult8, Head;
    var n := map[a := Chunk(b - a, Top, 0)];
    NewTopSlot(mem, smallmap, treemap, h, c, a, b);
    assert NewHead(m, c, a, n, a);
    assert Retile(c, a, b, n, a) == c[a := Chunk(b - a, Top, 0)];
    Relaid(mem, m, smallmap, treemap, h, c, a, b, n, a, {});
  }

  lemma NewTopSlot(mem: Mem, smallmap: bv32, treemap: bv32, h: Homes, c: Chunks, a: int, b: int)
    requires Laid(mem, smallmap, treemap, h, c) && Clear(c, a, b + TOP_FOOT_SIZE)
    requires HEAP_MIN <= a && Mult8(a) && Mult4(b - a) && a + 4 <= b < WORD
    ensures var n := map[a := Chunk(b - a, Top, 0)]; Stretch(a, b, n, a) && Slot(c, a, b, n, a) && 0 !in c
    ensures b !in c && forall p | p in c :: !(a <= p < b)
  {
    var n := map[a := Chunk(b - a, Top, 0)];
    assert ChunkOk(a, n[a]);
    assert 0 in c ==> ChunkOk(0, c[0]);
    forall p | p in c ensures p + c[p].size < a || p > b { assert ChunkOk(p, c[p]); }
    hide Laid, Mult8;
  }

  /** What old top gives way to: its segment's record, at its end if there is room for a chunk before it. */
  ghost function Recorded(c: Chunks, top: int, sp: int): Chunks requires top in c {
    if sp == top then c[top := Chunk(RECORD_SIZE, Record, c[top].prev)]
    else c[top := Chunk(sp - top, Limbo, c[top].prev)][sp := Chunk(RECORD_SIZE, Record, top)]
  }

  ghost function RecordStretch(c: Chunks, top: int, sp: int): Chunks requires top in c {
    if sp == top then map[top := Chunk(RECORD_SIZE, Record, c[top].prev)]
    else map[top := Chunk(sp - top, Limbo, c[top].prev), sp := Chunk(RECORD_SIZE, Record, top)]
  }

  /** Where the record of a segment goes that ends in a top of `size` bytes. */
  function RecordAt(top: int, size: int): (sp: int) {
    if Down8(size) < MIN_CHUNK_SIZE then top else top + Down8(size)
  }

  lemma RecordAtFacts(top: int, size: int)
    requires Mult8(top) && Mult4(size) && size >= 4
    ensures var sp := RecordAt(top, size);
            && Mult8(sp - top) && Mult8(sp) && (sp == top || sp >= top + MIN_CHUNK_SIZE)
            && top + size <= sp + 12 && sp <= top + size
            && (sp != top ==> top + size <= sp + 4)
  {}

  /** `sp` is where the record goes. */
  ghost predicate RecordPlace(c: Chunks, top: int, sp: int) {
    && top in c && c[top].kind == Top
    && sp == RecordAt(top, c[top].size)
    && top + c[top].size + TOP_FOOT_SIZE < WORD
    && forall p | p in c && p > top :: p > sp + RECORD_SIZE
  }

  lemma RecordStretchOk(c: Chunks, top: int, sp: int)
    requires Tiled(c) && RecordPlace(c, top, sp)
    ensures Stretch(top, sp + RECORD_SIZE, RecordStretch(c, top, sp), sp)
  {
    var n := RecordStretch(c, top, sp);
    assert ChunkOk(top, c[top]);
    RecordAtFacts(top, c[top].size);
    hide RecordAt, Tiled;
    assert ChunkOk(top, n[top]) && ChunkOk(sp, n[sp]);
    hide Mult8, Mult4, ChunkOk;
    if sp != top { assert InnerNext(n, top) && InnerPrev(n, sp); }
  }

  lemma RecordSlot(mem: Mem, c: Chunks, top: int, sp: int)
    requires Shape(mem, c) && RecordPlace(c, top, sp)
    ensures var n := RecordStretch(c, top, sp);
            var b := sp + RECORD_SIZE; Stretch(top, b, n, sp) && Slot(c, top, b, n, sp)
  {
    var n, b := RecordStretch(c, top, sp), sp + RECORD_SIZE;
    assert Tiled(c);
    hide Shape;
    RecordStretchOk(c, top, sp);
    hide Stretch, ChunkOk, Mult8;
    assert PrevOk(c, top);
    hide PrevLinked, Heads, Feet, Coalesced;
    forall p | p in c && p < top
      ensures p + c[p].size <= top && (p + c[p].size == top ==> !c[p].Last() && n[top].prev == p)
    {
      assert NextOk(c, p);
    }
    hide NextLinked;
  }

  lemma RecordTop(mem: Mem, m: Mem, smallmap: bv32, treemap: bv32, h: Homes, c: Chunks, top: int, sp: int)
    requires Laid(mem, smallmap, treemap, h, c) && RecordPlace(c, top, sp)
    requires EditedIn(mem, m, top, sp + RECORD_SIZE) && Rd(m, sp + 4) == Head(RECORD_SIZE, sp == top, true)
    requires sp != top ==> Rd(m, top + 4) == Head(sp - top, true, false) && Rd(m, sp) == sp - top
    ensures var d := Recorded(c, top, sp);
            Laid(m, smallmap, treemap, h, d) && Keeps(mem, c, m, d, {}) && UsedStay(mem, c, m, d, {})
  {
    hide Shape, BinsOk, BinView, Stretch, Slot, EditedIn, Keeps, UsedStay, Head, Mult8;
    var n, b := RecordStretch(c, top, sp), sp + RECORD_SIZE;
    RecordSlot(mem, c, top, sp);
    Reading(mem, c, top);
    assert NewHead(m, c, top, n, top) && NewHead(m, c, top, n, sp);
    assert FootOk(m, top, n[top]) && FootOk(m, sp, n[sp]);
    assert Written(m, c, top, b, n, sp);
    assert Retile(c, top, b, n, sp) == Recorded(c, top, sp);
    hide Laid, Written, Retile;
    Relaid(mem, m, smallmap, treemap, h, c, top, b, n, sp, {});
  }

  /** Stores between chunks disturb nothing. */
  lemma Slack(mem: Mem, m: Mem, smallmap: bv32, treemap: bv32, h: Homes, c: Chunks, lo: int, hi: int)
    requires Laid(mem, smallmap, treemap, h, c) && Clear(c, lo, hi) && HEAP_MIN <= lo
    requires forall w {:trigger Rd(m, w)} | w < lo || w >= hi :: Rd(m, w) == Rd(mem, w)
    ensures Laid(m, smallmap, treemap, h, c) && Keeps(mem, c, m, c, {}) && UsedStay(mem, c, m, c, {})
  {
    hide NextLinked, PrevLinked, PrevUsed, Head, Mult8, Apart, BinsOk;
    forall p | p in c
      ensures HeadOk(m, c, p) && FootOk(m, p, c[p]) && InteriorSame(mem, m, p, c[p].size)
      ensures c[p].Used() ==> Stays(mem, c, m, c, p)
    {
      assert ChunkOk(p, c[p]) && HeadOk(mem, c, p) && FootOk(mem, p, c[p]);
    }
    var f := BinView(c);
    forall p | p in f ensures InteriorSame(mem, m, p, f[p]) {}
    BinsFrame(mem, m, smallmap, treemap, h, BinView(c));
  }

  /** The new segment is the current one; the description of the one before moves to its record. */
  function Added(segs: seq<Segment>, base: int, size: int, pad: nat, sp: int): seq<Segment> requires |segs| > 0 {
    [Segment(base, size, 0, pad), segs[0].(rec := sp)] + segs[1..]
  }

  /** [base, base + size), with `pad` bytes before it, is new to the allocator. */
  ghost predicate Fresh(segs: seq<Segment>, base: int, size: int, pad: nat) {
    && HEAP_MIN <= base - pad && pad < 8 && Mult8(base) && Mult4(size) && TOP_FOOT_SIZE + 4 <= size
    && base + size <= HEAP_MAX
    && forall i | 0 <= i < |segs| :: segs[i].End() <= base - pad || base + size <= segs[i].Start()
  }

  ghost predicate Adding(segs: seq<Segment>, c: Chunks, top: int, sp: int, base: int, size: int, pad: nat) {
    && Tiled(c) && SegsOk(segs, c) && top in c && c[top].kind == Top && Fresh(segs, base, size, pad)
    && sp == RecordAt(top, c[top].size)
  }

  ghost function AddedChunks(c: Chunks, top: int, sp: int, base: int, size: int): Chunks requires top in c {
    Recorded(c[base := Chunk(size - TOP_FOOT_SIZE, Top, 0)], top, sp)
  }

  lemma FreshClear(segs: seq<Segment>, c: Chunks, base: int, size: int, pad: nat)
    requires SegsOk(segs, c) && Tiled(c) && Fresh(segs, base, size, pad)
    ensures Clear(c, base, base + size) && base !in c
  {
    forall p | p in c ensures p + c[p].size < base || p >= base + size {
      assert Placed(segs, p, c[p]) && ChunkOk(p, c[p]);
      var i :| 0 <= i < |segs| && HeldBy(segs[i], p, p + c[p].size);
    }
    assert base in c ==> ChunkOk(base, c[base]);
  }

  lemma TopPlace(segs: seq<Segment>, c: Chunks, top: int, sp: int, base: int, size: int, pad: nat)
    requires Adding(segs, c, top, sp, base, size, pad)
    ensures |segs| > 0 && segs[0].base <= top <= sp && sp + RECORD_SIZE + 16 <= segs[0].End() <= sp + RECORD_SIZE + 28
    ensures segs[0].End() == top + c[top].size + TOP_FOOT_SIZE && 0 < top && Mult4(c[top].size)
    ensures top != base && sp != base && (sp != top ==> sp !in c)
    ensures forall p | p in c && p > top :: p >= segs[0].End()
  {
    assert Placed(segs, top, c[top]) && ChunkOk(top, c[top]);
    assert SegmentOk(segs[0]);
    forall p | p in c && p > top ensures p >= segs[0].End() { AfterTop(segs, c, top, p); }
    hide Tiled;
  }

  lemma AddedBase(segs: seq<Segment>, base: int, size: int, pad: nat, sp: int, p: int)
    requires |segs| > 0
    ensures IsBase(Added(segs, base, size, pad, sp), p) <==> p == base || IsBase(segs, p)
  {
    var r := Added(segs, base, size, pad, sp);
    if IsBase(segs, p) { var i :| 0 <= i < |segs| && segs[i].base == p; assert r[i + 1].base == p; }
    if p == base { assert r[0].base == p; }
    if IsBase(r, p) && p != base { var i :| 0 <= i < |r| && r[i].base == p; assert segs[i - 1].base == p; }
  }

  lemma AddedHeld(segs: seq<Segment>, base: int, size: int, pad: nat, sp: int, lo: int, hi: int)
    requires |segs| > 0 && Held(segs, lo, hi)
    ensures Held(Added(segs, base, size, pad, sp), lo, hi)
  {
    var r := Added(segs, base, size, pad, sp);
    var i :| 0 <= i < |segs| && HeldBy(segs[i], lo, hi);
    assert HeldBy(r[i + 1], lo, hi);
  }

  lemma AddedRecord(segs: seq<Segment>, c: Chunks, top: int, sp: int, base: int, size: int, pad: nat)
    requires Adding(segs, c, top, sp, base, size, pad) && |segs| > 0
    ensures var prev := if sp == top then c[top].prev else top;
            Placed(Added(segs, base, size, pad, sp), sp, Chunk(RECORD_SIZE, Record, prev))
  {
    var r := Added(segs, base, size, pad, sp);
    TopPlace(segs, c, top, sp, base, size, pad);
    AddedBase(segs, base, size, pad, sp, sp);
    assert HeldBy(r[1], sp, sp + RECORD_SIZE) && r[1].rec == sp;
    if sp == top { assert Placed(segs, top, c[top]); } else { SpNotBase(segs, c, top, sp, base, size, pad); }
    hide Adding, IsBase;
  }

  lemma AddedOther(segs: seq<Segment>, c: Chunks, top: int, sp: int, base: int, size: int, pad: nat, p: int)
    requires Adding(segs, c, top, sp, base, size, pad) && |segs| > 0 && p in c && p != base
    requires (c[p].kind == Top ==> p == top)
    ensures var k := if p == top then c[p].(kind := Limbo) else c[p]; Placed(Added(segs, base, size, pad, sp), p, k)
  {
    hide Tiled, Fresh, IsBase, Held, Disjoint, RecordOk, SegmentOk;
    var r := Added(segs, base, size, pad, sp);
    AddedBase(segs, base, size, pad, sp, p);
    assert Placed(segs, p, c[p]);
    AddedHeld(segs, base, size, pad, sp, p, p + c[p].size);
    hide SegsOk;
    if c[p].kind == Record { var i :| 0 < i < |segs| && segs[i].rec == p; assert r[i + 1].rec == p; }
  }

  lemma AddedPlaced(segs: seq<Segment>, c: Chunks, top: int, sp: int, base: int, size: int, pad: nat, p: int)
    requires Adding(segs, c, top, sp, base, size, pad) && |segs| > 0 && p in AddedChunks(c, top, sp, base, size)
    ensures Placed(Added(segs, base, size, pad, sp), p, AddedChunks(c, top, sp, base, size)[p])
  {
    var r := Added(segs, base, size, pad, sp);
    TopPlace(segs, c, top, sp, base, size, pad);
    if p == base {
      AddedBase(segs, base, size, pad, sp, p);
      assert HeldBy(r[0], p, p + size - TOP_FOOT_SIZE);
    } else if p == sp {
      AddedRecord(segs, c, top, sp, base, size, pad);
    } else {
      if c[p].kind == Top { TopOnly(segs, c, top, p); }
      AddedOther(segs, c, top, sp, base, size, pad, p);
    }
    hide Tiled, SegsOk, Fresh;
  }

  lemma SpNotBase(segs: seq<Segment>, c: Chunks, top: int, sp: int, base: int, size: int, pad: nat)
    requires Adding(segs, c, top, sp, base, size, pad) && sp != top
    ensures !IsBase(segs, sp)
  {
    TopPlace(segs, c, top, sp, base, size, pad);
    assert forall i | 0 <= i < |segs| :: segs[i].base in c;
  }

  lemma TopOnly(segs: seq<Segment>, c: Chunks, top: int, p: int)
    requires Tiled(c) && SegsOk(segs, c) && top in c && c[top].kind == Top && p in c && c[p].kind == Top
    ensures p == top
  {
    assert Placed(segs, top, c[top]) && Placed(segs, p, c[p]) && ChunkOk(top, c[top]) && ChunkOk(p, c[p]);
  }

  lemma AddedSegs(segs: seq<Segment>, c: Chunks, top: int, sp: int, base: int, size: int, pad: nat)
    requires Adding(segs, c, top, sp, base, size, pad)
    ensures |segs| > 0 && SegsOk(Added(segs, base, size, pad, sp), AddedChunks(c, top, sp, base, size))
  {
    TopPlace(segs, c, top, sp, base, size, pad);
    var r, d := Added(segs, base, size, pad, sp), AddedChunks(c, top, sp, base, size);
    FreshClear(segs, c, base, size, pad);
    AddedEnds(segs, c, top, sp, base, size, pad);
    hide Adding, Placed, AddedChunks, Added, RecordOk, SegmentOk, Clear;
    forall p | p in d ensures Placed(r, p, d[p]) { AddedPlaced(segs, c, top, sp, base, size, pad, p); }
  }

  lemma AddedEnds(segs: seq<Segment>, c: Chunks, top: int, sp: int, base: int, size: int, pad: nat)
    requires Adding(segs, c, top, sp, base, size, pad) && |segs| > 0
    ensures var r, d := Added(segs, base, size, pad, sp), AddedChunks(c, top, sp, base, size);
            && Disjoint(r) && (forall i | 0 <= i < |r| :: SegmentOk(r[i]) && r[i].base in d)
            && (forall i | 0 < i < |r| :: RecordOk(r[i], d))
  {
    var r, d := Added(segs, base, size, pad, sp), AddedChunks(c, top, sp, base, size);
    TopPlace(segs, c, top, sp, base, size, pad);
    FreshClear(segs, c, base, size, pad);
    AddedApart(segs, base, size, pad, sp);
    hide Tiled, Placed, Clear, Disjoint;
    forall i | 0 <= i < |r| ensures SegmentOk(r[i]) && r[i].base in d {
      if i > 0 { assert SegmentOk(segs[i - 1]) && segs[i - 1].base in c; }
    }
    forall i | 0 < i < |r| ensures RecordOk(r[i], d) {
      if i > 1 { assert RecordOk(segs[i - 1], c); }
    }
  }

  lemma AddedApart(segs: seq<Segment>, base: int, size: int, pad: nat, sp: int)
    requires |segs| > 0 && Disjoint(segs) && Fresh(segs, base, size, pad)
    ensures Disjoint(Added(segs, base, size, pad, sp))
  {
    var r := Added(segs, base, size, pad, sp);
    assert forall i | 0 < i < |r| ::
      r[i].base == segs[i - 1].base && r[i].size == segs[i - 1].size && r[i].pad == segs[i - 1].pad;
  }

  const TRIM_THRESHOLD: int := 2 * 1024 * 1024
  const FENCEPOST_HEAD: int := 7

  /** Top's header, and the size of the fake chunk after it that holds overhead space. */
  function TopWords(mem: Mem, p: int, psize: int): Mem {
    Wr(Wr(mem, p + 4, Head(psize, true, false)), p + psize + 4, TOP_FOOT_SIZE)
  }

  /** The description of a segment, written to its record. */
  function DescriptionWords(mem: Mem, sp: int, s: Segment, next: int): Mem {
    Wr(Wr(Wr(Wr(mem, sp + 8, s.Start()), sp + 12, s.Bytes()), sp + 16, next), sp + 20, 0)
  }

  /** The word of the last fencepost, when they start after `p0`: the last that begins before the end. */
  ghost predicate LastPost(p0: int, end: int, last: int) { last < end <= last + 4 && (last - p0) % 4 == 0 }

  /** Fenceposts from `p` to the end of the segment. */
  method Fence(mem0: Mem, p0: int, end: int) returns (mem: Mem, nfences: int, ghost last: int)
    requires p0 + 16 <= end
    ensures forall w {:trigger Rd(mem, w)} | w < p0 + 4 || w > last :: Rd(mem, w) == Rd(mem0, w)
    ensures forall w {:trigger Rd(mem, w)} | p0 + 4 <= w <= last && (w - p0) % 4 == 0 :: Rd(mem, w) == FENCEPOST_HEAD
    ensures nfences >= 2 && LastPost(p0, end, last)
  {
    var p := p0;
    mem, nfences := Wr(mem0, p + 4, FENCEPOST_HEAD), 1;
    while p + 8 < end
      invariant p0 <= p && (p - p0) % 4 == 0 && p + 4 < end && nfences == (p - p0) / 4 + 1
      invariant forall w {:trigger Rd(mem, w)} | w < p0 + 4 || w > p + 4 :: Rd(mem, w) == Rd(mem0, w)
      invariant forall w {:trigger Rd(mem, w)} | p0 + 4 <= w <= p + 4 && (w - p0) % 4 == 0 ::
                  Rd(mem, w) == FENCEPOST_HEAD
      decreases end - p
    {
      p := p + 4;
      mem, nfences := Wr(mem, p + 4, FENCEPOST_HEAD), nfences + 1;
    }
    last := p + 4;
  }

  lemma UsedStayTrans(m0: Mem, c0: Chunks, m1: Mem, c1: Chunks, m2: Mem, c2: Chunks)
    requires UsedStay(m0, c0, m1, c1, {}) && UsedStay(m1, c1, m2, c2, {})
    ensures UsedStay(m0, c0, m2, c2, {})
  {
    forall p | p in c0 && c0[p].Used() ensures Stays(m0, c0, m2, c2, p) {
      assert Stays(m0, c0, m1, c1, p) && Stays(m1, c1, m2, c2, p);
    }
  }

  /** `m` with the words of `other` in [lo, hi). */
  ghost function Patch(m: Mem, other: Mem, lo: int, hi: int): (r: Mem)
    ensures forall w {:trigger Rd(r, w)} :: Rd(r, w) == if lo <= w < hi then Rd(other, w) else Rd(m, w)
  {
    map w | w in m.Keys + other.Keys :: if lo <= w < hi then Rd(other, w) else Rd(m, w)
  }

  /**
   * What the writes of add_segment amount to, outside the new segment: record, description, fenceposts, rest of old
   * top.
   */
  ghost predicate OldEnding(m1: Mem, m: Mem, segs: seq<Segment>, top: int, sp: int) requires |segs| > 0 {
    && (forall w {:trigger Rd(m, w)} | w < top + 4 || w >= segs[0].End() :: Rd(m, w) == Rd(m1, w))
    && Rd(m, sp + 4) == Head(RECORD_SIZE, sp == top, true)
    && (sp != top ==> Rd(m, top + 4) == Head(sp - top, true, false) && Rd(m, sp) == sp - top)
    && Rd(m, sp + 8) == segs[0].Start() && Rd(m, sp + 12) == segs[0].Bytes()
    && Rd(m, sp + 16) == if |segs| > 1 then segs[1].rec + 8 else 0
  }

  lemma EndingClear(segs: seq<Segment>, c: Chunks, top: int, sp: int, base: int, size: int, pad: nat)
    requires Adding(segs, c, top, sp, base, size, pad) && |segs| > 0
    ensures var c1 := c[base := Chunk(size - TOP_FOOT_SIZE, Top, 0)];
            Clear(c1, sp + RECORD_SIZE + 4, segs[0].End()) && RecordPlace(c1, top, sp) && HEAP_MIN <= sp
  {
    TopPlace(segs, c, top, sp, base, size, pad);
    assert ChunkOk(top, c[top]) && SegmentOk(segs[0]);
    hide SegsOk, Mult8, NextLinked, PrevLinked, Sized;
    assert forall p | p in c && p < top :: p + c[p].size <= top;
  }

  lemma AddedLaid(m0: Mem, m: Mem, smallmap: bv32, treemap: bv32, h: Homes, segs: seq<Segment>, c: Chunks, top: int,
                  sp: int, base: int, size: int, pad: nat)
    requires Laid(m0, smallmap, treemap, h, c) && Adding(segs, c, top, sp, base, size, pad) && |segs| > 0
    requires OldEnding(TopWords(m0, base, size - TOP_FOOT_SIZE), m, segs, top, sp)
    ensures var d := AddedChunks(c, top, sp, base, size);
            Laid(m, smallmap, treemap, h, d) && Keeps(m0, c, m, d, {}) && UsedStay(m0, c, m, d, {})
  {
    hide Laid, Keeps, UsedStay, Tiled, Head, SegsOk;
    TopPlace(segs, c, top, sp, base, size, pad);
    var m1 := TopWords(m0, base, size - TOP_FOOT_SIZE);
    var c1 := c[base := Chunk(size - TOP_FOOT_SIZE, Top, 0)];
    FreshClear(segs, c, base, size, pad);
    NewTop(m0, m1, smallmap, treemap, h, c, base, base + size - TOP_FOOT_SIZE);
    EndingClear(segs, c, top, sp, base, size, pad);
    hide RecordPlace, Clear;
    var lo, hi := sp + RECORD_SIZE + 4, segs[0].End();
    var m2 := Patch(m1, m, lo, hi);
    Slack(m1, m2, smallmap, treemap, h, c1, lo, hi);
    RecordTop(m2, m, smallmap, treemap, h, c1, top, sp);
    var d := AddedChunks(c, top, sp, base, size);
    KeepsBoth(m0, c, m1, c1, m2, c1);
    KeepsBoth(m0, c, m2, c1, m, d);
    UsedStayTrans(m0, c, m1, c1, m2, c1);
    UsedStayTrans(m0, c, m2, c1, m, d);
  }

  lemma AddedWords(m0: Mem, m: Mem, segs: seq<Segment>, c: Chunks, d: Chunks, sp: int, base: int, size: int, pad: nat)
    requires SegsOk(segs, c) && SegWords(m0, segs) && UsedStay(m0, c, m, d, {}) && |segs| > 0
    requires Rd(m, sp + 8) == segs[0].Start() && Rd(m, sp + 12) == segs[0].Bytes()
    requires Rd(m, sp + 16) == if |segs| > 1 then segs[1].rec + 8 else 0
    ensures SegWords(m, Added(segs, base, size, pad, sp))
  {
    var r := Added(segs, base, size, pad, sp);
    forall i | 0 < i < |r| ensures RecordWords(m, r, i) {
      if i > 1 {
        assert RecordWords(m0, segs, i - 1) && RecordOk(segs[i - 1], c) && Stays(m0, c, m, d, segs[i - 1].rec);
      }
    }
  }

  /** The words written at the end of the old segment, in the order of add_segment. */
  ghost function EndingStart(m1: Mem, segs: seq<Segment>, sp: int): Mem requires |segs| > 0 {
    DescriptionWords(SetInuseHead(m1, sp, RECORD_SIZE), sp, segs[0], if |segs| > 1 then segs[1].rec + 8 else 0)
  }

  function EndingLast(m: Mem, top: int, sp: int): Mem {
    if sp == top then m else SetFreeWithPinuse(m, top, sp - top, sp)
  }

  lemma EndingWritten(m1: Mem, m: Mem, segs: seq<Segment>, top: int, sp: int)
    requires |segs| > 0 && (sp == top || top + 8 <= sp) && sp + RECORD_SIZE + 16 <= segs[0].End()
    requires forall w {:trigger Rd(m, w)} | w < sp + RECORD_SIZE + 4 || w >= segs[0].End() ::
      Rd(m, w) == Rd(EndingStart(m1, segs, sp), w)
    ensures OldEnding(m1, EndingLast(m, top, sp), segs, top, sp)
  {
    PinuseBits(RECORD_SIZE, true, true);
    hide Head, WithoutPinuse, Rd;
  }

  lemma AddDone(m0: Mem, m: Mem, smallmap: bv32, treemap: bv32, h: Homes, segs: seq<Segment>, c: Chunks, top: int,
                sp: int, base: int, size: int, pad: nat,
                dv: int, dvsize: int, topsize: int)
    requires Core(m0, smallmap, treemap, h, c, segs) && Adding(segs, c, top, sp, base, size, pad) && |segs| > 0
    requires OldEnding(TopWords(m0, base, size - TOP_FOOT_SIZE), m, segs, top, sp)
    requires Owned(c, dv, dvsize, top, topsize, {})
    ensures var d := AddedChunks(c, top, sp, base, size);
            && Core(m, smallmap, treemap, h, d, Added(segs, base, size, pad, sp)) && Keeps(m0, c, m, d, {})
            && Owned(d, dv, dvsize, base, size - TOP_FOOT_SIZE, if sp == top then {} else {top})
            && (sp != top ==> top in d && d[top].kind == Limbo && d[top].size == sp - top)
  {
    var d := AddedChunks(c, top, sp, base, size);
    TopPlace(segs, c, top, sp, base, size, pad);
    FreshClear(segs, c, base, size, pad);
    assert 0 in c ==> ChunkOk(0, c[0]);
    AddedOwned(c, top, sp, base, size, dv, dvsize, topsize);
    AddedSegs(segs, c, top, sp, base, size, pad);
    hide SegsOk, SegWords, Shape, BinsOk, Keeps, UsedStay, AddedChunks, Adding, Owned, BinView, Clear;
    AddedLaid(m0, m, smallmap, treemap, h, segs, c, top, sp, base, size, pad);
    AddedWords(m0, m, segs, c, d, sp, base, size, pad);
  }

  lemma AddedOwned(c: Chunks, top: int, sp: int, base: int, size: int, dv: int, dvsize: int, topsize: int)
    requires Owned(c, dv, dvsize, top, topsize, {}) && top in c && 0 !in c && base > 0 && base !in c && base != sp
    requires top > 0
    requires sp == top || sp !in c
    ensures var d := AddedChunks(c, top, sp, base, size);
            && Owned(d, dv, dvsize, base, size - TOP_FOOT_SIZE, if sp == top then {} else {top})
            && (sp != top ==> top in d && d[top].kind == Limbo && d[top].size == sp - top)
  {
  }

  // ---- growing a segment at its front

  ghost predicate Prepending(segs: seq<Segment>, c: Chunks, i: int, p: int, nb: int, b: int, k: Kind) {
    && Tiled(c) && SegsOk(segs, c) && 0 <= i < |segs|
    && var first := segs[i].base;
    && HEAP_MIN <= p && Mult8(p) && Mult8(nb) && nb >= MIN_CHUNK_SIZE && p + nb + MIN_CHUNK_SIZE <= first
    && (forall j | 0 <= j < |segs| :: segs[j].End() <= p || first <= segs[j].base)
    && first in c
    && (if c[first].Used() then b == first && k == Limbo
        else b == first + c[first].size && c[first].kind == k && k != Kind.Binned)
  }

  ghost function PrependStretch(p: int, nb: int, b: int, k: Kind): Chunks {
    map[p := Chunk(nb, Live, 0), p + nb := Chunk(b - p - nb, k, p)]
  }

  ghost function Prepended(c: Chunks, p: int, nb: int, b: int, k: Kind): Chunks {
    Retile(c, p, b, PrependStretch(p, nb, b, k), p + nb)
  }

  lemma BeforeFirst(segs: seq<Segment>, c: Chunks, i: int, p: int, nb: int, b: int, k: Kind, x: int)
    requires Prepending(segs, c, i, p, nb, b, k) && x in c && x < segs[i].base
    ensures x < x + c[x].size < p
  {
    assert Placed(segs, x, c[x]) && ChunkOk(x, c[x]);
    var j :| 0 <= j < |segs| && HeldBy(segs[j], x, x + c[x].size);
  }

  lemma FirstFacts(segs: seq<Segment>, c: Chunks, i: int, p: int, nb: int, b: int, k: Kind)
    requires Prepending(segs, c, i, p, nb, b, k)
    ensures var first := segs[i].base;
            c[first].prev == 0 && first + c[first].size + 16 <= segs[i].End() && ChunkOk(first, c[first])
    ensures forall x | x in c && x < segs[i].base :: x < x + c[x].size < p
    ensures forall x | x in c && p <= x < b :: x == segs[i].base
    ensures 0 !in c && p !in c && p + nb !in c && k != Record
  {
    var first := segs[i].base;
    FirstChunk(segs, c, i, p, nb, b, k);
    hide NextLinked, PrevLinked, SegsOk, Mult8;
    forall x | x in c && x < first ensures x < x + c[x].size < p { BeforeFirst(segs, c, i, p, nb, b, k, x); }
    assert 0 in c ==> ChunkOk(0, c[0]);
    forall x | x in c && p <= x < b ensures x == first {}
  }

  lemma FirstChunk(segs: seq<Segment>, c: Chunks, i: int, p: int, nb: int, b: int, k: Kind)
    requires Prepending(segs, c, i, p, nb, b, k)
    ensures var first := segs[i].base;
            c[first].prev == 0 && first + c[first].size + 16 <= segs[i].End() && ChunkOk(first, c[first])
  {
    var first := segs[i].base;
    assert IsBase(segs, first) && Placed(segs, first, c[first]) && ChunkOk(first, c[first]);
    var j :| 0 <= j < |segs| && HeldBy(segs[j], first, first + c[first].size);
    assert j == i;
    hide Tiled;
  }

  lemma PrependSlot(segs: seq<Segment>, c: Chunks, i: int, p: int, nb: int, b: int, k: Kind)
    requires Prepending(segs, c, i, p, nb, b, k)
    ensures var n := PrependStretch(p, nb, b, k); Stretch(p, b, n, p + nb) && Slot(c, p, b, n, p + nb)
  {
    hide SegsOk, Tiled, Mult8, Mult4;
    var n, q := PrependStretch(p, nb, b, k), p + nb;
    FirstFacts(segs, c, i, p, nb, b, k);
    FirstNext(segs, c, i, p, nb, b, k);
    MultSum(p, nb);
    assert ChunkOk(p, n[p]) && ChunkOk(q, n[q]);
    hide ChunkOk;
    assert InnerNext(n, p) && InnerPrev(n, q);
  }

  lemma FirstNext(segs: seq<Segment>, c: Chunks, i: int, p: int, nb: int, b: int, k: Kind)
    requires Prepending(segs, c, i, p, nb, b, k)
    ensures b in c <==> k != Top
    ensures b in c ==> c[b].prev == 0 || c[b].prev == segs[i].base
    ensures b < WORD && b - p - nb >= MIN_CHUNK_SIZE && if k == Top then Mult4(b - p - nb) else Mult8(b - p - nb)
  {
    hide SegsOk, PrevLinked, Apart, Mult8, Mult4;
    var first := segs[i].base;
    FirstChunk(segs, c, i, p, nb, b, k);
    assert NextOk(c, first);
    FirstGap(p, nb, first, c[first].size);
    hide NextLinked;
  }

  lemma FirstGap(p: int, nb: int, first: int, size: int)
    requires Mult8(p) && Mult8(nb) && Mult8(first)
    ensures Mult8(first - p - nb)
    ensures (Mult8(size) ==> Mult8(first + size - p - nb)) && (Mult4(size) ==> Mult4(first + size - p - nb))
  {
    hide Mult8, Mult4;
    MultSum(first, p);
    MultSum(first - p, nb);
    Mult8Is4(first - p - nb);
    if Mult8(size) { MultSum(first - p - nb, size); }
    if Mult4(size) { Mult4Sum(first - p - nb, size); }
  }

  /** The words of a chunk in use of size `nb` at `p` and a free one up to `b`. */
  ghost predicate PrependWords(mem: Mem, m: Mem, c: Chunks, p: int, nb: int, b: int, k: Kind) {
    && EditedIn(mem, m, p, b) && Rd(m, p + 4) == Head(nb, true, true)
    && Rd(m, p + nb + 4) == Head(b - p - nb, true, false)
    && (k != Top ==> Rd(m, b) == b - p - nb) && AfterOk(m, c, b, false)
  }

  lemma PrependWritten(mem: Mem, m: Mem, c: Chunks, p: int, nb: int, b: int, k: Kind)
    requires PrependWords(mem, m, c, p, nb, b, k) && 0 !in c && nb > 0 && k != Live && k != Record
    ensures Written(m, c, p, b, PrependStretch(p, nb, b, k), p + nb)
  {
    var n, q := PrependStretch(p, nb, b, k), p + nb;
    hide Head, EditedIn, Rd;
    assert NewHead(m, c, p, n, p) && NewHead(m, c, p, n, q);
    assert FootOk(m, p, n[p]) && FootOk(m, q, n[q]);
    assert BeforeUsed(c, p, n, q);
  }

  lemma PrependLaid(mem: Mem, m: Mem, smallmap: bv32, treemap: bv32, h: Homes, segs: seq<Segment>, c: Chunks, i: int,
                    p: int, nb: int, b: int, k: Kind)
    requires Laid(mem, smallmap, treemap, h, c) && Prepending(segs, c, i, p, nb, b, k)
    requires PrependWords(mem, m, c, p, nb, b, k)
    ensures var d := Prepended(c, p, nb, b, k);
            Laid(m, smallmap, treemap, h, d) && Keeps(mem, c, m, d, {p}) && UsedStay(mem, c, m, d, {p})
  {
    hide Laid, Tiled, SegsOk, Stretch, Slot, EditedIn, Keeps, UsedStay, Head, Mult8, Retile, Written, AfterOk;
    FirstFacts(segs, c, i, p, nb, b, k);
    PrependSlot(segs, c, i, p, nb, b, k);
    PrependWritten(mem, m, c, p, nb, b, k);
    Relaid(mem, m, smallmap, treemap, h, c, p, b, PrependStretch(p, nb, b, k), p + nb, {p});
  }

  function Extended(segs: seq<Segment>, i: int, p: int, pad: nat): seq<Segment> requires 0 <= i < |segs| {
    segs[i := Segment(p, segs[i].End() - p, segs[i].rec, pad)]
  }

  /** The `pad` bytes before `p` are new to the allocator too. */
  ghost predicate PadClear(segs: seq<Segment>, i: int, p: int, pad: nat) requires 0 <= i < |segs| {
    && pad < 8 && HEAP_MIN <= p - pad
    && forall j | 0 <= j < |segs| :: segs[j].End() <= p - pad || segs[i].base <= segs[j].base
  }

  lemma ExtendedBase(segs: seq<Segment>, c: Chunks, i: int, p: int, nb: int, b: int, k: Kind, pad: nat, x: int)
    requires Prepending(segs, c, i, p, nb, b, k)
    ensures IsBase(Extended(segs, i, p, pad), x) <==> x == p || (IsBase(segs, x) && x != segs[i].base)
  {
    var r := Extended(segs, i, p, pad);
    if IsBase(segs, x) && x != segs[i].base { var j :| 0 <= j < |segs| && segs[j].base == x; assert r[j].base == x; }
    if x == p { assert r[i].base == x; }
    if IsBase(r, x) && x != p {
      var j :| 0 <= j < |r| && r[j].base == x;
      assert j != i && segs[j].base == x;
      assert SegmentOk(segs[j]) && SegmentOk(segs[i]);
    }
  }

  lemma ExtendedHeld(segs: seq<Segment>, i: int, p: int, pad: nat, lo: int, hi: int)
    requires 0 <= i < |segs| && p <= segs[i].base && Held(segs, lo, hi)
    ensures Held(Extended(segs, i, p, pad), lo, hi)
  {
    var r := Extended(segs, i, p, pad);
    var j :| 0 <= j < |segs| && HeldBy(segs[j], lo, hi);
    assert HeldBy(r[j], lo, hi);
  }

  lemma PrependedNew(segs: seq<Segment>, c: Chunks, i: int, p: int, nb: int, b: int, k: Kind, pad: nat)
    requires Prepending(segs, c, i, p, nb, b, k)
    ensures var r, n := Extended(segs, i, p, pad), PrependStretch(p, nb, b, k);
            Placed(r, p, n[p]) && Placed(r, p + nb, n[p + nb])
  {
    var r, n, q, first := Extended(segs, i, p, pad), PrependStretch(p, nb, b, k), p + nb, segs[i].base;
    FirstFacts(segs, c, i, p, nb, b, k);
    ExtendedBase(segs, c, i, p, nb, b, k, pad, p);
    ExtendedBase(segs, c, i, p, nb, b, k, pad, q);
    assert !IsBase(segs, q) by { assert forall j | 0 <= j < |segs| :: segs[j].base in c; }
    assert Placed(segs, first, c[first]);
    hide Tiled, SegsOk, IsBase;
    assert HeldBy(r[i], p, q) && HeldBy(r[i], q, b);
    if k == Top { assert i == 0 by { TopFirst(segs, c, i); } }
  }

  lemma TopFirst(segs: seq<Segment>, c: Chunks, i: int)
    requires SegsOk(segs, c) && 0 <= i < |segs| && segs[i].base in c && c[segs[i].base].kind == Top && Sized(c)
    ensures i == 0
  {
    assert Placed(segs, segs[i].base, c[segs[i].base]) && SegmentOk(segs[i]) && ChunkOk(segs[i].base, c[segs[i].base]);
  }

  /** A chunk that stays keeps its place; the former first one, if in use, has a predecessor now. */
  lemma PrependedOld(segs: seq<Segment>, c: Chunks, i: int, p: int, nb: int, b: int, k: Kind, pad: nat, x: int)
    requires Prepending(segs, c, i, p, nb, b, k) && x in c && (x == segs[i].base ==> x == b)
    ensures Placed(Extended(segs, i, p, pad), x, if x == b then c[x].(prev := p + nb) else c[x])
  {
    hide Mult8, Mult4, IsBase, Held, Disjoint, SegmentOk, RecordOk, PrevLinked, Apart, Sized;
    var r := Extended(segs, i, p, pad);
    FirstFacts(segs, c, i, p, nb, b, k);
    ExtendedBase(segs, c, i, p, nb, b, k, pad, x);
    assert Placed(segs, x, c[x]);
    ExtendedHeld(segs, i, p, pad, x, x + c[x].size);
    if x == b && b != segs[i].base {
      assert NextOk(c, segs[i].base);
    }
    hide Tiled, SegsOk, IsBase, Held;
    if c[x].kind == Record { var j :| 0 < j < |segs| && segs[j].rec == x; assert r[j].rec == x; }
  }

  lemma PrependedKeys(segs: seq<Segment>, c: Chunks, i: int, p: int, nb: int, b: int, k: Kind)
    requires Prepending(segs, c, i, p, nb, b, k)
    ensures var d := Prepended(c, p, nb, b, k);
            && (forall x | x in c && (x == segs[i].base ==> x == b) ::
                 x in d && d[x] == if x == b then c[x].(prev := p + nb) else c[x])
            && (forall x | x in d :: x == p || x == p + nb || (x in c && (x == segs[i].base ==> x == b)))
            && p in d && d[p] == Chunk(nb, Live, 0) && p + nb in d && d[p + nb] == Chunk(b - p - nb, k, p)
  {
    FirstFacts(segs, c, i, p, nb, b, k);
    hide Tiled, SegsOk, Mult8;
  }

  lemma PrependedAll(segs: seq<Segment>, c: Chunks, i: int, p: int, nb: int, b: int, k: Kind, pad: nat)
    requires Prepending(segs, c, i, p, nb, b, k)
    ensures var r, d := Extended(segs, i, p, pad), Prepended(c, p, nb, b, k);
            forall x {:trigger Placed(r, x, d[x])} | x in d :: Placed(r, x, d[x])
  {
    var r, d := Extended(segs, i, p, pad), Prepended(c, p, nb, b, k);
    PrependedKeys(segs, c, i, p, nb, b, k);
    PrependedNew(segs, c, i, p, nb, b, k, pad);
    hide Tiled, SegsOk, Prepended, Placed, Extended;
    forall x | x in d ensures Placed(r, x, d[x]) {
      if x != p && x != p + nb { PrependedOld(segs, c, i, p, nb, b, k, pad, x); }
    }
  }

  lemma ExtendedApart(segs: seq<Segment>, c: Chunks, i: int, p: int, nb: int, b: int, k: Kind, pad: nat)
    requires 0 <= i < |segs| && PadClear(segs, i, p, pad)
    requires Prepending(segs, c, i, p, nb, b, k)
    ensures Disjoint(Extended(segs, i, p, pad)) && forall j | 0 <= j < |segs| :: SegmentOk(Extended(segs, i, p, pad)[j])
  {
    hide Tiled, Placed, RecordOk, Mult8;
    var r := Extended(segs, i, p, pad);
    assert SegmentOk(segs[i]);
    Mult8Is4(p);
    Mult8Is4(segs[i].base);
    Mult4Sum(segs[i].base, p);
    Mult4Sum(segs[i].size, segs[i].base - p);
    hide Mult4;
    forall j | 0 <= j < |segs| ensures SegmentOk(r[j]) && (j != i ==> r[j].End() <= p || segs[i].End() <= r[j].base) {
      assert SegmentOk(segs[j]);
    }
  }

  lemma PrependedBases(segs: seq<Segment>, c: Chunks, i: int, p: int, nb: int, b: int, k: Kind, pad: nat)
    requires Prepending(segs, c, i, p, nb, b, k)
    ensures var r, d := Extended(segs, i, p, pad), Prepended(c, p, nb, b, k); forall j | 0 <= j < |r| :: r[j].base in d
  {
    var r, d := Extended(segs, i, p, pad), Prepended(c, p, nb, b, k);
    PrependedKeys(segs, c, i, p, nb, b, k);
    hide Tiled, Prepended, Placed;
    forall j | 0 <= j < |r| ensures r[j].base in d {
      assert SegmentOk(segs[j]) && SegmentOk(segs[i]) && segs[j].base in c;
    }
  }

  lemma PrependedRecords(segs: seq<Segment>, c: Chunks, i: int, p: int, nb: int, b: int, k: Kind, pad: nat)
    requires Prepending(segs, c, i, p, nb, b, k)
    ensures var r, d := Extended(segs, i, p, pad), Prepended(c, p, nb, b, k);
            forall j | 0 < j < |r| :: RecordOk(r[j], d)
  {
    var r, d := Extended(segs, i, p, pad), Prepended(c, p, nb, b, k);
    PrependedKeys(segs, c, i, p, nb, b, k);
    hide Tiled, Prepended, Placed;
    forall j | 0 < j < |r| ensures RecordOk(r[j], d) { assert RecordOk(segs[j], c); }
  }

  lemma PrependedSegs(segs: seq<Segment>, c: Chunks, i: int, p: int, nb: int, b: int, k: Kind, pad: nat)
    requires 0 <= i < |segs| && PadClear(segs, i, p, pad)
    requires Prepending(segs, c, i, p, nb, b, k)
    ensures SegsOk(Extended(segs, i, p, pad), Prepended(c, p, nb, b, k))
  {
    hide Tiled, Placed, RecordOk, SegmentOk, Prepended, Disjoint, Mult8;
    PrependedAll(segs, c, i, p, nb, b, k, pad);
    ExtendedApart(segs, c, i, p, nb, b, k, pad);
    PrependedBases(segs, c, i, p, nb, b, k, pad);
    PrependedRecords(segs, c, i, p, nb, b, k, pad);
  }

  /** Moving the front of segment `i`, in its record too unless it is the current one. */
  function MovedWords(m: Mem, segs: seq<Segment>, i: int, p: int, pad: nat): Mem requires 0 <= i < |segs| {
    if i == 0 then m else Wr(Wr(m, segs[i].rec + 8, p - pad), segs[i].rec + 12, segs[i].End() - (p - pad))
  }

  /** Stores into the payload of a chunk in use disturb nothing but what it holds. */
  lemma PayloadKeeps(mem: Mem, m: Mem, smallmap: bv32, treemap: bv32, h: Homes, c: Chunks, x: int)
    requires Laid(mem, smallmap, treemap, h, c) && x in c && c[x].Used()
    requires forall w {:trigger Rd(m, w)} | w < x + 8 || w > x + c[x].size :: Rd(m, w) == Rd(mem, w)
    ensures Laid(m, smallmap, treemap, h, c) && Keeps(mem, c, m, c, {x}) && UsedStay(mem, c, m, c, {x})
  {
    hide NextLinked, PrevLinked, PrevUsed, Head, Mult8, BinsOk;
    assert ChunkOk(x, c[x]);
    forall p | p in c
      ensures HeadOk(m, c, p) && FootOk(m, p, c[p]) && (p != x ==> InteriorSame(mem, m, p, c[p].size))
      ensures c[p].Used() && p != x ==> Stays(mem, c, m, c, p)
    {
      assert ChunkOk(p, c[p]) && HeadOk(mem, c, p) && FootOk(mem, p, c[p]);
    }
    var f := BinView(c);
    forall p | p in f ensures InteriorSame(mem, m, p, f[p]) {}
    BinsFrame(mem, m, smallmap, treemap, h, BinView(c));
  }

  lemma ExtendedWords(m1: Mem, segs: seq<Segment>, i: int, p: int, pad: nat, c: Chunks)
    requires SegWords(m1, segs) && 0 <= i < |segs| && SegsOk(segs, c)
    ensures SegWords(MovedWords(m1, segs, i, p, pad), Extended(segs, i, p, pad))
  {
    var m, r := MovedWords(m1, segs, i, p, pad), Extended(segs, i, p, pad);
    forall j | 0 < j < |r| ensures RecordWords(m, r, j) {
      assert RecordWords(m1, segs, j) && RecordOk(segs[j], c);
      if i != 0 { assert RecordOk(segs[i], c); }
    }
  }

  lemma MovedLaid(m1: Mem, smallmap: bv32, treemap: bv32, h: Homes, segs: seq<Segment>, d: Chunks, i: int, p: int,
                  pad: nat)
    requires Laid(m1, smallmap, treemap, h, d) && 0 <= i < |segs| && (i > 0 ==> RecordOk(segs[i], d))
    ensures Laid(MovedWords(m1, segs, i, p, pad), smallmap, treemap, h, d)
    ensures Keeps(m1, d, MovedWords(m1, segs, i, p, pad), d, {})
  {
    var m := MovedWords(m1, segs, i, p, pad);
    hide Laid;
    if i == 0 {
      KeepsSame(m1, d);
    } else {
      PayloadKeeps(m1, m, smallmap, treemap, h, d, segs[i].rec);
      assert Keeps(m1, d, m, d, {});
    }
  }

  lemma PrependDone(m0: Mem, m1: Mem, smallmap: bv32, treemap: bv32, h: Homes, segs: seq<Segment>, c: Chunks, i: int,
                    p: int, nb: int, b: int, k: Kind, pad: nat)
    requires 0 <= i < |segs| && PadClear(segs, i, p, pad)
    requires Core(m0, smallmap, treemap, h, c, segs) && Prepending(segs, c, i, p, nb, b, k)
    requires PrependWords(m0, m1, c, p, nb, b, k)
    ensures var d, m := Prepended(c, p, nb, b, k), MovedWords(m1, segs, i, p, pad);
            Core(m, smallmap, treemap, h, d, Extended(segs, i, p, pad)) && Keeps(m0, c, m, d, {p}) && p !in c
  {
    hide Shape, Tiled, SegsOk, SegWords, BinsOk, BinView, Keeps, UsedStay, PrependWords, Prepended, MovedWords;
    hide Extended;
    var d, m := Prepended(c, p, nb, b, k), MovedWords(m1, segs, i, p, pad);
    FirstFacts(segs, c, i, p, nb, b, k);
    PrependLaid(m0, m1, smallmap, treemap, h, segs, c, i, p, nb, b, k);
    SegWordsKept(m0, c, m1, d, segs, {p});
    ExtendedWords(m1, segs, i, p, pad, c);
    PrependedSegs(segs, c, i, p, nb, b, k, pad);
    RecordStill(segs, d, i, p, c, nb, b, k);
    MovedLaid(m1, smallmap, treemap, h, segs, d, i, p, pad);
    KeepsTrans(m0, c, m1, d, m, d, {p}, {});
    assert {p} + {} == {p};
  }

  lemma RecordStill(segs: seq<Segment>, d: Chunks, i: int, p: int, c: Chunks, nb: int, b: int, k: Kind)
    requires Prepending(segs, c, i, p, nb, b, k) && d == Prepended(c, p, nb, b, k)
    ensures i > 0 ==> RecordOk(segs[i], d)
  {
    PrependedKeys(segs, c, i, p, nb, b, k);
    hide Tiled, Prepended, Placed;
    if i > 0 { assert RecordOk(segs[i], c); }
  }

  /**
   * Where the new space goes: into top or the designated victim if they come first, else to a free chunk of its own or
   * with the first.
   */
  lemma PrependReady(mem: Mem, smallmap: bv32, treemap: bv32, h: Homes, segs: seq<Segment>, c: Chunks, i: int, p: int,
                     nb: int, b: int, k: Kind)
    requires Core(mem, smallmap, treemap, h, c, segs) && Prepending(segs, c, i, p, nb, b, k)
    ensures k == Top ==>
      PrependWords(mem, Wr(SetInuseHead(mem, p, nb), p + nb + 4, Head(b - p - nb, true, false)), c, p, nb, b, k)
    ensures k == Dv ==> PrependWords(mem, SetFreeHead(SetInuseHead(mem, p, nb), p + nb, b - p - nb), c, p, nb, b, k)
    ensures k == Limbo ==>
      PrependWords(mem, SetFreeWithPinuse(SetInuseHead(mem, p, nb), p + nb, b - p - nb, b), c, p, nb, b, k)
  {
    hide SegsOk, SegWords, BinsOk, BinView, Heads, Feet, Coalesced, Head, Mult8, Rd;
    var first := segs[i].base;
    FirstFacts(segs, c, i, p, nb, b, k);
    assert NextOk(c, first);
    if !c[first].Used() { AfterFree(mem, c, first); }
    if k == Limbo { AfterHead(mem, smallmap, treemap, h, segs, c, i, p, nb, b, k); }
  }

  lemma AfterHead(mem: Mem, smallmap: bv32, treemap: bv32, h: Homes, segs: seq<Segment>, c: Chunks, i: int, p: int,
                  nb: int, b: int, k: Kind)
    requires Core(mem, smallmap, treemap, h, c, segs) && Prepending(segs, c, i, p, nb, b, k) && k == Limbo
    ensures b in c && c[b].Used() && WithoutPinuse(Rd(mem, b + 4)) == Head(c[b].size, false, true)
  {
    hide SegsOk, SegWords, BinsOk, BinView;
    var first := segs[i].base;
    FirstChunk(segs, c, i, p, nb, b, k);
    if !c[first].Used() {
      assert NextOk(c, first);
      Reading(mem, c, first);
      Reading(mem, c, b);
    }
    assert HeadOk(mem, c, b) && ChunkOk(b, c[b]);
    PinuseBits(c[b].size, PrevUsed(c, b), true);
  }

  lemma OwnedPrepend(segs: seq<Segment>, c: Chunks, i: int, p: int, nb: int, b: int, k: Kind,
                     dv: int, dvsize: int, top: int, topsize: int, limbo: set<int>,
                     dv': int, dvsize': int, top': int, topsize': int, limbo': set<int>)
    requires Prepending(segs, c, i, p, nb, b, k) && Owned(c, dv, dvsize, top, topsize, limbo)
    requires if k == Top then top' == p + nb && topsize' == b - p - nb else top' == top && topsize' == topsize
    requires if k == Dv then dv' == p + nb && dvsize' == b - p - nb else dv' == dv && dvsize' == dvsize
    requires limbo' == (if k == Limbo then {p + nb} else {}) && forall x | x in limbo :: x == segs[i].base
    ensures Owned(Prepended(c, p, nb, b, k), dv', dvsize', top', topsize', limbo')
  {
    hide Tiled, SegsOk, Prepended, Mult8;
    PrependedKeys(segs, c, i, p, nb, b, k);
    FirstFacts(segs, c, i, p, nb, b, k);
    var d := Prepended(c, p, nb, b, k);
    forall x | x in d
      ensures (d[x].kind == Dv ==> x == dv') && (d[x].kind == Top ==> x == top') && (d[x].kind == Limbo ==> x in limbo')
    {
      if x != p && x != p + nb { assert d[x].kind == c[x].kind; }
    }
  }

  /**
   * There is room for a chunk of `nb` bytes and another between `p` and segment `i`, and nothing of the allocator's.
   */
  ghost predicate FrontSpace(segs: seq<Segment>, i: int, p: int, nb: int) {
    && 0 <= i < |segs| && HEAP_MIN <= p && Mult8(p) && Mult8(nb) && nb >= MIN_CHUNK_SIZE
    && p + nb + MIN_CHUNK_SIZE <= segs[i].base
    && forall j | 0 <= j < |segs| :: segs[j].End() <= p || segs[i].base <= segs[j].base
  }

  lemma PrependFrom(mem: Mem, smallmap: bv32, treemap: bv32, h: Homes, segs: seq<Segment>, c: Chunks, i: int, p: int,
                    nb: int,
                    dv: int, dvsize: int, top: int, topsize: int)
    requires Core(mem, smallmap, treemap, h, c, segs) && FrontSpace(segs, i, p, nb)
    requires Owned(c, dv, dvsize, top, topsize, {})
    ensures segs[i].base in c && segs[i].base != 0
    ensures segs[i].base == top ==> Prepending(segs, c, i, p, nb, top + topsize, Top)
    ensures segs[i].base == dv ==> Prepending(segs, c, i, p, nb, dv + dvsize, Dv)
    ensures c[segs[i].base].Used() ==> Prepending(segs, c, i, p, nb, segs[i].base, Limbo)
    ensures var x := segs[i].base;
            !c[x].Used() && x != top && x != dv ==>
              && c[x].kind == Kind.Binned
              && Prepending(segs, SetKind(c, x, Limbo), i, p, nb, x + c[x].size, Limbo)
    ensures var x := segs[i].base; x != top ==> ChunkSize(Rd(mem, x + 4)) == c[x].size
    ensures var x := segs[i].base; IsInuse(Rd(mem, x + 4)) == c[x].Used()
  {
    var x := segs[i].base;
    assert SegmentOk(segs[i]);
    Reading(mem, c, x);
    assert IsBase(segs, x) && Placed(segs, x, c[x]) && PrevUsed(c, x) by { assert 0 in c ==> ChunkOk(0, c[0]); }
    if !c[x].Used() && x != top && x != dv {
      SetKindShape(mem, c, segs, x, Limbo);
    }
    hide Shape, Tiled, SegsOk, SegWords, BinsOk, BinView, Held, ChunkSize, CInuse, PInuse, Mult8;
  }

  /** is_inuse: not the pattern of a free chunk */
  predicate IsInuse(head: int) { CInuse(head) || !PInuse(head) }

  lemma PrependHanded(m0: Mem, m: Mem, segs: seq<Segment>, c: Chunks, i: int, p: int, nb: int, b: int, k: Kind)
    requires Prepending(segs, c, i, p, nb, b, k) && Keeps(m0, c, m, Prepended(c, p, nb, b, k), {p})
    ensures var d := Prepended(c, p, nb, b, k); Handed(m0, c, m, d, p) && d[p].size == nb && PrevUsed(d, p)
    ensures var d := Prepended(c, p, nb, b, k); p + nb in d && d[p + nb].kind == k && d[p + nb].size == b - p - nb
  {
    hide Keeps, Prepended;
    PrependedKeys(segs, c, i, p, nb, b, k);
    FirstFacts(segs, c, i, p, nb, b, k);
  }
}

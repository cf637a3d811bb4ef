/** Asking the system for memory: sizes, and what the answers amount to. */
module System {
  import opened Words
  import opened BinMaps
  import opened TreeLinks
  import TreeBins
  import Tries
  import SmallBins
  import opened Bins
  import opened Chunks
  import opened Headers
  import opened Heaps
  import opened Steps
  import opened Growth

  const PAGE: int := 4096
  const CMFAIL: int := WORD - 1
  const HALF_MAX: int := 0x7FFF_FFFF
  const PADDING: int := TOP_FOOT_SIZE + 8

  function Add32(a: int, b: int): int { (a + b) % WORD }
  function PageAlign(s: int): int { Add32(s, PAGE - 1) / PAGE * PAGE }

  predicate OnPage(s: int) { s % PAGE == 0 }

  lemma PageMult(s: int)
    requires OnPage(s)
    ensures Mult8(s) && Mult8(-s) && Mult4(s) && Mult4(-s)
  {
    hide Mult8, Mult4;
    TimesEight(512 * (s / PAGE));
    TimesEight(0);
    MultSum(0, s);
    Mult8Is4(s);
    Mult8Is4(-s);
  }

  lemma PageSum(a: int, b: int)
    requires OnPage(a) && OnPage(b)
    ensures OnPage(a + b)
  {
    assert a + b == PAGE * (a / PAGE + b / PAGE);
  }

  lemma Add32Small(a: int, b: int)
    requires 0 <= a + b < WORD
    ensures Add32(a, b) == a + b
  {}

  /** The wrap-around test leaves only sizes that were computed without wrapping. */
  lemma AlignFacts(s: int)
    requires 0 <= s <= WORD - PAGE
    ensures s <= PageAlign(s) < s + PAGE && OnPage(PageAlign(s))
  {
    assert Add32(s, PAGE - 1) == s + PAGE - 1;
  }

  lemma AsizeFacts(nb: int)
    requires 0 < nb < WORD
    ensures var a := PageAlign(Add32(nb, PADDING));
            a > nb ==> nb + PADDING + PAGE <= WORD && nb + PADDING <= a < nb + PADDING + PAGE && OnPage(a)
  {
    var s := Add32(nb, PADDING);
    if nb + PADDING >= WORD {
      assert s == nb + PADDING - WORD;
      AlignFacts(s);
    } else if s + PAGE - 1 >= WORD {
      assert Add32(s, PAGE - 1) == s + PAGE - 1 - WORD;
    } else {
      assert s + PAGE - 1 == Add32(s, PAGE - 1);
    }
  }

  /** Where the break may be: anywhere in the user's part of memory. */
  ghost predicate BrkOk(brk: int) { HEAP_MIN <= brk < HEAP_MAX }

  /** What sbrk promises: the old break, moved by `inc`, or a failure that leaves it where it was. */
  ghost predicate Supplied(before: int, inc: int, br: int, after: int) {
    if br == CMFAIL then after == before else br == before && after == br + inc
  }

  /** The next multiple of eight: align_as_chunk. */
  function Up8(a: int): int { (a + 7) / 8 * 8 }
  function Pad(a: int): (pad: nat) { Up8(a) - a }

  /**
   * [base, base + size), as the system returned it, is new to the allocator, and ends on a word: see `EndExact` for
   * what becomes of memory that ends anywhere else.
   */
  ghost predicate Got(segs: seq<Segment>, base: int, size: int) {
    && HEAP_MIN <= base && Mult4(base + size) && PADDING <= size && base + size <= HEAP_MAX
    && forall i | 0 <= i < |segs| :: segs[i].End() <= base || base + size <= segs[i].Start()
  }

  lemma PadFacts(a: int)
    ensures Mult8(Up8(a)) && a <= Up8(a) < a + 8 && (Mult8(a) ==> Up8(a) == a)
  {
    var k := (a + 7) / 8;
    assert 8 * k <= a + 7 < 8 * k + 8;
    TimesEight(k);
    hide Mult8;
    if Mult8(a) { Eighths(a, k); }
  }

  lemma Eighths(a: int, k: int)
    requires Mult8(a) && 8 * k <= a + 7 < 8 * k + 8
    ensures 8 * k == a
  {
    var j := a / 8;
    assert a == 8 * j;
  }

  lemma GotFacts(segs: seq<Segment>, base: int, size: int)
    requires Got(segs, base, size)
    ensures HEAP_MIN <= base && PADDING <= size
  {}

  lemma GotFresh(segs: seq<Segment>, base: int, size: int)
    requires Got(segs, base, size)
    ensures Fresh(segs, Up8(base), size - Pad(base), Pad(base))
  {
    hide Mult8, Mult4, Up8;
    PadFacts(base);
    Mult8Is4(Up8(base));
    Mult4Sum(base + size, Up8(base));
    WordAbove(size - Pad(base));
  }

  lemma WordAbove(size: int)
    requires Mult4(size) && size > TOP_FOOT_SIZE
    ensures size >= TOP_FOOT_SIZE + 4
  {}

  /** Memory good for a request of `nb` bytes: new, and large enough by itself or as an extension of top. */
  ghost predicate Enough(segs: seq<Segment>, top: int, topsize: int, base: int, size: int, nb: int) {
    && Got(segs, base, size)
    && (size >= nb + PADDING
        || (top != 0 && |segs| > 0 && base == segs[0].End() && topsize + size > nb + TOP_FOOT_SIZE))
  }

  lemma TotalUpdate(segs: seq<Segment>, i: nat, s: Segment)
    requires i < |segs|
    ensures Total(segs[i := s]) == Total(segs) - segs[i].Bytes() + s.Bytes()
  {
    if i > 0 {
      TotalUpdate(segs[1..], i - 1, s);
      assert segs[i := s][1..] == segs[1..][i - 1 := s];
    } else {
      assert segs[i := s][1..] == segs[1..];
    }
  }

  lemma TotalAdded(segs: seq<Segment>, base: int, size: int, pad: nat, sp: int)
    requires |segs| > 0
    ensures Total(Added(segs, base, size, pad, sp)) == Total(segs) + size + pad
  {
    var r := Added(segs, base, size, pad, sp);
    assert r[1..][1..] == segs[1..];
  }

  /** The last request the system refused was one for `asize` bytes, and it was made since `was`. */
  ghost predicate LastRefused(was: seq<int>, now: seq<int>, asize: int) {
    |was| < |now| && now[|now| - 1] == asize
  }

  /** Why no memory is got: the size wraps around or is over a limit, or the system refuses it. */
  ghost predicate Denied(nb: int, footprint: int, limit: int, was: seq<int>, now: seq<int>) {
    var asize := PageAlign(Add32(nb, PADDING));
    var fp := Add32(footprint, asize);
    asize <= nb || (limit != 0 && (fp <= footprint || fp > limit)) || asize >= HALF_MAX || LastRefused(was, now, asize)
  }

  /** A request is not met only if no free chunk is large enough and no memory is got. */
  ghost predicate Exhausted(c: Chunks, nb: int, dvsize: int, topsize: int, footprint: int, limit: int, was: seq<int>,
                            now: seq<int>) {
    NoneLeft(c, nb, dvsize, topsize) && Denied(nb, footprint, limit, was, now)
  }

  /** Circular links for the headers of the small bins. */
  method InitBins(mem0: Mem) returns (mem: Mem)
    ensures forall w {:trigger Rd(mem, w)} | w < SMALLBINS + 8 || w >= TREEBINS :: Rd(mem, w) == Rd(mem0, w)
    ensures forall i: nat | i < 32 :: Fd(mem, SmallBins.BinAt(i)) == SmallBins.BinAt(i) == Bk(mem, SmallBins.BinAt(i))
  {
    mem := mem0;
    var i := 0;
    while i < 32
      invariant 0 <= i <= 32
      invariant forall w {:trigger Rd(mem, w)} | w < SMALLBINS + 8 || w >= TREEBINS :: Rd(mem, w) == Rd(mem0, w)
      invariant forall j: nat | j < i ::
        Fd(mem, SmallBins.BinAt(j)) == SmallBins.BinAt(j) == Bk(mem, SmallBins.BinAt(j))
    {
      var bin := SmallBins.BinAt(i);
      mem := Wr(Wr(mem, bin + 8, bin), bin + 12, bin);
      i := i + 1;
    }
  }

  lemma SomeIn(s: seq<int>)
    ensures s == [] || s[0] in s
  {}

  lemma EmptyBins(mem: Mem, m: Mem, smallmap: bv32, treemap: bv32, h: Homes)
    requires BinsOk(mem, smallmap, treemap, h, map[])
    requires forall w | TREEBINS <= w < HEAP_MIN :: Rd(m, w) == Rd(mem, w)
    ensures BinsOk(m, smallmap, treemap, h, map[])
  {
    assert Smalls(map[]) == map[] && Larges(map[]) == map[];
    TreesFrame(mem, m, h.trees, treemap, map[]);
    forall i: nat | i < 32 ensures SmallBins.SmallAt(m, h.small[i], i, smallmap, map[]) {
      assert SmallBins.SmallAt(mem, h.small[i], i, smallmap, map[]);
      SomeIn(h.small[i]);
    }
    hide TreeBins.TreesOk, Marked;
  }

  /** The first segment is all top. */
  lemma FirstDone(mem: Mem, m: Mem, smallmap: bv32, treemap: bv32, h: Homes, base: int, size: int, pad: nat)
    requires Core(mem, smallmap, treemap, h, map[], []) && Fresh([], base, size, pad)
    requires forall w | TREEBINS <= w < HEAP_MIN :: Rd(m, w) == Rd(mem, w)
    ensures var d := map[base := Chunk(size - TOP_FOOT_SIZE, Top, 0)];
            Core(TopWords(m, base, size - TOP_FOOT_SIZE), smallmap, treemap, h, d, [Segment(base, size, 0, pad)])
  {
    var c: Chunks := map[];
    assert BinView(c) == map[];
    hide BinsOk, Shape, Keeps, UsedStay, BinView, TopWords;
    EmptyBins(mem, m, smallmap, treemap, h);
    assert Laid(m, smallmap, treemap, h, c) by { assert Shape(m, c) by { NoChunks(m); } }
    FirstTop(m, smallmap, treemap, h, base, size, pad);
    FirstSegs(base, size, pad);
    hide SegsOk;
    assert map[base := Chunk(size - TOP_FOOT_SIZE, Top, 0)] == c[base := Chunk(size - TOP_FOOT_SIZE, Top, 0)];
  }

  lemma NoChunks(m: Mem)
    ensures Shape(m, map[])
  {}

  lemma FirstTop(m: Mem, smallmap: bv32, treemap: bv32, h: Homes, base: int, size: int, pad: nat)
    requires Laid(m, smallmap, treemap, h, map[]) && Fresh([], base, size, pad)
    ensures var c: Chunks, topsize := map[], size - TOP_FOOT_SIZE;
            Laid(TopWords(m, base, topsize), smallmap, treemap, h, c[base := Chunk(topsize, Top, 0)])
  {
    hide Laid, Head;
    NewTop(m, TopWords(m, base, size - TOP_FOOT_SIZE), smallmap, treemap, h, map[], base, base + size - TOP_FOOT_SIZE);
  }

  lemma FirstSegs(base: int, size: int, pad: nat)
    requires Fresh([], base, size, pad)
    ensures SegsOk([Segment(base, size, 0, pad)], map[base := Chunk(size - TOP_FOOT_SIZE, Top, 0)])
  {
    var r, d := [Segment(base, size, 0, pad)], map[base := Chunk(size - TOP_FOOT_SIZE, Top, 0)];
    assert HeldBy(r[0], base, base + size - TOP_FOOT_SIZE) && r[0].base == base;
    assert Placed(r, base, d[base]);
  }

  /** A padded request and the page-aligned amount to ask for. */
  ghost predicate SysRequest(nb: int, asize: int) {
    Mult8(nb) && nb >= MIN_CHUNK_SIZE && nb + PADDING + PAGE <= WORD && nb + PADDING <= asize < nb + PADDING + PAGE
        && OnPage(asize)
  }

  lemma TopSize(mem: Mem, smallmap: bv32, treemap: bv32, h: Homes, c: Chunks, segs: seq<Segment>, top: int)
    requires Core(mem, smallmap, treemap, h, c, segs) && top in c && c[top].kind == Top
    ensures |segs| > 0 && segs[0].base <= top < segs[0].End() && 0 <= c[top].size < HEAP_MAX - HEAP_MIN
    ensures segs[0].End() == top + c[top].size + TOP_FOOT_SIZE && Mult4(c[top].size) && HEAP_MIN <= top
    ensures Mult8(top)
  {
    assert Placed(segs, top, c[top]) && ChunkOk(top, c[top]) && SegmentOk(segs[0]);
    hide Held;
  }

  lemma GotJoin(mem: Mem, smallmap: bv32, treemap: bv32, h: Homes, c: Chunks, segs: seq<Segment>, base: int, s1: int,
                  s2: int)
    requires Core(mem, smallmap, treemap, h, c, segs) && Got(segs, base, s1) && Got(segs, base + s1, s2)
    ensures Got(segs, base, s1 + s2)
  {
    forall i | 0 <= i < |segs| ensures segs[i].End() <= base || base + s1 + s2 <= segs[i].Start() {
      assert SegmentOk(segs[i]);
    }
    hide Core;
  }

  /** Rounding the first request up to a page boundary cannot wrap without failing the size test. */
  lemma FirstSize(nb: int, asize: int, d: int)
    requires SysRequest(nb, asize) && 0 <= d < PAGE && Add32(asize, d) > nb
    ensures Add32(asize, d) == asize + d
  {
    assert Add32(asize, d) == asize + d || Add32(asize, d) == asize + d - WORD;
    hide Mult8, OnPage;
  }

  /** What is appended to a segment that ends on a word and lets it end on a word is words. */
  lemma SameEnd(top: int, size: int, tsize: int)
    requires Mult8(top) && Mult4(size) && Mult4(top + size + TOP_FOOT_SIZE + tsize)
    ensures Mult4(tsize)
  {
    hide Mult8, Mult4;
    Mult8Is4(top);
    Mult4Sum(top, size);
    FourTimes(10);
    Mult4Sum(top + size, TOP_FOOT_SIZE);
    Mult4Sum(top + size + TOP_FOOT_SIZE + tsize, top + size + TOP_FOOT_SIZE);
  }

  /** A resized top: append and trim. */
  lemma ResizeReady(mem: Mem, smallmap: bv32, treemap: bv32, h: Homes, c: Chunks, segs: seq<Segment>, top: int,
                    tbase: int, tsize: int)
    requires Core(mem, smallmap, treemap, h, c, segs) && top in c && c[top].kind == Top && |segs| > 0
    requires tbase == segs[0].End() && Got(segs, tbase, tsize)
    ensures Resizable(segs, c, top, top + c[top].size + tsize)
    ensures Resized(segs, top + c[top].size + tsize) == segs[0 := segs[0].(size := segs[0].size + tsize)]
  {
    hide Mult8, Mult4, Shape, BinsOk, SegWords;
    TopSize(mem, smallmap, treemap, h, c, segs, top);
    SameEnd(top, c[top].size, tsize);
    Mult4Sum(c[top].size, tsize);
    var b := top + c[top].size + tsize;
    var r := Resized(segs, b);
    assert Disjoint(segs);
    hide Core;
    forall i, j | 0 <= i < |r| && 0 <= j < |r| && i != j
      ensures r[i].End() <= r[j].Start() || r[j].End() <= r[i].Start()
    {}
  }

  lemma TopEdited(mem: Mem, top: int, size: int)
    requires size >= 4
    ensures var m := TopWords(mem, top, size);
            EditedIn(mem, m, top, top + size) && Rd(m, top + 4) == Head(size, true, false)
  {
    hide Rd, Head;
  }

  lemma HasBase(segs: seq<Segment>, c: Chunks)
    requires SegsOk(segs, c)
    ensures segs == [] || segs[0].base in c
  {}

  lemma NoSegments(mem: Mem, smallmap: bv32, treemap: bv32, h: Homes, c: Chunks, segs: seq<Segment>, dv: int,
                   dvsize: int, topsize: int)
    requires Core(mem, smallmap, treemap, h, c, segs) && Owned(c, dv, dvsize, 0, topsize, {})
    ensures segs == [] && c == map[] && dv == 0 && dvsize == 0
  {
    HasBase(segs, c);
    hide Core;
  }

  lemma TopOwned(mem: Mem, smallmap: bv32, treemap: bv32, h: Homes, segs: seq<Segment>, c: Chunks, dv: int,
                 dvsize: int, top: int, topsize: int, b: int)
    requires Core(mem, smallmap, treemap, h, c, segs) && Owned(c, dv, dvsize, top, topsize, {})
    requires Resizable(segs, c, top, b)
    ensures Owned(One(c, top, b, Top), dv, dvsize, top, b - top, {})
  {
    hide Core, Retile;
    CoreParts(mem, smallmap, treemap, h, c, segs);
    hide Tiled, SegsOk, Shape, SegWords, BinsOk, BinView;
    var d := One(c, top, b, Top);
    forall p | p in c
      ensures p in d && d[p] == if p == top then c[p].(size := b - top) else c[p]
    {
      Gone(segs, c, top, b, p);
    }
    OnlyOld(c, top, b);
  }

  lemma OnlyOld(c: Chunks, top: int, b: int)
    requires top in c
    ensures forall p | p in One(c, top, b, Top) :: p in c
  {}

  lemma FirstOwned(base: int, size: int)
    requires base > 0
    ensures Owned(map[base := Chunk(size, Top, 0)], 0, 0, base, size, {})
  {}

  /** What is granted past the end of no segment of ours but just before one is put in front of it. */
  lemma BeforeSegment(segs: seq<Segment>, i: int, base: int, size: int, nb: int)
    requires Got(segs, base, size) && 0 <= i < |segs| && segs[i].Start() == base + size && size >= nb + PADDING
    requires Mult8(nb) && nb >= MIN_CHUNK_SIZE && Disjoint(segs) && forall j | 0 <= j < |segs| :: SegmentOk(segs[j])
    ensures FrontSpace(segs, i, Up8(base), nb) && PadClear(segs, i, Up8(base), Pad(base))
    ensures var r := Extended(segs, i, Up8(base), Pad(base));
            r == segs[i := r[i]] && r[i].Start() == base && r[i].Bytes() == segs[i].Bytes() + size
                && r[i].rec == segs[i].rec
  {
    PadFacts(base);
    hide Up8, Mult8, Mult4;
    forall j | 0 <= j < |segs| ensures segs[j].End() <= base || segs[i].base <= segs[j].base {
      assert SegmentOk(segs[j]) && SegmentOk(segs[i]);
    }
  }

  lemma LeastAdded(segs: seq<Segment>, base: int, size: int, pad: nat, sp: int, leastAddr: int)
    requires |segs| > 0 && Least(segs, leastAddr) && leastAddr <= base - pad
    ensures Least(Added(segs, base, size, pad, sp), leastAddr)
  {
    var r := Added(segs, base, size, pad, sp);
    forall i | 0 <= i < |r| ensures leastAddr <= r[i].Start() {
      if i > 0 { assert r[i].Start() == segs[i - 1].Start(); }
    }
  }

  lemma LeastFirst(segs: seq<Segment>, leastAddr: int)
    requires Least(segs, leastAddr) && |segs| > 0
    ensures leastAddr <= segs[0].Start()
  {}

  lemma LeastNone(leastAddr: int) ensures Least([], leastAddr) {}

  lemma LeastUpdate(segs: seq<Segment>, i: nat, s: Segment, leastAddr: int)
    requires i < |segs| && Least(segs, leastAddr) && leastAddr <= s.Start()
    ensures Least(segs[i := s], leastAddr)
  {}

  lemma AccountsFirst(base: int, size: int, pad: nat, leastAddr: int, footprint: int, maxFootprint: int)
    requires footprint == size + pad <= maxFootprint && leastAddr <= base - pad
    ensures Accounts([Segment(base, size, 0, pad)], leastAddr, footprint, maxFootprint)
  {
    assert [Segment(base, size, 0, pad)][1..] == [];
  }

  lemma AccountsUpdate(segs: seq<Segment>, i: nat, s: Segment, leastAddr: int, footprint: int, maxFootprint: int)
    requires i < |segs| && Least(segs, leastAddr) && leastAddr <= s.Start()
    requires footprint == Total(segs) - segs[i].Bytes() + s.Bytes() <= maxFootprint
    ensures Accounts(segs[i := s], leastAddr, footprint, maxFootprint)
  {
    TotalUpdate(segs, i, s);
  }

  lemma AccountsAdded(segs: seq<Segment>, base: int, size: int, pad: nat, sp: int, leastAddr: int, footprint: int,
                      maxFootprint: int)
    requires |segs| > 0 && Least(segs, leastAddr) && leastAddr <= base - pad
    requires footprint == Total(segs) + size + pad <= maxFootprint
    ensures Accounts(Added(segs, base, size, pad, sp), leastAddr, footprint, maxFootprint)
  {
    TotalAdded(segs, base, size, pad, sp);
    LeastAdded(segs, base, size, pad, sp, leastAddr);
  }

  lemma AccountsParts(segs: seq<Segment>, leastAddr: int, footprint: int, maxFootprint: int)
    requires Accounts(segs, leastAddr, footprint, maxFootprint)
    ensures footprint == Total(segs) <= maxFootprint && forall l | l <= leastAddr :: Least(segs, l)
    ensures segs != [] ==> leastAddr <= segs[0].Start()
  {}

  lemma {:induction false} TotalPositive(segs: seq<Segment>)
    requires forall i | 0 <= i < |segs| :: segs[i].Bytes() >= 0
    ensures Total(segs) >= 0
  {
    if segs != [] { TotalPositive(segs[1..]); }
  }

  /** The current segment is part of what the system has given. */
  lemma FirstWithin(mem: Mem, smallmap: bv32, treemap: bv32, h: Homes, c: Chunks, segs: seq<Segment>)
    requires Core(mem, smallmap, treemap, h, c, segs) && |segs| > 0
    ensures segs[0].Bytes() <= Total(segs)
  {
    forall i | 0 <= i < |segs| ensures segs[i].Bytes() >= 0 { assert SegmentOk(segs[i]); }
    hide Core;
    TotalPositive(segs[1..]);
  }

  lemma HoldsTop(mem: Mem, smallmap: bv32, treemap: bv32, h: Homes, c: Chunks, segs: seq<Segment>, top: int)
    requires Core(mem, smallmap, treemap, h, c, segs) && top in c && c[top].kind == Top
    ensures forall i | 0 <= i < |segs| && segs[i].Start() <= top < segs[i].End() :: i == 0
  {
    TopSize(mem, smallmap, treemap, h, c, segs, top);
    forall i | 0 <= i < |segs| && segs[i].Start() <= top < segs[i].End() ensures i == 0 {}
    hide Shape, SegWords, BinsOk;
  }

  /** The size that stands for a request too large to pad fails the wrap-around test. */
  lemma TooLarge()
    ensures PageAlign(Add32(WORD - 1, PADDING)) <= WORD - 1
  {
  }

  lemma NonZeroTop(mem: Mem, smallmap: bv32, treemap: bv32, h: Homes, c: Chunks, segs: seq<Segment>, dv: int,
                   dvsize: int, top: int, topsize: int)
    requires Core(mem, smallmap, treemap, h, c, segs) && Owned(c, dv, dvsize, top, topsize, {})
    ensures topsize > 0 ==> top != 0
  {
    hide Core;
  }

  const MAX_SMALL_REQUEST: int := 244
  const MIN_REQUEST: int := 11
  const MAX_REQUEST: int := WORD - 64

  function PadRequest(req: int): int { (req + 11) / 8 * 8 }
  function RequestToSize(req: int): int { if req < MIN_REQUEST then MIN_CHUNK_SIZE else PadRequest(req) }

  /** A chunk of the padded size has room for the request and its header, and wastes less than a minimal chunk. */
  lemma RequestFacts(bytes: int)
    requires 0 <= bytes < WORD
    ensures var nb := RequestToSize(bytes);
            Mult8(nb) && bytes + 4 <= nb && if bytes <= 12 then nb == 16 else nb < bytes + 12
    ensures bytes < MAX_REQUEST <==> bytes < 0xFFFF_FFC0
    ensures bytes < MAX_REQUEST ==> RequestToSize(bytes) < WORD - 48
    ensures bytes <= MAX_SMALL_REQUEST ==> RequestToSize(bytes) < MIN_LARGE_SIZE
    ensures bytes > MAX_SMALL_REQUEST ==>
      RequestToSize(bytes) == PadRequest(bytes) && PadRequest(bytes) >= MIN_LARGE_SIZE
  {
  }

  lemma SizesBelow(mem: Mem, smallmap: bv32, treemap: bv32, h: Homes, c: Chunks, segs: seq<Segment>, dv: int,
                   dvsize: int, top: int, topsize: int)
    requires Core(mem, smallmap, treemap, h, c, segs) && Owned(c, dv, dvsize, top, topsize, {})
    ensures 0 <= dvsize < WORD - HEAP_MIN && 0 <= topsize < WORD - HEAP_MIN
  {
    if dv != 0 { assert ChunkOk(dv, c[dv]); }
    if top != 0 { assert ChunkOk(top, c[top]); }
    hide Core, Mult8;
  }

  lemma LiveAligned(mem: Mem, smallmap: bv32, treemap: bv32, h: Homes, c: Chunks, segs: seq<Segment>, p: int)
    requires Core(mem, smallmap, treemap, h, c, segs) && p in c
    ensures Mult8(p + 8) && p + 8 != 0
  {
    assert ChunkOk(p, c[p]);
  }

  lemma ShrinkReady(mem: Mem, smallmap: bv32, treemap: bv32, h: Homes, c: Chunks, segs: seq<Segment>, top: int,
                    released: int)
    requires Core(mem, smallmap, treemap, h, c, segs) && top in c && c[top].kind == Top && |segs| > 0
    requires 0 < released < c[top].size && Mult8(released)
    ensures released + 4 <= c[top].size && Resizable(segs, c, top, top + c[top].size - released)
    ensures Resized(segs, top + c[top].size - released) == segs[0 := segs[0].(size := segs[0].size - released)]
  {
    hide Core, Mult8, Mult4, Disjoint;
    TopSize(mem, smallmap, treemap, h, c, segs, top);
    Mult4Gap(released, c[top].size);
    ApartSegs(mem, smallmap, treemap, h, c, segs);
    ShrunkApart(segs, top + c[top].size - released);
  }

  lemma GrowMult(oldsize: int, topsize: int, nb: int)
    requires Mult8(oldsize) && Mult4(topsize) && Mult8(nb) && nb < oldsize + topsize
    ensures Mult4(oldsize + topsize - nb) && oldsize + topsize - nb >= 4
  {
    EightIsFour(oldsize);
    EightIsFour(nb);
    hide Mult8;
    Mult4Sum(oldsize, topsize);
    Mult4Sum(oldsize + topsize, nb);
  }

  lemma EightIsFour(x: int)
    requires Mult8(x)
    ensures Mult4(x)
  {}

  lemma Mult4Gap(a: int, b: int)
    requires Mult8(a) && Mult4(b) && a < b
    ensures a + 4 <= b && Mult4(b - a)
  {}

  lemma ApartSegs(mem: Mem, smallmap: bv32, treemap: bv32, h: Homes, c: Chunks, segs: seq<Segment>)
    requires Core(mem, smallmap, treemap, h, c, segs)
    ensures Disjoint(segs) && forall i | 0 <= i < |segs| :: SegmentOk(segs[i])
  {
    hide Shape, SegWords, BinsOk, Placed, RecordOk;
  }

  lemma ShrunkApart(segs: seq<Segment>, b: int)
    requires |segs| > 0 && Disjoint(segs) && b + TOP_FOOT_SIZE <= segs[0].End()
    ensures Disjoint(Resized(segs, b))
  {
    var r := Resized(segs, b);
    forall i, j | 0 <= i < |r| && 0 <= j < |r| && i != j
      ensures r[i].End() <= r[j].Start() || r[j].End() <= r[i].Start()
    {}
  }

  /** What trim gives back is less than what top has beyond the padding. */
  lemma ExtraFacts(excess: int, extra: int)
    requires 0 < excess < HEAP_MAX && extra == ((excess + PAGE - 1) / PAGE - 1) * PAGE
    ensures 0 <= extra < excess && extra + PAGE >= excess && OnPage(extra)
    ensures Mult8(extra) && Mult4(-extra) && extra < HALF_MAX
  {
    var q := (excess + PAGE - 1) / PAGE;
    assert PAGE * q <= excess + PAGE - 1 < PAGE * q + PAGE;
    PageTimes(q - 1);
    PageMult(extra);
    hide OnPage, Mult8, Mult4;
  }

  lemma PageTimes(k: int)
    ensures OnPage(k * PAGE)
  {}

  /** The state before the first call. */
  lemma EmptyHeap()
    ensures var h := Homes(seq(32, i => []), seq(32, i => Tries.Nil));
            Core(map[], 0, 0, h, map[], []) && Owned(map[], 0, 0, 0, 0, {}) && Accounts([], 0, 0, 0)
  {
    var h := Homes(seq(32, i => []), seq(32, i => Tries.Nil));
    NoChunks(map[]);
    EmptyMaps();
    var c: Chunks := map[];
    assert BinView(c) == map[];
    hide Marked;
    assert Smalls(map[]) == map[] && Larges(map[]) == map[];
  }

  lemma EmptyMaps()
    ensures forall i: nat | i < 32 :: !Marked(0, i)
  {
  }

  // ---- segments that end elsewhere

  /** What init_top writes to the header of a top of `psize` bytes, whatever that is: psize | PINUSE. */
  function TopHeader(psize: int): int { OrPinuse(psize) }

  lemma TopHeaderIs(psize: int)
    requires Mult4(psize)
    ensures TopHeader(psize) == Head(psize, true, false)
  {
    PinuseBits(psize, false, false);
  }

  lemma NewTopSize(segs: seq<Segment>, base: int, size: int, pad: nat, tbase: int)
    requires Fresh(segs, base, size, pad) && base == tbase + pad
    ensures Mult4(size - TOP_FOOT_SIZE) && base > 0
  {}

  /** What add_segment starts from. */
  lemma AddReady(mem: Mem, smallmap: bv32, treemap: bv32, h: Homes, segs: seq<Segment>, c: Chunks, tbase: int,
                 tsize: int, dv: int, dvsize: int, top: int, topsize: int)
    requires Core(mem, smallmap, treemap, h, c, segs) && Owned(c, dv, dvsize, top, topsize, {}) && top != 0
    requires Got(segs, tbase, tsize)
    ensures |segs| > 0
    ensures var asp := Up8(segs[0].End() - (RECORD_SIZE + 16 + 7));
            var sp := if asp < top + MIN_CHUNK_SIZE then top else asp;
            && Adding(segs, c, top, sp, Up8(tbase), tsize - Pad(tbase), Pad(tbase)) && top in c
            && (sp == top || top + 8 <= sp) && sp + RECORD_SIZE + 16 <= segs[0].End()
    ensures Mult4(tsize - Pad(tbase) - TOP_FOOT_SIZE)
  {
    hide Core, Owned, Up8, Got, RecordAt;
    GotFresh(segs, tbase, tsize);
    HomeKind(c, dv, dvsize, top, topsize, {});
    CoreParts(mem, smallmap, treemap, h, c, segs);
    TopSize(mem, smallmap, treemap, h, c, segs, top);
    RecordSpot(top, topsize);
    NewTopSize(segs, Up8(tbase), tsize - Pad(tbase), Pad(tbase), tbase);
    var asp := Up8(segs[0].End() - (RECORD_SIZE + 16 + 7));
    var sp := if asp < top + MIN_CHUNK_SIZE then top else asp;
    hide Tiled, SegsOk, Fresh;
    TopPlace(segs, c, top, sp, Up8(tbase), tsize - Pad(tbase), Pad(tbase));
  }

  /** Where the record goes, from the end of the segment. */
  lemma RecordSpot(top: int, topsize: int)
    requires Mult8(top)
    ensures var asp := Up8(top + topsize + TOP_FOOT_SIZE - 47);
            asp == top + Down8(topsize) && RecordAt(top, topsize) == if asp < top + MIN_CHUNK_SIZE then top else asp
  {
    RecordRound(top / 8, topsize);
  }

  lemma RecordRound(k: int, n: int)
    ensures Up8(8 * k + n - 7) == 8 * k + Down8(n)
  {}

  lemma TopAgain(segs: seq<Segment>, tsize: int, top: int, topsize: int)
    requires |segs| > 0 && Got(segs, segs[0].End(), tsize) && Mult4(topsize) && Mult8(top)
    requires segs[0].End() == top + topsize + TOP_FOOT_SIZE
    ensures Mult4(topsize + tsize) && Up8(top) == top
  {
    hide Mult8, Mult4, Up8;
    SameEnd(top, topsize, tsize);
    Mult4Sum(topsize, tsize);
    PadFacts(top);
  }

  lemma TopStays(mem: Mem, smallmap: bv32, treemap: bv32, h: Homes, c: Chunks, segs: seq<Segment>, top: int, n: int)
    requires Core(mem, smallmap, treemap, h, c, segs) && top in c && c[top].kind == Top && Mult8(n)
    ensures Mult4(c[top].size - n) && Up8(top) == top
  {
    hide Core, Up8, Mult8, Mult4;
    TopSize(mem, smallmap, treemap, h, c, segs, top);
    Mult8Is4(n);
    Mult4Sum(c[top].size, n);
    PadFacts(top);
  }

  /**
   * For any memory the system returns, the header of the new top reads as free exactly if bit 1 of its end is clear.
   */
  lemma TopReadsFree(tbase: int, tsize: int)
    ensures var psize := tsize - TOP_FOOT_SIZE - Pad(tbase);
            PInuse(TopHeader(psize)) && (CInuse(TopHeader(psize)) <==> (tbase + tsize) % 4 >= 2)
  {
    hide PInuse, CInuse, OrPinuse;
    var q := (tbase + 7) / 8;
    HeaderBits(tbase + tsize, 10 + 2 * q);
    assert tsize - TOP_FOOT_SIZE - Pad(tbase) == tbase + tsize - 4 * (10 + 2 * q);
  }

  lemma HeaderBits(e: int, k: int)
    ensures var h := TopHeader(e - 4 * k); PInuse(h) && (CInuse(h) <==> e % 4 >= 2)
  {
    LowBits(e, k);
    OrLow(e - 4 * k);
  }

  lemma LowBits(e: int, k: int)
    ensures CInuse(e - 4 * k) <==> e % 4 >= 2
  {
    assert (e - 4 * k) / 2 == e / 2 - 2 * k;
  }

  lemma OrLow(x: int)
    ensures PInuse(OrPinuse(x)) && CInuse(OrPinuse(x)) == CInuse(x)
  {}

  /** After another use of sbrk has left the break two bytes above a page, the new top passes for a chunk in use. */
  lemma ForeignBreak()
    ensures var tbase, tsize := 0x10002, PAGE; CInuse(TopHeader(tsize - TOP_FOOT_SIZE - Pad(tbase)))
  {
    TopReadsFree(0x10002, PAGE);
  }

  /**
   * The segments the allocator can keep in order, and end with fenceposts that stay inside, are exactly those that end
   * on a word.
   */
  lemma EndExact(tbase: int, tsize: int, tnext: int, last: int)
    requires Mult8(tnext) && LastPost(tnext, tbase + tsize, last)
    ensures !CInuse(TopHeader(tsize - TOP_FOOT_SIZE - Pad(tbase))) && last + 4 <= tbase + tsize <==>
            Mult4(tbase + tsize)
  {
    TopReadsFree(tbase, tsize);
    hide Pad, TopHeader, CInuse, PInuse;
    var e := tbase + tsize;
    assert last + 4 <= e <==> e % 4 == 0;
  }
}

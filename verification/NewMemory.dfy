/** Where memory from the system goes, and what is left of it once the request that asked for it has been met. */
module NewMemory {
  import opened Words
  import opened Bins
  import opened Chunks
  import opened Heaps
  import opened Steps
  import opened Growth
  import opened System
  import opened Headers
  import opened Resizing
  import opened Effects

  /** What the allocator keeps of its dealings with the system. */
  datatype Dealings = Dealings(segs: seq<Segment>, leastAddr: int, trimCheck: int, footprint: int, maxFootprint: int,
                               noncontiguous: bool, brk: int, refusals: seq<int>)

  // ---- chunks that are not concerned

  lemma ResizedSame(mem: Mem, smallmap: bv32, treemap: bv32, h: Homes, segs: seq<Segment>, c: Chunks, top: int, b: int)
    requires Core(mem, smallmap, treemap, h, c, segs) && Resizable(segs, c, top, b)
    ensures OthersSame(c, One(c, top, b, Top), {top})
  {
    hide Core, Tiled, SegsOk, Disjoint, Mult4;
    CoreParts(mem, smallmap, treemap, h, c, segs);
    forall q | q in c && q > top ensures q > b { Beyond(segs, c, top, b, q); }
  }

  lemma PrependedSame(segs: seq<Segment>, c: Chunks, i: int, p: int, nb: int, b: int, k: Kind)
    requires Prepending(segs, c, i, p, nb, b, k)
    ensures p !in c && segs[i].base in c && OthersSame(c, Prepended(c, p, nb, b, k), {segs[i].base})
    ensures c[segs[i].base].Used() ==> OthersSame(c, Prepended(c, p, nb, b, k), {})
    ensures var d := Prepended(c, p, nb, b, k); Has(d, p, nb, Live) && Has(d, p + nb, b - p - nb, k) && p + nb !in c
  {
    FirstFacts(segs, c, i, p, nb, b, k);
    hide Tiled, SegsOk;
  }

  lemma AddedSame(segs: seq<Segment>, c: Chunks, top: int, sp: int, base: int, size: int, pad: nat)
    requires Adding(segs, c, top, sp, base, size, pad)
    ensures base !in c && OthersSame(c, AddedChunks(c, top, sp, base, size), {top})
    ensures var d := AddedChunks(c, top, sp, base, size);
            Has(d, sp, RECORD_SIZE, Record) && (sp != top ==> Has(d, top, sp - top, Limbo))
  {
    FreshClear(segs, c, base, size, pad);
    TopPlace(segs, c, top, sp, base, size, pad);
    hide Tiled, SegsOk, Fresh, RecordAt;
  }

  lemma FreshStart(mem: Mem, smallmap: bv32, treemap: bv32, h: Homes, segs: seq<Segment>, c: Chunks, base: int,
                   size: int)
    requires Core(mem, smallmap, treemap, h, c, segs) && Got(segs, base, size)
    ensures Up8(base) !in c
  {
    CoreParts(mem, smallmap, treemap, h, c, segs);
    GotFresh(segs, base, size);
    hide Core, Got, Tiled, SegsOk, Up8;
    FreshClear(segs, c, Up8(base), size - Pad(base), Pad(base));
  }

  // ---- the three places

  /**
   * The end of a segment that is no longer the current one: its record as far back as the fenceposts need, what is
   * left of top in a bin, unless it makes no chunk.
   */
  ghost predicate Retired(v: View, w: View, end: int, sp: int) {
    && OthersSame(v.c, w.c, {v.top}) && Has(w.c, sp, RECORD_SIZE, Record)
    && sp + RECORD_SIZE + 16 <= end <= sp + RECORD_SIZE + 28
    && if sp == v.top then w.h == v.h
       else
         && v.top + MIN_CHUNK_SIZE <= sp && Mult8(sp) && 0 <= sp - v.top < WORD && Homed(v.h)
         && end < sp + RECORD_SIZE + 24
         && Has(w.c, v.top, sp - v.top, Kind.Binned) && w.h == Bins.Binned(v.h, v.top, sp - v.top)
  }

  lemma RetiredNow(v: View, d: Chunks, w: View, segs: seq<Segment>, sp: int, base: int, size: int, pad: nat)
    requires Adding(segs, v.c, v.top, sp, base, size, pad)
    requires d == AddedChunks(v.c, v.top, sp, base, size)
    requires if sp == v.top then w.c == d && w.h == v.h
             else
               && w.c == SetKind(d, v.top, Kind.Binned) && 0 <= sp - v.top < WORD && Homed(v.h)
               && w.h == Bins.Binned(v.h, v.top, sp - v.top)
    ensures base !in v.c && |segs| > 0 && Retired(v, w, segs[0].End(), sp)
  {
    AddedSame(segs, v.c, v.top, sp, base, size, pad);
    TopPlace(segs, v.c, v.top, sp, base, size, pad);
    assert ChunkOk(v.top, v.c[v.top]);
    RecordAtFacts(v.top, v.c[v.top].size);
    hide Tiled, SegsOk, Fresh, RecordAt, AddedChunks, Bins.Binned, Mult8, Mult4;
    if sp != v.top { HomeSame(v.c, d, {v.top}, v.top, Kind.Binned); }
  }

  ghost predicate NewSegment(s: Segment, base: int, got: int) {
    s.Start() == base && s.End() == base + got && s.base == Up8(base) && s.rec == 0
  }

  /** [base, base + got) has become top, or has extended it. */
  ghost predicate Topped(v: View, w: View, s0: seq<Segment>, s1: seq<Segment>, base: int, got: int) {
    && SameDv(v, w)
    && if v.top != 0 && |s0| > 0 && base == s0[0].End() then
         && w.top == v.top && w.topsize == v.topsize + got && w.h == v.h && OthersSame(v.c, w.c, {v.top})
         && s1 == s0[0 := s0[0].(size := s0[0].size + got)]
       else
         && w.top == Up8(base) && w.top !in v.c && w.topsize == base + got - TOP_FOOT_SIZE - w.top
         && |s1| == |s0| + 1 && NewSegment(s1[0], base, got)
         && if v.top == 0 then w.h == v.h && OthersSame(v.c, w.c, {}) && s0 == []
            else
              && |s0| > 0 && s1[1] == s0[0].(rec := s1[1].rec) && s1[2..] == s0[1..]
              && Retired(v, w, s0[0].End(), s1[1].rec)
  }

  /**
   * The request is met at the start of the space between `p` and what was the first chunk of a segment; the rest joins
   * that chunk if it is free, and is binned unless it is then top or the designated victim.
   */
  ghost predicate Front(v: View, w: View, first: int, p: int, nb: int) {
    && p !in v.c && first in v.c && Has(w.c, p, nb, Live)
    && var q := p + nb;
       if first == v.top then
         && SameDv(v, w) && w.h == v.h && OthersSame(v.c, w.c, {first})
         && w.top == q && w.topsize == first + v.topsize - q
       else if first == v.dv then
         && SameTop(v, w) && w.h == v.h && OthersSame(v.c, w.c, {first})
         && w.dv == q && w.dvsize == first + v.dvsize - q
       else
         && SameTop(v, w) && SameDv(v, w) && Homed(v.h)
         && if v.c[first].kind == Kind.Binned then
              var size := v.c[first].size;
              && 0 <= size < WORD && 0 <= first + size - q < WORD && Homed(Unbinned(v.h, first, size))
              && OthersSame(v.c, w.c, {first}) && Has(w.c, q, first + size - q, Kind.Binned)
              && w.h == Bins.Binned(Unbinned(v.h, first, size), q, first + size - q)
            else
              && 0 <= first - q < WORD && OthersSame(v.c, w.c, {}) && Has(w.c, q, first - q, Kind.Binned)
              && w.h == Bins.Binned(v.h, q, first - q)
  }

  lemma BinnedSame(c: Chunks, c1: Chunks, d: Chunks, X: set<int>, p: int, q: int, x: int)
    requires c1 == c || (x in X && x in c && c1 == SetKind(c, x, Limbo))
    requires OthersSame(c1, d, X) && q !in c1 && q in d && p in d && p != q && p !in c1
    ensures p !in c && OthersSame(c, SetKind(d, q, Kind.Binned), X)
    ensures Has(SetKind(d, q, Kind.Binned), q, d[q].size, Kind.Binned)
    ensures Has(SetKind(d, q, Kind.Binned), p, d[p].size, d[p].kind)
  {}

  /** The rest is binned: `c1` is without the free first chunk, if there is one, `d` has the rest, homeless. */
  lemma FrontBin(v: View, c1: Chunks, d: Chunks, h1: Homes, w: View, first: int, p: int, nb: int, b: int)
    requires first in v.c && first != v.top && first != v.dv && Homed(v.h) && Homed(h1) && 0 <= b - p - nb < WORD
    requires if v.c[first].kind == Kind.Binned then
               && c1 == SetKind(v.c, first, Limbo) && b == first + v.c[first].size && 0 <= v.c[first].size < WORD
               && h1 == Unbinned(v.h, first, v.c[first].size) && OthersSame(c1, d, {first})
             else c1 == v.c && b == first && h1 == v.h && OthersSame(c1, d, {})
    requires Has(d, p, nb, Live) && Has(d, p + nb, b - p - nb, Limbo) && p !in c1 && p + nb !in c1 && nb > 0
    requires w.c == SetKind(d, p + nb, Kind.Binned) && SameTop(v, w) && SameDv(v, w)
    requires w.h == Bins.Binned(h1, p + nb, b - p - nb)
    ensures Front(v, w, first, p, nb)
  {
    hide Bins.Binned, Unbinned;
    BinnedSame(v.c, c1, d, if v.c[first].kind == Kind.Binned then {first} else {}, p, p + nb, first);
    hide OthersSame, SetKind;
  }

  ghost predicate StartsAt(segs: seq<Segment>, i: int, at: int) { 0 <= i < |segs| && segs[i].Start() == at }

  /** What ends at `at` is in front of a segment. */
  ghost predicate Fronting(segs: seq<Segment>, at: int) { exists i :: StartsAt(segs, i, at) }

  /** Segment `i` now starts at `base`. */
  ghost predicate Lowered(s0: seq<Segment>, s1: seq<Segment>, i: int, base: int) requires 0 <= i < |s0| {
    && |s1| == |s0| && (forall j | 0 <= j < |s0| && j != i :: s1[j] == s0[j])
    && s1[i].Start() == base && s1[i].End() == s0[i].End() && s1[i].rec == s0[i].rec && s1[i].base == Up8(base)
  }

  /** [base, base + got) has gone in front of the segment it borders, and the request is met there. */
  ghost predicate Fronted(v: View, w: View, s0: seq<Segment>, s1: seq<Segment>, base: int, got: int, nb: int, p: int) {
    && p == Up8(base)
    && exists i :: StartsAt(s0, i, base + got) && Front(v, w, s0[i].base, p, nb) && Lowered(s0, s1, i, base)
  }

  lemma FrontedNow(v: View, w: View, s0: seq<Segment>, s1: seq<Segment>, i: int, base: int, got: int, nb: int, p: int)
    requires StartsAt(s0, i, base + got) && Front(v, w, s0[i].base, p, nb) && p == Up8(base)
    requires s1 == Extended(s0, i, p, Pad(base))
    ensures Fronted(v, w, s0, s1, base, got, nb, p) && Fronting(s0, base + got)
  {
    hide Front, Up8;
    PadFacts(base);
    assert Lowered(s0, s1, i, base);
  }

  lemma ToppedNew(v: View, w: View, s0: seq<Segment>, s1: seq<Segment>, base: int, got: int, sp: int)
    requires v.top != 0 && |s0| > 0 && base != s0[0].End() && Retired(v, w, s0[0].End(), sp) && SameDv(v, w)
    requires s1 == Added(s0, Up8(base), got - Pad(base), Pad(base), sp)
    requires w.top == Up8(base) && w.top !in v.c && w.topsize == got - Pad(base) - TOP_FOOT_SIZE
    ensures Topped(v, w, s0, s1, base, got)
  {
    hide Retired, Up8;
    PadFacts(base);
  }

  /** Memory that does not extend top goes in front of a segment, if it ends where one starts. */
  ghost predicate InFront(top: int, s0: seq<Segment>, base: int, got: int) {
    top != 0 && |s0| > 0 && base != s0[0].End() && Fronting(s0, base + got)
  }

  /** A request for `nb` bytes has been met at `p` once [base, base + got) had come from the system. */
  ghost predicate Settled(v: View, w: View, s0: seq<Segment>, s1: seq<Segment>, base: int, got: int, nb: int, p: int) {
    if InFront(v.top, s0, base, got) then
      Fronted(v, w, s0, s1, base, got, nb, p)
    else
      && Has(w.c, p, nb, Live) && p == w.top - nb
      && Topped(v, w.(top := p, topsize := w.topsize + nb), s0, s1, base, got)
  }

  // ---- how much is asked for

  /** Least pages that hold `n` bytes. */
  ghost predicate Pages(got: int, n: int) { OnPage(got) && n <= got < n + PAGE }

  /**
   * The system has given `got` bytes for a request of `nb`. Unless it refused something on the way, they start at the
   * break; and where they extend top, they are the pages that top lacks.
   */
  ghost predicate Asked(d: Dealings, e: Dealings, top: int, topsize: int, limit: int, nb: int, got: int) {
    && nb - topsize + PADDING <= got < nb + PADDING + (if top == 0 then 2 * PAGE else PAGE)
    && d.refusals <= e.refusals && (e.refusals == d.refusals ==> e.brk == d.brk + got)
    && (d.noncontiguous ==> e.noncontiguous && Pages(got, nb + PADDING))
    && (e.refusals == d.refusals && !d.noncontiguous && nb + PADDING + 2 * PAGE <= HALF_MAX ==>
          && (top != 0 ==> !e.noncontiguous)
          && (top != 0 && |d.segs| > 0 && d.brk == d.segs[0].End() ==> Pages(got, nb - topsize + PADDING))
          && (top == 0 && limit == 0 ==> !e.noncontiguous && OnPage(e.brk)))
  }

  ghost predicate Max(a: int, b: int, m: int) { a <= m && b <= m && (m == a || m == b) }

  /** The allocator's accounts show what the system has given. */
  ghost predicate Enlarged(d: Dealings, e: Dealings, top: int, topsize: int, limit: int, nb: int) {
    var got := e.footprint - d.footprint;
    && Asked(d, e, top, topsize, limit, nb, got) && Max(d.maxFootprint, e.footprint, e.maxFootprint)
    && e.leastAddr == if e.brk - got < d.leastAddr || (top == 0 && d.leastAddr == 0) then e.brk - got else d.leastAddr
  }

  /** The request has been met with memory from the system, which now ends at the break. */
  ghost predicate FromSystem(v: View, w: View, d: Dealings, e: Dealings, nb: int, p: int) {
    var got := e.footprint - d.footprint;
    && Settled(v, w, d.segs, e.segs, e.brk - got, got, nb, p)
    && e.trimCheck == if InFront(v.top, d.segs, e.brk - got, got) then d.trimCheck else TRIM_THRESHOLD
  }

  /** What the system was asked in between does not show. */
  ghost predicate OnlyAsked(d0: Dealings, d: Dealings) {
    && d.segs == d0.segs && d.leastAddr == d0.leastAddr && d.trimCheck == d0.trimCheck
    && d.footprint == d0.footprint && d.maxFootprint == d0.maxFootprint
  }

  lemma SystemLater(v: View, w: View, d0: Dealings, d: Dealings, e: Dealings, nb: int, p: int)
    requires OnlyAsked(d0, d) && FromSystem(v, w, d, e, nb, p)
    ensures FromSystem(v, w, d0, e, nb, p)
  {
    hide Settled, InFront;
  }

  lemma AskedLater(d0: Dealings, d: Dealings, e: Dealings, top: int, topsize: int, limit: int, nb: int, got: int)
    requires OnlyAsked(d0, d) && Asked(d0, d, top, topsize, limit, nb, got)
    requires e.brk == d.brk && e.refusals == d.refusals && e.noncontiguous == d.noncontiguous
    requires e.footprint == d.footprint + got && Max(d.maxFootprint, e.footprint, e.maxFootprint)
    requires e.leastAddr
             == if e.brk - got < d.leastAddr || (top == 0 && d.leastAddr == 0) then e.brk - got else d.leastAddr
    ensures Enlarged(d0, e, top, topsize, limit, nb)
  {
    hide Pages, OnPage;
  }

  /** Serving the request from top shows as if top had started lower. */
  lemma ToppedThen(v: View, u: View, w: View, s0: seq<Segment>, s1: seq<Segment>, base: int, got: int, nb: int, p: int)
    requires Topped(v, u, s0, s1, base, got) && FromTop(u, w, nb, p)
    requires Has(u.c, u.top, u.topsize, Top) && !InFront(v.top, s0, base, got)
    ensures Settled(v, w, s0, s1, base, got, nb, p)
  {
    hide Up8, NewSegment, Bins.Binned, Fronting;
    var w' := w.(top := p, topsize := w.topsize + nb);
    assert OthersSame(u.c, w'.c, {u.top}) && u.top == w'.top && u.topsize == w'.topsize && u.h == w'.h;
  }

  /** What the system's memory served is new, or starts where top did. */
  lemma SystemOrigin(v: View, w: View, d: Dealings, e: Dealings, nb: int, p: int)
    requires FromSystem(v, w, d, e, nb, p)
    ensures p in v.c ==> p == v.top
  {
    hide Retired, OthersSame, Bins.Binned, Unbinned, NewSegment, Lowered;
  }

  // ---- how a request has been met

  /** A request has been met at `p`; the system comes in only if top, too, is too small. */
  ghost predicate Met(v: View, w: View, d: Dealings, e: Dealings, limit: int, nb: int, p: int) {
    if IsA(v.c, p, Kind.Binned) then FromBin(v, w, nb, p) && e == d
    else if IsA(v.c, p, Dv) then FromVictim(v, w, nb, p) && e == d
    else if nb < v.topsize then FromTop(v, w, nb, p) && e == d
    else FromSystem(v, w, d, e, nb, p) && Enlarged(d, e, v.top, v.topsize, limit, nb)
  }

  /** Nothing was asked of the system; or no free chunk was large enough, and it gave what the request needs. */
  ghost predicate Dealt(v: View, d: Dealings, e: Dealings, limit: int, nb: int) {
    e == d || (NoneLeft(v.c, nb, v.dvsize, v.topsize) && Enlarged(d, e, v.top, v.topsize, limit, nb))
  }

  /** A request has not been met: nothing shows but what the system was asked. */
  ghost predicate Unmet(v: View, w: View, d: Dealings, e: Dealings) {
    w == v && e == d.(brk := e.brk, refusals := e.refusals, noncontiguous := e.noncontiguous)
  }

  // ---- giving memory back

  /** The end of the current segment has gone back: whole pages, as many as leave top more than its padding. */
  ghost predicate GivenBack(d: Dealings, e: Dealings, size: int, pad: int) {
    var given := d.footprint - e.footprint;
    && given > 0 && OnPage(given) && pad + TOP_FOOT_SIZE < size - given <= pad + TOP_FOOT_SIZE + PAGE
    && |d.segs| > 0 && d.brk == d.segs[0].End()
    && e == d.(segs := d.segs[0 := d.segs[0].(size := d.segs[0].size - given)], brk := d.brk - given,
               footprint := e.footprint, trimCheck := TRIM_THRESHOLD)
  }

  /** The system has refused to take back the pages that could go. */
  ghost predicate TakenBack(d: Dealings, e: Dealings, size: int, pad: int) {
    && |e.refusals| == |d.refusals| + 1 && d.refusals <= e.refusals
    && var x := -e.refusals[|d.refusals|];
       x > 0 && OnPage(x) && pad + TOP_FOOT_SIZE < size - x <= pad + TOP_FOOT_SIZE + PAGE
  }

  /** Nothing has gone back, because there is nothing to give, or the break is elsewhere, or the system refused. */
  ghost predicate NotGiven(d: Dealings, e: Dealings, top: int, size: int, pad: int) {
    && e.trimCheck == (if pad < MAX_REQUEST && top != 0 && size > d.trimCheck then WORD - 1 else d.trimCheck)
    && e == d.(refusals := e.refusals, trimCheck := e.trimCheck)
    && if pad < MAX_REQUEST && top != 0 && size > pad + TOP_FOOT_SIZE + PAGE && |d.segs| > 0 && d.brk == d.segs[0].End()
       then TakenBack(d, e, size, pad) else e.refusals == d.refusals
  }

  lemma GivenNow(d: Dealings, e: Dealings, size: int, pad: int, given: int)
    requires given > 0 && OnPage(given) && pad + TOP_FOOT_SIZE < size - given <= pad + TOP_FOOT_SIZE + PAGE
    requires |d.segs| > 0 && d.brk == d.segs[0].End() && e.brk == d.brk - given && e.footprint == d.footprint - given
    requires e.segs == d.segs[0 := d.segs[0].(size := d.segs[0].size - given)] && e.trimCheck == TRIM_THRESHOLD
    requires e.leastAddr == d.leastAddr && e.maxFootprint == d.maxFootprint && e.noncontiguous == d.noncontiguous
    requires e.refusals == d.refusals
    ensures GivenBack(d, e, size, pad)
  {}

  lemma NotGivenNow(d: Dealings, e: Dealings, top: int, size: int, pad: int)
    requires e.trimCheck == if pad < MAX_REQUEST && top != 0 && size > d.trimCheck then WORD - 1 else d.trimCheck
    requires e == d.(refusals := e.refusals, trimCheck := e.trimCheck)
    requires if pad < MAX_REQUEST && top != 0 && size > pad + TOP_FOOT_SIZE + PAGE
                && |d.segs| > 0 && d.brk == d.segs[0].End()
             then TakenBack(d, e, size, pad) else e.refusals == d.refusals
    ensures NotGiven(d, e, top, size, pad)
  {}

  lemma TrimFacts(d: Dealings, e: Dealings, top: int, size: int, pad: int)
    ensures GivenBack(d, e, size, pad) ==> e.footprint < d.footprint
    ensures NotGiven(d, e, top, size, pad) ==>
      && e.footprint == d.footprint && e.segs == d.segs
      && (pad < MAX_REQUEST && top != 0 && size > d.trimCheck ==> e.trimCheck == WORD - 1)
  {}

  /** How large top is once the chunk at `p`, before it, has joined it. */
  ghost function TopWith(v: View, p: int): int requires p in v.c {
    v.topsize + v.c[p].size + if PrevUsed(v.c, p) then 0 else v.c[v.c[p].prev].size
  }

  /** Top, when it exceeds the threshold, is trimmed, if it can be. */
  ghost predicate Trimming(d: Dealings, e: Dealings, top: int, size: int) {
    GivenBack(d, e, size, 0) || NotGiven(d, e, top, size, 0)
  }

  /** The chunk at `p` has been given back, and so may be the end of top, if it now exceeds the threshold. */
  ghost predicate GaveBack(v: View, w: View, d: Dealings, e: Dealings, p: int) {
    && p in v.c && Coalescing(v, w.(topsize := w.topsize + d.footprint - e.footprint), p)
    && if IsA(v.c, p + v.c[p].size, Top) && TopWith(v, p) > d.trimCheck then
         Trimming(d, e, w.top, TopWith(v, p))
       else e == d
  }

  lemma CoalescingTop(v: View, w: View, p: int)
    requires p in v.c && Coalescing(v, w, p)
    requires IsA(v.c, p + v.c[p].size, Top) ==> p + v.c[p].size == v.top && v.c[v.top].size == v.topsize
    requires PrevUsed(v.c, p) || v.c[p].prev + v.c[v.c[p].prev].size == p
    ensures if IsA(v.c, p + v.c[p].size, Top) then w.topsize == TopWith(v, p) else SameTop(v, w)
  {
    hide OthersSame, Less, Bins.Binned;
  }

  lemma CoalescingThen(v: View, u: View, w: View, p: int)
    requires p in v.c && Coalescing(v, u, p) && IsA(v.c, p + v.c[p].size, Top)
    requires w.top == u.top && SameDv(u, w) && w.h == u.h && OthersSame(u.c, w.c, {u.top})
    ensures Coalescing(v, w.(topsize := u.topsize), p)
  {
    hide Less, Bins.Binned;
  }

  /** A block at `q` has moved to `p`: first a request is met there, then the chunk at `q` is given back. */
  ghost predicate Moving(v: View, w: View, d: Dealings, e: Dealings, limit: int, nb: int, p: int, q: int) {
    exists u, f :: Met(v, u, d, f, limit, nb, p) && Dealt(v, d, f, limit, nb) && GaveBack(u, w, f, e, q)
  }

  lemma MovingNow(v: View, u: View, w: View, d: Dealings, f: Dealings, e: Dealings, limit: int, nb: int, p: int, q: int)
    requires Met(v, u, d, f, limit, nb, p) && Dealt(v, d, f, limit, nb) && GaveBack(u, w, f, e, q)
    ensures Moving(v, w, d, e, limit, nb, p, q)
  {
    hide Met, Dealt, GaveBack;
  }

  // ---- growing in place

  /** A live chunk takes the front of the designated victim after it. */
  lemma DvCut(mem: Mem, smallmap: bv32, treemap: bv32, segs: seq<Segment>, v: View, p: int, nb: int)
    requires Core(mem, smallmap, treemap, v.h, v.c, segs) && Owned(v.c, v.dv, v.dvsize, v.top, v.topsize, {})
    requires IsA(v.c, p, Live) && p + v.c[p].size == v.dv && v.dv != 0 && v.c[p].size < nb && Mult8(nb)
    requires nb + MIN_CHUNK_SIZE <= v.c[p].size + v.dvsize
    ensures var r, b := p + nb, v.dv + v.dvsize;
            var d, m := Two(v.c, p, r, b, Live, Dv), ClearPinuse(SetFreeHead(SetInuse(mem, p, nb), r, b - r), b);
            && Core(m, smallmap, treemap, v.h, d, segs) && Owned(d, r, b - r, v.top, v.topsize, {})
            && Reshaped(mem, v.c, m, d, p, nb, v.c[p].size)
            && Fitted(v, v.(c := d, dv := r, dvsize := b - r), p, nb)
  {
    hide Core, Keeps, Owned, Two, WithNext, GrowWords, SetInuse, SetFreeHead, ClearPinuse, Mult8, SamePayload, Head;
    hide OthersSame, Fitted;
    var c, z, n, b, r := v.c, v.dv, v.c[p].size, v.dv + v.dvsize, p + nb;
    HomeKind(c, v.dv, v.dvsize, v.top, v.topsize, {});
    GrownReady(mem, smallmap, treemap, v.h, segs, c, p, z, v.dv, v.dvsize, v.top, v.topsize);
    MultSum(n, v.dvsize);
    MultSum(n + v.dvsize, nb);
    GrowReady(mem, smallmap, treemap, v.h, segs, c, p, r, b, z, n);
    var m := ClearPinuse(SetFreeHead(SetInuse(mem, p, nb), r, b - r), b);
    UsedGrown(mem, m, smallmap, treemap, v.h, segs, c, p, r, b, z, Dv, n);
    GrowPayload(mem, m, c, p, r, b, Dv, n);
    OwnedTwo(c, p, r, b, Live, Dv, v.dv, v.dvsize, v.top, v.topsize, {}, r, b - r, v.top, v.topsize, {});
    GrownSame(mem, smallmap, treemap, v.h, segs, c, p, r, b, Live, Dv);
    FittedDv(v, v.(c := Two(c, p, r, b, Live, Dv), dv := r, dvsize := b - r), p, nb);
  }

  /** A live chunk takes the front of top after it. */
  lemma TopCut(mem: Mem, smallmap: bv32, treemap: bv32, segs: seq<Segment>, v: View, p: int, nb: int)
    requires Core(mem, smallmap, treemap, v.h, v.c, segs) && Owned(v.c, v.dv, v.dvsize, v.top, v.topsize, {})
    requires IsA(v.c, p, Live) && p + v.c[p].size == v.top && v.top != 0 && v.c[p].size < nb && Mult8(nb)
    requires nb < v.c[p].size + v.topsize
    ensures var r, b := p + nb, v.top + v.topsize;
            var d, m := Two(v.c, p, r, b, Live, Top), Wr(SetInuse(mem, p, nb), r + 4, Head(b - r, true, false));
            && Core(m, smallmap, treemap, v.h, d, segs) && Owned(d, v.dv, v.dvsize, r, b - r, {})
            && Reshaped(mem, v.c, m, d, p, nb, v.c[p].size)
            && Fitted(v, v.(c := d, top := r, topsize := b - r), p, nb)
  {
    hide Core, Keeps, Owned, Two, WithNext, GrowWords, SetInuse, Mult8, Mult4, SamePayload, Head, OthersSame, Fitted;
    var c, z, n, b, r := v.c, v.top, v.c[p].size, v.top + v.topsize, p + nb;
    HomeKind(c, v.dv, v.dvsize, v.top, v.topsize, {});
    GrownReady(mem, smallmap, treemap, v.h, segs, c, p, z, v.dv, v.dvsize, v.top, v.topsize);
    TopSize(mem, smallmap, treemap, v.h, c, segs, z);
    GrowMult(n, v.topsize, nb);
    GrowReady(mem, smallmap, treemap, v.h, segs, c, p, r, b, z, n);
    var m := Wr(SetInuse(mem, p, nb), r + 4, Head(b - r, true, false));
    UsedGrown(mem, m, smallmap, treemap, v.h, segs, c, p, r, b, z, Top, n);
    GrowPayload(mem, m, c, p, r, b, Top, n);
    OwnedTwo(c, p, r, b, Live, Top, v.dv, v.dvsize, v.top, v.topsize, {}, v.dv, v.dvsize, r, b - r, {});
    GrownSame(mem, smallmap, treemap, v.h, segs, c, p, r, b, Live, Top);
    FittedTop(v, v.(c := Two(c, p, r, b, Live, Top), top := r, topsize := b - r), p, nb);
  }
}

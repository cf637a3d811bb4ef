/** Freeing and allocating many blocks at once, and why the tiling depends only on what is live. */
module Bulk {
  import opened Words
  import opened Bins
  import opened Chunks
  import opened Headers
  import opened Heaps
  import opened Steps
  import opened Growth
  import opened System
  import opened Resizing

  /** A live chunk of the one heap is a live chunk of the other, with the same size. */
  ghost predicate LiveIn(c: Chunks, d: Chunks) {
    forall p | p in c && c[p].kind == Live :: p in d && d[p].kind == Live && d[p].size == c[p].size
  }

  ghost predicate TilesIn(c: Chunks, d: Chunks) {
    forall p | p in c :: p in d && d[p].size == c[p].size && d[p].Used() == c[p].Used() && d[p].Last() == c[p].Last()
  }

  /**
   * The start of every chunk follows from what is live: it is live itself, a record, a base, or comes after a chunk in
   * use.
   */
  lemma StartsAgree(mem: Mem, c: Chunks, m: Mem, d: Chunks, segs: seq<Segment>, p: int)
    requires Shape(mem, c) && SegsOk(segs, c) && Shape(m, d) && SegsOk(segs, d) && LiveIn(c, d) && p in c
    ensures p in d && (c[p].Used() ==> d[p].kind == c[p].kind && d[p].size == c[p].size)
  {
    UsedAgree(c, d, segs, p);
    if !c[p].Used() {
      assert c[p].Used() || PrevUsed(c, p);
      assert PrevOk(c, p) && Placed(segs, p, c[p]);
      var q := c[p].prev;
      if q == 0 {
        var i :| 0 <= i < |segs| && segs[i].base == p;
        assert segs[i].base in d;
      } else {
        UsedAgree(c, d, segs, q);
        assert NextOk(d, q);
      }
    }
  }

  lemma UsedAgree(c: Chunks, d: Chunks, segs: seq<Segment>, p: int)
    requires SegsOk(segs, c) && SegsOk(segs, d) && LiveIn(c, d) && p in c
    ensures c[p].Used() ==> p in d && d[p].kind == c[p].kind && d[p].size == c[p].size
  {
    assert Placed(segs, p, c[p]);
    if c[p].kind == Record {
      var i :| 0 < i < |segs| && segs[i].rec == p;
      assert RecordOk(segs[i], c) && RecordOk(segs[i], d);
    }
  }

  /** Two heaps over the same segments with the same live chunks. */
  ghost predicate Alike(mem: Mem, c: Chunks, m: Mem, d: Chunks, segs: seq<Segment>) {
    && Shape(mem, c) && SegsOk(segs, c) && Shape(m, d) && SegsOk(segs, d) && LiveIn(c, d) && LiveIn(d, c)
  }

  lemma TopAgrees(mem: Mem, c: Chunks, m: Mem, d: Chunks, segs: seq<Segment>, p: int)
    requires Alike(mem, c, m, d, segs) && p in c && c[p].kind == Top && p in d && !d[p].Used()
    ensures d[p].kind == Top && d[p].size == c[p].size
  {
    assert Placed(segs, p, c[p]) && Placed(segs, p, d[p]) && ChunkOk(p, c[p]);
    BelowEnd(segs, d, p);
    assert NextOk(d, p) && ChunkOk(p, d[p]);
    if d[p].kind != Top {
      StartsAgree(m, d, mem, c, segs, p + d[p].size);
      AfterTop(segs, c, p, p + d[p].size);
    }
  }

  lemma BelowEnd(segs: seq<Segment>, d: Chunks, p: int)
    requires SegsOk(segs, d) && p in d && |segs| > 0 && segs[0].base <= p < segs[0].End()
    ensures p + d[p].size < segs[0].End()
  {
    assert Placed(segs, p, d[p]);
    var i :| 0 <= i < |segs| && HeldBy(segs[i], p, p + d[p].size);
  }

  lemma ChunkAgrees(mem: Mem, c: Chunks, m: Mem, d: Chunks, segs: seq<Segment>, p: int)
    requires Alike(mem, c, m, d, segs) && p in c
    ensures p in d && d[p].size == c[p].size && d[p].Used() == c[p].Used() && d[p].Last() == c[p].Last()
  {
    StartsAgree(mem, c, m, d, segs, p);
    StartsAgree(m, d, mem, c, segs, p);
    if c[p].Used() {
    } else if c[p].kind == Top {
      TopAgrees(mem, c, m, d, segs, p);
    } else if d[p].kind == Top {
      TopAgrees(m, d, mem, c, segs, p);
    } else {
      assert NextOk(c, p) && NextOk(d, p) && ChunkOk(p, c[p]) && ChunkOk(p, d[p]);
      StartsAgree(mem, c, m, d, segs, p + c[p].size);
      StartsAgree(m, d, mem, c, segs, p + d[p].size);
    }
  }

  /** The tiling of the segments depends only on what is live. */
  lemma SameTiling(mem: Mem, c: Chunks, m: Mem, d: Chunks, segs: seq<Segment>)
    requires Alike(mem, c, m, d, segs)
    ensures TilesIn(c, d) && TilesIn(d, c) && c.Keys == d.Keys
  {
    forall p | p in c
      ensures p in d && d[p].size == c[p].size && d[p].Used() == c[p].Used() && d[p].Last() == c[p].Last()
    {
      ChunkAgrees(mem, c, m, d, segs, p);
    }
    forall p | p in d
      ensures p in c && c[p].size == d[p].size && c[p].Used() == d[p].Used() && c[p].Last() == d[p].Last()
    {
      ChunkAgrees(m, d, mem, c, segs, p);
    }
    hide Alike;
  }

  /** The chunks of `X` are not live any more, all other live ones are as they were. */
  ghost predicate AllFreed(mem: Mem, c: Chunks, m: Mem, d: Chunks, X: set<int>) {
    Keeps(mem, c, m, d, X) && forall p | p in X :: !(p in d && d[p].kind == Live)
  }

  /**
   * However blocks are freed, together or one by one and in any order, from heaps with the same live chunks, the same
   * tiling results.
   */
  lemma FreedBoth(m0: Mem, c0: Chunks, m0': Mem, c0': Chunks, m1: Mem, c1: Chunks, m2: Mem, c2: Chunks,
                  segs: seq<Segment>, X: set<int>)
    requires Shape(m1, c1) && SegsOk(segs, c1) && Shape(m2, c2) && SegsOk(segs, c2) && LiveIn(c0, c0')
    requires LiveIn(c0', c0)
    requires AllFreed(m0, c0, m1, c1, X) && AllFreed(m0', c0', m2, c2, X)
    ensures LiveIn(c1, c2) && LiveIn(c2, c1) && TilesIn(c1, c2) && TilesIn(c2, c1) && c1.Keys == c2.Keys
  {
    LiveBoth(m0, c0, m0', c0', m1, c1, m2, c2, X);
    LiveBoth(m0', c0', m0, c0, m2, c2, m1, c1, X);
    hide Shape, SegsOk, AllFreed, LiveIn, TilesIn;
    SameTiling(m1, c1, m2, c2, segs);
  }

  lemma LiveBoth(m0: Mem, c0: Chunks, m0': Mem, c0': Chunks, m1: Mem, c1: Chunks, m2: Mem, c2: Chunks, X: set<int>)
    requires AllFreed(m0, c0, m1, c1, X) && AllFreed(m0', c0', m2, c2, X) && LiveIn(c0, c0')
    ensures LiveIn(c1, c2)
  {
    forall p | p in c1 && c1[p].kind == Live ensures p in c2 && c2[p].kind == Live && c2[p].size == c1[p].size {
      assert p !in X;
      assert Stays(m0, c0, m1, c1, p) && Stays(m0', c0', m2, c2, p);
    }
  }

  // ---- bulk free

  ghost predicate Entry(s: seq<int>, j: int, c: Chunks, X: set<int>) requires 0 <= j < |s| {
    s[j] == 0 || (s[j] - 8 in c && c[s[j] - 8].kind == Live && s[j] - 8 in X)
  }

  ghost predicate Distinct(s: seq<int>, i: int) { forall j, k | 0 <= i <= j < k < |s| && s[j] != 0 :: s[j] != s[k] }
  ghost predicate Listed(s: seq<int>, i: int, p: int) { exists j :: 0 <= i <= j < |s| && s[j] == p + 8 }

  /** From position `i` on, the array lists, once each, the chunks of `X` that are still live. */
  ghost predicate Pending(s: seq<int>, i: int, c: Chunks, X: set<int>) {
    && 0 <= i && Distinct(s, i)
    && (forall j {:trigger Entry(s, j, c, X)} | i <= j < |s| :: Entry(s, j, c, X))
    && (forall p {:trigger Listed(s, i, p)} | p in X && p in c && c[p].kind == Live :: Listed(s, i, p))
  }

  lemma ListedOn(s: seq<int>, i: int, r: seq<int>, p: int)
    requires Listed(s, i, p) && 0 <= i < |s| == |r| && s[i] != p + 8
    requires forall j | i < j < |s| && s[j] == p + 8 :: r[j] == s[j]
    ensures Listed(r, i + 1, p)
  {
    var j :| 0 <= i <= j < |s| && s[j] == p + 8;
    assert r[j] == p + 8;
  }

  lemma PendingFreed(s: seq<int>, i: int, m: Mem, c: Chunks, m': Mem, d: Chunks, X: set<int>)
    requires Pending(s, i, c, X) && i < |s| && s[i] != 0 && Freed(m, c, m', d, s[i] - 8)
    ensures Pending(s[i := 0], i + 1, d, X)
  {
    var r := s[i := 0];
    forall j | i + 1 <= j < |r| ensures Entry(r, j, d, X) {
      assert Entry(s, j, c, X);
      if s[j] != 0 { assert Stays(m, c, m', d, s[j] - 8); }
    }
    forall p | p in X && p in d && d[p].kind == Live ensures Listed(r, i + 1, p) {
      assert Listed(s, i, p);
      ListedOn(s, i, r, p);
    }
  }

  /** Only what is still to come matters. */
  lemma PendingTail(s: seq<int>, r: seq<int>, i: int, c: Chunks, X: set<int>)
    requires Pending(s, i, c, X) && |r| == |s| && forall j | i <= j < |s| :: r[j] == s[j]
    ensures Pending(r, i, c, X)
  {
    forall j | i <= j < |r| ensures Entry(r, j, c, X) { assert Entry(s, j, c, X); }
    forall p | p in X && p in c && c[p].kind == Live ensures Listed(r, i, p) {
      assert Listed(s, i, p);
      var j :| 0 <= i <= j < |s| && s[j] == p + 8;
      assert r[j] == p + 8;
    }
  }

  lemma PendingZero(s: seq<int>, i: int, c: Chunks, X: set<int>)
    requires Pending(s, i, c, X) && i < |s| && s[i] == 0 && -8 !in c
    ensures Pending(s, i + 1, c, X)
  {
    forall p | p in X && p in c && c[p].kind == Live ensures Listed(s, i + 1, p) {
      assert Listed(s, i, p);
      ListedOn(s, i, s, p);
    }
    forall j | i + 1 <= j < |s| ensures Entry(s, j, c, X) {}
  }

  /** Merging the chunk at position `i` with the next one, which position `i + 1` names. */
  lemma PendingJoined(s: seq<int>, i: int, c: Chunks, d: Chunks, X: set<int>, p: int, q: int)
    requires Pending(s, i, c, X) && i + 1 < |s| && s[i] == p + 8 && s[i + 1] == q + 8 && s[i] != 0 && s[i + 1] != 0
    requires forall x | x in c && x != p && x != q :: x in d && d[x].kind == c[x].kind
    requires forall x | x in d && d[x].kind == Live :: x == p || (x in c && c[x].kind == Live && x != q)
    requires p in d && d[p].kind == Live
    ensures Pending(s[i := 0][i + 1 := p + 8], i + 1, d, X)
  {
    var r := s[i := 0][i + 1 := p + 8];
    assert Entry(s, i, c, X);
    forall j | i + 1 <= j < |r| ensures Entry(r, j, d, X) { assert Entry(s, j, c, X); }
    forall x | x in X && x in d && d[x].kind == Live ensures Listed(r, i + 1, x) {
      if x == p {
        assert r[i + 1] == p + 8;
      } else {
        assert Listed(s, i, x);
        ListedOn(s, i, r, x);
      }
    }
  }

  lemma PendingAt(s: seq<int>, i: int, c: Chunks, X: set<int>)
    requires Pending(s, i, c, X) && i < |s| && s[i] != 0
    ensures s[i] - 8 in c && c[s[i] - 8].kind == Live && s[i] - 8 in X
  {
    assert Entry(s, i, c, X);
  }

  lemma NonePending(s: seq<int>, i: int, c: Chunks, X: set<int>)
    requires Pending(s, i, c, X) && i == |s|
    ensures forall p | p in X :: !(p in c && c[p].kind == Live)
  {
    forall p | p in X ensures !(p in c && c[p].kind == Live) {
      assert p in c && c[p].kind == Live ==> Listed(s, i, p);
    }
  }

  lemma NoNegative(mem: Mem, smallmap: bv32, treemap: bv32, h: Homes, c: Chunks, segs: seq<Segment>)
    requires Core(mem, smallmap, treemap, h, c, segs)
    ensures -8 !in c
  {
    forall p | p in c ensures p >= HEAP_MIN { assert ChunkOk(p, c[p]); }
  }

  lemma NextPending(mem: Mem, smallmap: bv32, treemap: bv32, h: Homes, c: Chunks, segs: seq<Segment>, s: seq<int>,
                    i: int, X: set<int>, p: int, next: int)
    requires Core(mem, smallmap, treemap, h, c, segs) && Pending(s, i, c, X) && i + 1 < |s| && s[i + 1] == next + 8
    requires next in c
    ensures c[next].kind == Live && next in X && s[i + 1] != 0
  {
    assert ChunkOk(next, c[next]) && Entry(s, i + 1, c, X);
    hide Core;
  }

  lemma KeepsMore(m0: Mem, c0: Chunks, m: Mem, c: Chunks, X: set<int>)
    requires Keeps(m0, c0, m, c, {})
    ensures Keeps(m0, c0, m, c, X)
  {}

  lemma KeepsInto(m0: Mem, c0: Chunks, m1: Mem, c1: Chunks, m2: Mem, c2: Chunks, X: set<int>, Y: set<int>)
    requires Keeps(m0, c0, m1, c1, X) && Keeps(m1, c1, m2, c2, Y) && Y <= X
    ensures Keeps(m0, c0, m2, c2, X)
  {
    KeepsTrans(m0, c0, m1, c1, m2, c2, X, Y);
    assert X + Y == X;
  }

  lemma KeepsFreed(m0: Mem, c0: Chunks, m1: Mem, c1: Chunks, m2: Mem, c2: Chunks, X: set<int>, p: int)
    requires Keeps(m0, c0, m1, c1, X) && Freed(m1, c1, m2, c2, p) && p in X
    ensures Keeps(m0, c0, m2, c2, X)
  {
    KeepsInto(m0, c0, m1, c1, m2, c2, X, {p});
  }

  lemma AllFreedThen(m0: Mem, c0: Chunks, m1: Mem, c1: Chunks, m2: Mem, c2: Chunks, X: set<int>)
    requires AllFreed(m0, c0, m1, c1, X) && Keeps(m1, c1, m2, c2, {})
    ensures AllFreed(m0, c0, m2, c2, X)
  {
    KeepsTrans(m0, c0, m1, c1, m2, c2, X, {});
    assert X + {} == X;
  }

  lemma MergeReady(mem: Mem, smallmap: bv32, treemap: bv32, h: Homes, segs: seq<Segment>, c: Chunks, p: int, next: int,
                   dv: int, dvsize: int, top: int, topsize: int)
    requires Core(mem, smallmap, treemap, h, c, segs) && Owned(c, dv, dvsize, top, topsize, {}) && p in c
    requires c[p].kind == Live
    requires next == p + c[p].size && next in c && c[next].kind == Live
    ensures var b := next + c[next].size;
            Region(segs, c, p, b, next) && b in c && 0 !in c && 0 < p && p + 8 <= next < b && !(p <= dv < b)
                && !(p <= top < b)
    ensures forall q | q in c && p <= q < next + c[next].size :: q == p || q == next
  {
    Region1(segs, c, p);
    RegionNext(segs, c, p, next, p);
    assert NextOk(c, next) && ChunkOk(p, c[p]) && ChunkOk(next, c[next]);
    assert 0 in c ==> ChunkOk(0, c[0]);
    hide NextLinked, PrevLinked, SegsOk, SegWords, BinsOk, Heads, Feet, Coalesced, Held, Mult8;
  }

  lemma MergeKeys(c: Chunks, p: int, next: int, b: int)
    requires p in c && next in c && p < next < b && forall q | q in c && p <= q < b :: q == p || q == next
    ensures var d := One(c, p, b, Live);
            && next !in d && (forall x | x in c && x != p && x != next :: x in d && d[x].kind == c[x].kind)
            && (forall x | x in d && d[x].kind == Live :: x == p || (x in c && c[x].kind == Live && x != next))
  {}

  // ---- cutting one block into many

  function Sum(es: seq<int>): int { if es == [] then 0 else es[0] + Sum(es[1..]) }

  lemma {:induction false} SumFrom(es: seq<int>, i: nat)
    requires i < |es|
    ensures Sum(es[i..]) == es[i] + Sum(es[i + 1..])
  {
    assert es[i..][1..] == es[i + 1..];
  }

  lemma {:induction false} SumSame(es: seq<int>, e: int)
    requires forall i | 0 <= i < |es| :: es[i] == e
    ensures Sum(es) == |es| * e
  {
    if es != [] { SumSame(es[1..], e); assert |es| * e == e + (|es| - 1) * e; }
  }

  lemma {:induction false} SumEach(es: seq<int>, i: nat)
    requires i <= |es| && forall j | 0 <= j < |es| :: LargeEnough(es[j], Live)
    ensures Mult8(Sum(es[i..])) && Sum(es[i..]) >= MIN_CHUNK_SIZE * (|es| - i)
    decreases |es| - i
  {
    if i < |es| { SumFrom(es, i); SumEach(es, i + 1); }
  }

  /** Every chunk of `X` is newly live; all others live are as they were. */
  ghost predicate HandedAll(mem: Mem, c: Chunks, m: Mem, d: Chunks, X: set<int>) {
    && Keeps(mem, c, m, d, X)
    && forall p | p in X :: p in d && d[p].kind == Live && !(p in c && c[p].kind == Live)
  }

  /** The memory as it will be once the header of the part still to be cut is written. */
  function Ahead(mem: Mem, p: int, rem: int): Mem { SetInuseHead(mem, p, rem) }

  lemma CutStep(mem: Mem, smallmap: bv32, treemap: bv32, h: Homes, segs: seq<Segment>, c: Chunks, p: int, rem: int,
                s: int,
                dv: int, dvsize: int, top: int, topsize: int)
    requires Core(Ahead(mem, p, rem), smallmap, treemap, h, c, segs) && Owned(c, dv, dvsize, top, topsize, {})
    requires p in c && c[p].kind == Live && c[p].size == rem && LargeEnough(s, Live) && LargeEnough(rem - s, Live)
    ensures var d, m := Two(c, p, p + s, p + rem, Live, Live), Ahead(SetInuseHead(mem, p, s), p + s, rem - s);
            && Core(m, smallmap, treemap, h, d, segs) && Owned(d, dv, dvsize, top, topsize, {})
            && Keeps(Ahead(mem, p, rem), c, m, d, {p, p + s})
            && p in d && d[p].kind == Live && d[p].size == s && p + s in d && d[p + s].kind == Live
            && d[p + s].size == rem - s && p + s !in c
            && (forall x | x in c && x != p :: x in d && d[x].kind == c[x].kind && d[x].size == c[x].size)
  {
    hide Core, Owned, Keeps, WithNext, Mult8, PrevUsed, Ahead, SplitWords, AfterOk, Rd, Head;
    var m0, m := Ahead(mem, p, rem), Ahead(SetInuseHead(mem, p, s), p + s, rem - s);
    var r, b := p + s, p + rem;
    AloneReady(m0, smallmap, treemap, h, segs, c, p, s, rem - s);
    SplitReady(m0, smallmap, treemap, h, segs, c, p, r, b, p, dv, dvsize, top, topsize, {});
    AheadHead(mem, p, rem);
    HeadSays(m0, smallmap, treemap, h, segs, c, p);
    AfterUsed(m0, smallmap, treemap, h, segs, c, p);
    CutWords(mem, c, p, rem, s);
    hide SetInuseHead;
    UsedSplit(m0, m, smallmap, treemap, h, segs, c, p, r, b, p);
    CutKeys(c, p, r, b);
  }

  lemma AheadHead(mem: Mem, p: int, rem: int)
    ensures Rd(Ahead(mem, p, rem), p + 4) == Head(rem, true, true)
  {}

  lemma CutWords(mem: Mem, c: Chunks, p: int, rem: int, s: int)
    requires p in c && PrevUsed(c, p) && AfterOk(Ahead(mem, p, rem), c, p + rem, true) && 8 <= s && s + 8 <= rem
    ensures SplitWords(Ahead(mem, p, rem), Ahead(SetInuseHead(mem, p, s), p + s, rem - s), c, p, p + s, p + rem)
  {
    hide Rd, Head, PrevUsed;
  }

  lemma CutKeys(c: Chunks, p: int, r: int, b: int)
    requires p in c && p < r < b && forall q | q in c && p <= q < b :: q == p
    ensures forall x | x in c && x != p ::
      x in Two(c, p, r, b, Live, Live) && Two(c, p, r, b, Live, Live)[x].kind == c[x].kind
          && Two(c, p, r, b, Live, Live)[x].size == c[x].size
  {}

  lemma AfterUsed(mem: Mem, smallmap: bv32, treemap: bv32, h: Homes, segs: seq<Segment>, c: Chunks, p: int)
    requires Core(mem, smallmap, treemap, h, c, segs) && p in c && c[p].kind == Live
    ensures AfterOk(mem, c, p + c[p].size, true)
  {
    Reading(mem, c, p);
    var b := p + c[p].size;
    assert HeadOk(mem, c, b);
  }

  ghost predicate Block(c: Chunks, r: int, size: int) { r - 8 in c && c[r - 8].kind == Live && c[r - 8].size == size }

  ghost function Next(blocks: seq<int>, j: int, end: int): int
    requires 0 <= j < |blocks|
  {
    if j + 1 < |blocks| then blocks[j + 1] else end
  }

  /** Blocks one after another from `r`, of the sizes of `es` as far as they are cut. */
  ghost predicate Row(c: Chunks, r: int, es: seq<int>, blocks: seq<int>, end: int) {
    && |blocks| <= |es|
    && (forall j {:trigger Block(c, blocks[j], es[j])} | 0 <= j < |blocks| :: Block(c, blocks[j], es[j]))
    && (forall j {:trigger Next(blocks, j, end)} | 0 <= j < |blocks| :: blocks[j] + es[j] == Next(blocks, j, end))
    && (if blocks == [] then end == r else blocks[0] == r)
  }

  ghost predicate InRow(X: set<int>, blocks: seq<int>) {
    forall j {:trigger blocks[j]} | 0 <= j < |blocks| :: blocks[j] - 8 in X
  }

  ghost predicate Pointers(mem: Mem, marray: int, blocks: seq<int>) {
    marray != 0 ==> forall j {:trigger blocks[j]} | 0 <= j < |blocks| :: Word(mem, marray, 4 * j) == blocks[j]
  }

  lemma HandedMore(m0: Mem, c0: Chunks, m: Mem, c: Chunks, m': Mem, d: Chunks, X: set<int>, p: int, r: int)
    requires HandedAll(m0, c0, m, c, X) && p in X && Keeps(m, c, m', d, {p, r}) && r !in c
    requires p in d && d[p].kind == Live && r in d && d[r].kind == Live
    requires forall x | x in c && x != p :: x in d && d[x].kind == c[x].kind
    ensures HandedAll(m0, c0, m', d, X + {r})
  {
    KeepsTrans(m0, c0, m, c, m', d, X, {p, r});
    assert X + {p, r} == X + {r};
    assert r in c0 && c0[r].kind == Live && r !in X ==> Stays(m0, c0, m, c, r);
  }

  lemma RowMore(c: Chunks, d: Chunks, r: int, es: seq<int>, blocks: seq<int>, p: int)
    requires Row(c, r, es, blocks, p + 8) && |blocks| < |es|
    requires p in d && d[p].kind == Live && d[p].size == es[|blocks|]
    requires forall j {:trigger blocks[j]} | 0 <= j < |blocks| :: blocks[j] < p + 8
    requires forall x | x in c && x != p :: x in d && d[x].kind == c[x].kind && d[x].size == c[x].size
    ensures Row(d, r, es, blocks + [p + 8], p + 8 + es[|blocks|])
  {
    var bs, end := blocks + [p + 8], p + 8 + es[|blocks|];
    forall j | 0 <= j < |bs| ensures Block(d, bs[j], es[j]) {
      if j < |blocks| { assert Block(c, blocks[j], es[j]) && blocks[j] < p + 8; }
    }
    forall j | 0 <= j < |bs| ensures bs[j] + es[j] == Next(bs, j, end) {
      if j < |blocks| { assert blocks[j] + es[j] == Next(blocks, j, p + 8); }
    }
  }

  /** Storing a pointer in the array, seen ahead of the pending header. */
  lemma StoreAhead(mem: Mem, smallmap: bv32, treemap: bv32, h: Homes, segs: seq<Segment>, c: Chunks, p: int, rem: int,
                   x: int, k: int, v: int)
    requires Core(Ahead(mem, p, rem), smallmap, treemap, h, c, segs) && x in c && c[x].kind == Live && x > p && 0 <= k
    requires 4 * k + 8 <= c[x].size
    ensures var m := Wr(mem, x + 8 + 4 * k, v);
            Core(Ahead(m, p, rem), smallmap, treemap, h, c, segs)
                && Keeps(Ahead(mem, p, rem), c, Ahead(m, p, rem), c, {x})
  {
    var m := Wr(mem, x + 8 + 4 * k, v);
    hide Core, Head;
    assert WritesIn(Ahead(mem, p, rem), Ahead(m, p, rem), x + 8, 4 * k + 4);
    PayloadCore(Ahead(mem, p, rem), Ahead(m, p, rem), smallmap, treemap, h, c, segs, x, 4 * k + 4);
  }

  /** The pointer array, if it is in the heap, is live, large enough and lies after what is being cut. */
  ghost predicate ArrayOk(c: Chunks, X: set<int>, marray: int, n: int, end: int) {
    marray != 0 ==>
      && marray - 8 in X && marray - 8 in c && c[marray - 8].kind == Live
      && c[marray - 8].size >= 4 * n + 4 && marray - 8 >= end
  }

  /** Part way through: the blocks cut so far, and the rest as one chunk whose header is still to be written. */
  ghost predicate Cutting(m: Mem, c: Chunks, m0: Mem, c0: Chunks, X: set<int>, r: int, es: seq<int>, blocks: seq<int>,
                          p: int, rem: int, marray: int) {
    && |blocks| < |es| && rem >= Sum(es[|blocks|..]) && Mult8(rem) && p >= r - 8
    && p in c && c[p].kind == Live && c[p].size == rem && p in X && HandedAll(m0, c0, m, c, X)
    && Row(c, r, es, blocks, p + 8) && InRow(X, blocks) && Below(blocks, p) && ArrayOk(c, X, marray, |es|, p + rem)
    && Pointers(m, marray, blocks)
  }

  ghost predicate Below(blocks: seq<int>, p: int) {
    forall j {:trigger blocks[j]} | 0 <= j < |blocks| :: blocks[j] < p + 8
  }

  lemma CutInit(m: Mem, c: Chunks, m0: Mem, c0: Chunks, X: set<int>, r: int, es: seq<int>, rem: int, marray: int)
    requires es != [] && rem >= Sum(es) && Mult8(rem) && r - 8 in c && c[r - 8].kind == Live && c[r - 8].size == rem
    requires r - 8 in X && HandedAll(m0, c0, m, c, X)
    requires ArrayOk(c, X, marray, |es|, r - 8 + rem)
    ensures Cutting(m, c, m0, c0, X, r, es, [], r - 8, rem, marray)
  {
    assert es[0..] == es;
  }

  /** A pointer to the next block goes into the array. */
  lemma CutStore(mem: Mem, smallmap: bv32, treemap: bv32, h: Homes, segs: seq<Segment>, c: Chunks, m0: Mem, c0: Chunks,
                 X: set<int>,
                 r: int, es: seq<int>, blocks: seq<int>, p: int, rem: int, marray: int)
    requires Core(Ahead(mem, p, rem), smallmap, treemap, h, c, segs)
    requires Cutting(Ahead(mem, p, rem), c, m0, c0, X, r, es, blocks, p, rem, marray) && marray != 0 && rem > 0
    ensures marray >= p + rem + 8
    ensures var m := Wr(mem, marray + 4 * |blocks|, p + 8);
            && Core(Ahead(m, p, rem), smallmap, treemap, h, c, segs)
            && Cutting(Ahead(m, p, rem), c, m0, c0, X, r, es, blocks, p, rem, marray)
            && Word(Ahead(m, p, rem), marray, 4 * |blocks|) == p + 8
  {
    var m := Wr(mem, marray + 4 * |blocks|, p + 8);
    hide Core, Keeps, Row, Mult8, Head;
    StoreAhead(mem, smallmap, treemap, h, segs, c, p, rem, marray - 8, |blocks|, p + 8);
    HandedStore(m0, c0, Ahead(mem, p, rem), Ahead(m, p, rem), c, X, marray - 8);
    forall j {:trigger blocks[j]} | 0 <= j < |blocks| ensures Word(Ahead(m, p, rem), marray, 4 * j) == blocks[j] {
      assert Word(Ahead(mem, p, rem), marray, 4 * j) == blocks[j];
    }
  }

  lemma HandedStore(m0: Mem, c0: Chunks, m: Mem, m': Mem, c: Chunks, X: set<int>, x: int)
    requires HandedAll(m0, c0, m, c, X) && x in X && Keeps(m, c, m', c, {x})
    ensures HandedAll(m0, c0, m', c, X)
  {
    KeepsTrans(m0, c0, m, c, m', c, X, {x});
    assert X + {x} == X;
  }

  /** No word of [lo, hi) changes but the headers of the chunks in `X`. */
  ghost predicate Untouched(m: Mem, m': Mem, lo: int, hi: int, X: set<int>) {
    forall w {:trigger Rd(m', w)} | lo <= w < hi && w - 4 !in X :: Rd(m', w) == Rd(m, w)
  }

  lemma HeadUntouched(m: Mem, m1: Mem, lo: int, hi: int, X: set<int>, Y: set<int>, p: int, size: int)
    requires Untouched(m, m1, lo, hi, X) && X <= Y && (p in X || p + 4 >= hi)
    ensures Untouched(m, SetInuseHead(m1, p, size), lo, hi, Y)
  {}

  lemma UntouchedBoth(m: Mem, m1: Mem, m2: Mem, lo: int, hi: int, X: set<int>)
    requires Untouched(m, m1, lo, hi, {}) && Untouched(m1, m2, lo, hi, X)
    ensures Untouched(m, m2, lo, hi, X)
  {}

  lemma StoreUntouched(m: Mem, m1: Mem, lo: int, hi: int, X: set<int>, a: int, v: int)
    requires Untouched(m, m1, lo, hi, X) && a >= hi
    ensures Untouched(m, Wr(m1, a, v), lo, hi, X)
  {}

  /** Nothing in the middle of a block is the start of a chunk. */
  lemma NoneInside(mem: Mem, smallmap: bv32, treemap: bv32, h: Homes, segs: seq<Segment>, c: Chunks, X: set<int>,
                   b: int, size: int)
    requires Core(mem, smallmap, treemap, h, c, segs) && Block(c, b, size) && forall x | x in X :: x in c
    ensures forall x | x in X :: !(b - 4 <= x < b + size - 8)
  {
    hide SegsOk, SegWords, BinsOk, BinView, Tiled, Coalesced, Heads, Feet;
    OnlyIn(mem, c, b - 8);
  }

  /** So words of it that were zero still are. */
  lemma ElementZero(m: Mem, m1: Mem, X: set<int>, lo: int, n: int, b: int, size: int)
    requires ZeroContents(m, lo, n) && Untouched(m, m1, lo, lo + n, X) && n % 4 == 0 && (b - lo) % 4 == 0
    requires lo <= b && b + size - 4 <= lo + n && size % 4 == 0 && forall x | x in X :: !(b - 4 <= x < b + size - 8)
    ensures ZeroContents(m1, b, size - 4)
  {
    hide Scale;
    forall k {:trigger Word(m1, b, k)} | 0 <= k < size - 4 && k % 4 == 0
      ensures SameBytes(Word(m1, b, k), 0, size - 4 - k)
    {
      assert b + k - 4 !in X && (b - lo + k) % 4 == 0;
      assert SameBytes(Word(m, lo, b - lo + k), 0, n - (b - lo + k)) && n - (b - lo + k) >= 4;
      assert Word(m, lo, b - lo + k) == Rd(m, b + k) == Rd(m1, b + k);
    }
  }

  lemma Aligned4(mem: Mem, smallmap: bv32, treemap: bv32, h: Homes, segs: seq<Segment>, c: Chunks, b: int, size: int,
                 r: int)
    requires Core(mem, smallmap, treemap, h, c, segs) && Block(c, b, size) && Mult8(r)
    ensures (b - r) % 4 == 0 && size % 4 == 0
  {
    hide SegsOk, SegWords, BinsOk, BinView, Coalesced, Heads, Feet, NextLinked, PrevLinked, Apart, Mult8;
    assert ChunkOk(b - 8, c[b - 8]);
    Mult8Mod(b - 8, r, size);
  }

  lemma Mult8Mod(p: int, r: int, size: int)
    requires Mult8(p) && Mult8(r) && Mult8(size)
    ensures (p + 8 - r) % 4 == 0 && size % 4 == 0
  {}

  lemma ZeroLess(m: Mem, b: int, n: int, k: int)
    requires ZeroContents(m, b, n) && k <= n && k % 4 == 0
    ensures ZeroContents(m, b, k)
  {
    forall i {:trigger Word(m, b, i)} | 0 <= i < k && i % 4 == 0 ensures SameBytes(Word(m, b, i), 0, k - i) {
      assert SameBytes(Word(m, b, i), 0, n - i) && n - i >= 4;
    }
  }

  lemma {:induction false} RowWithin(c: Chunks, r: int, es: seq<int>, blocks: seq<int>, end: int, j: nat)
    requires Row(c, r, es, blocks, end) && |blocks| == |es| && j < |blocks|
    requires forall i | 0 <= i < |es| :: es[i] >= 0
    ensures blocks[j] + es[j] <= end
    decreases |blocks| - j
  {
    assert blocks[j] + es[j] == Next(blocks, j, end);
    if j + 1 < |blocks| { RowWithin(c, r, es, blocks, end, j + 1); }
  }

  lemma {:induction false} RowFrom(c: Chunks, r: int, es: seq<int>, blocks: seq<int>, end: int, j: nat)
    requires Row(c, r, es, blocks, end) && |blocks| == |es| && j < |blocks|
    requires forall i | 0 <= i < |es| :: es[i] >= 0
    ensures r <= blocks[j]
  {
    if j > 0 {
      RowFrom(c, r, es, blocks, end, j - 1);
      assert blocks[j - 1] + es[j - 1] == Next(blocks, j - 1, end);
    }
  }

  lemma RowBlocks(c: Chunks, r: int, es: seq<int>, blocks: seq<int>, end: int)
    requires Row(c, r, es, blocks, end) && |blocks| == |es| > 0
    ensures Block(c, blocks[0], es[0]) && Block(c, blocks[|es| - 1], es[|es| - 1])
  {
    assert Block(c, blocks[0], es[0]) && Block(c, blocks[|es| - 1], es[|es| - 1]);
  }

  /** All bytes of all blocks of a row are zero. */
  ghost predicate AllZero(m: Mem, es: seq<int>, blocks: seq<int>) requires |es| == |blocks| {
    forall j {:trigger blocks[j]} | 0 <= j < |blocks| :: ZeroContents(m, blocks[j], es[j] - 4)
  }

  lemma RowZero(mem: Mem, smallmap: bv32, treemap: bv32, h: Homes, segs: seq<Segment>, c: Chunks, m: Mem, X: set<int>,
                r: int, n: int, es: seq<int>, blocks: seq<int>, end: int)
    requires Core(mem, smallmap, treemap, h, c, segs) && Row(c, r, es, blocks, end) && |blocks| == |es| > 0
    requires (forall x | x in X :: x in c) && Mult8(r) && Mult8(end) && end - r - 4 <= n
    requires ZeroContents(m, r, n) && Untouched(m, mem, r, end - 4, X)
    ensures AllZero(mem, es, blocks)
  {
    forall j | 0 <= j < |es| ensures es[j] >= 0 {
      assert Block(c, blocks[j], es[j]);
      assert ChunkOk(blocks[j] - 8, c[blocks[j] - 8]);
    }
    hide Core;
    ZeroLess(m, r, n, end - r - 4);
    hide ZeroContents, Untouched;
    forall j {:trigger blocks[j]} | 0 <= j < |blocks| ensures ZeroContents(mem, blocks[j], es[j] - 4) {
      assert Block(c, blocks[j], es[j]);
      RowWithin(c, r, es, blocks, end, j);
      RowFrom(c, r, es, blocks, end, j);
      NoneInside(mem, smallmap, treemap, h, segs, c, X, blocks[j], es[j]);
      Aligned4(mem, smallmap, treemap, h, segs, c, blocks[j], es[j], r);
      ElementZero(m, mem, X, r, end - r - 4, blocks[j], es[j]);
    }
  }

  /** The chunks from `b` on have the sizes they had. */
  ghost predicate Later(c: Chunks, d: Chunks, b: int) {
    forall q | q in c && q >= b :: q in d && d[q].size == c[q].size
  }

  lemma CutOne(mem: Mem, smallmap: bv32, treemap: bv32, h: Homes, segs: seq<Segment>, c: Chunks, m0: Mem, c0: Chunks,
               X: set<int>, r: int, es: seq<int>, blocks: seq<int>, p: int, rem: int, marray: int, dv: int,
               dvsize: int, top: int, topsize: int)
    requires Core(Ahead(mem, p, rem), smallmap, treemap, h, c, segs)
    requires Cutting(Ahead(mem, p, rem), c, m0, c0, X, r, es, blocks, p, rem, marray)
    requires Owned(c, dv, dvsize, top, topsize, {}) && |blocks| + 1 < |es|
    requires (forall j | 0 <= j < |es| :: LargeEnough(es[j], Live))
    requires marray != 0 ==> Word(Ahead(mem, p, rem), marray, 4 * |blocks|) == p + 8
    ensures var s := es[|blocks|]; var m, d := Ahead(SetInuseHead(mem, p, s), p + s, rem - s), Two(c, p, p + s, p + rem,
        Live, Live);
            && Core(m, smallmap, treemap, h, d, segs) && Owned(d, dv, dvsize, top, topsize, {})
            && Cutting(m, d, m0, c0, X + {p + s}, r, es, blocks + [p + 8], p + s, rem - s, marray)
            && Later(c, d, p + rem) && Sum(es[|blocks|..]) == s + Sum(es[|blocks| + 1..])
  {
    hide Core, Owned, Keeps, Two, Ahead, Row, HandedAll, Mult8, Pointers, Later;
    var n := |blocks|;
    var s := es[n];
    SumFrom(es, n);
    RestLarge(es, n, rem);
    CutStep(mem, smallmap, treemap, h, segs, c, p, rem, s, dv, dvsize, top, topsize);
    var m, d := Ahead(SetInuseHead(mem, p, s), p + s, rem - s), Two(c, p, p + s, p + rem, Live, Live);
    HandedMore(m0, c0, Ahead(mem, p, rem), c, m, d, X, p, p + s);
    RowMore(c, d, r, es, blocks, p);
    TwoLater(c, p, p + s, p + rem);
    CutPointers(mem, p, rem, s, marray, blocks);
    hide SetInuseHead;
    var bs := blocks + [p + 8];
    forall j {:trigger bs[j]} | 0 <= j < |bs| ensures bs[j] - 8 in X + {p + s} && bs[j] < p + s + 8 {
      if j < n { assert bs[j] == blocks[j]; }
    }
  }

  lemma RestLarge(es: seq<int>, n: nat, rem: int)
    requires n + 1 < |es| && (forall j | 0 <= j < |es| :: LargeEnough(es[j], Live)) && rem >= es[n] + Sum(es[n + 1..])
    requires Mult8(rem)
    ensures LargeEnough(rem - es[n], Live) && Mult8(rem - es[n]) && es[n] >= MIN_CHUNK_SIZE
  {
    SumEach(es, n + 1);
  }

  lemma CutPointers(mem: Mem, p: int, rem: int, s: int, marray: int, blocks: seq<int>)
    requires Pointers(Ahead(mem, p, rem), marray, blocks)
    requires (marray != 0 ==> marray - 8 >= p + rem && Word(Ahead(mem, p, rem), marray, 4 * |blocks|) == p + 8)
    requires 0 < s < rem
    ensures Pointers(Ahead(SetInuseHead(mem, p, s), p + s, rem - s), marray, blocks + [p + 8])
  {
    hide Head;
    var bs := blocks + [p + 8];
    if marray != 0 {
      forall j {:trigger bs[j]} | 0 <= j < |bs|
        ensures Word(Ahead(SetInuseHead(mem, p, s), p + s, rem - s), marray, 4 * j) == bs[j]
      {
        if j < |blocks| { assert bs[j] == blocks[j]; }
        assert Word(Ahead(mem, p, rem), marray, 4 * j) == bs[j];
      }
    }
  }

  /** The last element takes all that is left. */
  lemma CutLast(m: Mem, c: Chunks, m0: Mem, c0: Chunks, X: set<int>, r: int, es: seq<int>, blocks: seq<int>, p: int,
                rem: int, marray: int)
    requires Cutting(m, c, m0, c0, X, r, es, blocks, p, rem, marray) && |blocks| + 1 == |es|
    requires marray != 0 ==> Word(m, marray, 4 * |blocks|) == p + 8
    ensures var bs := blocks + [p + 8];
            && Row(c, r, es[|es| - 1 := rem], bs, p + 8 + rem) && InRow(X, bs) && Pointers(m, marray, bs)
            && HandedAll(m0, c0, m, c, X)
  {
    hide HandedAll, Mult8, Row, Pointers, InRow, ArrayOk;
    var n := |es| - 1;
    var fs := es[n := rem];
    RowSame(c, r, es, fs, blocks, p + 8);
    RowMore(c, c, r, fs, blocks, p);
    LastPointer(m, X, marray, blocks, p);
  }

  lemma LastPointer(m: Mem, X: set<int>, marray: int, blocks: seq<int>, p: int)
    requires InRow(X, blocks) && p in X && Pointers(m, marray, blocks)
    requires (marray != 0 ==> Word(m, marray, 4 * |blocks|) == p + 8)
    ensures InRow(X, blocks + [p + 8]) && Pointers(m, marray, blocks + [p + 8])
  {
    var bs := blocks + [p + 8];
    forall j {:trigger bs[j]} | 0 <= j < |bs|
      ensures bs[j] - 8 in X && (marray != 0 ==> Word(m, marray, 4 * j) == bs[j])
    {
      if j < |blocks| { assert bs[j] == blocks[j]; }
    }
  }

  lemma RowSame(c: Chunks, r: int, es: seq<int>, fs: seq<int>, blocks: seq<int>, end: int)
    requires Row(c, r, es, blocks, end) && |fs| == |es| && forall j | 0 <= j < |blocks| :: fs[j] == es[j]
    ensures Row(c, r, fs, blocks, end)
  {
    forall j | 0 <= j < |blocks| ensures Block(c, blocks[j], fs[j]) && blocks[j] + fs[j] == Next(blocks, j, end) {
      assert Block(c, blocks[j], es[j]) && blocks[j] + es[j] == Next(blocks, j, end);
    }
  }

  lemma SizePositive(mem: Mem, smallmap: bv32, treemap: bv32, h: Homes, c: Chunks, segs: seq<Segment>, p: int)
    requires Core(mem, smallmap, treemap, h, c, segs) && p in c
    ensures c[p].size > 0
  {
    assert ChunkOk(p, c[p]);
  }

  lemma TwoLater(c: Chunks, p: int, r: int, b: int)
    requires p in c && p < r < b
    ensures Later(c, Two(c, p, r, b, Live, Live), b)
  {}

  lemma LastSize(es: seq<int>, rem: int)
    requires es != [] && rem >= Sum(es[|es| - 1..])
    ensures rem >= es[|es| - 1] == Sum(es[|es| - 1..])
  {
    var n := |es| - 1;
    assert es[n..] == [es[n]];
    assert Sum([es[n]]) == es[n] + Sum([]);
  }

  lemma AheadIs(mem: Mem, p: int, rem: int)
    ensures SetInuseHead(mem, p, rem) == Ahead(mem, p, rem)
  {}

  /** The chunk sizes of the elements. */
  function ElementSizes(n: nat, sizes: seq<int>, same: bool): (es: seq<int>)
    requires if same then |sizes| > 0 else |sizes| == n
    ensures |es| == n && forall i | 0 <= i < n :: es[i] == RequestToSize(sizes[if same then 0 else i])
  {
    seq(n, i requires 0 <= i < n => RequestToSize(sizes[if same then 0 else i]))
  }

  lemma ElementsLarge(n: nat, sizes: seq<int>, same: bool)
    requires (if same then |sizes| > 0 else |sizes| == n) && forall i | 0 <= i < |sizes| :: 0 <= sizes[i] < WORD
    ensures forall i | 0 <= i < n :: LargeEnough(ElementSizes(n, sizes, same)[i], Live)
  {
    var es := ElementSizes(n, sizes, same);
    forall i | 0 <= i < n ensures LargeEnough(es[i], Live) { RequestFacts(sizes[if same then 0 else i]); }
  }

  /** The total size of the elements, by multiplication or by adding up, in words of 32 bits. */
  method Contents(n: nat, sizes: seq<int>, same: bool) returns (total: int)
    requires if same then |sizes| > 0 else |sizes| == n
    ensures total == Sum(ElementSizes(n, sizes, same)) % WORD
  {
    ghost var es := ElementSizes(n, sizes, same);
    if same {
      total := n * RequestToSize(sizes[0]) % WORD;
      SumSame(es, RequestToSize(sizes[0]));
    } else {
      total := 0;
      var i := 0;
      assert es[0..] == es;
      while i < n
        invariant 0 <= i <= n && (total + Sum(es[i..])) % WORD == Sum(es) % WORD && 0 <= total < WORD
      {
        SumFrom(es, i);
        Carried(total, es[i], Sum(es[i + 1..]));
        total := (total + RequestToSize(sizes[i])) % WORD;
        i := i + 1;
      }
    }
  }

  lemma Carried(a: int, b: int, rest: int)
    ensures ((a + b) % WORD + rest) % WORD == (a + (b + rest)) % WORD
  {}

  /** request2size in 32 bits. */
  function RequestToSize32(req: int): int { if req < MIN_REQUEST then MIN_CHUNK_SIZE else PadRequest(req) % WORD }
  /** The room for the array of pointers, as the code computes it. */
  function ArraySize32(n: nat, given: bool): int { if given then 0 else RequestToSize32(4 * n % WORD) }

  /** What the elements and the array of pointers take up. */
  function TrueSize(n: nat, sizes: seq<int>, same: bool, given: bool): int
    requires if same then |sizes| > 0 else |sizes| == n
  {
    Sum(ElementSizes(n, sizes, same)) + if given then 0 else RequestToSize(4 * n)
  }

  /** What the code takes it for. */
  function CodeSize(n: nat, sizes: seq<int>, same: bool, given: bool): int
    requires if same then |sizes| > 0 else |sizes| == n
  {
    (Sum(ElementSizes(n, sizes, same)) % WORD + ArraySize32(n, given)) % WORD
  }

  /** The size is computed right exactly when it fits a word, which a caller can check beforehand. */
  lemma CodeSizeExact(n: nat, sizes: seq<int>, same: bool, given: bool)
    requires (if same then |sizes| > 0 else |sizes| == n) && forall i | 0 <= i < |sizes| :: 0 <= sizes[i] < WORD
    ensures CodeSize(n, sizes, same, given) == TrueSize(n, sizes, same, given) <==>
            TrueSize(n, sizes, same, given) < WORD
    ensures TrueSize(n, sizes, same, given) < WORD ==>
      && Sum(ElementSizes(n, sizes, same)) % WORD == Sum(ElementSizes(n, sizes, same))
      && ArraySize32(n, given) == if given then 0 else RequestToSize(4 * n)
  {
    ElementsLarge(n, sizes, same);
    var es := ElementSizes(n, sizes, same);
    SumEach(es, 0);
    assert es[0..] == es;
    hide Sum, LargeEnough;
    ArrayRoom(n);
    WordSum(Sum(es), ArraySize32(n, given));
  }

  lemma ArrayRoom(n: nat)
    ensures RequestToSize(4 * n) >= MIN_CHUNK_SIZE
    ensures RequestToSize(4 * n) < WORD ==> RequestToSize32(4 * n % WORD) == RequestToSize(4 * n)
    ensures 0 <= RequestToSize32(4 * n % WORD) < WORD
  {}

  lemma WordSum(a: int, b: int)
    ensures 0 <= (a % WORD + b) % WORD < WORD && (0 <= a && 0 <= b && a + b < WORD ==> (a % WORD + b) % WORD == a + b)
    ensures 0 <= a < WORD ==> a % WORD == a
  {}

  /** For 2^30 + 1 elements of twelve bytes, 32 bytes are asked for. */
  lemma ElementsWrap()
    ensures var n := 0x4000_0001; TrueSize(n, [12], true, false) > WORD && CodeSize(n, [12], true, false) == 32
  {
    var n := 0x4000_0001;
    var es := ElementSizes(n, [12], true);
    assert RequestToSize(12) == 16;
    SumSame(es, 16);
    hide Sum, ElementSizes;
  }

  lemma WrSwap(m: Mem, a: int, x: int, b: int, y: int)
    requires a != b
    ensures Wr(Wr(m, a, x), b, y) == Wr(Wr(m, b, y), a, x)
  {}

  lemma AheadSame(mem: Mem, smallmap: bv32, treemap: bv32, h: Homes, segs: seq<Segment>, c: Chunks, p: int)
    requires Core(mem, smallmap, treemap, h, c, segs) && p in c && c[p].kind == Live && PrevUsed(c, p)
    ensures Ahead(mem, p, c[p].size) == mem
  {
    assert HeadOk(mem, c, p) && ChunkOk(p, c[p]);
  }

  lemma HandedOne(m0: Mem, c0: Chunks, m: Mem, c: Chunks, p: int)
    requires Handed(m0, c0, m, c, p)
    ensures HandedAll(m0, c0, m, c, {p})
  {}

  lemma ArraySwap(mem: Mem, p: int, contents: int, rest: int)
    requires contents > 0
    ensures Ahead(SetInuseHead(mem, p + contents, rest), p, contents)
            == Ahead(SetInuseHead(mem, p, contents), p + contents, rest)
  {
    WrSwap(mem, p + contents + 4, Head(rest, true, true), p + 4, Head(contents, true, true));
  }

  lemma NoneHanded(mem: Mem, c: Chunks)
    ensures HandedAll(mem, c, mem, c, {})
  {
    KeepsSame(mem, c);
  }

  lemma IallocFacts(es: seq<int>, n: int, arraySize: int, contents: int)
    requires es != [] && (forall j | 0 <= j < |es| :: LargeEnough(es[j], Live)) && n == |es| && contents == Sum(es)
    requires (arraySize == 0 || arraySize == RequestToSize(4 * n))
    requires contents + arraySize < WORD
    ensures contents >= MIN_CHUNK_SIZE && Mult8(contents) && Mult8(arraySize) && 0 <= contents + arraySize - 4 < WORD
    ensures RequestToSize(contents + arraySize - 4) == contents + arraySize
    ensures (arraySize != 0 ==> arraySize >= 4 * n + 4 && arraySize >= MIN_CHUNK_SIZE)
  {
    SumEach(es, 0);
    assert es[0..] == es;
    if arraySize != 0 { Padded(n); }
    RequestFacts(contents + arraySize - 4);
    hide RequestToSize, Sum, LargeEnough;
  }

  lemma Padded(n: int)
    requires 0 < n && RequestToSize(4 * n) < WORD
    ensures Mult8(RequestToSize(4 * n)) && RequestToSize(4 * n) >= 4 * n + 4 && RequestToSize(4 * n) >= MIN_CHUNK_SIZE
  {}

  lemma RowEnd(c: Chunks, r: int, es: seq<int>, blocks: seq<int>, end: int)
    requires Row(c, r, es, blocks, end) && |blocks| == |es| && blocks != []
    ensures blocks[0] == r && end == blocks[|blocks| - 1] + es[|es| - 1]
  {
    assert blocks[|blocks| - 1] + es[|blocks| - 1] == Next(blocks, |blocks| - 1, end);
  }
}

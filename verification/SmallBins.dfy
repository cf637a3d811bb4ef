/** The 32 small bins: circular lists through headers in the allocator's state, one chunk size each. */
module SmallBins {
  import opened Words
  import opened BinMaps
  import opened Tries
  import opened TreeLinks
  import opened FreeLinks
  import opened TreeUnlink

  /** smallbin_at: repositioned so that the header's links sit where a chunk's do. */
  function BinAt(i: nat): int { SMALLBINS + 8 * i }
  function SmallIndex(s: nat): nat { s / 8 }

  /** The neighbours of position `k` in the list of header `b`. */
  ghost function NextIn(b: int, ring: seq<int>, k: nat): int
    requires k < |ring|
  {
    if k + 1 < |ring| then ring[k + 1] else b
  }

  ghost function PrevIn(b: int, ring: seq<int>, k: nat): int requires k < |ring| { if k > 0 then ring[k - 1] else b }

  ghost predicate Chain(mem: Mem, b: int, ring: seq<int>) {
    && (ring != [] ==> Fd(mem, b) == ring[0] && Bk(mem, b) == ring[|ring| - 1])
    && (forall k {:trigger Fd(mem, ring[k])} | 0 <= k < |ring| :: Fd(mem, ring[k]) == NextIn(b, ring, k))
    && (forall k {:trigger Bk(mem, ring[k])} | 0 <= k < |ring| :: Bk(mem, ring[k]) == PrevIn(b, ring, k))
  }

  /** The neighbours of a chunk in its list point back at it. */
  lemma ChainBack(mem: Mem, b: int, ring: seq<int>, k: nat)
    requires Chain(mem, b, ring) && k < |ring|
    ensures Bk(mem, Fd(mem, ring[k])) == ring[k] && Fd(mem, Bk(mem, ring[k])) == ring[k]
  {
    hide Fd, Bk;
    if k + 1 < |ring| { assert Bk(mem, ring[k + 1]) == ring[k]; }
    if k > 0 { assert Fd(mem, ring[k - 1]) == ring[k]; }
  }

  /** A clear bit means an empty bin, whatever the header's links still say. */
  ghost predicate SmallAt(mem: Mem, ring: seq<int>, i: nat, smallmap: bv32, f: map<int, int>)
    requires i < 32
  {
    && (Marked(smallmap, i) <==> ring != []) && NoDup(ring)
    && (forall p | p in ring :: p in f && f[p] == 8 * i)
    && Chain(mem, BinAt(i), ring)
  }

  ghost predicate SmallOk(mem: Mem, small: seq<seq<int>>, smallmap: bv32, f: map<int, int>) {
    |small| == 32 && forall i: nat | i < 32 :: SmallAt(mem, small[i], i, smallmap, f)
  }

  /** Every chunk of `f` is in the bin of its size. */
  ghost predicate AllInSmall(small: seq<seq<int>>, f: map<int, int>)
    requires |small| == 32
  {
    forall p | p in f :: MIN_CHUNK_SIZE <= f[p] < MIN_LARGE_SIZE && Mult8(f[p]) && p in small[f[p] / 8]
  }

  ghost predicate Kept(mem: Mem, m: Mem, p: int) { Fd(m, p) == Fd(mem, p) && Bk(m, p) == Bk(mem, p) }

  lemma ChainFrame(mem: Mem, m: Mem, b: int, ring: seq<int>)
    requires Chain(mem, b, ring) && Kept(mem, m, b) && forall p | p in ring :: Kept(mem, m, p)
    ensures Chain(m, b, ring)
  {
    forall k | 0 <= k < |ring| ensures Fd(m, ring[k]) == NextIn(b, ring, k) && Bk(m, ring[k]) == PrevIn(b, ring, k) {
      assert ring[k] in ring && Kept(mem, m, ring[k]);
      assert Fd(mem, ring[k]) == NextIn(b, ring, k) && Bk(mem, ring[k]) == PrevIn(b, ring, k);
    }
  }

  /** Two list nodes, header or chunk, are the same or at least 16 bytes apart (headers: 8, and below the heap). */
  ghost predicate Clear16(p: int, q: int) { p == q || p + 16 <= q || q + 16 <= p }

  // ---- insertion at the front

  /** Chunk `p` is linked in between a bin's header and the chunk that was first. */
  function LinkFront(mem: Mem, b: int, d: int, p: int): Mem {
    Wr(Wr(Wr(Wr(mem, b + 8, p), d + 12, p), p + 8, d), p + 12, b)
  }

  lemma FrontAt(mem: Mem, b: int, d: int, p: int, q: int)
    requires b < HEAP_MIN - 16 && (d == b || d >= HEAP_MIN) && p >= HEAP_MIN && p != d && Clear16(p, d)
    requires q >= HEAP_MIN && Clear16(q, p) && Clear16(q, d)
    ensures var m := LinkFront(mem, b, d, p);
            && Fd(m, q) == (if q == p then d else Fd(mem, q))
            && Bk(m, q) == (if q == p then b else if q == d then p else Bk(mem, q))
            && Fd(m, b) == p && Bk(m, b) == (if d == b then p else Bk(mem, b))
            && (forall a | a < HEAP_MIN && a != b + 8 && a != b + 12 :: Rd(m, a) == Rd(mem, a))
  {
    hide Rd, Wr;
  }

  lemma FrontChain(mem: Mem, b: int, ring: seq<int>, p: int)
    requires Chain(mem, b, ring) && b < HEAP_MIN - 16 && p >= HEAP_MIN && p !in ring && NoDup(ring)
    requires forall q | q in ring :: q >= HEAP_MIN && Clear16(p, q) && forall r | r in ring :: Clear16(q, r)
    ensures Chain(LinkFront(mem, b, if ring == [] then b else ring[0], p), b, [p] + ring)
  {
    var d := if ring == [] then b else ring[0];
    var m := LinkFront(mem, b, d, p);
    var r := [p] + ring;
    assert ring != [] ==> ring[0] in ring && ring[|ring| - 1] in ring;
    hide LinkFront, Rd, Wr, Fd, Bk;
    FrontAt(mem, b, d, p, p);
    forall k | 0 <= k < |r| ensures Fd(m, r[k]) == NextIn(b, r, k) && Bk(m, r[k]) == PrevIn(b, r, k) {
      if k > 0 {
        assert r[k] == ring[k - 1] && ring[k - 1] in ring;
        FrontAt(mem, b, d, p, r[k]);
        assert Fd(mem, ring[k - 1]) == NextIn(b, ring, k - 1) && Bk(mem, ring[k - 1]) == PrevIn(b, ring, k - 1);
      }
    }
  }

  // ---- removal

  /** The neighbours of a chunk are linked to each other, past it. */
  function Unchain(mem: Mem, p: int): Mem { var d, b := Fd(mem, p), Bk(mem, p); Wr(Wr(mem, d + 12, b), b + 8, d) }

  lemma UnchainAt(mem: Mem, h: int, p: int, q: int)
    requires var d, b := Fd(mem, p), Bk(mem, p);
             && h < HEAP_MIN - 16 && (d == h || d >= HEAP_MIN) && (b == h || b >= HEAP_MIN) && Clear16(d, b)
             && q >= HEAP_MIN && Clear16(q, d) && Clear16(q, b)
    ensures var d, b := Fd(mem, p), Bk(mem, p); var m := Unchain(mem, p);
            && Fd(m, q) == (if q == b then d else Fd(mem, q))
            && Bk(m, q) == (if q == d then b else Bk(mem, q))
            && Fd(m, h) == (if b == h then d else Fd(mem, h)) && Bk(m, h) == (if d == h then b else Bk(mem, h))
            && (forall a | a < HEAP_MIN && a != h + 8 && a != h + 12 :: Rd(m, a) == Rd(mem, a))
  {
    hide Rd, Wr;
  }

  /** Cutting position `k` out of a list joins its neighbours. */
  lemma CutNeighbours(b: int, ring: seq<int>, k: nat, j: nat)
    requires k < |ring| && NoDup(ring) && j < |ring| - 1 && b !in ring
    ensures var r := Cut(ring, k); var q := if j < k then j else j + 1;
            && r[j] == ring[q]
            && NextIn(b, r, j) == (if r[j] == PrevIn(b, ring, k) then NextIn(b, ring, k) else NextIn(b, ring, q))
            && PrevIn(b, r, j) == (if r[j] == NextIn(b, ring, k) then PrevIn(b, ring, k) else PrevIn(b, ring, q))
  {
  }

  lemma CutAt(mem: Mem, b: int, ring: seq<int>, k: nat, j: nat)
    requires Chain(mem, b, ring) && b < HEAP_MIN - 16 && NoDup(ring) && k < |ring| && j < |ring| - 1
    requires forall q | q in ring :: q >= HEAP_MIN && forall r | r in ring :: Clear16(q, r)
    ensures var m, r := Unchain(mem, ring[k]), Cut(ring, k);
            && Fd(m, r[j]) == NextIn(b, r, j) && Bk(m, r[j]) == PrevIn(b, r, j)
            && Fd(m, b) == (if k == 0 then ring[1] else ring[0])
            && Bk(m, b) == (if k == |ring| - 1 then ring[|ring| - 2] else ring[|ring| - 1])
  {
    var q := if j < k then j else j + 1;
    var d, e := NextIn(b, ring, k), PrevIn(b, ring, k);
    assert ring[k] in ring && ring[q] in ring && (d == b || d in ring) && (e == b || e in ring) && b !in ring;
    assert Fd(mem, ring[k]) == d && Bk(mem, ring[k]) == e;
    assert Fd(mem, ring[q]) == NextIn(b, ring, q) && Bk(mem, ring[q]) == PrevIn(b, ring, q);
    CutNeighbours(b, ring, k, j);
    hide Unchain, Rd, Wr, Fd, Bk, NoDup;
    UnchainAt(mem, b, ring[k], ring[q]);
  }

  lemma CutChain(mem: Mem, b: int, ring: seq<int>, k: nat)
    requires Chain(mem, b, ring) && b < HEAP_MIN - 16 && NoDup(ring) && k < |ring| && |ring| > 1
    requires forall q | q in ring :: q >= HEAP_MIN && forall r | r in ring :: Clear16(q, r)
    ensures Chain(Unchain(mem, ring[k]), b, Cut(ring, k))
  {
    var r, n := Cut(ring, k), |ring|;
    var m := Unchain(mem, ring[k]);
    CutAt(mem, b, ring, k, 0);
    assert r[0] == (if k == 0 then ring[1] else ring[0])
        && r[n - 2] == (if k == n - 1 then ring[n - 2] else ring[n - 1]);
    hide Unchain, Rd, Wr, Fd, Bk, NoDup, Clear16;
    forall j | 0 <= j < n - 1 ensures Fd(m, r[j]) == NextIn(b, r, j) && Bk(m, r[j]) == PrevIn(b, r, j) {
      CutAt(mem, b, ring, k, j);
    }
  }

  // ---- the bins

  ghost predicate OnlyHeader(mem: Mem, m: Mem, i: nat) {
    forall a | a < HEAP_MIN && a != BinAt(i) + 8 && a != BinAt(i) + 12 :: Rd(m, a) == Rd(mem, a)
  }

  /** An edit of bin `i` leaves the other bins alone. */
  lemma OtherBins(mem: Mem, m: Mem, small: seq<seq<int>>, smallmap: bv32, smallmap': bv32, f: map<int, int>,
                  f': map<int, int>, i: nat, ring: seq<int>)
    requires SmallOk(mem, small, smallmap, f) && i < 32 && SmallAt(m, ring, i, smallmap', f')
    requires forall j: nat | j < 32 && j != i :: Marked(smallmap', j) <==> Marked(smallmap, j)
    requires OnlyHeader(mem, m, i)
    requires forall p | p in f && f[p] != 8 * i :: p in f' && f'[p] == f[p] && Kept(mem, m, p)
    ensures SmallOk(m, small[i := ring], smallmap', f')
  {
    hide Marked, NoDup, Chain;
    forall j: nat | j < 32 && j != i ensures SmallAt(m, small[j], j, smallmap', f') {
      assert SmallAt(mem, small[j], j, smallmap, f);
      assert Kept(mem, m, BinAt(j));
      ChainFrame(mem, m, BinAt(j), small[j]);
    }
  }

  lemma Clears(f: map<int, int>, ring: seq<int>)
    requires Spaced(f) && forall p | p in ring :: p in f
    ensures forall q | q in ring :: q >= HEAP_MIN && forall r | r in ring :: Clear16(q, r)
  {}

  ghost function Pushed(small: seq<seq<int>>, p: int, s: int): (r: seq<seq<int>>)
    requires |small| == 32 && 0 <= s < MIN_LARGE_SIZE
    ensures |r| == 32
  {
    var i := SmallIndex(s); small[i := [p] + small[i]]
  }

  ghost function Dropped(small: seq<seq<int>>, p: int, s: int): (r: seq<seq<int>>)
    requires |small| == 32 && 0 <= s < MIN_LARGE_SIZE
    ensures |r| == 32
  {
    var i := SmallIndex(s); small[i := Without(small[i], p)]
  }

  /** A chunk of `f` whose interior no write reached keeps its links. */
  lemma KeptBy(mem: Mem, m: Mem, f: map<int, int>, g: map<int, int>, p: int)
    requires Spaced(f) && Confined(mem, m, g) && p in f && p !in g && forall q | q in g :: q in f && f[q] == g[q]
    ensures Kept(mem, m, p)
  {
    forall w | p + 8 <= w < p + 16 ensures !Inside(g, w) {
      forall q | q in g ensures !(q + 8 <= w < q + g[q]) {}
    }
  }

  /** The chunks of size `s`. */
  ghost function OfSize(f: map<int, int>, s: int): map<int, int> { map p | p in f && f[p] == s :: f[p] }

  lemma FrontConfined(mem: Mem, b: int, d: int, p: int, g: map<int, int>)
    requires p in g && g[p] >= MIN_CHUNK_SIZE && b + 12 < HEAP_MIN && (d == b || (d in g && g[d] >= MIN_CHUNK_SIZE))
    ensures Confined(mem, LinkFront(mem, b, d, p), g)
  {
    var m1 := Wr(mem, b + 8, p);
    var m2 := Wr(m1, d + 12, p);
    var m3 := Wr(m2, p + 8, d);
    assert Confined(mem, m1, g);
    if d == b { assert Confined(m1, m2, g); } else { ConfinedWrite(m1, g, d, 12, p); }
    ConfinedWrite(m2, g, p, 8, d);
    ConfinedWrite(m3, g, p, 12, b);
    hide Rd, Wr, Confined;
    ConfinedTrans(mem, m1, m2, g);
    ConfinedTrans(mem, m2, m3, g);
    ConfinedTrans(mem, m3, LinkFront(mem, b, d, p), g);
  }

  lemma PushChain(mem: Mem, b: int, ring: seq<int>, s: int, p: int, g: map<int, int>)
    requires Chain(mem, b, ring) && NoDup(ring) && Spaced(g) && p in g && g[p] == s >= MIN_CHUNK_SIZE && p !in ring
    requires b < HEAP_MIN - 16
    requires forall q | q in ring :: q in g && g[q] == s
    ensures var d := if ring == [] then b else ring[0]; var m := LinkFront(mem, b, d, p);
            && Chain(m, b, [p] + ring) && Confined(mem, m, OfSize(g, s))
            && (forall a | a < HEAP_MIN && a != b + 8 && a != b + 12 :: Rd(m, a) == Rd(mem, a))
  {
    var d := if ring == [] then b else ring[0];
    assert ring != [] ==> ring[0] in ring;
    forall q | q in ring ensures q >= HEAP_MIN && Clear16(p, q) && forall r | r in ring :: Clear16(q, r) {}
    hide LinkFront, Rd, Wr, Confined, Chain, NoDup, Fd, Bk;
    FrontChain(mem, b, ring, p);
    FrontAt(mem, b, d, p, p);
    FrontConfined(mem, b, d, p, OfSize(g, s));
  }

  lemma PushBin(mem: Mem, small: seq<seq<int>>, smallmap: bv32, smallmap': bv32, f: map<int, int>, p: int, s: int)
    requires SmallOk(mem, small, smallmap, f) && MIN_CHUNK_SIZE <= s < MIN_LARGE_SIZE && Mult8(s) && p !in f
    requires Spaced(f[p := s])
    requires AlsoMarks(smallmap, smallmap', SmallIndex(s))
    ensures var i := SmallIndex(s);
            var m := LinkFront(mem, BinAt(i), if small[i] == [] then BinAt(i) else small[i][0], p);
            && SmallOk(m, Pushed(small, p, s), smallmap', f[p := s])
            && Confined(mem, m, OfSize(f[p := s], s))
            && (forall a | TREEBINS <= a < HEAP_MIN :: Rd(m, a) == Rd(mem, a))
  {
    var i := SmallIndex(s);
    var b, ring, g := BinAt(i), small[i], f[p := s];
    var d := if ring == [] then b else ring[0];
    var m := LinkFront(mem, b, d, p);
    assert SmallAt(mem, ring, i, smallmap, f) && 8 * i == s;
    assert NoDup([p] + ring);
    hide LinkFront, Rd, Wr, Confined, Chain, Marked, NoDup, Fd, Bk, Mult8;
    PushChain(mem, b, ring, s, p, g);
    forall q | q in f && f[q] != 8 * i ensures Kept(mem, m, q) { KeptBy(mem, m, g, OfSize(g, s), q); }
    assert SmallAt(m, [p] + ring, i, smallmap', g);
    OtherBins(mem, m, small, smallmap, smallmap', f, g, i, [p] + ring);
  }

  method InsertSmallChunk(mem0: Mem, smallmap0: bv32, least: int, p: int, s: int, ghost small: seq<seq<int>>,
                          ghost f: map<int, int>)
    returns (mem: Mem, smallmap: bv32)
    requires AllAbove(f, least)
    requires SmallOk(mem0, small, smallmap0, f) && MIN_CHUNK_SIZE <= s < MIN_LARGE_SIZE && Mult8(s) && p !in f
    requires Spaced(f[p := s])
    ensures SmallOk(mem, Pushed(small, p, s), smallmap, f[p := s])
    ensures Confined(mem0, mem, OfSize(f[p := s], s))
    ensures forall a | TREEBINS <= a < HEAP_MIN :: Rd(mem, a) == Rd(mem0, a)
  {
    var i := SmallIndex(s);
    var b := BinAt(i);
    var d := b;
    mem, smallmap := mem0, smallmap0;
    assert SmallAt(mem, small[i], i, smallmap, f);
    assert Marked(smallmap, i) <==> small[i] != [];
    assert small[i] != [] ==> Rd(mem, b + 8) == small[i][0] && small[i][0] in small[i];
    assert small[i] != [] ==> OkAddress(least, Rd(mem, b + 8));
    MarkAlso(smallmap, i);
    hide Marked, Mark, AlsoMarks, SmallOk, SmallAt, Chain, NoDup, Confined, Pushed, Wr, Rd, Fd, OfSize, Spaced, Mult8;
    hide SmallIndex, BinAt;
    if !Marked(smallmap, i) { smallmap := Mark(smallmap, i); } else {
      assert OkAddress(least, Rd(mem, b + 8));
      d := Rd(mem, b + 8);
    }
    mem := Wr(mem, b + 8, p);
    mem := Wr(mem, d + 12, p);
    mem := Wr(mem, p + 8, d);
    mem := Wr(mem, p + 12, b);
    assert mem == LinkFront(mem0, b, d, p);
    assert d == if small[i] == [] then b else small[i][0];
    hide LinkFront;
    PushBin(mem0, small, smallmap0, smallmap, f, p, s);
  }

  lemma CutConfined(mem: Mem, p: int, h: int, g: map<int, int>)
    requires h + 12 < HEAP_MIN
    requires var d, b := Fd(mem, p), Bk(mem, p);
             (d == h || (d in g && g[d] >= MIN_CHUNK_SIZE)) && (b == h || (b in g && g[b] >= MIN_CHUNK_SIZE))
    ensures Confined(mem, Unchain(mem, p), g)
  {
    var d, b := Fd(mem, p), Bk(mem, p);
    var m1 := Wr(mem, d + 12, b);
    if d == h { assert Confined(mem, m1, g); } else { ConfinedWrite(mem, g, d, 12, b); }
    if b == h { assert Confined(m1, Unchain(mem, p), g); } else { ConfinedWrite(m1, g, b, 8, d); }
    hide Rd, Wr, Confined;
    ConfinedTrans(mem, m1, Unchain(mem, p), g);
  }

  /** Chunk `p` is number `k` in its bin. */
  ghost predicate InBin(mem: Mem, small: seq<seq<int>>, smallmap: bv32, f: map<int, int>, p: int, s: int, k: nat) {
    && SmallOk(mem, small, smallmap, f) && Spaced(f) && p in f && f[p] == s && MIN_CHUNK_SIZE <= s < MIN_LARGE_SIZE
    && Mult8(s)
    && k < |small[SmallIndex(s)]| && small[SmallIndex(s)][k] == p
  }

  /** What unlinking reads, and that the consistency checks it makes pass. */
  lemma ReadChain(mem: Mem, small: seq<seq<int>>, smallmap: bv32, f: map<int, int>, p: int, s: int, k: nat)
    requires InBin(mem, small, smallmap, f, p, s, k)
    ensures var i := SmallIndex(s); var b, ring := BinAt(i), small[i];
            && Fd(mem, p) == NextIn(b, ring, k) && Bk(mem, p) == PrevIn(b, ring, k)
            && (Fd(mem, p) == Bk(mem, p) <==> |ring| == 1)
            && Fd(mem, b) == ring[0] && Marked(smallmap, i)
            && (Fd(mem, p) == b || Bk(mem, Fd(mem, p)) == p) && (Bk(mem, p) == b || Fd(mem, Bk(mem, p)) == p)
            && (forall q | q in ring :: q in f && f[q] == s) && NoDup(ring) && Chain(mem, b, ring)
            && p in ring && (Fd(mem, p) == b || Fd(mem, p) in ring) && (Bk(mem, p) == b || Bk(mem, p) in ring)
  {
    var i := SmallIndex(s);
    var b, ring := BinAt(i), small[i];
    assert SmallAt(mem, ring, i, smallmap, f);
    assert forall j | 0 <= j < |ring| :: ring[j] in ring && ring[j] >= HEAP_MIN;
    assert 8 * i == s;
    if k + 1 < |ring| { assert Bk(mem, ring[k + 1]) == PrevIn(b, ring, k + 1); }
    if k > 0 { assert Fd(mem, ring[k - 1]) == NextIn(b, ring, k - 1); }
  }

  lemma DropChain(mem: Mem, small: seq<seq<int>>, smallmap: bv32, f: map<int, int>, p: int, s: int, k: nat)
    requires InBin(mem, small, smallmap, f, p, s, k) && |small[SmallIndex(s)]| > 1
    ensures var i := SmallIndex(s); var m := Unchain(mem, p);
            && Chain(m, BinAt(i), Without(small[i], p)) && Confined(mem, m, OfSize(f, s)) && OnlyHeader(mem, m, i)
  {
    var i := SmallIndex(s);
    assert i < 32 == |small|;
    hide Unchain, Rd, Wr, Confined, Chain, Marked, NoDup, Fd, Bk, Mult8, SmallOk, SmallIndex;
    var b, ring := BinAt(i), small[i];
    ReadChain(mem, small, smallmap, f, p, s, k);
    Clears(f, ring);
    CutWithout(ring, k);
    CutChain(mem, b, ring, k);
    CutConfined(mem, p, b, OfSize(f, s));
    UnchainAt(mem, b, p, p);
  }

  lemma DropBin(mem: Mem, m: Mem, small: seq<seq<int>>, smallmap: bv32, smallmap': bv32, f: map<int, int>, p: int,
                s: int, k: nat)
    requires InBin(mem, small, smallmap, f, p, s, k)
    requires var i := SmallIndex(s);
             if |small[i]| == 1 then m == mem && Unmarks(smallmap, smallmap', i)
             else m == Unchain(mem, p) && smallmap' == smallmap
    ensures SmallOk(m, Dropped(small, p, s), smallmap', f - {p})
    ensures Confined(mem, m, OfSize(f, s))
    ensures forall a | TREEBINS <= a < HEAP_MIN :: Rd(m, a) == Rd(mem, a)
  {
    var i := SmallIndex(s);
    var b, ring := BinAt(i), small[i];
    if |ring| > 1 { DropChain(mem, small, smallmap, f, p, s, k); } else { Still(mem, OfSize(f, s), i); }
    ReadChain(mem, small, smallmap, f, p, s, k);
    assert SmallAt(mem, ring, i, smallmap, f) && 8 * i == s;
    WithoutProps(ring, p);
    assert p in ring;
    assert |ring| == 1 ==> Chain(m, b, Without(ring, p));
    hide Unchain, Rd, Wr, Confined, Chain, Marked, NoDup, Fd, Bk, Mult8;
    forall q | q in f && f[q] != 8 * i ensures Kept(mem, m, q) { KeptBy(mem, m, f, OfSize(f, s), q); }
    assert SmallAt(m, Without(ring, p), i, smallmap', f - {p});
    OtherBins(mem, m, small, smallmap, smallmap', f, f - {p}, i, Without(ring, p));
  }

  lemma Still(mem: Mem, g: map<int, int>, i: nat)
    ensures Confined(mem, mem, g) && OnlyHeader(mem, mem, i)
  {}

  method UnlinkSmallChunk(mem0: Mem, smallmap0: bv32, least: int, p: int, s: int, ghost small: seq<seq<int>>,
                          ghost f: map<int, int>)
    returns (mem: Mem, smallmap: bv32)
    requires AllAbove(f, least)
    requires SmallOk(mem0, small, smallmap0, f) && Spaced(f) && p in f && f[p] == s
    requires MIN_CHUNK_SIZE <= s < MIN_LARGE_SIZE && Mult8(s)
    requires p in small[SmallIndex(s)]
    ensures SmallOk(mem, Dropped(small, p, s), smallmap, f - {p})
    ensures Confined(mem0, mem, OfSize(f, s))
    ensures forall a | TREEBINS <= a < HEAP_MIN :: Rd(mem, a) == Rd(mem0, a)
  {
    var i := SmallIndex(s);
    ghost var k :| 0 <= k < |small[i]| && small[i][k] == p;
    ReadChain(mem0, small, smallmap0, f, p, s, k);
    MarkAlso(smallmap0, i);
    hide SmallOk, Confined, Marked, Chain, NoDup, Wr, Unmarks, AlsoMarks, Clear, Dropped, OfSize, Mult8;
    mem, smallmap := mem0, smallmap0;
    var d, b := Rd(mem, p + 8), Rd(mem, p + 12);
    assert d == Fd(mem, p) && b == Bk(mem, p);
    assert d == BinAt(i) || (OkAddress(least, d) && Rd(mem, d + 12) == p);
    assert b == BinAt(i) || (OkAddress(least, b) && Rd(mem, b + 8) == p);
    hide Rd, Fd, Bk, SmallIndex, BinAt;
    if b == d {
      smallmap := Clear(smallmap, i);
    } else {
      mem := Wr(mem, d + 12, b);
      mem := Wr(mem, b + 8, d);
      assert mem == Unchain(mem0, p);
    }
    hide Rd, Unchain;
    DropBin(mem0, mem, small, smallmap0, smallmap, f, p, s, k);
  }

  /** unlink_first_small_chunk on a nonempty bin: the chunk put in last comes out first. */
  method UnlinkFirstSmall(mem0: Mem, smallmap0: bv32, least: int, i: nat, ghost small: seq<seq<int>>,
                          ghost f: map<int, int>)
    returns (mem: Mem, smallmap: bv32, p: int)
    requires AllAbove(f, least)
    requires SmallOk(mem0, small, smallmap0, f) && Spaced(f) && 2 <= i < 32 && Marked(smallmap0, i)
    ensures small[i] != [] && p == small[i][0] && p in f && f[p] == 8 * i
    ensures SmallOk(mem, small[i := small[i][1..]], smallmap, f - {p})
    ensures Confined(mem0, mem, OfSize(f, 8 * i))
    ensures forall a | TREEBINS <= a < HEAP_MIN :: Rd(mem, a) == Rd(mem0, a)
  {
    var b := BinAt(i);
    assert SmallAt(mem0, small[i], i, smallmap0, f);
    ghost var s := 8 * i;
    assert SmallIndex(s) == i && Mult8(s);
    p := Rd(mem0, b + 8);
    assert small[i][0] in small[i] && p == small[i][0];
    ReadChain(mem0, small, smallmap0, f, p, s, 0);
    MarkAlso(smallmap0, i);
    CutWithout(small[i], 0);
    assert Cut(small[i], 0) == small[i][1..];
    hide SmallOk, Confined, Marked, Chain, NoDup, Wr, Unmarks, AlsoMarks, Clear, OfSize, Mult8;
    mem, smallmap := mem0, smallmap0;
    var d := Rd(mem, p + 8);
    if b == d {
      smallmap := Clear(smallmap, i);
    } else {
      assert OkAddress(least, d) && Rd(mem, d + 12) == p;
      mem := Wr(mem, d + 12, b);
      mem := Wr(mem, b + 8, d);
      assert mem == Unchain(mem0, p);
    }
    hide Rd, Unchain;
    DropBin(mem0, mem, small, smallmap0, smallmap, f, p, s, 0);
  }
}

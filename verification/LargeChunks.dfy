/** The tree macros of the allocator, run on memory. */
module LargeChunks {
  import opened Words
  import opened BinMaps
  import opened TreeIndex
  import opened Tries
  import opened TreeLinks
  import opened FreeLinks
  import opened TreeEdits
  import opened TreeUnlink
  import opened TreeBins

  /** The header of every chunk of `f` gives its size. */
  ghost predicate SizesIn(mem: Mem, f: map<int, int>) {
    forall p | p in f :: ChunkSize(Rd(mem, p + 4)) == f[p]
  }

  /** The walk of `insert_large_chunk` stands at node `u` of the tree, with the rest of the key in `k`. */
  ghost predicate Walking(mem: Mem, t: Tree, u: Tree, p: int, k: int, s: int, lo: int, bits: nat, lo': int, bits': nat,
                          slot: int, par: int, slot': int, i: int, f: map<int, int>) {
    && u.Node? && p == Root(u) && Trie(u, lo', bits') && Backed(u, f) && Linked(mem, u, par, i) && Key(k, s, lo', bits')
    && Lookup(t, s, lo, bits) == Lookup(u, s, lo', bits')
    && ParentOf(t, s, lo, bits, slot) == ParentOf(u, s, lo', bits', par)
    && SlotOf(t, s, lo, bits, slot) == SlotOf(u, s, lo', bits', slot')
  }

  /** One step down: the sign bit of the key picks the child. */
  lemma WalkStep(mem: Mem, t: Tree, u: Tree, p: int, k: int, s: int, lo: int, bits: nat, lo': int, bits': nat,
                 slot: int, par: int, slot': int, i: int, f: map<int, int>)
    requires Walking(mem, t, u, p, k, s, lo, bits, lo', bits', slot, par, slot', i, f) && u.size != s
    ensures bits' > 0 && 0 <= k < WORD
    ensures var d := Turn(s, lo', bits');
            var c, v := Child(p, k / 0x8000_0000 == 1), Kid(u, d);
            && d == (k / 0x8000_0000 == 1)
            && Rd(mem, c) == Root(v) && v < u
            && Lookup(u, s, lo', bits') == Lookup(v, s, KidLo(lo', bits', d), bits' - 1)
            && ParentOf(u, s, lo', bits', par) == ParentOf(v, s, KidLo(lo', bits', d), bits' - 1, p)
            && SlotOf(u, s, lo', bits', slot') == SlotOf(v, s, KidLo(lo', bits', d), bits' - 1, c)
            && (v.Node? ==>
                  Walking(mem, t, v, Root(v), 2 * k % WORD, s, lo, bits, KidLo(lo', bits', d), bits' - 1, slot, p, c, i,
                      f))
            && (v.Nil? ==>
                  && Lookup(t, s, lo, bits).Nil? && ParentOf(t, s, lo, bits, slot) == p
                  && SlotOf(t, s, lo, bits, slot) == c)
  {
    Onward(u, s, lo', bits');
    KeyStep(k, s, lo', bits');
  }

  lemma ParentIndex(mem: Mem, t: Tree, i: nat, treemap: bv32, s: int, g: map<int, int>, f: map<int, int>)
    requires i < 32 && TreeAt(mem, t, i, treemap, f) && Spaced(g) && forall p | p in f :: p in g
    ensures var q := ParentOf(t, s, Lo(i), Bits(i), TreeBin(i));
            q in f ==> MIN_LARGE_SIZE <= f[q] < WORD && Index(f[q]) == i
  {
    PlaceOf(t, s, Lo(i), Bits(i), TreeBin(i), f);
    hide Linked, Trie, Backed, Marked;
    var q := ParentOf(t, s, Lo(i), Bits(i), TreeBin(i));
    if q in f { assert q >= HEAP_MIN; }
  }

  /** The chunk becomes a new leaf. */
  lemma LeafEnding(mem: Mem, trees: seq<Tree>, treemap: bv32, treemap': bv32, f: map<int, int>, x: int, s: int)
    requires TreesOk(mem, trees, treemap, f) && x !in f && MIN_LARGE_SIZE <= s < WORD && Spaced(f[x := s])
    requires Index(s) < 32 && !HasSize(trees[Index(s)], s) && AlsoMarks(treemap, treemap', Index(s))
    ensures var i := Index(s); var t, h := trees[i], TreeBin(i);
            var m := LinkLeaf(Fresh(mem, x, i), x, SlotOf(t, s, Lo(i), Bits(i), h), ParentOf(t, s, Lo(i), Bits(i), h));
            && TreesOk(m, Inserted(trees, x, s), treemap', f[x := s])
            && Confined(mem, m, f[x := s])
            && (forall a | a < TREEBINS :: Rd(m, a) == Rd(mem, a))
  {
    hide TreesOk, LinkLeaf, Fresh, Untouched, Linked, Marked, Insert, Trie, Backed, Rd, Confined, Inserted, Index;
    var i := Index(s);
    TreeHas(mem, trees, treemap, f, i);
    var t, h, lo, bits := trees[i], TreeBin(i), Lo(i), Bits(i);
    IndexRange(s);
    InsertLeaf(mem, t, x, s, lo, bits, h, i, f);
    PlaceOf(t, s, lo, bits, h, f);
    var c, par := SlotOf(t, s, lo, bits, h), ParentOf(t, s, lo, bits, h);
    var m := LinkLeaf(Fresh(mem, x, i), x, c, par);
    assert OnlyBin(mem, m, i);
    ParentIndex(mem, t, i, treemap, s, f[x := s], f);
    hide Stops, SlotOf, ParentOf, SideOf, Lookup, HasSize;
    InsertBins(mem, m, trees, treemap, treemap', f, x, s, {x, par});
  }

  lemma TreeHas(mem: Mem, trees: seq<Tree>, treemap: bv32, f: map<int, int>, i: nat)
    requires TreesOk(mem, trees, treemap, f) && i < 32
    ensures |trees| == 32 && TreeAt(mem, trees[i], i, treemap, f)
  {}

  /** The chunk joins the ring of its size. */
  lemma TwinEnding(mem: Mem, trees: seq<Tree>, treemap: bv32, f: map<int, int>, x: int, s: int)
    requires TreesOk(mem, trees, treemap, f) && x !in f && MIN_LARGE_SIZE <= s < WORD && Spaced(f[x := s])
    requires Index(s) < 32 && HasSize(trees[Index(s)], s)
    ensures var i := Index(s); var u := Lookup(trees[i], s, Lo(i), Bits(i));
            var m := LinkTwin(Fresh(mem, x, i), x, Root(u));
            && TreesOk(m, Inserted(trees, x, s), treemap, f[x := s])
            && Confined(mem, m, f[x := s])
            && (forall a | a < TREEBINS :: Rd(m, a) == Rd(mem, a))
  {
    hide TreesOk, LinkTwin, Fresh, Untouched, Linked, Marked, Insert, Trie, Rd, Confined, Lookup, Index;
    var i := Index(s);
    TreeHas(mem, trees, treemap, f, i);
    var t, h, lo, bits := trees[i], TreeBin(i), Lo(i), Bits(i);
    IndexRange(s);
    LookupHas(t, s, lo, bits);
    LookupBacked(t, s, lo, bits, f);
    var u := Lookup(t, s, lo, bits);
    assert forall p | p in u.ring :: p in f && f[p] == s;
    hide Backed;
    InsertTwin(mem, t, x, s, lo, bits, h, i, f);
    var y, z := u.ring[0], u.ring[|u.ring| - 1];
    assert y in u.ring && z in u.ring;
    var m := LinkTwin(Fresh(mem, x, i), x, y);
    InsertBins(mem, m, trees, treemap, treemap, f, x, s, {x, y, z});
  }

  lemma FreshFrame(mem: Mem, t: Tree, x: int, s: int, i: nat, f: map<int, int>)
    requires Linked(mem, t, TreeBin(i), i) && Backed(t, f) && x !in f && s >= MIN_LARGE_SIZE && Spaced(f[x := s])
    requires i < 32
    ensures var m := Fresh(mem, x, i);
            Linked(m, t, TreeBin(i), i)
            && forall p | p in f :: Rd(m, p + 4) == Rd(mem, p + 4)
  {
    var m := Fresh(mem, x, i);
    var g := f[x := s];
    forall p | p in f ensures Rd(m, p + 4) == Rd(mem, p + 4) {
      assert p in g && x in g && (p + 16 <= x || x + 256 <= p);
    }
    hide Rd, Wr, Fresh;
    FreshUntouched(mem, x, i, g, {x});
    forall p | p in f && HasSize(t, f[p]) ensures Same(mem, m, p) {
      LargeSize(t, f, f[p]);
    }
    hide Same, Untouched;
    LinkedFrame(mem, m, t, TreeBin(i), i, f);
  }

  lemma WalkStart(mem: Mem, trees: seq<Tree>, treemap: bv32, f: map<int, int>, x: int, s: int)
    requires TreesOk(mem, trees, treemap, f) && x !in f && MIN_LARGE_SIZE <= s < WORD && Spaced(f[x := s])
    requires SizesIn(mem, f)
    requires Index(s) < 32 && trees[Index(s)].Node?
    ensures var i := Index(s); var t, h := trees[i], TreeBin(i);
            var m := Fresh(mem, x, i);
            && SizesIn(m, f) && (forall p | p in f :: p > 0)
            && Walking(m, t, t, Rd(m, h), ShiftLeft(s, LeftShift(i)), s, Lo(i), Bits(i), Lo(i), Bits(i), h, h, h, i, f)
  {
    var i := Index(s);
    var t, h := trees[i], TreeBin(i);
    assert TreeAt(mem, t, i, treemap, f);
    assert Rd(Fresh(mem, x, i), h) == Rd(mem, h) by { assert x in f[x := s]; }
    assert forall p | p in f :: p in f[x := s];
    hide Fresh, Rd, Wr, Trie, Backed, Linked, Marked;
    KeyStart(s);
    FreshFrame(mem, t, x, s, i, f);
  }

  /** The search loop of `insert_large_chunk`: ends at a chunk of size `s`, or at the empty child word for it. */
  method FindPlace(mem: Mem, p0: int, k0: int, s: int, ghost t: Tree, ghost lo: int, ghost bits: nat, ghost slot: int,
                   ghost i: int, ghost f: map<int, int>)
    returns (p: int, c: int)
    requires SizesIn(mem, f) && (forall p | p in f :: p > 0)
    requires Walking(mem, t, t, p0, k0, s, lo, bits, lo, bits, slot, slot, slot, i, f)
    ensures p in f && (c != 0 ==> c > p) && (c == 0 ==> Rd(mem, p + 8) in f)
    ensures c == 0 ==>
      Lookup(t, s, lo, bits).Node? && Lookup(t, s, lo, bits).size == s && p == Root(Lookup(t, s, lo, bits))
    ensures c != 0 ==>
      Lookup(t, s, lo, bits).Nil? && p == ParentOf(t, s, lo, bits, slot) && c == SlotOf(t, s, lo, bits, slot)
  {
    p, c := p0, 0;
    var k := k0;
    ghost var u, lo', bits', par, slot' := t, lo, bits, slot, slot;
    while true
      invariant Walking(mem, t, u, p, k, s, lo, bits, lo', bits', slot, par, slot', i, f)
      decreases u
    {
      WalkHead(mem, t, u, p, k, s, lo, bits, lo', bits', slot, par, slot', i, f);
      if ChunkSize(Rd(mem, p + 4)) == s {
        return p, 0;
      }
      WalkStep(mem, t, u, p, k, s, lo, bits, lo', bits', slot, par, slot', i, f);
      hide Walking, Rd, Child;
      ghost var d := Turn(s, lo', bits');
      c := Child(p, k / 0x8000_0000 == 1);
      k := 2 * k % WORD;
      if Rd(mem, c) == 0 {
        return p, c;
      }
      u, lo', bits', par, slot' := Kid(u, d), KidLo(lo', bits', d), bits' - 1, p, c;
      p := Rd(mem, c);
    }
  }

  lemma WalkHead(mem: Mem, t: Tree, u: Tree, p: int, k: int, s: int, lo: int, bits: nat, lo': int, bits': nat,
                 slot: int, par: int, slot': int, i: int, f: map<int, int>)
    requires Walking(mem, t, u, p, k, s, lo, bits, lo', bits', slot, par, slot', i, f) && SizesIn(mem, f)
    requires forall p | p in f :: p > 0
    ensures u.Node? && p > 0 && ChunkSize(Rd(mem, p + 4)) == u.size && p in f && Rd(mem, p + 8) in f
    ensures u.size == s ==> Lookup(t, s, lo, bits) == u
    ensures forall d :: Root(Kid(u, d)) == 0 <==> Kid(u, d).Nil?
  {
    assert p in u.ring;
    assert Fd(mem, u.ring[0]) == Before(u.ring, 0) && Before(u.ring, 0) in u.ring;
    forall d ensures Root(Kid(u, d)) == 0 <==> Kid(u, d).Nil? {
      if Kid(u, d).Node? { RootIn(Kid(u, d), KidLo(lo', bits', d), bits' - 1, f); }
    }
  }

  lemma InsertStart(mem: Mem, trees: seq<Tree>, treemap: bv32, f: map<int, int>, s: int)
    requires TreesOk(mem, trees, treemap, f) && MIN_LARGE_SIZE <= s < WORD && Index(s) < 32
    ensures var i := Index(s); var h := TreeBin(i);
            && |trees| == 32 && (Marked(treemap, i) <==> trees[i].Node?)
            && (HasSize(trees[i], s) <==>
                  && Lookup(trees[i], s, Lo(i), Bits(i)).Node?
                  && Lookup(trees[i], s, Lo(i), Bits(i)).size == s)
            && (trees[i].Nil? ==>
                  && !HasSize(trees[i], s) && SlotOf(trees[i], s, Lo(i), Bits(i), h) == h
                  && ParentOf(trees[i], s, Lo(i), Bits(i), h) == h)
  {
    var i := Index(s);
    IndexRange(s);
    assert TreeAt(mem, trees[i], i, treemap, f);
    hide Marked, Index;
    LookupHas(trees[i], s, Lo(i), Bits(i));
  }

  method InsertLargeChunk(mem0: Mem, treemap0: bv32, least: int, x: int, s: int, ghost trees: seq<Tree>,
                          ghost f: map<int, int>)
    returns (mem: Mem, treemap: bv32)
    requires TreesOk(mem0, trees, treemap0, f) && SizesIn(mem0, f) && AllAbove(f, least)
    requires x !in f && MIN_LARGE_SIZE <= s < WORD && Spaced(f[x := s])
    ensures TreesOk(mem, Inserted(trees, x, s), treemap, f[x := s])
    ensures Confined(mem0, mem, f[x := s])
    ensures forall a | a < TREEBINS :: Rd(mem, a) == Rd(mem0, a)
  {
    hide TreesOk, TreeAt, Trie, Backed, Linked, Confined, Rd, Wr, Inserted, Lookup, Marked, Mark, AlsoMarks, Spaced;
    hide Walking, SizesIn, HasSize, Index, SlotOf, ParentOf;
    var i := Index(s);
    IndexRange(s);
    var h := TreeBin(i);
    InsertStart(mem0, trees, treemap0, f, s);
    ghost var t, lo, bits := trees[i], Lo(i), Bits(i);
    mem, treemap := mem0, treemap0;
    mem := Wr(mem, x + 28, i);
    mem := Wr(mem, x + 16, 0);
    mem := Wr(mem, x + 20, 0);
    assert mem == Fresh(mem0, x, i);
    hide Fresh;
    MarkAlso(treemap, i);
    if !Marked(treemap, i) {
      treemap := Mark(treemap, i);
      mem := Wr(mem, h, x);
      mem := Wr(mem, x + 24, h);
      mem := Wr(mem, x + 8, x);
      mem := Wr(mem, x + 12, x);
      LeafEnding(mem0, trees, treemap0, treemap, f, x, s);
    } else {
      WalkStart(mem0, trees, treemap0, f, x, s);
      var p, c := FindPlace(mem, Rd(mem, h), ShiftLeft(s, LeftShift(i)), s, t, lo, bits, h, i, f);
      if c != 0 {
        assert OkAddress(least, c);
        mem := Wr(mem, c, x);
        mem := Wr(mem, x + 24, p);
        mem := Wr(mem, x + 8, x);
        mem := Wr(mem, x + 12, x);
        LeafEnding(mem0, trees, treemap0, treemap, f, x, s);
      } else {
        var q := Rd(mem, p + 8);
        assert OkAddress(least, p) && OkAddress(least, q);
        mem := Wr(mem, p + 8, x);
        mem := Wr(mem, q + 12, x);
        mem := Wr(mem, x + 8, q);
        mem := Wr(mem, x + 12, p);
        mem := Wr(mem, x + 24, 0);
        TwinEnding(mem0, trees, treemap0, f, x, s);
      }
    }
  }

  // ---- unlinking

  /** Chunk `x` is number `k` on ring `u.ring` of tree `i`. */
  ghost predicate OnRing(mem: Mem, trees: seq<Tree>, treemap: bv32, f: map<int, int>, x: int, u: Tree, k: nat) {
    && TreesOk(mem, trees, treemap, f) && Spaced(f) && x in f && MIN_LARGE_SIZE <= f[x] < WORD && Index(f[x]) < 32
    && var i := Index(f[x]);
       && HasSize(trees[i], f[x]) && Lo(i) <= f[x] < Lo(i) + Pow2(Bits(i))
       && u == Lookup(trees[i], f[x], Lo(i), Bits(i)) && u.Node? && u.size == f[x] && Ring(trees[i], f[x]) == u.ring
       && k < |u.ring| && u.ring[k] == x
  }

  lemma FindOnRing(mem: Mem, trees: seq<Tree>, treemap: bv32, f: map<int, int>, x: int) returns (u: Tree, k: nat)
    requires TreesOk(mem, trees, treemap, f) && Spaced(f) && x in f && MIN_LARGE_SIZE <= f[x] < WORD
    requires InTrees(trees, f, x)
    ensures OnRing(mem, trees, treemap, f, x, u, k)
  {
    var s := f[x];
    IndexRange(s);
    var i := Index(s);
    var t := trees[i];
    assert TreeAt(mem, t, i, treemap, f);
    LookupHas(t, s, Lo(i), Bits(i));
    LookupRing(t, s, Lo(i), Bits(i), s);
    u := Lookup(t, s, Lo(i), Bits(i));
    k :| 0 <= k < |u.ring| && u.ring[k] == x;
  }

  /** What the first reads of `unlink_large_chunk` see. */
  lemma ReadNode(mem: Mem, trees: seq<Tree>, treemap: bv32, f: map<int, int>, x: int, u: Tree, k: nat)
    requires OnRing(mem, trees, treemap, f, x, u, k)
    ensures var i := Index(f[x]); var t := trees[i]; var h := TreeBin(i);
            && IndexOf(mem, x) == i
            && Fd(mem, x) == Before(u.ring, k) && Bk(mem, x) == After(u.ring, k)
            && (Bk(mem, x) != x <==> |u.ring| > 1)
            && Parent(mem, x) == (if k == 0 then ParentOf(t, f[x], Lo(i), Bits(i), h) else 0)
            && (Stops(t, f[x], Bits(i)) ==> ParentOf(t, f[x], Lo(i), Bits(i), h) == h)
            && ParentOf(t, f[x], Lo(i), Bits(i), h) != 0
            && Linked(mem, u, ParentOf(t, f[x], Lo(i), Bits(i), h), i) && Backed(u, f) && x > 0
            && var (l, b) := Place(t, f[x], Lo(i), Bits(i)); Trie(u, l, b)
  {
    var i := Index(f[x]);
    var t, h, s := trees[i], TreeBin(i), f[x];
    assert TreeAt(mem, t, i, treemap, f);
    LookupLinks(mem, t, s, Lo(i), Bits(i), h, h, i);
    LookupTrie(t, s, Lo(i), Bits(i));
    LookupBacked(t, s, Lo(i), Bits(i), f);
    PlaceOf(t, s, Lo(i), Bits(i), h, f);
    assert k > 0 ==> Plain(mem, u.ring[k]);
    assert |u.ring| > 1 ==> After(u.ring, k) != x;
  }

  /** The edit done, the bins hold every chunk but `x`. */
  lemma Gone(mem: Mem, m: Mem, trees: seq<Tree>, treemap: bv32, treemap': bv32, f: map<int, int>, x: int, u: Tree,
             k: nat, qs: set<int>)
    requires OnRing(mem, trees, treemap, f, x, u, k)
    requires var i := Index(f[x]); var t := Graft(trees[i], f[x], Lo(i), Bits(i), Removed(u, x));
             && Linked(m, t, TreeBin(i), i) && Rd(m, TreeBin(i)) == Root(t) && OnlyBin(mem, m, i)
             && (Marked(treemap', i) <==> t.Node?)
             && (forall j: nat | j < 32 && j != i :: Marked(treemap', j) <==> Marked(treemap, j))
             && Untouched(mem, m, f, qs)
             && (forall q | q in qs && q in f :: HasSize(trees[i], f[q]))
    ensures TreesOk(m, Deleted(trees, x, f[x]), treemap', f - {x})
  {
    var i := Index(f[x]);
    var t := trees[i];
    assert TreeAt(mem, t, i, treemap, f);
    hide Linked, Untouched, Marked, Trie, Backed, Graft, Removed, Lookup;
    RemoveBins(mem, m, trees, treemap, treemap', f, x, f[x], qs);
  }

  /** A younger twin leaves its ring. */
  lemma TwinGone(mem: Mem, trees: seq<Tree>, treemap: bv32, f: map<int, int>, x: int, u: Tree, k: nat)
    requires OnRing(mem, trees, treemap, f, x, u, k) && k > 0
    ensures var m := Unring(mem, x);
            && TreesOk(m, Deleted(trees, x, f[x]), treemap, f - {x}) && Confined(mem, m, f)
            && (forall a | a < TREEBINS :: Rd(m, a) == Rd(mem, a))
  {
    hide TreesOk, Index;
    var s := f[x];
    var i := Index(s);
    TreeHas(mem, trees, treemap, f, i);
    var t, h0, lo, bits := trees[i], TreeBin(i), Lo(i), Bits(i);
    var h, c := ParentOf(t, s, lo, bits, h0), SlotOf(t, s, lo, bits, h0);
    var (l, b) := Place(t, s, lo, bits);
    var m := Unring(mem, x);
    ReadNode(mem, trees, treemap, f, x, u, k);
    LookupLinks(mem, t, s, lo, bits, h0, h0, i);
    Splice(mem, u, k, l, b, h, i, f);
    UnlinkTwin(mem, u, k, l, b, h, i, f);
    PlaceOf(t, s, lo, bits, h0, f);
    var y, z := Before(u.ring, k), After(u.ring, k);
    assert y in u.ring && z in u.ring && f[y] == s && f[z] == s;
    hide Rd, Wr, Unring, Confined, Linked, Trie, Backed, RingLinks, Removed, Graft, Lookup, ParentOf, SlotOf, SideOf;
    hide Place, Marked;
    assert !Stops(t, s, bits) ==> Same(mem, m, h) && Rd(m, c) == Rd(mem, c);
    hide Untouched, Same;
    EditAt(mem, m, t, s, lo, bits, h0, i, Removed(u, x), f, f, {y, z});
    Grown(t, s, lo, bits, Removed(u, x));
    Gone(mem, m, trees, treemap, treemap, f, x, u, k, {y, z});
  }

  lemma Grown(t: Tree, s: int, lo: int, bits: nat, v: Tree)
    ensures Graft(t, s, lo, bits, v).Node? <==> v.Node? || !Stops(t, s, bits)
  {}

  /** A head of a ring makes way for node `v`, promoted from `m0`. */
  lemma HeadGone(mem: Mem, m0: Mem, trees: seq<Tree>, treemap: bv32, f: map<int, int>, x: int, u: Tree, qs: set<int>)
    requires OnRing(mem, trees, treemap, f, x, u, 0) && Removed(u, x).Node?
    requires var i := Index(f[x]);
             Ready(mem, m0, trees[i], x, Removed(u, x), f[x], Lo(i), Bits(i), TreeBin(i), i, f, qs)
    ensures var i := Index(f[x]); var t, h0 := trees[i], TreeBin(i);
            var m := Promote(m0, x, Root(Removed(u, x)), ParentOf(t, f[x], Lo(i), Bits(i), h0),
                SlotOf(t, f[x], Lo(i), Bits(i), h0));
            && TreesOk(m, Deleted(trees, x, f[x]), treemap, f - {x}) && Confined(mem, m, f)
            && (forall a | a < TREEBINS :: Rd(m, a) == Rd(mem, a))
  {
    hide TreesOk, Index;
    var s, v := f[x], Removed(u, x);
    var i := Index(s);
    TreeHas(mem, trees, treemap, f, i);
    var t, h0, lo, bits := trees[i], TreeBin(i), Lo(i), Bits(i);
    var h := ParentOf(t, s, lo, bits, h0);
    hide Rd, Wr, Promote, Confined, Linked, Trie, Backed, RingLinks, Removed, Graft, Lookup, SlotOf, SideOf, Place;
    hide Marked, Untouched;
    Replace(mem, m0, t, x, v, s, lo, bits, h0, i, f, qs);
    Grown(t, s, lo, bits, v);
    PlaceOf(t, s, lo, bits, h0, f);
    var (l, b) := Place(t, s, lo, bits);
    HeirRoots(v, l, b, f);
    var m := Promote(m0, x, Root(v), h, SlotOf(t, s, lo, bits, h0));
    var ps := qs + {Root(v), Root(v.left), Root(v.right), h};
    forall q | q in ps && q in f ensures HasSize(t, f[q]) {
      if q != h { LookupRing(t, s, lo, bits, f[q]); }
    }
    Gone(mem, m, trees, treemap, treemap, f, x, u, 0, ps);
  }

  /** Off a ring of several, the next oldest chunk is ready. */
  lemma TwinReady(mem: Mem, trees: seq<Tree>, treemap: bv32, f: map<int, int>, x: int, u: Tree)
    requires OnRing(mem, trees, treemap, f, x, u, 0) && |u.ring| > 1
    ensures var i := Index(f[x]);
            && Removed(u, x).Node? && Root(Removed(u, x)) == u.ring[1]
            && Ready(mem, Unring(mem, x), trees[i], x, Removed(u, x), f[x], Lo(i), Bits(i), TreeBin(i), i, f,
                   {Before(u.ring, 0), u.ring[1]})
  {
    var s := f[x];
    var i := Index(s);
    var t, h0, lo, bits := trees[i], TreeBin(i), Lo(i), Bits(i);
    var h := ParentOf(t, s, lo, bits, h0);
    var (l, b) := Place(t, s, lo, bits);
    assert TreeAt(mem, t, i, treemap, f);
    ReadNode(mem, trees, treemap, f, x, u, 0);
    var y, z := Before(u.ring, 0), u.ring[1];
    assert y in u.ring && z in u.ring && x in u.ring && f[y] == s && f[z] == s;
    SpacedFar(f, u.ring);
    UnringAt(mem, x, x);
    hide Rd, Wr, Unring, Confined, Linked, Trie, Backed, RingLinks, Graft, Lookup, ParentOf, SlotOf, SideOf, Place;
    hide Marked, Untouched;
    Splice(mem, u, 0, l, b, h, i, f);
    UnlinkHead(mem, u, l, b, h, i, f);
  }

  /** With no twin but something below, the leaf cut off is ready. */
  lemma SoleReady(mem: Mem, trees: seq<Tree>, treemap: bv32, f: map<int, int>, x: int, u: Tree)
    requires OnRing(mem, trees, treemap, f, x, u, 0) && |u.ring| == 1 && !IsLeaf(u)
    ensures var i := Index(f[x]); var d := Toward(u);
            var k := Kid(u, d);
            var q := LeafHost(k, x);
            var m := Wr(mem, Child(q, LeafSide(k, d)), 0);
            && Removed(u, x).Node? && Root(Removed(u, x)) == Root(RightLeaf(k))
            && Ready(mem, m, trees[i], x, Removed(u, x), f[x], Lo(i), Bits(i), TreeBin(i), i, f, {q})
  {
    var s := f[x];
    var i := Index(s);
    var t, h0, lo, bits := trees[i], TreeBin(i), Lo(i), Bits(i);
    var h := ParentOf(t, s, lo, bits, h0);
    var (l, b) := Place(t, s, lo, bits);
    assert TreeAt(mem, t, i, treemap, f);
    ReadNode(mem, trees, treemap, f, x, u, 0);
    hide Rd, Wr, Confined, Linked, Trie, Backed, RingLinks, Graft, Lookup, ParentOf, SlotOf, SideOf, Place, Marked;
    hide Untouched;
    UnlinkSole(mem, u, l, b, h, i, f);
    DropRootTrie(u, l, b);
    LargeSize(u, f, f[LeafHost(Kid(u, Toward(u)), x)]);
    IndexKept(mem, x, LeafHost(Kid(u, Toward(u)), x), LeafSide(Kid(u, Toward(u)), Toward(u)), f);
  }

  lemma IndexKept(mem: Mem, x: int, q: int, side: bool, f: map<int, int>)
    requires Spaced(f) && x in f && q in f && f[x] >= MIN_LARGE_SIZE && f[q] >= MIN_LARGE_SIZE
    ensures IndexOf(Wr(mem, Child(q, side), 0), x) == IndexOf(mem, x)
  {}

  /** The last chunk of its size with nothing below leaves an empty place. */
  lemma LeafGone(mem: Mem, trees: seq<Tree>, treemap: bv32, treemap': bv32, f: map<int, int>, x: int, u: Tree)
    requires OnRing(mem, trees, treemap, f, x, u, 0) && |u.ring| == 1 && IsLeaf(u)
    requires var i := Index(f[x]);
             && (Marked(treemap', i) <==> !Stops(trees[i], f[x], Bits(i)))
             && (forall j: nat | j < 32 && j != i :: Marked(treemap', j) <==> Marked(treemap, j))
    ensures var i := Index(f[x]);
            var m := Wr(mem, SlotOf(trees[i], f[x], Lo(i), Bits(i), TreeBin(i)), 0);
            && TreesOk(m, Deleted(trees, x, f[x]), treemap', f - {x}) && Confined(mem, m, f)
            && (forall a | a < TREEBINS :: Rd(m, a) == Rd(mem, a))
  {
    var s := f[x];
    var i := Index(s);
    var t, h0, lo, bits := trees[i], TreeBin(i), Lo(i), Bits(i);
    var h, c, side := ParentOf(t, s, lo, bits, h0), SlotOf(t, s, lo, bits, h0), SideOf(t, s, lo, bits, false);
    var m := Wr(mem, c, 0);
    assert TreeAt(mem, t, i, treemap, f);
    PlaceOf(t, s, lo, bits, h0, f);
    if Stops(t, s, bits) {
      WriteStatic(mem, f, {h}, c, 0);
    } else {
      WriteLink(mem, f, {h}, h, if side then 20 else 16, 0);
    }
    assert !Stops(t, s, bits) ==> SameBut(mem, m, h, side);
    hide Confined, Linked, Trie, Backed, RingLinks, Graft, Lookup, ParentOf, SlotOf, SideOf, Place, Marked, Untouched;
    hide SameBut;
    EditAt(mem, m, t, s, lo, bits, h0, i, Nil, f, f, {h});
    Grown(t, s, lo, bits, Nil);
    hide Rd, Wr;
    Gone(mem, m, trees, treemap, treemap', f, x, u, 0, {h});
  }

  /** The child word to follow from chunk `r` towards the rightmost leaf: child[1], or child[0] if there is none. */
  function Rightmost(mem: Mem, r: int): int {
    if Rd(mem, Child(r, true)) != 0 then Child(r, true) else Child(r, false)
  }

  lemma RightmostOf(mem: Mem, w: Tree, par: int, i: int, lo: int, bits: nat, f: map<int, int>)
    requires w.Node? && Linked(mem, w, par, i) && Trie(w, lo, bits) && Backed(w, f) && 0 !in f
    ensures Rd(mem, Rightmost(mem, Root(w))) != 0 <==> !IsLeaf(w)
    ensures !IsLeaf(w) ==>
      Rightmost(mem, Root(w)) == Child(Root(w), Toward(w))
          && Rd(mem, Rightmost(mem, Root(w))) == Root(Kid(w, Toward(w)))
    ensures !IsLeaf(w) ==> bits > 0
  {
    if w.left.Node? { RootIn(w.left, lo, bits - 1, f); }
    if w.right.Node? { RootIn(w.right, lo + Pow2(bits - 1), bits - 1, f); }
  }

  /** The loop that walks to the rightmost leaf below chunk `x`; r == 0 if there is nothing below. */
  method FindLeaf(mem: Mem, least: int, x: int, ghost u: Tree, ghost par: int, ghost i: int, ghost lo: int,
                  ghost bits: nat,
                  ghost f: map<int, int>)
    returns (r: int, rp: int)
    requires u.Node? && Linked(mem, u, par, i) && Trie(u, lo, bits) && Backed(u, f) && x == Root(u) && 0 !in f
    requires AllAbove(f, least)
    ensures r == 0 <==> IsLeaf(u)
    ensures r != 0 ==> r in f && OkAddress(least, rp)
    ensures r != 0 ==>
              var k := Kid(u, Toward(u));
              r == Root(RightLeaf(k)) && rp == Child(LeafHost(k, x), LeafSide(k, Toward(u)))
  {
    RightmostOf(mem, u, par, i, lo, bits, f);
    RootIn(u, lo, bits, f);
    rp := Rightmost(mem, x);
    r := Rd(mem, rp);
    if r != 0 {
      ghost var k := Kid(u, Toward(u));
      ghost var w, host, side, l := k, x, Toward(u), KidLo(lo, bits, Toward(u));
      ghost var b: nat := bits - 1;
      var cp := Rightmost(mem, r);
      while Rd(mem, cp) != 0
        invariant w.Node? && r == Root(w) && rp == Child(host, side) && cp == Rightmost(mem, r)
        invariant Linked(mem, w, host, i) && Trie(w, l, b) && Backed(w, f) && host in f
        invariant RightLeaf(w) == RightLeaf(k) && LeafHost(w, host) == LeafHost(k, x)
        invariant LeafSide(w, side) == LeafSide(k, Toward(u))
        decreases w
      {
        RightmostOf(mem, w, host, i, l, b, f);
        RootIn(w, l, b, f);
        ghost var d := Toward(w);
        w, host, side, l, b := Kid(w, d), Root(w), d, KidLo(l, b, d), b - 1;
        r, rp := Rd(mem, cp), cp;
        cp := Rightmost(mem, r);
      }
      RightmostOf(mem, w, host, i, l, b, f);
      RootIn(w, l, b, f);
    }
  }

  /** The word that leads to `x`: its bin's, or the child word of its parent that holds it. */
  function PlaceWord(mem: Mem, x: int, xp: int): int {
    var h := TREEBINS + 4 * Rd(mem, x + 28);
    if Rd(mem, h) == x then h else if Rd(mem, Child(xp, false)) == x then Child(xp, false) else Child(xp, true)
  }

  /** What the checks on the way to relinking look at: chunks in the trees, and words that no store before reaches. */
  ghost predicate Relinkable(mem: Mem, f: map<int, int>, x: int, r: int, xp: int)
    requires 0 <= IndexOf(mem, x) < 32
  {
    var slot := PlaceWord(mem, x, xp);
    && (Rd(mem, TreeBin(IndexOf(mem, x))) != x ==> xp in f)
    && (r != 0 ==> r in f && x != r && Far(x, r) && slot != Child(x, false) && slot != Child(x, true))
    && (forall d {:trigger ChildAt(mem, x, d)} :: ChildAt(mem, x, d) == 0 || Near(f, x, ChildAt(mem, x, d)))
  }

  ghost predicate Near(f: map<int, int>, x: int, c: int) { c in f && c != x && Far(c, x) }

  /** R takes the place of X: the last part of `unlink_large_chunk`, for a chunk that is in the tree itself. */
  method Relink(mem0: Mem, treemap0: bv32, least: int, x: int, r: int, xp: int, ghost f: map<int, int>)
    returns (mem: Mem, treemap: bv32)
    requires 0 <= IndexOf(mem0, x) < 32 && AllAbove(f, least)
    requires Relinkable(mem0, f, x, r, xp)
    ensures mem == Promote(mem0, x, r, xp, PlaceWord(mem0, x, xp))
    ensures treemap == if Rd(mem0, TreeBin(IndexOf(mem0, x))) == x && r == 0 then Clear(treemap0, IndexOf(mem0, x))
            else treemap0
  {
    mem, treemap := mem0, treemap0;
    var i := Rd(mem, x + 28);
    var h := TreeBin(i);
    if x == Rd(mem, h) {
      mem := Wr(mem, h, r);
      if r == 0 { treemap := Clear(treemap, i); }
    } else {
      assert OkAddress(least, xp);
      if Rd(mem, Child(xp, false)) == x {
        mem := Wr(mem, Child(xp, false), r);
      } else {
        mem := Wr(mem, Child(xp, true), r);
      }
    }
    if r != 0 {
      PromoteReads(mem0, x, r, xp, PlaceWord(mem0, x, xp));
      assert OkAddress(least, r);
      mem := Wr(mem, r + 24, xp);
      var c0 := Rd(mem, Child(x, false));
      if c0 != 0 {
        assert OkAddress(least, c0);
        mem := Wr(mem, Child(r, false), c0);
        mem := Wr(mem, c0 + 24, r);
      }
      var c1 := Rd(mem, Child(x, true));
      if c1 != 0 {
        assert OkAddress(least, c1);
        mem := Wr(mem, Child(r, true), c1);
        mem := Wr(mem, c1 + 24, r);
      }
    }
  }

  /** The word `Relink` writes is the one that leads to `x`. */
  lemma RelinkSlot(mem: Mem, m0: Mem, trees: seq<Tree>, treemap: bv32, f: map<int, int>, x: int, u: Tree, qs: set<int>)
    requires OnRing(mem, trees, treemap, f, x, u, 0)
    requires Untouched(mem, m0, f, qs) && (forall q | q in qs && q in f :: HasSize(u, f[q]))
    requires forall a | a < HEAP_MIN :: Rd(m0, a) == Rd(mem, a)
    ensures var i := Index(f[x]); var t, h0 := trees[i], TreeBin(i); var h := ParentOf(t, f[x], Lo(i), Bits(i), h0);
            && (Rd(m0, h0) == x <==> Stops(t, f[x], Bits(i)))
            && (IndexOf(m0, x) == i ==> PlaceWord(m0, x, h) == SlotOf(t, f[x], Lo(i), Bits(i), h0))
  {
    var s := f[x];
    var i := Index(s);
    var t, h0, lo, bits := trees[i], TreeBin(i), Lo(i), Bits(i);
    var h := ParentOf(t, s, lo, bits, h0);
    assert TreeAt(mem, t, i, treemap, f);
    PlaceOf(t, s, lo, bits, h0, f);
    LookupLinks(mem, t, s, lo, bits, h0, h0, i);
    if !Stops(t, s, bits) {
      assert Same(mem, m0, h);
      OtherSide(mem, t, s, lo, bits, h0, false, i, f, x);
    }
  }

  /** What stands ready to replace a ring head `x`: node `r`, prepared in `m0`, or nothing. */
  ghost predicate Prepared(mem: Mem, m0: Mem, trees: seq<Tree>, f: map<int, int>, x: int, u: Tree, r: int, qs: set<int>)
    requires |trees| == 32 && x in f && 0 <= f[x] < WORD && Index(f[x]) < 32 && u.Node?
  {
    var i := Index(f[x]);
    if r != 0 then
      Removed(u, x).Node? && r == Root(Removed(u, x)) &&
      Ready(mem, m0, trees[i], x, Removed(u, x), f[x], Lo(i), Bits(i), TreeBin(i), i, f, qs)
    else |u.ring| == 1 && IsLeaf(u) && m0 == mem && qs == {}
  }

  /** After the relinking, whichever way the replacement was found, the bins hold every chunk but `x`. */
  lemma RelinkEnding(mem: Mem, m0: Mem, trees: seq<Tree>, treemap: bv32, f: map<int, int>, x: int, u: Tree, r: int,
                     qs: set<int>)
    requires OnRing(mem, trees, treemap, f, x, u, 0)
    requires Prepared(mem, m0, trees, f, x, u, r, qs)
    ensures var i := Index(f[x]); var xp := Parent(mem, x);
            var m := Promote(m0, x, r, xp, PlaceWord(m0, x, xp));
            var treemap' := if Rd(m0, TreeBin(i)) == x && r == 0 then Clear(treemap, i) else treemap;
            && IndexOf(m0, x) == i
            && TreesOk(m, Deleted(trees, x, f[x]), treemap', f - {x}) && Confined(mem, m, f)
            && (forall a | a < TREEBINS :: Rd(m, a) == Rd(mem, a))
  {
    var i := Index(f[x]);
    ReadNode(mem, trees, treemap, f, x, u, 0);
    hide TreesOk, TreeAt, Trie, Backed, Linked, Confined, Deleted, Lookup, Place, ParentOf, SlotOf, Heir, Stored;
    hide Marked, Clear;
    if r == 0 { Nothing(mem, f); }
    RelinkSlot(mem, m0, trees, treemap, f, x, u, qs);
    if r != 0 {
      hide Rd, Wr, Promote, Untouched;
      HeadGone(mem, m0, trees, treemap, f, x, u, qs);
    } else {
      var treemap' := if Rd(m0, TreeBin(i)) == x then Clear(treemap, i) else treemap;
      RootMark(mem, trees, treemap, f, x, i);
      hide Rd, Wr, Untouched;
      LeafGone(mem, trees, treemap, treemap', f, x, u);
    }
  }

  /** The checks made before relinking are met. */
  lemma RelinkReady(mem: Mem, m0: Mem, trees: seq<Tree>, treemap: bv32, f: map<int, int>, x: int, u: Tree, r: int,
                    qs: set<int>)
    requires OnRing(mem, trees, treemap, f, x, u, 0)
    requires Prepared(mem, m0, trees, f, x, u, r, qs)
    ensures IndexOf(m0, x) == Index(f[x]) && Relinkable(m0, f, x, r, Parent(mem, x))
  {
    hide TreesOk, TreeAt, Trie, Backed, Linked, Confined, Lookup, ParentOf, SlotOf, Stored, Marked, Untouched, Heir;
    hide Near;
    hide Rd, PlaceWord, Place, Index, Far;
    var i := Index(f[x]);
    TreeHas(mem, trees, treemap, f, i);
    ReadNode(mem, trees, treemap, f, x, u, 0);
    if r == 0 { Nothing(mem, f); }
    RelinkSlot(mem, m0, trees, treemap, f, x, u, qs);
    SlotFar(mem, trees, treemap, f, x, u);
    if r != 0 {
      var (l, b) := Place(trees[i], f[x], Lo(i), Bits(i));
      HeirWords(m0, x, Removed(u, x), l, b, i, f);
    } else {
      LeafWord(mem, u, x, ParentOf(trees[i], f[x], Lo(i), Bits(i), TreeBin(i)), i);
    }
  }

  /** The word that leads to a node is none of its own child words, and its parent is a chunk unless it is a root. */
  lemma SlotFar(mem: Mem, trees: seq<Tree>, treemap: bv32, f: map<int, int>, x: int, u: Tree)
    requires OnRing(mem, trees, treemap, f, x, u, 0)
    ensures var i := Index(f[x]); var t, h0 := trees[i], TreeBin(i);
            var c, h := SlotOf(t, f[x], Lo(i), Bits(i), h0), ParentOf(t, f[x], Lo(i), Bits(i), h0);
            && c != Child(x, false) && c != Child(x, true) && (!Stops(t, f[x], Bits(i)) ==> h in f)
  {
    hide TreesOk, Linked, Trie, Backed, Lookup, ParentOf, SlotOf, SideOf;
    var i := Index(f[x]);
    TreeHas(mem, trees, treemap, f, i);
    PlaceOf(trees[i], f[x], Lo(i), Bits(i), TreeBin(i), f);
    assert x >= HEAP_MIN;
  }

  lemma HeirWords(m: Mem, x: int, v: Tree, l: int, b: nat, i: int, f: map<int, int>)
    requires Heir(m, x, v, l, b, i, f)
    ensures Root(v) in f && Root(v) != x && Far(x, Root(v))
    ensures forall d {:trigger ChildAt(m, x, d)} :: ChildAt(m, x, d) == 0 || Near(f, x, ChildAt(m, x, d))
  {
    RootIn(v, l, b, f);
    forall d {:trigger ChildAt(m, x, d)} ensures ChildAt(m, x, d) == 0 || Near(f, x, ChildAt(m, x, d)) {
      var w := Kid(v, d);
      if w.Node? { RootIn(w, KidLo(l, b, d), b - 1, f); }
    }
  }

  lemma LeafWord(mem: Mem, u: Tree, x: int, par: int, i: int)
    requires u.Node? && Linked(mem, u, par, i) && IsLeaf(u) && u.ring != [] && u.ring[0] == x
    ensures forall d {:trigger ChildAt(mem, x, d)} :: ChildAt(mem, x, d) == 0
  {}

  lemma Nothing(mem: Mem, f: map<int, int>)
    ensures Untouched(mem, mem, f, {})
  {}

  lemma RootMark(mem: Mem, trees: seq<Tree>, treemap: bv32, f: map<int, int>, x: int, i: nat)
    requires TreesOk(mem, trees, treemap, f) && i < 32 && trees[i].Node?
    ensures Marked(treemap, i) && !Marked(Clear(treemap, i), i)
    ensures forall j: nat | j < 32 && j != i :: Marked(Clear(treemap, i), j) <==> Marked(treemap, j)
  {
    assert TreeAt(mem, trees[i], i, treemap, f);
    hide Marked, Clear;
    forall j: nat | j < 32
      ensures Marked(Clear(treemap, i), j) <==> i != j && Marked(treemap, j)
    {
      MarkedClear(treemap, i, j);
    }
  }

  /** The first part of `unlink_large_chunk`: take `x` off its ring, or cut off the leaf that will replace it. */
  method TakeOff(mem0: Mem, least: int, x: int, ghost treemap: bv32, ghost trees: seq<Tree>, ghost f: map<int, int>,
                 ghost u: Tree,
                 ghost k: nat)
    returns (mem: Mem, r: int, ghost qs: set<int>)
    requires OnRing(mem0, trees, treemap, f, x, u, k) && AllAbove(f, least)
    ensures k > 0 ==> mem == Unring(mem0, x)
    ensures k == 0 ==> Prepared(mem0, mem, trees, f, x, u, r, qs)
  {
    ReadNode(mem0, trees, treemap, f, x, u, k);
    Neighbours(mem0, u, k, f);
    ghost var i := Index(f[x]);
    ghost var (l, b) := Place(trees[i], f[x], Lo(i), Bits(i));
    ghost var par := ParentOf(trees[i], f[x], Lo(i), Bits(i), TreeBin(i));
    assert 0 !in f;
    hide TreesOk, Trie, Backed, Linked, Wr, Lookup, Place, ParentOf, SlotOf, Ready;
    mem := mem0;
    if Rd(mem, x + 12) != x {
      var d := Rd(mem, x + 8);
      r := Rd(mem, x + 12);
      assert OkAddress(least, d) && Rd(mem, d + 12) == x && Rd(mem, r + 8) == x;
      mem := Wr(mem, d + 12, r);
      mem := Wr(mem, r + 8, d);
      qs := {d, r};
      if k == 0 { TwinReady(mem0, trees, treemap, f, x, u); }
    } else {
      var rp;
      r, rp := FindLeaf(mem, least, x, u, par, i, l, b, f);
      qs := {};
      if r != 0 {
        assert OkAddress(least, rp);
        mem := Wr(mem, rp, 0);
        SoleReady(mem0, trees, treemap, f, x, u);
        qs := {LeafHost(Kid(u, Toward(u)), x)};
      }
    }
  }

  /** The neighbours of a chunk on its ring are large free chunks too and point back at it. */
  lemma Neighbours(mem: Mem, u: Tree, k: nat, f: map<int, int>)
    requires u.Node? && Circle(mem, u.ring) && Backed(u, f) && k < |u.ring|
    ensures var x := u.ring[k]; Fd(mem, x) in f && Bk(mem, Fd(mem, x)) == x && Fd(mem, Bk(mem, x)) == x
  {
  }

  method UnlinkLargeChunk(mem0: Mem, treemap0: bv32, least: int, x: int, ghost trees: seq<Tree>, ghost f: map<int, int>)
    returns (mem: Mem, treemap: bv32)
    requires TreesOk(mem0, trees, treemap0, f) && Spaced(f) && AllAbove(f, least)
    requires x in f && MIN_LARGE_SIZE <= f[x] < WORD && InTrees(trees, f, x)
    ensures TreesOk(mem, Deleted(trees, x, f[x]), treemap, f - {x})
    ensures Confined(mem0, mem, f)
    ensures forall a | a < TREEBINS :: Rd(mem, a) == Rd(mem0, a)
  {
    ghost var u, k := FindOnRing(mem0, trees, treemap0, f, x);
    ReadNode(mem0, trees, treemap0, f, x, u, k);
    hide TreesOk, TreeAt, Trie, Backed, Linked, Confined, Wr, Deleted, Lookup, Place, ParentOf, SlotOf, InTrees;
    hide Promote, Prepared, Unring, PlaceWord;
    var xp := Rd(mem0, x + 24);
    var r;
    ghost var qs;
    mem, r, qs := TakeOff(mem0, least, x, treemap0, trees, f, u, k);
    treemap := treemap0;
    if xp != 0 {
      RelinkEnding(mem0, mem, trees, treemap0, f, x, u, r, qs);
      RelinkReady(mem0, mem, trees, treemap0, f, x, u, r, qs);
      mem, treemap := Relink(mem, treemap, least, x, r, xp, f);
    } else {
      TwinGone(mem0, trees, treemap0, f, x, u, k);
    }
  }
}

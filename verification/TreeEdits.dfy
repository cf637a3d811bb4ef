/** What `insert_large_chunk` and `unlink_large_chunk` do to the link words, and the tree they leave. */
module TreeEdits {
  import opened Words
  import opened TreeIndex
  import opened Tries
  import opened TreeLinks
  import opened FreeLinks

  /** The large chunks of `f` outside `qs` keep their links. */
  ghost predicate Untouched(mem: Mem, mem': Mem, f: map<int, int>, qs: set<int>) {
    forall p | p in f && f[p] >= MIN_LARGE_SIZE && p !in qs :: Same(mem, mem', p)
  }

  lemma WriteLink(mem: Mem, f: map<int, int>, qs: set<int>, q: int, off: int, v: int)
    requires Spaced(f) && q in f && q in qs && f[q] >= MIN_LARGE_SIZE && 8 <= off < 32
    ensures Untouched(mem, Wr(mem, q + off, v), f, qs)
    ensures Confined(mem, Wr(mem, q + off, v), f)
  {
    ConfinedWrite(mem, f, q, off, v);
    hide Confined;
    forall p | p in f && f[p] >= MIN_LARGE_SIZE && p !in qs ensures Same(mem, Wr(mem, q + off, v), p) {
      assert p + 32 <= q || q + 32 <= p;
    }
  }

  lemma WriteStatic(mem: Mem, f: map<int, int>, qs: set<int>, a: int, v: int)
    requires Spaced(f) && a < HEAP_MIN
    ensures Untouched(mem, Wr(mem, a, v), f, qs)
    ensures Confined(mem, Wr(mem, a, v), f)
  {
  }

  lemma UntouchedTrans(m: Mem, m': Mem, m'': Mem, f: map<int, int>, qs: set<int>)
    requires Untouched(m, m', f, qs) && Untouched(m', m'', f, qs)
    requires Confined(m, m', f) && Confined(m', m'', f)
    ensures Untouched(m, m'', f, qs) && Confined(m, m'', f)
  {
    ConfinedTrans(m, m', m'', f);
    hide Confined, Fd, Bk, ChildAt, Parent, IndexOf;
    forall p | p in f && f[p] >= MIN_LARGE_SIZE && p !in qs ensures Same(m, m'', p) {
      assert Same(m, m', p) && Same(m', m'', p);
    }
  }

  /** A chunk about to enter tree `i` notes its index and has no children yet. */
  function Fresh(mem: Mem, x: int, i: int): Mem { Wr(Wr(Wr(mem, x + 28, i), x + 16, 0), x + 20, 0) }

  /** A new leaf: the word leading to its place points at it, it knows its parent, and its ring is itself alone. */
  function LinkLeaf(mem: Mem, x: int, slot: int, par: int): Mem {
    Wr(Wr(Wr(Wr(mem, slot, x), x + 24, par), x + 8, x), x + 12, x)
  }

  /** A chunk joins the ring of head `t` as its youngest member, which has no parent. */
  function LinkTwin(mem: Mem, x: int, t: int): Mem {
    var f := Fd(mem, t);
    Wr(Wr(Wr(Wr(Wr(mem, t + 8, x), f + 12, x), x + 8, f), x + 12, t), x + 24, 0)
  }

  lemma FreshUntouched(mem: Mem, x: int, i: int, f: map<int, int>, qs: set<int>)
    requires Spaced(f) && x in f && x in qs && f[x] >= MIN_LARGE_SIZE
    ensures var m := Fresh(mem, x, i); Untouched(mem, m, f, qs) && Confined(mem, m, f)
  {
    hide Rd, Wr, Untouched, Confined;
    var m1 := Wr(mem, x + 28, i);
    var m2, m3 := Wr(m1, x + 16, 0), Fresh(mem, x, i);
    WriteLink(mem, f, qs, x, 28, i);
    WriteLink(m1, f, qs, x, 16, 0);
    WriteLink(m2, f, qs, x, 20, 0);
    UntouchedTrans(mem, m1, m2, f, qs);
    UntouchedTrans(mem, m2, m3, f, qs);
  }

  lemma LeafUntouched(mem: Mem, x: int, slot: int, par: int, h: int, off: int, f: map<int, int>, qs: set<int>)
    requires Spaced(f) && x in f && x in qs && f[x] >= MIN_LARGE_SIZE
    requires slot < HEAP_MIN || (h in f && h in qs && f[h] >= MIN_LARGE_SIZE && 8 <= off < 32 && slot == h + off)
    ensures var m := LinkLeaf(mem, x, slot, par); Untouched(mem, m, f, qs) && Confined(mem, m, f)
  {
    hide Rd, Wr, Untouched, Confined;
    var m1 := Wr(mem, slot, x);
    var m2 := Wr(m1, x + 24, par);
    var m3, m4 := Wr(m2, x + 8, x), LinkLeaf(mem, x, slot, par);
    if slot < HEAP_MIN { WriteStatic(mem, f, qs, slot, x); } else { WriteLink(mem, f, qs, h, off, x); }
    WriteLink(m1, f, qs, x, 24, par);
    WriteLink(m2, f, qs, x, 8, x);
    WriteLink(m3, f, qs, x, 12, x);
    UntouchedTrans(mem, m1, m2, f, qs);
    UntouchedTrans(mem, m2, m3, f, qs);
    UntouchedTrans(mem, m3, m4, f, qs);
  }

  lemma TwinUntouched(mem: Mem, x: int, t: int, f: map<int, int>, qs: set<int>)
    requires Spaced(f) && forall q | q in {x, t, Fd(mem, t)} :: q in f && q in qs && f[q] >= MIN_LARGE_SIZE
    ensures var m := LinkTwin(mem, x, t); Untouched(mem, m, f, qs) && Confined(mem, m, f)
  {
    hide Rd, Wr, Untouched, Confined;
    var d := Fd(mem, t);
    var m1 := Wr(mem, t + 8, x);
    var m2 := Wr(m1, d + 12, x);
    var m3 := Wr(m2, x + 8, d);
    var m4, m5 := Wr(m3, x + 12, t), LinkTwin(mem, x, t);
    WriteLink(mem, f, qs, t, 8, x);
    WriteLink(m1, f, qs, d, 12, x);
    WriteLink(m2, f, qs, x, 8, d);
    WriteLink(m3, f, qs, x, 12, t);
    WriteLink(m4, f, qs, x, 24, 0);
    UntouchedTrans(mem, m1, m2, f, qs);
    UntouchedTrans(mem, m2, m3, f, qs);
    UntouchedTrans(mem, m3, m4, f, qs);
    UntouchedTrans(mem, m4, m5, f, qs);
  }

  /** The word at the end of the walk holds the root of the subtree there, and that subtree is linked. */
  lemma {:induction false} LookupLinks(mem: Mem, t: Tree, s: int, lo: int, bits: nat, par: int, slot: int, i: int)
    requires Linked(mem, t, par, i) && Rd(mem, slot) == Root(t)
    ensures Linked(mem, Lookup(t, s, lo, bits), ParentOf(t, s, lo, bits, par), i)
    ensures Rd(mem, SlotOf(t, s, lo, bits, slot)) == Root(Lookup(t, s, lo, bits))
    decreases t
  {
    if !Stops(t, s, bits) {
      var d := Turn(s, lo, bits);
      LookupLinks(mem, Kid(t, d), s, KidLo(lo, bits, d), bits - 1, Root(t), Child(Root(t), d), i);
    }
  }

  /** A tree in memory: linked from the bin word `slot`, holding chunks of `f`. */
  ghost predicate Stored(mem: Mem, t: Tree, lo: int, bits: nat, slot: int, i: int, f: map<int, int>) {
    && Trie(t, lo, bits) && Backed(t, f) && Linked(mem, t, slot, i) && Rd(mem, slot) == Root(t)
    && slot < HEAP_MIN
  }

  lemma {:induction false} LargeSize(t: Tree, f: map<int, int>, s: int)
    requires Backed(t, f) && HasSize(t, s)
    ensures s >= MIN_LARGE_SIZE
    decreases t
  {
    if t.size != s { LargeSize(Kid(t, !HasSize(t.left, s)), f, s); }
  }

  /** The place for `s`: the bin word itself, or a child word of a node of another size. */
  lemma PlaceOf(t: Tree, s: int, lo: int, bits: nat, slot: int, f: map<int, int>)
    requires Trie(t, lo, bits) && Backed(t, f)
    ensures var c, h := SlotOf(t, s, lo, bits, slot), ParentOf(t, s, lo, bits, slot);
            if Stops(t, s, bits) then c == slot && h == slot
            else h in f && f[h] >= MIN_LARGE_SIZE && f[h] != s && HasSize(t, f[h])
                 && !HasSize(Lookup(t, s, lo, bits), f[h]) && c == Child(h, SideOf(t, s, lo, bits, false))
  {
    if !Stops(t, s, bits) {
      ParentIn(t, s, lo, bits, slot, slot, false, f);
      var h := ParentOf(t, s, lo, bits, slot);
      LargeSize(t, f, f[h]);
      ParentSize(t, s, lo, bits, slot, f);
    }
  }

  lemma {:induction false} ParentSize(t: Tree, s: int, lo: int, bits: nat, par: int, f: map<int, int>)
    requires Trie(t, lo, bits) && Backed(t, f) && !Stops(t, s, bits)
    ensures var h := ParentOf(t, s, lo, bits, par); h in f && f[h] != s
    decreases t
  {
    var d := Turn(s, lo, bits);
    if !Stops(Kid(t, d), s, bits - 1) { ParentSize(Kid(t, d), s, KidLo(lo, bits, d), bits - 1, Root(t), f); }
  }

  /** If only the place's child word and chunks of size `s` were touched, the rest of the tree sees a splice. */
  lemma SplicedBy(mem: Mem, m: Mem, t: Tree, s: int, lo: int, bits: nat, slot: int, f: map<int, int>, g: map<int, int>,
                  qs: set<int>)
    requires Trie(t, lo, bits) && Backed(t, f)
    requires forall p | p in f :: p in g && g[p] == f[p]
    requires Untouched(mem, m, g, qs)
    requires var h := ParentOf(t, s, lo, bits, slot);
             && (forall q | q in qs && q in f :: q == h || HasSize(Lookup(t, s, lo, bits), f[q]) || !HasSize(t, f[q]))
             && (!Stops(t, s, bits) ==> SameBut(mem, m, h, SideOf(t, s, lo, bits, false)))
    ensures Spliced(mem, m, t, s, lo, bits, slot, false, f)
  {
    hide SameBut;
    var h := ParentOf(t, s, lo, bits, slot);
    forall p | p in f && HasSize(t, f[p]) && !HasSize(Lookup(t, s, lo, bits), f[p]) && p != h ensures Same(mem, m, p) {
      LargeSize(t, f, f[p]);
    }
  }

  lemma LeafWords(mem: Mem, x: int, s: int, c: int, h: int, side: bool, i: int, f: map<int, int>)
    requires x in f && Spaced(f) && f[x] >= MIN_LARGE_SIZE
    requires c < HEAP_MIN || (h in f && h != x && f[h] >= MIN_LARGE_SIZE && c == Child(h, side))
    ensures var m := LinkLeaf(Fresh(mem, x, i), x, c, h);
            && Linked(m, Node([x], s, Nil, Nil), h, i) && Rd(m, c) == x
            && (c >= HEAP_MIN ==> SameBut(mem, m, h, side))
            && (forall a | a < HEAP_MIN && a != c :: Rd(m, a) == Rd(mem, a))
  {
    hide Rd, Wr;
  }

  lemma InsertLeaf(mem: Mem, t: Tree, x: int, s: int, lo: int, bits: nat, slot: int, i: int, f: map<int, int>)
    requires Stored(mem, t, lo, bits, slot, i, f) && lo <= s < lo + Pow2(bits) && s >= MIN_LARGE_SIZE
    requires x !in f && Spaced(f[x := s]) && !HasSize(t, s)
    ensures var m := LinkLeaf(Fresh(mem, x, i), x, SlotOf(t, s, lo, bits, slot), ParentOf(t, s, lo, bits, slot));
            && Linked(m, Insert(t, x, s, lo, bits), slot, i) && Rd(m, slot) == Root(Insert(t, x, s, lo, bits))
            && Untouched(mem, m, f[x := s], {x, ParentOf(t, s, lo, bits, slot)}) && Confined(mem, m, f[x := s])
            && (forall a | a < HEAP_MIN && a != slot :: Rd(m, a) == Rd(mem, a))
  {
    var c, h, side := SlotOf(t, s, lo, bits, slot), ParentOf(t, s, lo, bits, slot), SideOf(t, s, lo, bits, false);
    var g := f[x := s];
    var m0 := Fresh(mem, x, i);
    var m := LinkLeaf(m0, x, c, h);
    LookupHas(t, s, lo, bits);
    PlaceOf(t, s, lo, bits, slot, f);
    FreshUntouched(mem, x, i, g, {x, h});
    LeafUntouched(m0, x, c, h, h, c - h, g, {x, h});
    LeafWords(mem, x, s, c, h, side, i, g);
    hide Confined, Untouched, Spliced, Linked, LinkLeaf, Fresh;
    UntouchedTrans(mem, m0, m, g, {x, h});
    SplicedBy(mem, m, t, s, lo, bits, slot, f, g, {x, h});
    GraftLinks(mem, m, t, s, lo, bits, Node([x], s, Nil, Nil), slot, slot, false, i, f);
  }

  /** The rest of a node stays linked when only words of its ring changed. */
  lemma SubtreesFrame(mem: Mem, m: Mem, u: Tree, lo: int, bits: nat, i: int, f: map<int, int>, g: map<int, int>,
                      qs: set<int>)
    requires u.Node? && Trie(u, lo, bits) && Backed(u, f) && Linked(mem, u.left, Root(u), i)
    requires Linked(mem, u.right, Root(u), i)
    requires forall p | p in f :: p in g && g[p] == f[p]
    requires Untouched(mem, m, g, qs)
    requires forall q | q in qs && q in f :: f[q] == u.size || !HasSize(u, f[q])
    ensures Linked(m, u.left, Root(u), i) && Linked(m, u.right, Root(u), i)
  {
    forall p | p in f && (HasSize(u.left, f[p]) || HasSize(u.right, f[p])) ensures Same(mem, m, p) {
      LargeSize(u, f, f[p]);
    }
    hide Untouched, Same;
    LinkedFrame(mem, m, u.left, Root(u), i, f);
    LinkedFrame(mem, m, u.right, Root(u), i, f);
  }

  /** Two chunks are the same or their link words are apart. */
  ghost predicate Far(p: int, q: int) { p == q || p + 32 <= q || q + 32 <= p }

  lemma TwinAt(mem: Mem, x: int, t: int, i: int, p: int)
    requires var d := Fd(Fresh(mem, x, i), t);
             x != t && x != d && Far(x, t) && Far(x, d) && Far(t, d) && Far(p, x) && Far(p, t) && Far(p, d)
    ensures var m0 := Fresh(mem, x, i); var d := Fd(m0, t); var m := LinkTwin(m0, x, t);
            && Fd(m, p) == (if p == x then d else if p == t then x else Fd(mem, p))
            && Bk(m, p) == (if p == x then t else if p == d then x else Bk(mem, p))
            && IndexOf(m, p) == (if p == x then i else IndexOf(mem, p))
            && Parent(m, p) == (if p == x then 0 else Parent(mem, p))
            && (forall r :: ChildAt(m, p, r) == if p == x then 0 else ChildAt(mem, p, r))
  {
    hide Rd, Wr;
  }

  /** Appending to a ring: the new chunk goes between the youngest and the head. */
  lemma TwinWords(mem: Mem, ring: seq<int>, x: int, i: int)
    requires ring != [] && NoDup(ring) && RingLinks(mem, ring, i) && x !in ring
    requires forall p, q | p in ring + [x] && q in ring + [x] :: Far(p, q)
    ensures var m := LinkTwin(Fresh(mem, x, i), x, ring[0]);
            && RingLinks(m, ring + [x], i)
            && (forall d :: ChildAt(m, ring[0], d) == ChildAt(mem, ring[0], d))
            && Parent(m, ring[0]) == Parent(mem, ring[0])
  {
    var n := |ring|;
    var r := ring + [x];
    var m0 := Fresh(mem, x, i);
    var m := LinkTwin(m0, x, ring[0]);
    assert r[0] == ring[0] && r[n] == x && r[n - 1] == ring[n - 1] && x in r && ring[0] in r && ring[n - 1] in r;
    assert Fd(mem, ring[0]) == ring[n - 1];
    assert Fd(m0, ring[0]) == ring[n - 1] by { assert Far(x, ring[0]); }
    hide Fresh, LinkTwin, Fd, Bk, IndexOf, Parent, ChildAt;
    forall k | 0 <= k < n + 1
      ensures Bk(m, r[k]) == After(r, k) && Fd(m, r[k]) == Before(r, k)
      ensures IndexOf(m, r[k]) == i && (k > 0 ==> Plain(m, r[k]))
    {
      assert r[k] in r;
      TwinAt(mem, x, ring[0], i, r[k]);
      if k < n {
        assert r[k] == ring[k];
        assert k > 0 ==> Plain(mem, ring[k]);
        assert Bk(mem, ring[k]) == After(ring, k) && Fd(mem, ring[k]) == Before(ring, k) && IndexOf(mem, ring[k]) == i;
      }
    }
    TwinAt(mem, x, ring[0], i, ring[0]);
  }

  lemma SpacedFar(f: map<int, int>, ring: seq<int>)
    requires Spaced(f) && forall p | p in ring :: p in f && f[p] >= MIN_LARGE_SIZE
    ensures forall p, q | p in ring && q in ring :: Far(p, q)
  {}

  /**
   * An edit that leaves a well-linked subtree at the place of `s`, and touches nothing else but the word leading there.
   */
  lemma EditAt(mem: Mem, m: Mem, t: Tree, s: int, lo: int, bits: nat, slot: int, i: int, u: Tree,
               f: map<int, int>, g: map<int, int>, qs: set<int>)
    requires Stored(mem, t, lo, bits, slot, i, f)
    requires forall p | p in f :: p in g && g[p] == f[p]
    requires Linked(m, u, ParentOf(t, s, lo, bits, slot), i)
    requires Rd(m, SlotOf(t, s, lo, bits, slot)) == Root(u)
    requires Untouched(mem, m, g, qs)
    requires var h := ParentOf(t, s, lo, bits, slot);
             && (forall q | q in qs && q in f :: q == h || HasSize(Lookup(t, s, lo, bits), f[q]))
             && (!Stops(t, s, bits) ==>
                   SameBut(mem, m, h, SideOf(t, s, lo, bits, false)) && Rd(m, slot) == Rd(mem, slot))
    ensures Linked(m, Graft(t, s, lo, bits, u), slot, i) && Rd(m, slot) == Root(Graft(t, s, lo, bits, u))
  {
    hide Untouched, Spliced, Linked, SameBut;
    SplicedBy(mem, m, t, s, lo, bits, slot, f, g, qs);
    GraftLinks(mem, m, t, s, lo, bits, u, slot, slot, false, i, f);
  }

  lemma TwinTouch(mem: Mem, ring: seq<int>, x: int, s: int, i: int, g: map<int, int>)
    requires ring != [] && RingLinks(mem, ring, i) && x !in ring && Spaced(g)
    requires forall p | p in ring + [x] :: p in g && g[p] >= MIN_LARGE_SIZE
    requires forall p, q | p in ring + [x] && q in ring + [x] :: Far(p, q)
    ensures var m := LinkTwin(Fresh(mem, x, i), x, ring[0]);
      Untouched(mem, m, g, {x, ring[0], ring[|ring| - 1]}) && Confined(mem, m, g)
      && (forall a | a < HEAP_MIN :: Rd(m, a) == Rd(mem, a))
  {
    var m0 := Fresh(mem, x, i);
    var y, z := ring[0], ring[|ring| - 1];
    var r := ring + [x];
    assert r[0] == y && r[|ring| - 1] == z && r[|ring|] == x && x in r && y in r && z in r && z in ring && y in ring;
    assert Fd(mem, y) == z && Fd(m0, y) == z by { assert Far(x, y); }
    hide Rd, Wr;
    forall a | a < HEAP_MIN ensures Rd(LinkTwin(m0, x, y), a) == Rd(mem, a) { }
    hide Fresh, LinkTwin, Untouched, Confined, Circle, RingLinks;
    FreshUntouched(mem, x, i, g, {x, y, z});
    TwinUntouched(m0, x, y, g, {x, y, z});
    UntouchedTrans(mem, m0, LinkTwin(m0, x, y), g, {x, y, z});
  }

  lemma TwinSubtree(mem: Mem, u: Tree, x: int, s: int, l: int, b: nat, par: int, i: int, f: map<int, int>)
    requires u.Node? && u.size == s && Trie(u, l, b) && Backed(u, f) && Linked(mem, u, par, i)
    requires x !in f && Spaced(f[x := s]) && s >= MIN_LARGE_SIZE
    ensures var m := LinkTwin(Fresh(mem, x, i), x, u.ring[0]);
            && Linked(m, Added(u, x, s), par, i)
            && Untouched(mem, m, f[x := s], {x, u.ring[0], u.ring[|u.ring| - 1]}) && Confined(mem, m, f[x := s])
            && (forall a | a < HEAP_MIN :: Rd(m, a) == Rd(mem, a))
  {
    var y, z := u.ring[0], u.ring[|u.ring| - 1];
    assert y in u.ring && z in u.ring;
    var g := f[x := s];
    SpacedFar(g, u.ring + [x]);
    TwinTouch(mem, u.ring, x, s, i, g);
    hide Rd, Wr, Untouched, Confined, LinkTwin, Fresh;
    var m := LinkTwin(Fresh(mem, x, i), x, y);
    TwinWords(mem, u.ring, x, i);
    SubtreesFrame(mem, m, u, l, b, i, f, g, {x, y, z});
  }

  lemma InsertTwin(mem: Mem, t: Tree, x: int, s: int, lo: int, bits: nat, slot: int, i: int, f: map<int, int>)
    requires Stored(mem, t, lo, bits, slot, i, f) && lo <= s < lo + Pow2(bits) && s >= MIN_LARGE_SIZE
    requires x !in f && Spaced(f[x := s]) && HasSize(t, s)
    ensures var u := Lookup(t, s, lo, bits);
            u.Node? && u.ring != [] &&
            var m := LinkTwin(Fresh(mem, x, i), x, u.ring[0]);
            && Linked(m, Insert(t, x, s, lo, bits), slot, i) && Rd(m, slot) == Root(Insert(t, x, s, lo, bits))
            && Untouched(mem, m, f[x := s], {x, u.ring[0], u.ring[|u.ring| - 1]}) && Confined(mem, m, f[x := s])
            && (forall a | a < HEAP_MIN :: Rd(m, a) == Rd(mem, a))
  {
    var u := Lookup(t, s, lo, bits);
    LookupHas(t, s, lo, bits);
    LookupTrie(t, s, lo, bits);
    LookupBacked(t, s, lo, bits, f);
    LookupLinks(mem, t, s, lo, bits, slot, slot, i);
    PlaceOf(t, s, lo, bits, slot, f);
    var (l, b) := Place(t, s, lo, bits);
    var h, c, side := ParentOf(t, s, lo, bits, slot), SlotOf(t, s, lo, bits, slot), SideOf(t, s, lo, bits, false);
    TwinSubtree(mem, u, x, s, l, b, h, i, f);
    var y, z := u.ring[0], u.ring[|u.ring| - 1];
    assert y in u.ring && z in u.ring;
    var m := LinkTwin(Fresh(mem, x, i), x, y);
    var g := f[x := s];
    hide Rd, Wr, Confined, LinkTwin, Fresh, Linked, Trie;
    assert !Stops(t, s, bits) ==> Same(mem, m, h) && Rd(m, c) == Rd(mem, c);
    hide Untouched, Same;
    EditAt(mem, m, t, s, lo, bits, slot, i, Added(u, x, s), f, g, {x, y, z});
  }
}

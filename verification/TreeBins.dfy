/** The 32 tree bins together with their bitmap. */
module TreeBins {
  import opened Words
  import opened BinMaps
  import opened TreeIndex
  import opened Tries
  import opened TreeLinks
  import opened FreeLinks
  import opened TreeEdits
  import opened TreeUnlink

  /** The word of the allocator's state that points to tree `i`. */
  function TreeBin(i: nat): int { TREEBINS + 4 * i }

  ghost predicate TreeAt(mem: Mem, t: Tree, j: nat, treemap: bv32, f: map<int, int>)
    requires j < 32
  {
    && Stored(mem, t, Lo(j), Bits(j), TreeBin(j), j, f)
    && (Marked(treemap, j) <==> t.Node?)
    && (forall z | HasSize(t, z) :: MIN_LARGE_SIZE <= z < WORD && Index(z) == j)
  }

  ghost predicate TreesOk(mem: Mem, trees: seq<Tree>, treemap: bv32, f: map<int, int>) {
    |trees| == 32 && forall j: nat | j < 32 :: TreeAt(mem, trees[j], j, treemap, f)
  }

  /** Every large chunk of `f` is on the ring of its size in the tree of its index. */
  ghost predicate InTrees(trees: seq<Tree>, f: map<int, int>, p: int)
    requires |trees| == 32 && p in f && MIN_LARGE_SIZE <= f[p] < WORD
  {
    IndexRange(f[p]); HasSize(trees[Index(f[p])], f[p]) && p in Ring(trees[Index(f[p])], f[p])
  }

  /** Nothing below the heap changes but the word of tree `i`. */
  ghost predicate OnlyBin(mem: Mem, m: Mem, i: nat) {
    forall a | a < HEAP_MIN && a != TreeBin(i) :: Rd(m, a) == Rd(mem, a)
  }

  /** An edit of tree `i` leaves the others as they were. */
  lemma OtherTrees(mem: Mem, m: Mem, trees: seq<Tree>, treemap: bv32, treemap': bv32, f: map<int, int>, g: map<int,
                   int>,
                   f': map<int, int>, i: nat, t: Tree, qs: set<int>)
    requires TreesOk(mem, trees, treemap, f) && i < 32
    requires TreeAt(m, t, i, treemap', f')
    requires forall j: nat | j < 32 && j != i :: Marked(treemap', j) <==> Marked(treemap, j)
    requires OnlyBin(mem, m, i) && Untouched(mem, m, g, qs)
    requires forall p | p in f :: p in g && g[p] == f[p]
    requires forall q | q in qs && q in f && MIN_LARGE_SIZE <= f[q] < WORD :: Index(f[q]) == i
    requires forall p | p in f && MIN_LARGE_SIZE <= f[p] < WORD && Index(f[p]) != i :: p in f' && f'[p] == f[p]
    ensures TreesOk(m, trees[i := t], treemap', f')
  {
    hide Untouched, Trie, Backed, Marked;
    forall j: nat | j < 32 && j != i ensures TreeAt(m, trees[j], j, treemap', f') {
      var u := trees[j];
      assert TreeAt(mem, u, j, treemap, f);
      forall p | p in f && HasSize(u, f[p]) ensures Same(mem, m, p) && p in f' && f'[p] == f[p] {
        assert Untouched(mem, m, g, qs) ==> Same(mem, m, p) by { One(mem, m, g, qs, p); }
      }
      hide Same, Linked;
      LinkedFrame(mem, m, u, TreeBin(j), j, f);
      BackedMore(u, f, f');
    }
  }

  lemma One(mem: Mem, m: Mem, g: map<int, int>, qs: set<int>, p: int)
    requires Untouched(mem, m, g, qs) && p in g && g[p] >= MIN_LARGE_SIZE && p !in qs
    ensures Same(mem, m, p)
  {}

  ghost function Inserted(trees: seq<Tree>, x: int, s: int): (r: seq<Tree>)
    requires |trees| == 32 && MIN_LARGE_SIZE <= s < WORD
    ensures |r| == 32
  {
    IndexRange(s);
    var i := Index(s); trees[i := Insert(trees[i], x, s, Lo(i), Bits(i))]
  }

  /** Insertion as the bins see it. */
  lemma InsertBins(mem: Mem, m: Mem, trees: seq<Tree>, treemap: bv32, treemap': bv32, f: map<int, int>, x: int, s: int,
                   qs: set<int>)
    requires TreesOk(mem, trees, treemap, f) && x !in f && MIN_LARGE_SIZE <= s < WORD && Index(s) < 32
    requires var i := Index(s); var t := Insert(trees[i], x, s, Lo(i), Bits(i));
             && Linked(m, t, TreeBin(i), i) && Rd(m, TreeBin(i)) == Root(t) && OnlyBin(mem, m, i)
             && (forall j: nat | j < 32 :: Marked(treemap', j) <==> j == i || Marked(treemap, j))
             && Untouched(mem, m, f[x := s], qs)
             && (forall q | q in qs && q in f && MIN_LARGE_SIZE <= f[q] < WORD :: Index(f[q]) == i)
    ensures TreesOk(m, Inserted(trees, x, s), treemap', f[x := s])
  {
    var i := Index(s);
    var t := trees[i];
    assert TreeAt(mem, t, i, treemap, f);
    IndexRange(s);
    InsertTree(t, x, s, Lo(i), Bits(i));
    InsertBacked(t, x, s, Lo(i), Bits(i), f);
    hide Untouched, Linked, Marked, Insert, Trie, Backed;
    assert TreeAt(m, Insert(t, x, s, Lo(i), Bits(i)), i, treemap', f[x := s]);
    OtherTrees(mem, m, trees, treemap, treemap', f, f[x := s], f[x := s], i, Insert(t, x, s, Lo(i), Bits(i)), qs);
  }

  ghost predicate AllInTrees(trees: seq<Tree>, f: map<int, int>)
    requires |trees| == 32
  {
    forall p | p in f && MIN_LARGE_SIZE <= f[p] < WORD :: InTrees(trees, f, p)
  }

  lemma InsertAll(mem: Mem, trees: seq<Tree>, treemap: bv32, f: map<int, int>, x: int, s: int)
    requires TreesOk(mem, trees, treemap, f) && x !in f && MIN_LARGE_SIZE <= s < WORD
    requires AllInTrees(trees, f)
    ensures AllInTrees(Inserted(trees, x, s), f[x := s])
  {
    IndexRange(s);
    var i := Index(s);
    var t := trees[i];
    assert TreeAt(mem, t, i, treemap, f);
    InsertTree(t, x, s, Lo(i), Bits(i));
    hide Insert, Trie, Backed, Linked;
    var g := f[x := s];
    forall p | p in g && MIN_LARGE_SIZE <= g[p] < WORD ensures InTrees(Inserted(trees, x, s), g, p) {
      IndexRange(g[p]);
      assert p != x ==> InTrees(trees, f, p);
    }
  }

  ghost function Deleted(trees: seq<Tree>, x: int, s: int): (r: seq<Tree>)
    requires |trees| == 32 && MIN_LARGE_SIZE <= s < WORD
    ensures |r| == 32
  {
    IndexRange(s);
    var i := Index(s); trees[i := Remove(trees[i], x, s, Lo(i), Bits(i))]
  }

  /** Removal as the bins see it. */
  lemma RemoveBins(mem: Mem, m: Mem, trees: seq<Tree>, treemap: bv32, treemap': bv32, f: map<int, int>, x: int, s: int,
                   qs: set<int>)
    requires TreesOk(mem, trees, treemap, f) && x in f && f[x] == s && MIN_LARGE_SIZE <= s < WORD && Index(s) < 32
    requires var i := Index(s); var t := Remove(trees[i], x, s, Lo(i), Bits(i));
             && HasSize(trees[i], s) && x in Ring(trees[i], s)
             && Linked(m, t, TreeBin(i), i) && Rd(m, TreeBin(i)) == Root(t) && OnlyBin(mem, m, i)
             && (Marked(treemap', i) <==> t.Node?)
             && (forall j: nat | j < 32 && j != i :: Marked(treemap', j) <==> Marked(treemap, j))
             && Untouched(mem, m, f, qs)
             && (forall q | q in qs && q in f && MIN_LARGE_SIZE <= f[q] < WORD :: Index(f[q]) == i)
    ensures TreesOk(m, Deleted(trees, x, s), treemap', f - {x})
  {
    var i := Index(s);
    var t := trees[i];
    assert TreeAt(mem, t, i, treemap, f);
    RemoveTree(t, x, s, Lo(i), Bits(i), f);
    RemoveBacked(t, x, s, Lo(i), Bits(i), f);
    hide Untouched, Linked, Marked, Remove, Trie, Backed;
    var t' := Remove(t, x, s, Lo(i), Bits(i));
    forall z | HasSize(t', z) ensures HasSize(t, z) {}
    assert TreeAt(m, t', i, treemap', f - {x});
    OtherTrees(mem, m, trees, treemap, treemap', f, f, f - {x}, i, t', qs);
  }

  lemma RemoveAll(mem: Mem, trees: seq<Tree>, treemap: bv32, f: map<int, int>, x: int, s: int)
    requires TreesOk(mem, trees, treemap, f) && x in f && f[x] == s && MIN_LARGE_SIZE <= s < WORD
    requires AllInTrees(trees, f)
    ensures AllInTrees(Deleted(trees, x, s), f - {x})
  {
    IndexRange(s);
    var i := Index(s);
    var t := trees[i];
    assert TreeAt(mem, t, i, treemap, f) && InTrees(trees, f, x);
    RemoveTree(t, x, s, Lo(i), Bits(i), f);
    RingBacked(t, f, s);
    WithoutProps(Ring(t, s), x);
    hide Remove, Trie, Backed, Linked, NoDup;
    var g := f - {x};
    forall p | p in g && MIN_LARGE_SIZE <= g[p] < WORD ensures InTrees(Deleted(trees, x, s), g, p) {
      IndexRange(g[p]);
      assert InTrees(trees, f, p);
      if g[p] == s {
        assert p in Without(Ring(t, s), x);
        assert |Ring(t, s)| > 1 by { TwoIn(Ring(t, s), p, x); }
      }
    }
  }

  lemma TwoIn(r: seq<int>, p: int, q: int)
    requires p in r && q in r && p != q
    ensures |r| > 1
  {}
}

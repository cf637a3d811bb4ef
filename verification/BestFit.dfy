/** The best-fit searches `tmalloc_large` and `tmalloc_small` make through the trees. */
module BestFit {
  import opened Words
  import opened BinMaps
  import opened TreeIndex
  import opened Tries
  import opened TreeLinks
  import opened FreeLinks
  import opened TreeEdits
  import opened TreeUnlink
  import opened TreeBins
  import opened LargeChunks

  /** 32-bit subtraction */
  function Sub32(a: int, b: int): int { (a - b) % WORD }

  /** Unsigned remainders compare as wanted: a chunk too small leaves a huge one. */
  lemma Remainder(size: int, nb: int, rsize: int)
    requires 0 < size < WORD && 0 < nb < WORD && 0 <= rsize <= WORD - nb
    ensures Sub32(size, nb) < rsize <==> size >= nb && size - nb < rsize
    ensures size >= nb ==> Sub32(size, nb) == size - nb
    ensures Sub32(0, nb) == WORD - nb
  {}

  /** `v` with excess `rsize` is the best chunk seen so far among the sizes of tree `t`; 0 if none fits. */
  ghost predicate Best(t: Tree, f: map<int, int>, nb: int, v: int, rsize: int) {
    if v == 0 then rsize == WORD - nb
    else
      && v in f && f[v] == nb + rsize && 0 <= rsize < WORD - nb
      && HasSize(t, f[v]) && Ring(t, f[v]) != [] && Ring(t, f[v])[0] == v
  }

  ghost predicate Above(z: int, w: Tree) { forall y | HasSize(w, y) :: y < z }

  /**
   * Every fitting size of `t` is matched by the best so far, or still to be seen in `u` or `w`, or beaten by something
   * in `w`.
   */
  ghost predicate Covered(t: Tree, f: map<int, int>, nb: int, v: int, u: Tree, w: Tree) {
    forall z | HasSize(t, z) && z >= nb ::
      (v != 0 && v in f && f[v] <= z) || HasSize(u, z) || HasSize(w, z) || (w.Node? && Above(z, w))
  }

  /** `u` is part of tree `t` as it lies in memory. */
  ghost predicate PartOf(mem: Mem, u: Tree, t: Tree, lo: int, bits: nat, par: int, i: int, f: map<int, int>) {
    && Trie(u, lo, bits) && Backed(u, f) && Linked(mem, u, par, i)
    && (forall z | HasSize(u, z) :: HasSize(t, z) && z < WORD && Ring(u, z) == Ring(t, z))
  }

  lemma KidPart(mem: Mem, u: Tree, t: Tree, lo: int, bits: nat, par: int, i: int, f: map<int, int>, d: bool)
    requires PartOf(mem, u, t, lo, bits, par, i, f) && u.Node? && bits > 0
    ensures PartOf(mem, Kid(u, d), t, KidLo(lo, bits, d), bits - 1, Root(u), i, f)
  {
    forall z | HasSize(Kid(u, d), z) ensures HasSize(t, z) && z < WORD && Ring(Kid(u, d), z) == Ring(t, z) {
      Split(u, z, lo, bits);
      assert HasSize(u, z);
    }
  }

  /** The words of a node as the walk reads them. */
  lemma NodeWords(mem: Mem, u: Tree, t: Tree, lo: int, bits: nat, par: int, i: int, f: map<int, int>)
    requires PartOf(mem, u, t, lo, bits, par, i, f) && u.Node? && SizesIn(mem, f) && 0 !in f
    ensures var p := Root(u);
            && p != 0 && p in f && f[p] == u.size && ChunkSize(Rd(mem, p + 4)) == u.size && 0 < u.size < WORD
            && Rd(mem, Child(p, false)) == Root(u.left) && Rd(mem, Child(p, true)) == Root(u.right)
            && (Root(u.left) == 0 <==> u.left.Nil?) && (Root(u.right) == 0 <==> u.right.Nil?)
            && (u.left.Node? && u.right.Node? ==> Root(u.left) != Root(u.right))
            && (bits == 0 ==> u.left.Nil? && u.right.Nil?)
  {
    RootIn(u, lo, bits, f);
    if u.left.Node? { RootIn(u.left, lo, bits - 1, f); Split(u, u.left.size, lo, bits); }
    if u.right.Node? { RootIn(u.right, lo + Pow2(bits - 1), bits - 1, f); }
  }

  lemma Visit(t: Tree, f: map<int, int>, nb: int, v: int, rsize: int, u: Tree, w: Tree, lo: int, bits: nat)
    requires 0 < nb < WORD && Best(t, f, nb, v, rsize) && Covered(t, f, nb, v, u, w) && 0 !in f
    requires u.Node? && Trie(u, lo, bits) && Backed(u, f) && u.size < WORD
    requires forall z | HasSize(u, z) :: HasSize(t, z) && Ring(u, z) == Ring(t, z)
    ensures var better := Sub32(u.size, nb) < rsize;
            var v', rsize' := if better then Root(u) else v, if better then Sub32(u.size, nb) else rsize;
            && Best(t, f, nb, v', rsize')
            && forall z | HasSize(t, z) && z >= nb ::
                 (v' != 0 && v' in f && f[v'] <= z) || HasSize(u.left, z) || HasSize(u.right, z) || HasSize(w, z)
                     || (w.Node? && Above(z, w))
  {
    Remainder(u.size, nb, rsize);
    RootIn(u, lo, bits, f);
    assert Ring(u, u.size) == u.ring;
  }

  /** The right subtree passed by is the nearest one above: everything passed by before is larger. */
  lemma PassBy(t: Tree, f: map<int, int>, nb: int, v: int, u: Tree, w: Tree, lo: int, bits: nat, wlo: int, wbits: nat)
    requires u.Node? && Trie(u, lo, bits) && Trie(w, wlo, wbits) && bits > 0 && lo + Pow2(bits) <= wlo
    requires lo <= nb < lo + Pow2(bits)
    requires forall z | HasSize(t, z) && z >= nb ::
                 (v != 0 && v in f && f[v] <= z) || HasSize(u.left, z) || HasSize(u.right, z) || HasSize(w, z)
                     || (w.Node? && Above(z, w))
    ensures var d := Turn(nb, lo, bits);
            Covered(t, f, nb, v, Kid(u, d), if !d && u.right.Node? then u.right else w)
  {
    var d := Turn(nb, lo, bits);
    forall z | HasSize(t, z) && z >= nb
      ensures (v != 0 && v in f && f[v] <= z) || HasSize(Kid(u, d), z)
              || (if !d && u.right.Node? then HasSize(u.right, z) || Above(z, u.right)
                  else HasSize(w, z) || (w.Node? && Above(z, w)))
    {
      if HasSize(u.left, z) { SizeBounds(u.left, z, lo, bits - 1); }
      if !d && u.right.Node? && (HasSize(w, z) || (w.Node? && Above(z, w))) {
        if HasSize(w, z) {
          SizeBounds(w, z, wlo, wbits);
        } else {
          assert HasSize(w, w.size);
          assert w.size < z;
          SizeBounds(w, w.size, wlo, wbits);
        }
        assert z >= wlo;
        forall y | HasSize(u.right, y) ensures y < z { SizeBounds(u.right, y, lo + Pow2(bits - 1), bits - 1); }
      }
    }
  }

  /** Going down the leftmost path misses nothing smaller. */
  lemma GoLeft(t: Tree, f: map<int, int>, nb: int, v: int, w: Tree, lo: int, bits: nat)
    requires w.Node? && Trie(w, lo, bits)
    requires forall z | HasSize(t, z) && z >= nb ::
                 (v != 0 && v in f && f[v] <= z) || HasSize(w.left, z) || HasSize(w.right, z)
                     || (w.Node? && Above(z, w))
    ensures var k := if w.left.Node? then w.left else w.right;
            v != 0 && v in f && (f[v] <= w.size || f[v] == nb) ==> Covered(t, f, nb, v, Nil, k)
  {
    var k := if w.left.Node? then w.left else w.right;
    if v != 0 && v in f && (f[v] <= w.size || f[v] == nb) {
      forall z | HasSize(t, z) && z >= nb
        ensures (v != 0 && v in f && f[v] <= z) || HasSize(k, z) || (k.Node? && Above(z, k))
      {
        if Above(z, w) { assert HasSize(w, w.size); assert w.size < z; }
        else if !(f[v] <= z) && !HasSize(k, z) {
          assert w.left.Node? && HasSize(w.right, z);
          SizeBounds(w.right, z, lo + Pow2(bits - 1), bits - 1);
          forall y | HasSize(k, y) ensures y < z { SizeBounds(w.left, y, lo, bits - 1); }
        }
      }
    }
  }

  lemma Halves(bits: nat)
    requires bits > 0
    ensures Pow2(bits) == Pow2(bits - 1) + Pow2(bits - 1)
  {}

  lemma RestFits(mem: Mem, w: Tree, t: Tree, lo: int, bits: nat, par: int, i: int, f: map<int, int>, nb: int)
    requires PartOf(mem, w, t, lo, bits, par, i, f) && nb <= lo && 0 !in f
    ensures forall z | HasSize(w, z) :: z >= nb
    ensures Root(w) == 0 <==> w.Nil?
  {
    forall z | HasSize(w, z) ensures z >= nb { SizeBounds(w, z, lo, bits); }
    if w.Node? { RootIn(w, lo, bits, f); }
  }

  /** The walk for `nb` is at node `u`; subtree `w` is the deepest right one passed by; `v` the best chunk seen. */
  ghost predicate Seeking(mem: Mem, t: Tree, u: Tree, lo: int, bits: nat, par: int, w: Tree, wlo: int, wbits: nat,
                          wpar: int,
                          i: int, f: map<int, int>, nb: int, v: int, rsize: int, k: int) {
    && PartOf(mem, u, t, lo, bits, par, i, f) && PartOf(mem, w, t, wlo, wbits, wpar, i, f)
    && Key(k, nb, lo, bits) && lo + Pow2(bits) <= wlo
    && Best(t, f, nb, v, rsize) && Covered(t, f, nb, v, u, w)
    && 0 < nb < WORD && 0 !in f && SizesIn(mem, f)
  }

  lemma SeekStep(mem: Mem, t: Tree, u: Tree, lo: int, bits: nat, par: int, w: Tree, wlo: int, wbits: nat, wpar: int,
                 i: int, f: map<int, int>, nb: int, v: int, rsize: int, k: int)
    requires Seeking(mem, t, u, lo, bits, par, w, wlo, wbits, wpar, i, f, nb, v, rsize, k) && u.Node? && rsize > 0
    ensures var p := Root(u);
            var trem := Sub32(ChunkSize(Rd(mem, p + 4)), nb);
            var v', rsize' := if trem < rsize then p else v, if trem < rsize then trem else rsize;
            && Best(t, f, nb, v', rsize')
            && (trem < rsize && trem == 0 ==> p in f && f[p] == nb)
            && (rsize' > 0 ==>
                  && bits > 0 && 0 <= k < WORD
                  && var d := Turn(nb, lo, bits);
                     var pass := !d && u.right.Node?;
                     var w', wlo' := if pass then u.right else w, if pass then KidLo(lo, bits, true) else wlo;
                     var wbits', wpar' := if pass then bits - 1 else wbits, if pass then p else wpar;
                     && d == (k / 0x8000_0000 == 1)
                     && Rd(mem, Child(p, d)) == Root(Kid(u, d)) && (Root(Kid(u, d)) == 0 <==> Kid(u, d).Nil?)
                     && (pass <==> Rd(mem, Child(p, true)) != 0 && Rd(mem, Child(p, true)) != Rd(mem, Child(p, d)))
                     && (pass ==> Rd(mem, Child(p, true)) == Root(u.right))
                     && Seeking(mem, t, Kid(u, d), KidLo(lo, bits, d), bits - 1, p, w', wlo', wbits', wpar', i, f, nb,
                            v', rsize', 2 * k % WORD))
  {
    hide Covered, SizesIn, Pow2, Linked;
    NodeWords(mem, u, t, lo, bits, par, i, f);
    Visit(t, f, nb, v, rsize, u, w, lo, bits);
    Remainder(u.size, nb, rsize);
    hide Trie, Backed, HasSize, Best;
    var trem := Sub32(u.size, nb);
    var v', rsize' := if trem < rsize then Root(u) else v, if trem < rsize then trem else rsize;
    if rsize' > 0 {
      Onward(u, nb, lo, bits);
      KeyStep(k, nb, lo, bits);
      PassBy(t, f, nb, v', u, w, lo, bits, wlo, wbits);
      Halves(bits);
      hide Best, Covered, SizesIn, Rd, Pow2, Trie, Backed, Linked;
      KidPart(mem, u, t, lo, bits, par, i, f, true);
      KidPart(mem, u, t, lo, bits, par, i, f, Turn(nb, lo, bits));
    }
  }

  /** First loop of `tmalloc_large`: follow the bits of `nb`, remembering the deepest right subtree passed by. */
  method FollowKey(mem: Mem, t0: int, nb: int, key: int, ghost t: Tree, ghost lo0: int, ghost bits0: nat,
                   ghost par0: int, ghost i: int, ghost f: map<int, int>)
    returns (v: int, rsize: int, next: int, ghost w: Tree, ghost wlo: int, ghost wbits: nat, ghost wpar: int)
    requires 0 < nb < WORD && SizesIn(mem, f) && 0 !in f
    requires t.Node? && t0 == Root(t) && PartOf(mem, t, t, lo0, bits0, par0, i, f) && Key(key, nb, lo0, bits0)
    ensures Best(t, f, nb, v, rsize) && Covered(t, f, nb, v, Nil, w) && next == Root(w)
    ensures PartOf(mem, w, t, wlo, wbits, wpar, i, f)
    ensures (v != 0 && f[v] == nb) || forall z | HasSize(w, z) :: z >= nb
    ensures next == 0 <==> w.Nil?
  {
    v, rsize, next := 0, Sub32(0, nb), t0;
    Remainder(1, nb, 0);
    var sizebits, rst := key, 0;
    ghost var u, lo, bits, par := t, lo0, bits0, par0;
    w, wlo, wbits, wpar := Nil, lo + Pow2(bits), 0, 0;
    while true
      invariant u.Node? && next == Root(u) && rst == Root(w) && rsize > 0
      invariant Seeking(mem, t, u, lo, bits, par, w, wlo, wbits, wpar, i, f, nb, v, rsize, sizebits)
      decreases u
    {
      SeekStep(mem, t, u, lo, bits, par, w, wlo, wbits, wpar, i, f, nb, v, rsize, sizebits);
      var trem := Sub32(ChunkSize(Rd(mem, next + 4)), nb);
      if trem < rsize {
        v, rsize := next, trem;
        if rsize == 0 {
          w, wlo, wbits, wpar := u, lo, bits, par;
          ExactFit(mem, t, u, lo, bits, par, i, f, nb, v);
          return;
        }
      }
      hide PartOf, Best, Covered, SizesIn, Rd, Pow2, Seeking, Key;
      var rt := Rd(mem, Child(next, true));
      next := Rd(mem, Child(next, sizebits / 0x8000_0000 == 1));
      if rt != 0 && rt != next { rst := rt; }
      ghost var d := Turn(nb, lo, bits);
      if !d && u.right.Node? { w, wlo, wbits, wpar := u.right, KidLo(lo, bits, true), bits - 1, Root(u); }
      u, lo, bits, par := Kid(u, d), KidLo(lo, bits, d), bits - 1, Root(u);
      sizebits := 2 * sizebits % WORD;
      if next == 0 {
        next := rst;
        SeekEnd(mem, t, lo, bits, par, w, wlo, wbits, wpar, i, f, nb, v, rsize, sizebits);
        return;
      }
    }
  }

  lemma ExactFit(mem: Mem, t: Tree, u: Tree, lo: int, bits: nat, par: int, i: int, f: map<int, int>, nb: int, v: int)
    requires PartOf(mem, u, t, lo, bits, par, i, f) && u.Node? && v != 0 && v in f && f[v] == nb
    ensures Covered(t, f, nb, v, Nil, u)
  {}

  lemma SeekEnd(mem: Mem, t: Tree, lo: int, bits: nat, par: int, w: Tree, wlo: int, wbits: nat, wpar: int,
                i: int, f: map<int, int>, nb: int, v: int, rsize: int, k: int)
    requires Seeking(mem, t, Nil, lo, bits, par, w, wlo, wbits, wpar, i, f, nb, v, rsize, k)
    ensures Best(t, f, nb, v, rsize) && Covered(t, f, nb, v, Nil, w) && PartOf(mem, w, t, wlo, wbits, wpar, i, f)
    ensures forall z | HasSize(w, z) :: z >= nb
    ensures Root(w) == 0 <==> w.Nil?
  {
    RestFits(mem, w, t, wlo, wbits, wpar, i, f, nb);
  }

  /** A node on the leftmost path, as the search sees it. */
  lemma LeftBest(t: Tree, w: Tree, lo: int, bits: nat, f: map<int, int>, nb: int, v: int, rsize: int)
    requires w.Node? && Trie(w, lo, bits) && Backed(w, f) && 0 !in f && 0 < nb < WORD && 0 < w.size < WORD
    requires HasSize(t, w.size) && Ring(t, w.size) == w.ring
    requires Best(t, f, nb, v, rsize) && Covered(t, f, nb, v, Nil, w)
    requires (v != 0 && f[v] == nb) || forall z | HasSize(w, z) :: z >= nb
    ensures var trem := Sub32(w.size, nb);
            var v', rsize' := if trem < rsize then Root(w) else v, if trem < rsize then trem else rsize;
            && Best(t, f, nb, v', rsize') && Covered(t, f, nb, v', Nil, Kid(w, w.left.Nil?))
            && ((v' != 0 && f[v'] == nb) || forall z | HasSize(Kid(w, w.left.Nil?), z) :: z >= nb)
  {
    RootIn(w, lo, bits, f);
    Remainder(w.size, nb, rsize);
    assert HasSize(w, w.size);
    var trem := Sub32(w.size, nb);
    var v' := if trem < rsize then Root(w) else v;
    forall z | HasSize(t, z) && z >= nb
      ensures (v' != 0 && v' in f && f[v'] <= z) || HasSize(w.left, z) || HasSize(w.right, z) || Above(z, w)
    {}

    if v != 0 && f[v] == nb {
      assert v' == v;
    } else {
      forall z | HasSize(Kid(w, w.left.Nil?), z) ensures z >= nb { assert HasSize(w, z); }
      assert w.size >= nb && v' != 0 && v' in f && f[v'] <= w.size;
    }
    hide Backed;
    GoLeft(t, f, nb, v', w, lo, bits);
  }

  lemma LeftStep(mem: Mem, t: Tree, w: Tree, lo: int, bits: nat, par: int, i: int, f: map<int, int>, nb: int, v: int,
                 rsize: int)
    requires PartOf(mem, w, t, lo, bits, par, i, f) && w.Node? && SizesIn(mem, f) && 0 !in f && 0 < nb < WORD
    requires Best(t, f, nb, v, rsize) && Covered(t, f, nb, v, Nil, w)
    requires (v != 0 && f[v] == nb) || forall z | HasSize(w, z) :: z >= nb
    ensures var p := Root(w);
            var trem := Sub32(ChunkSize(Rd(mem, p + 4)), nb);
            var v', rsize' := if trem < rsize then p else v, if trem < rsize then trem else rsize;
            var d := w.left.Nil?;
            && Best(t, f, nb, v', rsize') && Covered(t, f, nb, v', Nil, Kid(w, d))
            && ((v' != 0 && f[v'] == nb) || forall z | HasSize(Kid(w, d), z) :: z >= nb)
            && (if Rd(mem, Child(p, false)) != 0 then Rd(mem, Child(p, false)) else Rd(mem, Child(p, true)))
               == Root(Kid(w, d))
            && (Root(Kid(w, d)) == 0 <==> Kid(w, d).Nil?)
            && (Kid(w, d).Node? ==> bits > 0)
            && (bits > 0 ==> PartOf(mem, Kid(w, d), t, KidLo(lo, bits, d), bits - 1, p, i, f))
  {
    NodeWords(mem, w, t, lo, bits, par, i, f);
    if bits > 0 { KidPart(mem, w, t, lo, bits, par, i, f, w.left.Nil?); }
    assert Ring(w, w.size) == w.ring && HasSize(w, w.size);
    hide Best, Covered, Trie, Backed, Linked, SizesIn, Above, Sub32, Rd;
    LeftBest(t, w, lo, bits, f, nb, v, rsize);
  }

  /**
   * Second loop of `tmalloc_large`, and the loop of `tmalloc_small`: the leftmost path of a tree holds its smallest
   * size.
   */
  method LeftmostPath(mem: Mem, t0: int, nb: int, v0: int, rsize0: int, ghost t: Tree, ghost w0: Tree, ghost lo0: int,
                      ghost bits0: nat, ghost par0: int, ghost i: int, ghost f: map<int, int>)
    returns (v: int, rsize: int)
    requires 0 < nb < WORD && SizesIn(mem, f) && 0 !in f && t0 == Root(w0) && (t0 == 0 <==> w0.Nil?)
    requires PartOf(mem, w0, t, lo0, bits0, par0, i, f) && Best(t, f, nb, v0, rsize0) && Covered(t, f, nb, v0, Nil, w0)
    requires (v0 != 0 && f[v0] == nb) || forall z | HasSize(w0, z) :: z >= nb
    ensures Best(t, f, nb, v, rsize)
    ensures forall z | HasSize(t, z) && z >= nb :: v != 0 && f[v] <= z
  {
    v, rsize := v0, rsize0;
    var p := t0;
    ghost var w, lo, bits, par := w0, lo0, bits0, par0;
    while p != 0
      invariant p == Root(w) && (p == 0 <==> w.Nil?) && Best(t, f, nb, v, rsize) && Covered(t, f, nb, v, Nil, w)
      invariant w.Node? ==> PartOf(mem, w, t, lo, bits, par, i, f)
      invariant (v != 0 && f[v] == nb) || forall z | HasSize(w, z) :: z >= nb
      decreases w
    {
      LeftStep(mem, t, w, lo, bits, par, i, f, nb, v, rsize);
      var trem := Sub32(ChunkSize(Rd(mem, p + 4)), nb);
      if trem < rsize { v, rsize := p, trem; }
      hide PartOf, Best, Covered, Rd, Pow2;
      ghost var d := w.left.Nil?;
      w, par := Kid(w, d), p;
      if bits > 0 { lo, bits := KidLo(lo, bits, d), bits - 1; }
      p := if Rd(mem, Child(p, false)) != 0 then Rd(mem, Child(p, false)) else Rd(mem, Child(p, true));
    }
  }

  /**
   * A linear best-fit scan over every binned large chunk: `v` is one of the smallest that fit, the oldest of its size.
   */
  ghost predicate BestFits(trees: seq<Tree>, f: map<int, int>, nb: int, v: int)
    requires |trees| == 32
  {
    && v in f && nb <= f[v] && MIN_LARGE_SIZE <= f[v] < WORD && Index(f[v]) < 32
    && HasSize(trees[Index(f[v])], f[v]) && Ring(trees[Index(f[v])], f[v]) != []
    && Ring(trees[Index(f[v])], f[v])[0] == v
    && (forall j: nat, z | j < 32 && HasSize(trees[j], z) && z >= nb :: f[v] <= z)
  }

  ghost predicate NoneFits(trees: seq<Tree>, nb: int)
    requires |trees| == 32
  {
    forall j: nat, z | j < 32 && HasSize(trees[j], z) :: z < nb
  }

  /** The best of tree `i` is the best of all when nothing in a lower tree fits. */
  lemma BestOfAll(mem: Mem, trees: seq<Tree>, treemap: bv32, f: map<int, int>, nb: int, i: nat, v: int, rsize: int)
    requires TreesOk(mem, trees, treemap, f) && i < 32 && Best(trees[i], f, nb, v, rsize) && v != 0
    requires forall z | HasSize(trees[i], z) && z >= nb :: f[v] <= z
    requires forall j: nat, z | j < i && HasSize(trees[j], z) :: z < nb
    ensures BestFits(trees, f, nb, v) && rsize == f[v] - nb
  {
    assert TreeAt(mem, trees[i], i, treemap, f);
    forall j: nat, z | j < 32 && HasSize(trees[j], z) && z >= nb ensures f[v] <= z {
      assert TreeAt(mem, trees[j], j, treemap, f);
      if j > i { IndexMono(f[v], z); }
    }
  }

  /** Trees below the index of `nb` hold only smaller sizes, trees above only larger ones. */
  lemma LowTrees(mem: Mem, trees: seq<Tree>, treemap: bv32, f: map<int, int>, nb: int)
    requires TreesOk(mem, trees, treemap, f) && MIN_LARGE_SIZE <= nb < WORD
    ensures forall j: nat, z | j < Index(nb) && j < 32 && HasSize(trees[j], z) :: z < nb
    ensures forall j: nat, z | Index(nb) < j < 32 && HasSize(trees[j], z) :: nb < z
  {
    forall j: nat, z | j < 32 && HasSize(trees[j], z) ensures (j < Index(nb) ==> z < nb) && (j > Index(nb) ==> nb < z) {
      assert TreeAt(mem, trees[j], j, treemap, f);
      if j < Index(nb) { IndexMono(z, nb); } else if j > Index(nb) { IndexMono(nb, z); }
    }
  }

  lemma WholeTree(mem: Mem, trees: seq<Tree>, treemap: bv32, f: map<int, int>, i: nat)
    requires TreesOk(mem, trees, treemap, f) && i < 32 && Spaced(f)
    ensures PartOf(mem, trees[i], trees[i], Lo(i), Bits(i), TreeBin(i), i, f)
    ensures Rd(mem, TreeBin(i)) == Root(trees[i]) && (Root(trees[i]) == 0 <==> trees[i].Nil?)
    ensures Marked(treemap, i) <==> trees[i].Node?
    ensures 0 !in f
  {
    assert TreeAt(mem, trees[i], i, treemap, f);
    if trees[i].Node? { RootIn(trees[i], Lo(i), Bits(i), f); }
  }

  /** The bits above `idx` in the tree map: none, or the lowest nonempty tree above. */
  lemma NextTree(mem: Mem, trees: seq<Tree>, treemap: bv32, f: map<int, int>, idx: nat)
    requires TreesOk(mem, trees, treemap, f) && idx < 32
    ensures var leftbits := And(LeftBits(Idx2Bit(idx)), treemap);
            if leftbits == 0 then forall j: nat | idx < j < 32 :: trees[j].Nil?
            else LeastBit(leftbits) != 0
                 && var i := Bit2Idx(LeastBit(leftbits));
                    idx < i < 32 && trees[i].Node? && forall j: nat | idx < j < i :: trees[j].Nil?
  {
    var leftbits := And(LeftBits(Idx2Bit(idx)), treemap);
    AndSym(LeftBits(Idx2Bit(idx)), treemap);
    forall j: nat | j < 32 ensures (Marked(leftbits, j) <==> idx < j && trees[j].Node?) {
      LeftMarked(treemap, idx, j);
      assert TreeAt(mem, trees[j], j, treemap, f);
    }
    hide And, LeftBits, Marked, LeastBit, Idx2Bit, TreesOk;
    if leftbits == 0 {
      forall j: nat | idx < j < 32 ensures trees[j].Nil? { if trees[j].Node? { NonZero(leftbits, j); } }
    } else {
      LeastMarked(leftbits);
    }
  }

  lemma AndSym(a: bv32, b: bv32)
    ensures And(a, b) == And(b, a)
  {}

  lemma FitsNowhere(trees: seq<Tree>, nb: int, idx: nat)
    requires |trees| == 32 && idx < 32
    requires forall j: nat, z | j < idx && HasSize(trees[j], z) :: z < nb
    requires forall z | HasSize(trees[idx], z) :: z < nb
    requires forall j: nat | idx < j < 32 :: trees[j].Nil?
    ensures NoneFits(trees, nb)
  {}

  lemma FreshSearch(t: Tree, f: map<int, int>, nb: int)
    requires forall z | HasSize(t, z) :: z >= nb
    ensures Best(t, f, nb, 0, WORD - nb) && Covered(t, f, nb, 0, Nil, t)
  {}

  /** Second half of the search: with nothing in the tree of `nb` itself, go to the lowest nonempty tree above. */
  method SearchAbove(mem: Mem, treemap: bv32, nb: int, idx: nat, ghost trees: seq<Tree>, ghost f: map<int, int>)
    returns (v: int, rsize: int)
    requires TreesOk(mem, trees, treemap, f) && SizesIn(mem, f) && Spaced(f) && MIN_LARGE_SIZE <= nb < WORD
    requires idx == Index(nb) && idx < 32 && forall z | HasSize(trees[idx], z) :: z < nb
    ensures if v == 0 then NoneFits(trees, nb) else BestFits(trees, f, nb, v) && rsize == f[v] - nb
  {
    LowTrees(mem, trees, treemap, f, nb);
    NextTree(mem, trees, treemap, f, idx);
    Remainder(1, nb, 0);
    v, rsize := 0, Sub32(0, nb);
    var leftbits := And(LeftBits(Idx2Bit(idx)), treemap);
    hide TreesOk, SizesIn, PartOf, Spaced, Rd, Marked, Index, And, LeftBits, Idx2Bit, LeastBit, Best, Covered, BestFits;
    hide NoneFits, Sub32;
    if leftbits != 0 {
      var i := Bit2Idx(LeastBit(leftbits));
      WholeTree(mem, trees, treemap, f, i);
      FreshSearch(trees[i], f, nb);
      v, rsize := LeftmostPath(mem, Rd(mem, TreeBin(i)), nb, v, rsize, trees[i], trees[i], Lo(i), Bits(i), TreeBin(i),
          i, f);
      assert HasSize(trees[i], trees[i].size);
      BestOfAll(mem, trees, treemap, f, nb, i, v, rsize);
    } else {
      FitsNowhere(trees, nb, idx);
    }
  }

  lemma SomethingFits(mem: Mem, w: Tree, t: Tree, lo: int, bits: nat, par: int, i: int, f: map<int, int>, nb: int,
                      v: int, rsize: int)
    requires PartOf(mem, w, t, lo, bits, par, i, f) && Best(t, f, nb, v, rsize) && (v != 0 || w.Node?)
    requires (v != 0 && f[v] == nb) || forall z | HasSize(w, z) :: z >= nb
    ensures exists z :: HasSize(t, z) && z >= nb
  {
    if v != 0 {
      assert HasSize(t, f[v]) && f[v] >= nb;
    } else {
      assert HasSize(w, w.size);
      assert forall z | HasSize(w, z) :: z >= nb;
      assert w.size >= nb;
      assert HasSize(t, w.size) && w.size >= nb;
    }
  }

  /** The search of `tmalloc_large`. */
  method SearchLarge(mem: Mem, treemap: bv32, nb: int, ghost trees: seq<Tree>, ghost f: map<int, int>)
    returns (v: int, rsize: int)
    requires TreesOk(mem, trees, treemap, f) && SizesIn(mem, f) && Spaced(f) && MIN_LARGE_SIZE <= nb < WORD
    ensures if v == 0 then NoneFits(trees, nb) else BestFits(trees, f, nb, v) && rsize == f[v] - nb
  {
    IndexRange(nb);
    KeyStart(nb);
    LowTrees(mem, trees, treemap, f, nb);
    var idx := Index(nb);
    WholeTree(mem, trees, treemap, f, idx);
    v, rsize := 0, 0;
    var t := Rd(mem, TreeBin(idx));
    ghost var w, lo, bits, par := trees[idx], Lo(idx), Bits(idx), TreeBin(idx);
    hide TreesOk, SizesIn, PartOf, Spaced, Rd, Marked, Index, BestFits, NoneFits;
    if t != 0 {
      v, rsize, t, w, lo, bits, par := FollowKey(mem, t, nb, ShiftLeft(nb, LeftShift(idx)), w, lo, bits, par, idx, f);
    }
    if t == 0 && v == 0 {
      v, rsize := SearchAbove(mem, treemap, nb, idx, trees, f);
    } else {
      SomethingFits(mem, w, trees[idx], lo, bits, par, idx, f, nb, v, rsize);
      v, rsize := LeftmostPath(mem, t, nb, v, rsize, trees[idx], w, lo, bits, par, idx, f);
      BestOfAll(mem, trees, treemap, f, nb, idx, v, rsize);
    }
  }

  lemma LeastTree(mem: Mem, trees: seq<Tree>, treemap: bv32, f: map<int, int>)
    requires TreesOk(mem, trees, treemap, f) && treemap != 0
    ensures LeastBit(treemap) != 0
    ensures var i := Bit2Idx(LeastBit(treemap)); i < 32 && trees[i].Node? && forall j: nat | j < i :: trees[j].Nil?
  {
    LeastMarked(treemap);
    forall j: nat | j < 32
      ensures Marked(treemap, j) <==> trees[j].Node?
    {
      assert TreeAt(mem, trees[j], j, treemap, f);
    }
  }

  lemma AllLarge(mem: Mem, trees: seq<Tree>, treemap: bv32, f: map<int, int>, i: nat)
    requires TreesOk(mem, trees, treemap, f) && i < 32
    ensures forall z | HasSize(trees[i], z) :: MIN_LARGE_SIZE <= z
  {
    assert TreeAt(mem, trees[i], i, treemap, f);
  }

  /** The search of `tmalloc_small`: some tree is nonempty and every chunk in one is large enough. */
  method SearchSmall(mem: Mem, treemap: bv32, nb: int, ghost trees: seq<Tree>, ghost f: map<int, int>)
    returns (v: int, rsize: int)
    requires TreesOk(mem, trees, treemap, f) && SizesIn(mem, f) && Spaced(f) && 0 < nb < MIN_LARGE_SIZE && treemap != 0
    ensures BestFits(trees, f, nb, v) && rsize == f[v] - nb
  {
    LeastTree(mem, trees, treemap, f);
    var i := Bit2Idx(LeastBit(treemap));
    WholeTree(mem, trees, treemap, f, i);
    AllLarge(mem, trees, treemap, f, i);
    ghost var w := trees[i];
    FreshSearch(w, f, nb);
    LeftStep(mem, w, w, Lo(i), Bits(i), TreeBin(i), i, f, nb, 0, WORD - nb);
    NodeWords(mem, w, w, Lo(i), Bits(i), TreeBin(i), i, f);
    var t := Rd(mem, TreeBin(i));
    v, rsize := t, Sub32(ChunkSize(Rd(mem, t + 4)), nb);
    Remainder(w.size, nb, WORD - nb);
    assert HasSize(w, w.size);
    t := if Rd(mem, Child(t, false)) != 0 then Rd(mem, Child(t, false)) else Rd(mem, Child(t, true));
    ghost var d := w.left.Nil?;
    hide TreesOk, SizesIn, PartOf, Spaced, Rd, Marked, Index, LeastBit, Best, Covered, BestFits;
    if t != 0 {
      v, rsize := LeftmostPath(mem, t, nb, v, rsize, w, Kid(w, d), KidLo(Lo(i), Bits(i), d), Bits(i) - 1, Root(w), i,
          f);
    } else {
      Finished(w, f, nb, v, rsize);
    }
    BestOfAll(mem, trees, treemap, f, nb, i, v, rsize);
  }

  lemma Finished(t: Tree, f: map<int, int>, nb: int, v: int, rsize: int)
    requires Covered(t, f, nb, v, Nil, Nil)
    ensures forall z | HasSize(t, z) && z >= nb :: v != 0 && v in f && f[v] <= z
  {}
}

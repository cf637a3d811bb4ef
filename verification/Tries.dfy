/** Bitwise digital trees over chunk sizes, as values. */
module Tries {
  import opened Words
  import opened TreeIndex

  /**
   * A node per distinct size; `ring` lists the chunks of that size, oldest first, and its head is the one in the tree.
   */
  datatype Tree = Nil | Node(ring: seq<int>, size: int, left: Tree, right: Tree)

  ghost predicate NoDup(s: seq<int>) { forall j, k | 0 <= j < k < |s| :: s[j] != s[k] }

  ghost function Kid(t: Tree, right: bool): (k: Tree)
    requires t.Node?
    ensures k < t
  {
    if right then t.right else t.left
  }

  ghost function WithKid(t: Tree, right: bool, k: Tree): Tree
    requires t.Node?
  {
    if right then t.(right := k) else t.(left := k)
  }

  ghost predicate HasSize(t: Tree, s: int) {
    t.Node? && (t.size == s || HasSize(t.left, s) || HasSize(t.right, s))
  }

  /** The chunks of size `s`, oldest first. */
  ghost function Ring(t: Tree, s: int): seq<int> {
    if t.Nil? then []
    else if t.size == s then t.ring
    else if HasSize(t.left, s) then Ring(t.left, s)
    else Ring(t.right, s)
  }

  /** A key turns right when its next bit is set: it lies in the upper half of the interval. */
  ghost predicate Turn(s: int, lo: int, bits: nat) requires bits > 0 { s >= lo + Pow2(bits - 1) }

  ghost function KidLo(lo: int, bits: nat, right: bool): int requires bits > 0 {
    if right then lo + Pow2(bits - 1) else lo
  }

  /** Sizes under a node share the key bits of the path to it: they lie in an aligned power-of-two interval. */
  ghost predicate Trie(t: Tree, lo: int, bits: nat)
    decreases t
  {
    t.Nil? ||
    (&& t.ring != []
     && lo <= t.size < lo + Pow2(bits)
     && !HasSize(t.left, t.size) && !HasSize(t.right, t.size)
     && (bits == 0 ==> t.left.Nil? && t.right.Nil?)
     && (bits > 0 ==> Trie(t.left, KidLo(lo, bits, false), bits - 1) && Trie(t.right, KidLo(lo, bits, true), bits - 1)))
  }

  /** Every chunk is where its size says, and on one ring once. `f` gives the sizes of the binned chunks. */
  ghost predicate Backed(t: Tree, f: map<int, int>) {
    t.Nil? ||
    (&& t.size >= MIN_LARGE_SIZE && (forall p | p in t.ring :: p in f && f[p] == t.size) && NoDup(t.ring)
     && Backed(t.left, f) && Backed(t.right, f))
  }

  /** The walk for size `s` stops at `t`. */
  ghost predicate Stops(t: Tree, s: int, bits: nat) { t.Nil? || t.size == s || bits == 0 }

  /** The subtree the bits of `s` lead to, and the interval of the keys that lead there. */
  ghost function Lookup(t: Tree, s: int, lo: int, bits: nat): Tree
    decreases t
  {
    if Stops(t, s, bits) then t
    else var d := Turn(s, lo, bits); Lookup(Kid(t, d), s, KidLo(lo, bits, d), bits - 1)
  }

  ghost function Place(t: Tree, s: int, lo: int, bits: nat): (int, nat)
    decreases t
  {
    if Stops(t, s, bits) then (lo, bits)
    else var d := Turn(s, lo, bits); Place(Kid(t, d), s, KidLo(lo, bits, d), bits - 1)
  }

  /** `t` with the subtree at `s` replaced by `u`. */
  ghost function Graft(t: Tree, s: int, lo: int, bits: nat, u: Tree): Tree
    decreases t
  {
    if Stops(t, s, bits) then u
    else var d := Turn(s, lo, bits); WithKid(t, d, Graft(Kid(t, d), s, KidLo(lo, bits, d), bits - 1, u))
  }

  ghost function Added(u: Tree, x: int, s: int): Tree {
    if u.Nil? then Node([x], s, Nil, Nil) else u.(ring := u.ring + [x])
  }

  ghost function Insert(t: Tree, x: int, s: int, lo: int, bits: nat): Tree {
    Graft(t, s, lo, bits, Added(Lookup(t, s, lo, bits), x, s))
  }

  /** The leaf `unlink_large_chunk` promotes: right child whenever there is one. */
  ghost function RightLeaf(t: Tree): (leaf: Tree)
    requires t.Node?
    ensures leaf.Node?
  {
    if t.right.Node? then RightLeaf(t.right) else if t.left.Node? then RightLeaf(t.left) else t
  }

  ghost function DropRightLeaf(t: Tree): Tree
    requires t.Node?
  {
    if t.right.Node? then t.(right := DropRightLeaf(t.right))
    else if t.left.Node? then t.(left := DropRightLeaf(t.left))
    else Nil
  }

  /** `t` without its root node, a leaf taking its place. */
  ghost function DropRoot(t: Tree): Tree
    requires t.Node?
  {
    if t.right.Nil? && t.left.Nil? then Nil
    else
      var d := t.right.Node?;
      var leaf := RightLeaf(Kid(t, d));
      WithKid(t.(ring := leaf.ring, size := leaf.size), d, DropRightLeaf(Kid(t, d)))
  }

  ghost function Without(ring: seq<int>, x: int): seq<int> {
    if ring == [] then [] else if ring[0] == x then ring[1..] else [ring[0]] + Without(ring[1..], x)
  }

  ghost function Removed(u: Tree, x: int): Tree
    requires u.Node?
  {
    if |u.ring| > 1 then u.(ring := Without(u.ring, x)) else DropRoot(u)
  }

  ghost function Remove(t: Tree, x: int, s: int, lo: int, bits: nat): Tree {
    var u := Lookup(t, s, lo, bits);
    if u.Nil? then t else Graft(t, s, lo, bits, Removed(u, x))
  }

  // ---- sizes and intervals

  lemma {:induction false} SizeBounds(t: Tree, s: int, lo: int, bits: nat)
    requires Trie(t, lo, bits) && HasSize(t, s)
    ensures lo <= s < lo + Pow2(bits)
    decreases t
  {
    if t.size != s {
      var d := !HasSize(t.left, s);
      SizeBounds(Kid(t, d), s, KidLo(lo, bits, d), bits - 1);
    }
  }

  /** The two sides of a node hold different sizes. */
  lemma Split(t: Tree, z: int, lo: int, bits: nat)
    requires Trie(t, lo, bits) && t.Node?
    ensures !(HasSize(t.left, z) && HasSize(t.right, z))
    ensures bits > 0 && (HasSize(t.left, z) || HasSize(t.right, z)) ==> HasSize(Kid(t, Turn(z, lo, bits)), z)
  {
    if HasSize(t.left, z) { SizeBounds(t.left, z, lo, bits - 1); }
    if HasSize(t.right, z) { SizeBounds(t.right, z, lo + Pow2(bits - 1), bits - 1); }
  }

  /** A walk that goes on has a bit left to look at, and what it looks for stays in the interval. */
  lemma Onward(t: Tree, s: int, lo: int, bits: nat)
    requires Trie(t, lo, bits) && lo <= s < lo + Pow2(bits) && t.Node? && t.size != s
    ensures bits > 0
    ensures var d := Turn(s, lo, bits); var l := KidLo(lo, bits, d);
            Trie(Kid(t, d), l, bits - 1) && l <= s < l + Pow2(bits - 1)
  {
    assert bits == 0 ==> Pow2(bits) == 1;
  }

  /** The key bits lead to a size exactly when the tree holds it. */
  lemma {:induction false} LookupHas(t: Tree, s: int, lo: int, bits: nat)
    requires Trie(t, lo, bits) && lo <= s < lo + Pow2(bits)
    ensures Lookup(t, s, lo, bits).Node? <==> HasSize(t, s)
    ensures Lookup(t, s, lo, bits).Node? ==> Lookup(t, s, lo, bits).size == s
    decreases t
  {
    if t.Node? && t.size != s {
      Onward(t, s, lo, bits);
      Split(t, s, lo, bits);
      var d := Turn(s, lo, bits);
      LookupHas(Kid(t, d), s, KidLo(lo, bits, d), bits - 1);
    }
  }

  lemma {:induction false} LookupTrie(t: Tree, s: int, lo: int, bits: nat)
    requires Trie(t, lo, bits) && lo <= s < lo + Pow2(bits)
    ensures var (l, b) := Place(t, s, lo, bits); Trie(Lookup(t, s, lo, bits), l, b) && l <= s < l + Pow2(b)
    decreases t
  {
    if !Stops(t, s, bits) {
      Onward(t, s, lo, bits);
      var d := Turn(s, lo, bits);
      LookupTrie(Kid(t, d), s, KidLo(lo, bits, d), bits - 1);
    }
  }

  lemma {:induction false} LookupRing(t: Tree, s: int, lo: int, bits: nat, z: int)
    requires Trie(t, lo, bits) && HasSize(Lookup(t, s, lo, bits), z)
    ensures HasSize(t, z) && Ring(t, z) == Ring(Lookup(t, s, lo, bits), z)
    decreases t
  {
    if !Stops(t, s, bits) {
      var d := Turn(s, lo, bits);
      LookupRing(Kid(t, d), s, KidLo(lo, bits, d), bits - 1, z);
      Split(t, z, lo, bits);
    }
  }

  /** A subtree over the same interval can be put back, as long as it brings in no size but `s`. */
  lemma {:induction false} GraftTrie(t: Tree, s: int, lo: int, bits: nat, u: Tree)
    requires Trie(t, lo, bits) && lo <= s < lo + Pow2(bits)
    requires var (l, b) := Place(t, s, lo, bits); Trie(u, l, b)
    requires forall z | HasSize(u, z) :: z == s || HasSize(Lookup(t, s, lo, bits), z)
    ensures Trie(Graft(t, s, lo, bits, u), lo, bits)
    ensures forall z :: HasSize(Graft(t, s, lo, bits, u), z) ==> z == s || HasSize(t, z)
    decreases t
  {
    forall z | HasSize(Lookup(t, s, lo, bits), z) ensures HasSize(t, z) { LookupRing(t, s, lo, bits, z); }
    if t.Node? && t.size != s {
      Onward(t, s, lo, bits);
      var d := Turn(s, lo, bits);
      GraftTrie(Kid(t, d), s, KidLo(lo, bits, d), bits - 1, u);
    }
  }

  /** Outside the subtree exchanged, every ring stays as it was. */
  lemma {:induction false} GraftRing(t: Tree, s: int, lo: int, bits: nat, u: Tree, z: int)
    requires Trie(t, lo, bits) && lo <= s < lo + Pow2(bits)
    requires forall y | HasSize(u, y) :: y == s || HasSize(Lookup(t, s, lo, bits), y)
    ensures var l := Lookup(t, s, lo, bits);
            var g := Graft(t, s, lo, bits, u);
            && (HasSize(g, z) <==> HasSize(u, z) || (HasSize(t, z) && !HasSize(l, z)))
            && (HasSize(g, z) ==> Ring(g, z) == if HasSize(u, z) then Ring(u, z) else Ring(t, z))
    decreases t
  {
    if t.Node? && t.size != s {
      Onward(t, s, lo, bits);
      Split(t, z, lo, bits);
      var d := Turn(s, lo, bits);
      var l := KidLo(lo, bits, d);
      var k, g := Kid(t, d), Graft(Kid(t, d), s, l, bits - 1, u);
      GraftRing(k, s, l, bits - 1, u, z);
      if HasSize(Lookup(k, s, l, bits - 1), z) { LookupRing(k, s, l, bits - 1, z); }
      assert Lookup(t, s, lo, bits) == Lookup(k, s, l, bits - 1) && Graft(t, s, lo, bits, u) == WithKid(t, d, g);
      hide Trie, Graft, Lookup, Turn, KidLo;
      SidesRing(t, d, k, z);
      SidesRing(t, d, g, z);
    }
  }

  lemma SidesRing(t: Tree, d: bool, g: Tree, z: int)
    requires t.Node?
    ensures var w := WithKid(t, d, g);
            && (HasSize(w, z) <==> t.size == z || HasSize(g, z) || HasSize(Kid(t, !d), z))
            && (t.size == z ==> Ring(w, z) == t.ring)
            && (t.size != z && HasSize(g, z) && !HasSize(Kid(t, !d), z) ==> Ring(w, z) == Ring(g, z))
            && (t.size != z && !HasSize(g, z) && HasSize(Kid(t, !d), z) ==> Ring(w, z) == Ring(Kid(t, !d), z))
    ensures WithKid(t, d, Kid(t, d)) == t
  {}

  // ---- the chunks stored

  lemma {:induction false} LookupBacked(t: Tree, s: int, lo: int, bits: nat, f: map<int, int>)
    requires Backed(t, f)
    ensures Backed(Lookup(t, s, lo, bits), f)
    decreases t
  {
    if !Stops(t, s, bits) {
      var d := Turn(s, lo, bits);
      LookupBacked(Kid(t, d), s, KidLo(lo, bits, d), bits - 1, f);
    }
  }

  lemma {:induction false} GraftBacked(t: Tree, s: int, lo: int, bits: nat, u: Tree, f: map<int, int>)
    requires Backed(t, f) && Backed(u, f)
    ensures Backed(Graft(t, s, lo, bits, u), f)
    decreases t
  {
    if !Stops(t, s, bits) {
      var d := Turn(s, lo, bits);
      GraftBacked(Kid(t, d), s, KidLo(lo, bits, d), bits - 1, u, f);
    }
  }

  lemma {:induction false} BackedMore(t: Tree, f: map<int, int>, g: map<int, int>)
    requires Backed(t, f)
    requires forall p | p in f && HasSize(t, f[p]) :: p in g && g[p] == f[p]
    ensures Backed(t, g)
    decreases t
  {
    if t.Node? {
      BackedMore(t.left, f, g);
      BackedMore(t.right, f, g);
    }
  }

  lemma {:induction false} RingBacked(t: Tree, f: map<int, int>, s: int)
    requires Backed(t, f) && HasSize(t, s)
    ensures forall p | p in Ring(t, s) :: p in f && f[p] == s
    ensures NoDup(Ring(t, s))
    decreases t
  {
    if t.size != s {
      RingBacked(Kid(t, !HasSize(t.left, s)), f, s);
    }
  }

  /** Insertion puts the one chunk at the young end of the ring of its size and leaves every other ring alone. */
  lemma InsertTree(t: Tree, x: int, s: int, lo: int, bits: nat)
    requires Trie(t, lo, bits) && lo <= s < lo + Pow2(bits)
    ensures var t' := Insert(t, x, s, lo, bits);
            && Trie(t', lo, bits)
            && HasSize(t', s) && Ring(t', s) == (if HasSize(t, s) then Ring(t, s) else []) + [x]
            && (forall z | z != s :: HasSize(t', z) <==> HasSize(t, z))
            && (forall z | z != s && HasSize(t, z) :: Ring(t', z) == Ring(t, z))
  {
    var u := Lookup(t, s, lo, bits);
    var v := Added(u, x, s);
    LookupTrie(t, s, lo, bits);
    LookupHas(t, s, lo, bits);
    var (l, b) := Place(t, s, lo, bits);
    assert Trie(v, l, b);
    GraftTrie(t, s, lo, bits, v);
    GraftRing(t, s, lo, bits, v, s);
    if u.Node? { LookupRing(t, s, lo, bits, s); }
    forall z | z != s
      ensures HasSize(Graft(t, s, lo, bits, v), z) <==> HasSize(t, z)
      ensures HasSize(t, z) ==> Ring(Graft(t, s, lo, bits, v), z) == Ring(t, z)
    {
      GraftRing(t, s, lo, bits, v, z);
      if HasSize(u, z) { LookupRing(t, s, lo, bits, z); }
    }
  }

  lemma InsertBacked(t: Tree, x: int, s: int, lo: int, bits: nat, f: map<int, int>)
    requires Trie(t, lo, bits) && Backed(t, f) && lo <= s < lo + Pow2(bits) && x !in f && s >= MIN_LARGE_SIZE
    ensures Backed(Insert(t, x, s, lo, bits), f[x := s])
  {
    LookupHas(t, s, lo, bits);
    BackedMore(t, f, f[x := s]);
    LookupBacked(t, s, lo, bits, f);
    LookupBacked(t, s, lo, bits, f[x := s]);
    GraftBacked(t, s, lo, bits, Added(Lookup(t, s, lo, bits), x, s), f[x := s]);
  }

  // ---- removal

  /** Taking the promoted leaf out removes exactly its size. */
  lemma {:induction false} DropLeaf(t: Tree, lo: int, bits: nat)
    requires t.Node? && Trie(t, lo, bits)
    ensures var leaf, d := RightLeaf(t), DropRightLeaf(t);
            && leaf.ring != [] && HasSize(t, leaf.size) && Ring(t, leaf.size) == leaf.ring
            && Trie(d, lo, bits)
            && (forall z :: HasSize(d, z) <==> HasSize(t, z) && z != leaf.size)
            && (forall z | HasSize(d, z) :: Ring(d, z) == Ring(t, z))
    decreases t
  {
    if t.right.Node? {
      DropLeaf(t.right, lo + Pow2(bits - 1), bits - 1);
      forall z ensures !(HasSize(t.left, z) && HasSize(t.right, z)) { Split(t, z, lo, bits); }
    } else if t.left.Node? {
      DropLeaf(t.left, lo, bits - 1);
    }
  }

  lemma {:induction false} LeafBacked(t: Tree, f: map<int, int>)
    requires t.Node? && Backed(t, f)
    ensures Backed(DropRightLeaf(t), f)
    ensures Backed(RightLeaf(t), f)
    decreases t
  {
    if t.right.Node? { LeafBacked(t.right, f); } else if t.left.Node? { LeafBacked(t.left, f); }
  }

  /** A leaf takes the place of the root: exactly the root's size is gone. */
  lemma DropRootTrie(t: Tree, lo: int, bits: nat)
    requires t.Node? && Trie(t, lo, bits)
    ensures var d := DropRoot(t);
            && Trie(d, lo, bits)
            && (forall z :: HasSize(d, z) <==> HasSize(t, z) && z != t.size)
            && (forall z | HasSize(d, z) :: Ring(d, z) == Ring(t, z))
  {
    forall z ensures !(HasSize(t.left, z) && HasSize(t.right, z)) { Split(t, z, lo, bits); }
    if t.right.Node? {
      DropLeaf(t.right, lo + Pow2(bits - 1), bits - 1);
      SizeBounds(t.right, RightLeaf(t.right).size, lo + Pow2(bits - 1), bits - 1);
    } else if t.left.Node? {
      DropLeaf(t.left, lo, bits - 1);
      SizeBounds(t.left, RightLeaf(t.left).size, lo, bits - 1);
    }
  }

  lemma {:induction false} WithoutProps(ring: seq<int>, x: int)
    requires NoDup(ring)
    ensures forall p :: p in Without(ring, x) <==> p in ring && p != x
    ensures NoDup(Without(ring, x))
    ensures x in ring ==> |Without(ring, x)| == |ring| - 1
  {
    if ring != [] && ring[0] != x {
      WithoutProps(ring[1..], x);
      var v := Without(ring[1..], x);
      assert Without(ring, x) == [ring[0]] + v;
      forall j, k | 0 <= j < k < |v| + 1 ensures ([ring[0]] + v)[j] != ([ring[0]] + v)[k] {
        assert v[k - 1] in v;
        if j > 0 { assert v[j - 1] != v[k - 1]; }
      }
    }
  }

  /** Removal takes the one chunk off its ring and leaves every other ring alone. */
  lemma RemoveTree(t: Tree, x: int, s: int, lo: int, bits: nat, f: map<int, int>)
    requires Trie(t, lo, bits) && Backed(t, f) && HasSize(t, s) && x in Ring(t, s)
    ensures var t' := Remove(t, x, s, lo, bits);
            && Trie(t', lo, bits)
            && (HasSize(t', s) <==> |Ring(t, s)| > 1)
            && (HasSize(t', s) ==> Ring(t', s) == Without(Ring(t, s), x))
            && (forall z | z != s :: HasSize(t', z) <==> HasSize(t, z))
            && (forall z | z != s && HasSize(t, z) :: Ring(t', z) == Ring(t, z))
  {
    var u := Lookup(t, s, lo, bits);
    SizeBounds(t, s, lo, bits);
    LookupHas(t, s, lo, bits);
    var v := Removed(u, x);
    LookupTrie(t, s, lo, bits);
    LookupRing(t, s, lo, bits, s);
    RingBacked(t, f, s);
    WithoutProps(u.ring, x);
    var (l, b) := Place(t, s, lo, bits);
    DropRootTrie(u, l, b);
    GraftTrie(t, s, lo, bits, v);
    forall z
      ensures z != s ==> (HasSize(Graft(t, s, lo, bits, v), z) <==> HasSize(t, z))
      ensures z != s && HasSize(t, z) ==> Ring(Graft(t, s, lo, bits, v), z) == Ring(t, z)
      ensures z == s ==> (HasSize(Graft(t, s, lo, bits, v), z) <==> |u.ring| > 1)
      ensures z == s && |u.ring| > 1 ==> Ring(Graft(t, s, lo, bits, v), z) == Without(u.ring, x)
    {
      GraftRing(t, s, lo, bits, v, z);
      if HasSize(u, z) { LookupRing(t, s, lo, bits, z); }
    }
  }

  lemma RemovedBacked(u: Tree, x: int, f: map<int, int>)
    requires u.Node? && Backed(u, f)
    ensures Backed(Removed(u, x), f)
  {
    WithoutProps(u.ring, x);
    if |u.ring| <= 1 {
      if u.right.Node? { LeafBacked(u.right, f); } else if u.left.Node? { LeafBacked(u.left, f); }
    }
  }

  lemma RemoveBacked(t: Tree, x: int, s: int, lo: int, bits: nat, f: map<int, int>)
    requires Trie(t, lo, bits) && Backed(t, f) && HasSize(t, s) && x in Ring(t, s)
    ensures Backed(Remove(t, x, s, lo, bits), f - {x})
  {
    var t' := Remove(t, x, s, lo, bits);
    var u := Lookup(t, s, lo, bits);
    SizeBounds(t, s, lo, bits);
    LookupHas(t, s, lo, bits);
    LookupBacked(t, s, lo, bits, f);
    RemovedBacked(u, x, f);
    GraftBacked(t, s, lo, bits, Removed(u, x), f);
    RemoveTree(t, x, s, lo, bits, f);
    RingBacked(t, f, s);
    WithoutProps(Ring(t, s), x);
    BackedLess(t', lo, bits, f, x, s);
  }

  lemma {:induction false} BackedLess(t: Tree, lo: int, bits: nat, f: map<int, int>, x: int, s: int)
    requires Trie(t, lo, bits) && Backed(t, f) && x in f && f[x] == s
    requires HasSize(t, s) ==> x !in Ring(t, s)
    ensures Backed(t, f - {x})
    decreases t
  {
    if t.Node? && bits > 0 {
      Split(t, s, lo, bits);
      BackedLess(t.left, lo, bits - 1, f, x, s);
      BackedLess(t.right, lo + Pow2(bits - 1), bits - 1, f, x, s);
    }
  }
}

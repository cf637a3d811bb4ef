/** How a tree of free chunks lies in memory: the link words of its chunks. */
module TreeLinks {
  import opened Words
  import opened TreeIndex
  import opened Tries

  // the link words of a free chunk (struct malloc_tree_chunk)
  function Fd(mem: Mem, p: int): int { Rd(mem, p + 8) }
  function Bk(mem: Mem, p: int): int { Rd(mem, p + 12) }
  function Child(p: int, right: bool): int { if right then p + 20 else p + 16 }
  function ChildAt(mem: Mem, p: int, right: bool): int { Rd(mem, Child(p, right)) }
  function Parent(mem: Mem, p: int): int { Rd(mem, p + 24) }
  function IndexOf(mem: Mem, p: int): int { Rd(mem, p + 28) }

  ghost function Root(t: Tree): int { if t.Node? && t.ring != [] then t.ring[0] else 0 }

  ghost function After(ring: seq<int>, k: nat): int requires k < |ring| {
    if k + 1 < |ring| then ring[k + 1] else ring[0]
  }

  ghost function Before(ring: seq<int>, k: nat): int requires k < |ring| {
    if k > 0 then ring[k - 1] else ring[|ring| - 1]
  }

  /** Doubly linked and circular; `bk` leads from a chunk to the next younger one. */
  ghost predicate Circle(mem: Mem, ring: seq<int>) {
    && (forall k {:trigger Bk(mem, ring[k])} | 0 <= k < |ring| :: Bk(mem, ring[k]) == After(ring, k))
    && (forall k {:trigger Fd(mem, ring[k])} | 0 <= k < |ring| :: Fd(mem, ring[k]) == Before(ring, k))
  }

  /** Only the head of a ring has a parent and children. */
  ghost predicate Plain(mem: Mem, p: int) {
    Parent(mem, p) == 0 && ChildAt(mem, p, false) == 0 && ChildAt(mem, p, true) == 0
  }

  ghost predicate RingLinks(mem: Mem, ring: seq<int>, i: int) {
    && Circle(mem, ring)
    && (forall k {:trigger IndexOf(mem, ring[k])} | 0 <= k < |ring| :: IndexOf(mem, ring[k]) == i)
    && (forall k {:trigger Plain(mem, ring[k])} | 0 < k < |ring| :: Plain(mem, ring[k]))
  }

  ghost predicate HeadLinks(mem: Mem, p: int, par: int, l: int, r: int) {
    Parent(mem, p) == par && ChildAt(mem, p, false) == l && ChildAt(mem, p, true) == r
  }

  ghost predicate Linked(mem: Mem, t: Tree, par: int, i: int) {
    t.Nil? ||
    (&& t.ring != []
     && HeadLinks(mem, t.ring[0], par, Root(t.left), Root(t.right))
     && RingLinks(mem, t.ring, i)
     && Linked(mem, t.left, t.ring[0], i)
     && Linked(mem, t.right, t.ring[0], i))
  }

  /** The link words of chunk `p`, or all of them but one child word, are the same in both memories. */
  ghost predicate SameBut(mem: Mem, mem': Mem, p: int, right: bool) {
    && Fd(mem', p) == Fd(mem, p) && Bk(mem', p) == Bk(mem, p) && Parent(mem', p) == Parent(mem, p)
    && IndexOf(mem', p) == IndexOf(mem, p) && ChildAt(mem', p, !right) == ChildAt(mem, p, !right)
  }

  ghost predicate Same(mem: Mem, mem': Mem, p: int) {
    SameBut(mem, mem', p, false) && ChildAt(mem', p, false) == ChildAt(mem, p, false)
  }

  lemma RingFrame(mem: Mem, mem': Mem, ring: seq<int>, i: int, d: bool)
    requires ring != [] && RingLinks(mem, ring, i)
    requires forall k | 0 < k < |ring| :: Same(mem, mem', ring[k])
    requires SameBut(mem, mem', ring[0], d)
    ensures RingLinks(mem', ring, i)
  {
    forall k | 0 <= k < |ring|
      ensures Bk(mem', ring[k]) == After(ring, k) && Fd(mem', ring[k]) == Before(ring, k)
      ensures IndexOf(mem', ring[k]) == i && (k > 0 ==> Plain(mem', ring[k]))
    {
      assert k > 0 ==> Plain(mem, ring[k]) && Same(mem, mem', ring[k]);
      hide Fd, Bk, ChildAt, Parent, IndexOf;
    }
  }

  lemma {:induction false} LinkedFrame(mem: Mem, mem': Mem, t: Tree, par: int, i: int, f: map<int, int>)
    requires Linked(mem, t, par, i) && Backed(t, f)
    requires forall p | p in f && HasSize(t, f[p]) :: Same(mem, mem', p)
    ensures Linked(mem', t, par, i)
    decreases t
  {
    hide Fd, Bk, ChildAt, Parent, IndexOf, RingLinks;
    if t.Node? {
      assert forall k | 0 <= k < |t.ring| :: t.ring[k] in t.ring;
      RingFrame(mem, mem', t.ring, i, false);
      LinkedFrame(mem, mem', t.left, t.ring[0], i, f);
      LinkedFrame(mem, mem', t.right, t.ring[0], i, f);
    }
  }

  // ---- grafting

  /** The parent of the place where the walk for `s` ends, and the word that points there. */
  ghost function ParentOf(t: Tree, s: int, lo: int, bits: nat, par: int): int
    decreases t
  {
    if Stops(t, s, bits) then par
    else var d := Turn(s, lo, bits); ParentOf(Kid(t, d), s, KidLo(lo, bits, d), bits - 1, Root(t))
  }

  ghost function SlotOf(t: Tree, s: int, lo: int, bits: nat, slot: int): int
    decreases t
  {
    if Stops(t, s, bits) then slot
    else var d := Turn(s, lo, bits); SlotOf(Kid(t, d), s, KidLo(lo, bits, d), bits - 1, Child(Root(t), d))
  }

  /** The side of its parent the place is on. */
  ghost predicate SideOf(t: Tree, s: int, lo: int, bits: nat, side: bool)
    decreases t
  {
    if Stops(t, s, bits) then side
    else var d := Turn(s, lo, bits); SideOf(Kid(t, d), s, KidLo(lo, bits, d), bits - 1, d)
  }

  /** The parent is a node outside the subtree, and the word one of its child words. */
  lemma {:induction false} ParentIn(t: Tree, s: int, lo: int, bits: nat, par: int, slot: int, side: bool, f: map<int,
      int>)
    requires Trie(t, lo, bits) && Backed(t, f) && !Stops(t, s, bits)
    ensures var h := ParentOf(t, s, lo, bits, par);
            && h in f && HasSize(t, f[h]) && !HasSize(Lookup(t, s, lo, bits), f[h])
            && SlotOf(t, s, lo, bits, slot) == Child(h, SideOf(t, s, lo, bits, side))
    ensures !HasSize(Lookup(t, s, lo, bits), t.size)
    decreases t
  {
    var d := Turn(s, lo, bits);
    var k, l := Kid(t, d), KidLo(lo, bits, d);
    if HasSize(Lookup(k, s, l, bits - 1), t.size) { LookupRing(k, s, l, bits - 1, t.size); }
    if !Stops(k, s, bits - 1) {
      ParentIn(k, s, l, bits - 1, Root(t), Child(Root(t), d), d, f);
    }
  }

  /** What a splice at the place of `s` may disturb outside the subtree there: one child word of the parent. */
  ghost predicate Spliced(mem: Mem, mem': Mem, t: Tree, s: int, lo: int, bits: nat, par: int, side: bool, f: map<int,
                          int>) {
    var h := ParentOf(t, s, lo, bits, par);
    && (forall p | p in f && HasSize(t, f[p]) && !HasSize(Lookup(t, s, lo, bits), f[p]) && p != h :: Same(mem, mem', p))
    && (!Stops(t, s, bits) ==> SameBut(mem, mem', h, SideOf(t, s, lo, bits, side)))
  }

  /** Below the root, a splice looks the same to the side it is on, and nothing happens on the other side. */
  lemma SplicedKid(mem: Mem, mem': Mem, t: Tree, s: int, lo: int, bits: nat, par: int, side: bool, f: map<int, int>)
    requires Trie(t, lo, bits) && Backed(t, f) && !Stops(t, s, bits)
    requires Spliced(mem, mem', t, s, lo, bits, par, side, f)
    ensures var d := Turn(s, lo, bits);
            && Spliced(mem, mem', Kid(t, d), s, KidLo(lo, bits, d), bits - 1, Root(t), d, f)
            && SameBut(mem, mem', Root(t), d)
            && (!Stops(Kid(t, d), s, bits - 1) ==> Same(mem, mem', Root(t)))
            && (forall k | 0 < k < |t.ring| :: Same(mem, mem', t.ring[k]))
            && (forall p | p in f && HasSize(Kid(t, !d), f[p]) :: Same(mem, mem', p))
  {
    hide Fd, Bk, ChildAt, Parent, IndexOf;
    var d := Turn(s, lo, bits);
    var k, l := Kid(t, d), KidLo(lo, bits, d);
    var x := Root(t);
    var h := ParentOf(t, s, lo, bits, par);
    ParentIn(t, s, lo, bits, par, 0, side, f);
    if !Stops(k, s, bits - 1) { ParentIn(k, s, l, bits - 1, x, 0, d, f); }
    forall p | p in f && HasSize(Kid(t, !d), f[p]) ensures Same(mem, mem', p) {
      Split(t, f[p], lo, bits);
      if HasSize(Lookup(k, s, l, bits - 1), f[p]) { LookupRing(k, s, l, bits - 1, f[p]); }
    }
    forall j | 0 < j < |t.ring| ensures Same(mem, mem', t.ring[j]) { assert t.ring[j] in t.ring; }
    assert x in t.ring;
  }

  lemma {:induction false} GraftLinks(mem: Mem, mem': Mem, t: Tree, s: int, lo: int, bits: nat, u: Tree,
                                      par: int, slot: int, side: bool, i: int, f: map<int, int>)
    requires Trie(t, lo, bits) && Backed(t, f) && Linked(mem, t, par, i)
    requires Linked(mem', u, ParentOf(t, s, lo, bits, par), i)
    requires Spliced(mem, mem', t, s, lo, bits, par, side, f)
    requires Rd(mem', SlotOf(t, s, lo, bits, slot)) == Root(u)
    requires !Stops(t, s, bits) ==> Rd(mem', slot) == Root(t)
    ensures Linked(mem', Graft(t, s, lo, bits, u), par, i)
    ensures Rd(mem', slot) == Root(Graft(t, s, lo, bits, u))
    decreases t
  {
    hide Fd, Bk, Parent, IndexOf, RingLinks;
    if !Stops(t, s, bits) {
      var d := Turn(s, lo, bits);
      var k, l := Kid(t, d), KidLo(lo, bits, d);
      SplicedKid(mem, mem', t, s, lo, bits, par, side, f);
      GraftLinks(mem, mem', k, s, l, bits - 1, u, Root(t), Child(Root(t), d), d, i, f);
      LinkedFrame(mem, mem', Kid(t, !d), Root(t), i, f);
      RingFrame(mem, mem', t.ring, i, d);
    }
  }
}

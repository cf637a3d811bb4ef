/** `unlink_large_chunk` on the link words. */
module TreeUnlink {
  import opened Words
  import opened TreeIndex
  import opened Tries
  import opened TreeLinks
  import opened FreeLinks
  import opened TreeEdits

  /** The neighbours of `x` on its ring are linked to each other, past it. */
  function Unring(mem: Mem, x: int): Mem {
    var f, r := Fd(mem, x), Bk(mem, x);
    Wr(Wr(mem, f + 12, r), r + 8, f)
  }

  /** R takes over the place, the parent and the children of X. */
  function Promote(mem: Mem, x: int, r: int, xp: int, slot: int): Mem {
    var m1 := Wr(mem, slot, r);
    if r == 0 then m1 else
    var m2 := Wr(m1, r + 24, xp);
    Adopt(Adopt(m2, x, r, false), x, r, true)
  }

  function Adopt(mem: Mem, x: int, r: int, right: bool): Mem {
    var c := ChildAt(mem, x, right);
    if c != 0 then Wr(Wr(mem, Child(r, right), c), c + 24, r) else mem
  }

  lemma UnringAt(mem: Mem, x: int, p: int)
    requires var f, r := Fd(mem, x), Bk(mem, x); Far(p, f) && Far(p, r) && Far(f, r)
    ensures var f, r := Fd(mem, x), Bk(mem, x); var m := Unring(mem, x);
            && Fd(m, p) == (if p == r then f else Fd(mem, p))
            && Bk(m, p) == (if p == f then r else Bk(mem, p))
            && IndexOf(m, p) == IndexOf(mem, p) && Parent(m, p) == Parent(mem, p)
            && (forall d :: ChildAt(m, p, d) == ChildAt(mem, p, d))
  {
    hide Rd, Wr;
  }

  ghost function Cut(ring: seq<int>, k: nat): seq<int> requires k < |ring| { ring[..k] + ring[k + 1..] }

  lemma {:induction false} CutWithout(ring: seq<int>, k: nat)
    requires NoDup(ring) && k < |ring|
    ensures Without(ring, ring[k]) == Cut(ring, k)
    decreases k
  {
    if k > 0 {
      assert ring[1..][k - 1] == ring[k];
      CutWithout(ring[1..], k - 1);
      assert [ring[0]] + Cut(ring[1..], k - 1) == Cut(ring, k);
    }
  }

  /** Taking a chunk off a ring of several leaves a ring. */
  lemma UnringWords(mem: Mem, ring: seq<int>, k: nat, i: int)
    requires k < |ring| && |ring| > 1 && NoDup(ring) && RingLinks(mem, ring, i)
    requires forall p, q | p in ring && q in ring :: Far(p, q)
    ensures var m := Unring(mem, ring[k]);
            && RingLinks(m, Cut(ring, k), i)
            && (forall p | p in ring ::
                 Parent(m, p) == Parent(mem, p) && forall d :: ChildAt(m, p, d) == ChildAt(mem, p, d))
  {
    var n := |ring|;
    var r := Cut(ring, k);
    var x := ring[k];
    var m := Unring(mem, x);
    var a, b := Before(ring, k), After(ring, k);
    assert a in ring && b in ring && x in ring && Fd(mem, x) == a && Bk(mem, x) == b;
    hide Rd, Wr, Unring, Fd, Bk, IndexOf, Parent, ChildAt;
    forall p | p in ring ensures Parent(m, p) == Parent(mem, p) && forall d :: ChildAt(m, p, d) == ChildAt(mem, p, d) {
      UnringAt(mem, x, p);
    }
    forall j | 0 <= j < n - 1
      ensures Bk(m, r[j]) == After(r, j) && Fd(m, r[j]) == Before(r, j)
      ensures IndexOf(m, r[j]) == i && (j > 0 ==> Plain(m, r[j]))
    {
      var q := if j < k then j else j + 1;
      assert r[j] == ring[q] && ring[q] in ring;
      UnringAt(mem, x, ring[q]);
      assert q > 0 ==> Plain(mem, ring[q]);
      assert Bk(mem, ring[q]) == After(ring, q) && Fd(mem, ring[q]) == Before(ring, q) && IndexOf(mem, ring[q]) == i;
      CutOrder(ring, k, j);
    }
  }

  lemma CutOrder(ring: seq<int>, k: nat, j: nat)
    requires k < |ring| && |ring| > 1 && NoDup(ring) && j < |ring| - 1
    ensures var r := Cut(ring, k); var q := if j < k then j else j + 1;
            && r[j] == ring[q]
            && After(r, j) == (if r[j] == Before(ring, k) then After(ring, k) else After(ring, q))
            && Before(r, j) == (if r[j] == After(ring, k) then Before(ring, k) else Before(ring, q))
  {
  }

  lemma UnringUntouched(mem: Mem, x: int, f: map<int, int>, qs: set<int>)
    requires Spaced(f) && forall q | q in {Fd(mem, x), Bk(mem, x)} :: q in f && q in qs && f[q] >= MIN_LARGE_SIZE
    ensures var m := Unring(mem, x); Untouched(mem, m, f, qs) && Confined(mem, m, f)
  {
    hide Rd, Wr, Untouched, Confined;
    var d, r := Fd(mem, x), Bk(mem, x);
    var m1 := Wr(mem, d + 12, r);
    WriteLink(mem, f, qs, d, 12, r);
    WriteLink(m1, f, qs, r, 8, d);
    UntouchedTrans(mem, m1, Unring(mem, x), f, qs);
  }

  // ---- promotion

  /** A subtree handed to another parent. */
  lemma Reparent(mem: Mem, m: Mem, t: Tree, lo: int, bits: nat, par: int, par': int, i: int, f: map<int, int>)
    requires Trie(t, lo, bits) && Backed(t, f) && Linked(mem, t, par, i)
    requires forall p | p in f && HasSize(t, f[p]) && p != Root(t) :: Same(mem, m, p)
    requires t.Node? ==>
               var p := Root(t);
               && Fd(m, p) == Fd(mem, p) && Bk(m, p) == Bk(mem, p) && IndexOf(m, p) == IndexOf(mem, p)
               && Parent(m, p) == par'
               && forall d :: ChildAt(m, p, d) == ChildAt(mem, p, d)
    ensures Linked(m, t, par', i)
  {
    if t.Node? {
      hide Fd, Bk, IndexOf, Parent, ChildAt;
      forall p | p in f && (HasSize(t.left, f[p]) || HasSize(t.right, f[p])) ensures Same(mem, m, p) {
        assert t.ring[0] in t.ring;
      }
      LinkedFrame(mem, m, t.left, t.ring[0], i, f);
      LinkedFrame(mem, m, t.right, t.ring[0], i, f);
      forall k | 0 <= k < |t.ring|
        ensures Bk(m, t.ring[k]) == After(t.ring, k) && Fd(m, t.ring[k]) == Before(t.ring, k)
        ensures IndexOf(m, t.ring[k]) == i && (k > 0 ==> Plain(m, t.ring[k]))
      {
        assert t.ring[k] in t.ring && (k > 0 ==> t.ring[k] != t.ring[0]);
        assert k > 0 ==> Same(mem, m, t.ring[k]) && Plain(mem, t.ring[k]);
      }
    }
  }

  /** What promotion does to the links of any chunk `p`. */
  lemma PromoteAt(mem: Mem, x: int, r: int, xp: int, slot: int, h: int, side: bool, p: int)
    requires var c0, c1 := ChildAt(mem, x, false), ChildAt(mem, x, true);
             && r != 0 && x != r && Far(x, r) && Far(p, r) && Far(p, x)
             && (c0 != 0 ==> c0 != r && c0 != x && Far(c0, r) && Far(c0, x) && Far(p, c0))
             && (c1 != 0 ==> c1 != r && c1 != x && Far(c1, r) && Far(c1, x) && Far(p, c1))
             && (c0 != 0 && c1 != 0 ==> c0 != c1 && Far(c0, c1))
             && HEAP_MIN <= r && HEAP_MIN <= p && HEAP_MIN <= x && (c0 != 0 ==> HEAP_MIN <= c0)
             && (c1 != 0 ==> HEAP_MIN <= c1)
             && (slot < HEAP_MIN || (slot == Child(h, side) && h != r && h != x && h != c0 && h != c1
                 && Far(h, r) && Far(h, x) && Far(h, p) && (c0 != 0 ==> Far(h, c0)) && (c1 != 0 ==> Far(h, c1))))
    ensures var c0, c1 := ChildAt(mem, x, false), ChildAt(mem, x, true); var m := Promote(mem, x, r, xp, slot);
            && Fd(m, p) == Fd(mem, p) && Bk(m, p) == Bk(mem, p) && IndexOf(m, p) == IndexOf(mem, p)
            && Parent(m, p) == (if p == r then xp else if p != 0 && (p == c0 || p == c1) then r else Parent(mem, p))
            && ChildAt(m, p, false)
               == (if p == r && c0 != 0 then c0 else if slot == Child(p, false) then r else ChildAt(mem, p, false))
            && ChildAt(m, p, true)
               == (if p == r && c1 != 0 then c1 else if slot == Child(p, true) then r else ChildAt(mem, p, true))
            && Rd(m, slot) == r
  {
    hide Rd, Wr;
  }

  /** Node `v` stands ready to replace chunk `x`: its subtrees still hang from `x`, its head has no children yet. */
  ghost predicate Heir(mem: Mem, x: int, v: Tree, l: int, b: nat, i: int, f: map<int, int>) {
    && v.Node? && Trie(v, l, b) && Backed(v, f) && Spaced(f)
    && Linked(mem, v.left, x, i) && Linked(mem, v.right, x, i) && RingLinks(mem, v.ring, i)
    && ChildAt(mem, Root(v), false) == 0 && ChildAt(mem, Root(v), true) == 0
    && ChildAt(mem, x, false) == Root(v.left) && ChildAt(mem, x, true) == Root(v.right)
    && x in f && f[x] >= MIN_LARGE_SIZE && x !in v.ring && !HasSize(v.left, f[x]) && !HasSize(v.right, f[x])
  }

  ghost predicate Outside(slot: int, h: int, side: bool, x: int, v: Tree, f: map<int, int>) {
    slot < HEAP_MIN || (h in f && f[h] >= MIN_LARGE_SIZE && h != x && !HasSize(v, f[h]) && slot == Child(h, side))
  }

  lemma RootIn(t: Tree, lo: int, bits: nat, f: map<int, int>)
    requires t.Node? && Trie(t, lo, bits) && Backed(t, f)
    ensures Root(t) in f && f[Root(t)] == t.size >= MIN_LARGE_SIZE && HasSize(t, t.size)
  {
    assert t.ring[0] in t.ring;
  }

  lemma HeirAt(mem: Mem, x: int, v: Tree, l: int, b: nat, i: int, f: map<int, int>, xp: int, slot: int, h: int,
               side: bool, p: int)
    requires Heir(mem, x, v, l, b, i, f) && Outside(slot, h, side, x, v, f) && p in f && f[p] >= MIN_LARGE_SIZE
    ensures var c0, c1, r := Root(v.left), Root(v.right), Root(v); var m := Promote(mem, x, r, xp, slot);
            && Fd(m, p) == Fd(mem, p) && Bk(m, p) == Bk(mem, p) && IndexOf(m, p) == IndexOf(mem, p)
            && Parent(m, p) == (if p == r then xp else if p == c0 || p == c1 then r else Parent(mem, p))
            && ChildAt(m, p, false)
               == (if p == r && c0 != 0 then c0 else if slot == Child(p, false) then r else ChildAt(mem, p, false))
            && ChildAt(m, p, true)
               == (if p == r && c1 != 0 then c1 else if slot == Child(p, true) then r else ChildAt(mem, p, true))
            && Rd(m, slot) == r
  {
    RootIn(v, l, b, f);
    if v.left.Node? { RootIn(v.left, l, b - 1, f); }
    if v.right.Node? { RootIn(v.right, l + Pow2(b - 1), b - 1, f); Split(v, v.right.size, l, b); }
    hide Rd, Wr, Promote, Linked, RingLinks, Trie, Backed;
    assert Root(v) in v.ring;
    PromoteAt(mem, x, Root(v), xp, slot, h, side, p);
  }

  lemma AdoptConfined(mem: Mem, x: int, r: int, right: bool, f: map<int, int>)
    requires Spaced(f) && r in f && f[r] >= MIN_LARGE_SIZE
    requires var c := ChildAt(mem, x, right); c == 0 || (c in f && f[c] >= MIN_LARGE_SIZE)
    ensures Confined(mem, Adopt(mem, x, r, right), f)
  {
    var c := ChildAt(mem, x, right);
    if c != 0 {
      hide Rd, Wr, Confined;
      var m1 := Wr(mem, Child(r, right), c);
      ConfinedWrite(mem, f, r, if right then 20 else 16, c);
      ConfinedWrite(m1, f, c, 24, r);
      ConfinedTrans(mem, m1, Adopt(mem, x, r, right), f);
    }
  }

  lemma PromoteReads(mem: Mem, x: int, r: int, xp: int, slot: int)
    requires x != r && Far(x, r) && slot != Child(x, false) && slot != Child(x, true)
    requires var c0 := ChildAt(mem, x, false); c0 == 0 || (c0 != x && Far(c0, x))
    ensures var m2 := Wr(Wr(mem, slot, r), r + 24, xp);
            ChildAt(m2, x, false) == ChildAt(mem, x, false)
                && ChildAt(Adopt(m2, x, r, false), x, true) == ChildAt(mem, x, true)
  {
    hide Rd, Wr;
  }

  lemma PromoteConfined(mem: Mem, x: int, r: int, xp: int, slot: int, h: int, side: bool, f: map<int, int>)
    requires Spaced(f) && x in f && f[x] >= MIN_LARGE_SIZE && r in f && f[r] >= MIN_LARGE_SIZE && x != r
    requires slot < HEAP_MIN || (h in f && f[h] >= MIN_LARGE_SIZE && h != x && slot == Child(h, side))
    requires var c := ChildAt(mem, x, false); c == 0 || (c in f && f[c] >= MIN_LARGE_SIZE && c != x)
    requires var c := ChildAt(mem, x, true); c == 0 || (c in f && f[c] >= MIN_LARGE_SIZE && c != x)
    ensures Confined(mem, Promote(mem, x, r, xp, slot), f)
  {
    var m1 := Wr(mem, slot, r);
    var m2 := Wr(m1, r + 24, xp);
    var m3 := Adopt(m2, x, r, false);
    PromoteReads(mem, x, r, xp, slot);
    if slot < HEAP_MIN {
      WriteStatic(mem, f, {}, slot, r);
    } else {
      ConfinedWrite(mem, f, h, if side then 20 else 16, r);
    }
    hide Rd, Wr, Confined, ChildAt;
    ConfinedWrite(m1, f, r, 24, xp);
    AdoptConfined(m2, x, r, false, f);
    AdoptConfined(m3, x, r, true, f);
    ConfinedTrans(mem, m1, m2, f);
    ConfinedTrans(mem, m2, m3, f);
    ConfinedTrans(mem, m3, Adopt(m3, x, r, true), f);
  }

  lemma PromoteUntouched(mem: Mem, x: int, v: Tree, l: int, b: nat, i: int, f: map<int, int>, xp: int, slot: int,
                         h: int, side: bool)
    requires Heir(mem, x, v, l, b, i, f) && Outside(slot, h, side, x, v, f)
    ensures var m := Promote(mem, x, Root(v), xp, slot);
            && Untouched(mem, m, f, {Root(v), Root(v.left), Root(v.right), h}) && Confined(mem, m, f)
            && Rd(m, slot) == Root(v)
            && (slot >= HEAP_MIN ==> SameBut(mem, m, h, side))
  {
    var r, c0, c1 := Root(v), Root(v.left), Root(v.right);
    var m := Promote(mem, x, r, xp, slot);
    RootIn(v, l, b, f);
    if v.left.Node? { RootIn(v.left, l, b - 1, f); }
    if v.right.Node? { RootIn(v.right, l + Pow2(b - 1), b - 1, f); }
    assert r in v.ring;
    PromoteConfined(mem, x, r, xp, slot, h, side, f);
    hide Rd, Wr, Confined, Promote, Linked, RingLinks, Trie, Backed;
    forall p | p in f && f[p] >= MIN_LARGE_SIZE && p !in {r, c0, c1, h} ensures Same(mem, m, p) {
      HeirAt(mem, x, v, l, b, i, f, xp, slot, h, side, p);
    }
    HeirAt(mem, x, v, l, b, i, f, xp, slot, h, side, r);
    if slot >= HEAP_MIN { HeirAt(mem, x, v, l, b, i, f, xp, slot, h, side, h); }
  }

  /** A ring is still one if its members keep their ring words and all but the head all their links. */
  lemma RingKept(mem: Mem, m: Mem, ring: seq<int>, i: int)
    requires ring != [] && NoDup(ring) && RingLinks(mem, ring, i)
    requires forall p | p in ring ::
      Fd(m, p) == Fd(mem, p) && Bk(m, p) == Bk(mem, p) && IndexOf(m, p) == IndexOf(mem, p)
    requires forall p | p in ring && p != ring[0] :: Same(mem, m, p)
    ensures RingLinks(m, ring, i)
  {
    hide Fd, Bk, IndexOf, Parent, ChildAt;
    forall k | 0 <= k < |ring|
      ensures Bk(m, ring[k]) == After(ring, k) && Fd(m, ring[k]) == Before(ring, k)
      ensures IndexOf(m, ring[k]) == i && (k > 0 ==> Plain(m, ring[k]))
    {
      assert ring[k] in ring && (k > 0 ==> ring[k] != ring[0]);
      assert k > 0 ==> Plain(mem, ring[k]);
      assert Bk(mem, ring[k]) == After(ring, k) && Fd(mem, ring[k]) == Before(ring, k) && IndexOf(mem, ring[k]) == i;
    }
  }

  lemma PromoteRing(mem: Mem, x: int, v: Tree, l: int, b: nat, i: int, f: map<int, int>, xp: int, slot: int, h: int,
                    side: bool)
    requires Heir(mem, x, v, l, b, i, f) && Outside(slot, h, side, x, v, f)
    ensures var m := Promote(mem, x, Root(v), xp, slot);
            RingLinks(m, v.ring, i) && HeadLinks(m, Root(v), xp, Root(v.left), Root(v.right))
  {
    var r := Root(v);
    var m := Promote(mem, x, r, xp, slot);
    RootIn(v, l, b, f);
    if v.left.Node? { RootIn(v.left, l, b - 1, f); }
    if v.right.Node? { RootIn(v.right, l + Pow2(b - 1), b - 1, f); }
    forall p | p in v.ring
      ensures p in f && f[p] >= MIN_LARGE_SIZE && p != Root(v.left) && p != Root(v.right)
      ensures (slot >= HEAP_MIN ==> p != h)
    {
    }
    hide Rd, Wr, Promote, Linked, RingLinks, Trie, Fd, Bk, IndexOf, Parent, ChildAt;
    forall p | p in v.ring
      ensures Fd(m, p) == Fd(mem, p) && Bk(m, p) == Bk(mem, p) && IndexOf(m, p) == IndexOf(mem, p)
      ensures p != r ==> Same(mem, m, p)
    {
      HeirAt(mem, x, v, l, b, i, f, xp, slot, h, side, p);
    }
    RingKept(mem, m, v.ring, i);
    HeirAt(mem, x, v, l, b, i, f, xp, slot, h, side, r);
  }

  lemma PromoteKid(mem: Mem, x: int, v: Tree, l: int, b: nat, i: int, f: map<int, int>, xp: int, slot: int, h: int,
                   side: bool, d: bool)
    requires Heir(mem, x, v, l, b, i, f) && Outside(slot, h, side, x, v, f)
    ensures Linked(Promote(mem, x, Root(v), xp, slot), Kid(v, d), Root(v), i)
  {
    var r, t := Root(v), Kid(v, d);
    if t.Node? {
      var m := Promote(mem, x, r, xp, slot);
      var lo := KidLo(l, b, d);
      RootIn(v, l, b, f);
      RootIn(t, lo, b - 1, f);
      if Kid(v, !d).Node? { RootIn(Kid(v, !d), KidLo(l, b, !d), b - 1, f); }
      forall p | p in f && HasSize(t, f[p])
        ensures f[p] >= MIN_LARGE_SIZE && p != r && p != Root(Kid(v, !d)) && (slot >= HEAP_MIN ==> p != h)
      {
        LargeSize(t, f, f[p]);
        Split(v, f[p], l, b);
      }
      hide Rd, Wr, Promote, Linked, RingLinks, Trie, Fd, Bk, IndexOf, Parent, ChildAt;
      forall p | p in f && HasSize(t, f[p]) && p != Root(t) ensures Same(mem, m, p) {
        HeirAt(mem, x, v, l, b, i, f, xp, slot, h, side, p);
      }
      HeirAt(mem, x, v, l, b, i, f, xp, slot, h, side, Root(t));
      Reparent(mem, m, t, lo, b - 1, x, r, i, f);
    }
  }

  lemma PromoteLinked(mem: Mem, x: int, v: Tree, l: int, b: nat, i: int, f: map<int, int>, xp: int, slot: int, h: int,
                      side: bool)
    requires Heir(mem, x, v, l, b, i, f) && Outside(slot, h, side, x, v, f)
    ensures Linked(Promote(mem, x, Root(v), xp, slot), v, xp, i)
  {
    hide RingLinks, Promote, HeadLinks;
    PromoteRing(mem, x, v, l, b, i, f, xp, slot, h, side);
    PromoteKid(mem, x, v, l, b, i, f, xp, slot, h, side, false);
    PromoteKid(mem, x, v, l, b, i, f, xp, slot, h, side, true);
  }

  // ---- the leaf that is promoted

  ghost function Toward(t: Tree): bool requires t.Node? { t.right.Node? }
  ghost predicate IsLeaf(t: Tree) { t.Node? && t.left.Nil? && t.right.Nil? }

  /** The chunk whose child word leads to the leaf, and which child it is, for a tree hanging from chunk `h`. */
  ghost function LeafHost(t: Tree, h: int): int
    requires t.Node?
    decreases t
  {
    if IsLeaf(t) then h else LeafHost(Kid(t, Toward(t)), Root(t))
  }

  ghost predicate LeafSide(t: Tree, side: bool)
    requires t.Node?
    decreases t
  {
    if IsLeaf(t) then side else LeafSide(Kid(t, Toward(t)), Toward(t))
  }

  lemma {:induction false} HostIn(t: Tree, lo: int, bits: nat, h: int, f: map<int, int>)
    requires t.Node? && Trie(t, lo, bits) && Backed(t, f) && !IsLeaf(t)
    ensures var q := LeafHost(t, h);
            q in f && f[q] >= MIN_LARGE_SIZE && HasSize(t, f[q]) && f[q] != RightLeaf(t).size
    decreases t
  {
    var d := Toward(t);
    var k := Kid(t, d);
    RootIn(t, lo, bits, f);
    DropLeaf(k, KidLo(lo, bits, d), bits - 1);
    if !IsLeaf(k) { HostIn(k, KidLo(lo, bits, d), bits - 1, Root(t), f); }
  }

  /** Clearing the word that leads to the leaf takes the leaf, and only it, out of the tree. */
  lemma {:induction false} DetachLinks(mem: Mem, m: Mem, t: Tree, lo: int, bits: nat, h: int, side: bool, i: int,
      f: map<int, int>)
    requires t.Node? && Trie(t, lo, bits) && Backed(t, f) && Linked(mem, t, h, i) && ChildAt(mem, h, side) == Root(t)
    requires h in f && !HasSize(t, f[h])
    requires var q, d := LeafHost(t, h), LeafSide(t, side);
             Untouched(mem, m, f, {q}) && SameBut(mem, m, q, d) && ChildAt(m, q, d) == 0
    requires LeafHost(t, h) != h ==> Same(mem, m, h)
    ensures Linked(m, DropRightLeaf(t), h, i) && ChildAt(m, h, side) == Root(DropRightLeaf(t))
    ensures RingLinks(m, RightLeaf(t).ring, i)
    ensures ChildAt(m, Root(RightLeaf(t)), false) == 0 && ChildAt(m, Root(RightLeaf(t)), true) == 0
    decreases t
  {
    if IsLeaf(t) {
      forall p | p in t.ring ensures Same(mem, m, p) {}
      assert t.ring[0] in t.ring;
      hide Linked, Fd, Bk, IndexOf, Parent, Rd;
      RingKept(mem, m, t.ring, i);
    } else {
      var d := Toward(t);
      var k, l := Kid(t, d), KidLo(lo, bits, d);
      RootIn(t, lo, bits, f);
      HostIn(t, lo, bits, h, f);
      if !IsLeaf(k) { HostIn(k, l, bits - 1, Root(t), f); }
      DetachStep(mem, m, t, lo, bits, i, f);
      hide Fd, Bk, IndexOf, Parent, ChildAt, Untouched, RingLinks;
      DetachLinks(mem, m, k, l, bits - 1, Root(t), d, i, f);
      LinkedFrame(mem, m, Kid(t, !d), Root(t), i, f);
    }
  }

  lemma DetachStep(mem: Mem, m: Mem, t: Tree, lo: int, bits: nat, i: int, f: map<int, int>)
    requires t.Node? && Trie(t, lo, bits) && Backed(t, f) && RingLinks(mem, t.ring, i) && !IsLeaf(t)
    requires var d := Toward(t); var k := Kid(t, d); var q := LeafHost(k, Root(t));
             && Untouched(mem, m, f, {q}) && SameBut(mem, m, q, LeafSide(k, d))
             && q in f && (if IsLeaf(k) then q == Root(t) else HasSize(k, f[q]))
    ensures var d := Toward(t); var k := Kid(t, d);
            && RingLinks(m, t.ring, i) && SameBut(mem, m, Root(t), d)
            && (LeafHost(k, Root(t)) != Root(t) ==> Same(mem, m, Root(t)))
            && (forall p | p in f && HasSize(Kid(t, !d), f[p]) :: Same(mem, m, p))
  {
    var d := Toward(t);
    var k := Kid(t, d);
    var q := LeafHost(k, Root(t));
    RootIn(t, lo, bits, f);
    hide Fd, Bk, IndexOf, Parent, ChildAt;
    forall j | 0 < j < |t.ring| ensures Same(mem, m, t.ring[j]) { assert t.ring[j] in t.ring; }
    forall p | p in f && HasSize(Kid(t, !d), f[p]) ensures Same(mem, m, p) {
      Split(t, f[p], lo, bits);
      LargeSize(Kid(t, !d), f, f[p]);
    }
    RingFrame(mem, m, t.ring, i, d);
  }

  // ---- the three ways out

  /** Splicing a chunk out of a ring of several. */
  lemma Splice(mem: Mem, u: Tree, k: nat, l: int, b: nat, par: int, i: int, f: map<int, int>)
    requires u.Node? && Trie(u, l, b) && Backed(u, f) && Linked(mem, u, par, i) && Spaced(f)
    requires k < |u.ring| && |u.ring| > 1
    ensures var x := u.ring[k]; var m := Unring(mem, x);
            && Fd(mem, x) == Before(u.ring, k) && Bk(mem, x) == After(u.ring, k)
            && Removed(u, x) == u.(ring := Cut(u.ring, k)) && Backed(Removed(u, x), f)
            && RingLinks(m, Cut(u.ring, k), i)
            && (forall p | p in u.ring ::
                 Parent(m, p) == Parent(mem, p) && forall d :: ChildAt(m, p, d) == ChildAt(mem, p, d))
            && Linked(m, u.left, Root(u), i) && Linked(m, u.right, Root(u), i)
            && Untouched(mem, m, f, {Before(u.ring, k), After(u.ring, k)}) && Confined(mem, m, f)
            && (forall a | a < HEAP_MIN :: Rd(m, a) == Rd(mem, a))
  {
    var x := u.ring[k];
    var a, z := Before(u.ring, k), After(u.ring, k);
    assert a in u.ring && z in u.ring && x in u.ring && Root(u) in u.ring;
    assert Fd(mem, x) == a && Bk(mem, x) == z;
    CutWithout(u.ring, k);
    RemovedBacked(u, x, f);
    SpacedFar(f, u.ring);
    UnringUntouched(mem, x, f, {a, z});
    UnringWords(mem, u.ring, k, i);
    assert forall w | w < HEAP_MIN :: Rd(Unring(mem, x), w) == Rd(mem, w);
    hide Rd, Wr, Unring, Untouched, Confined, RingLinks, Fd, Bk;
    SubtreesFrame(mem, Unring(mem, x), u, l, b, i, f, f, {a, z});
  }

  /** A chunk that is not the head of its ring leaves only the ring. */
  lemma UnlinkTwin(mem: Mem, u: Tree, k: nat, l: int, b: nat, par: int, i: int, f: map<int, int>)
    requires u.Node? && Trie(u, l, b) && Backed(u, f) && Linked(mem, u, par, i) && Spaced(f)
    requires 0 < k < |u.ring|
    ensures var x := u.ring[k]; var m := Unring(mem, x);
            Linked(m, Removed(u, x), par, i) && Root(Removed(u, x)) == Root(u)
  {
    Splice(mem, u, k, l, b, par, i, f);
    hide Rd, Wr, Unring, Untouched, Confined, RingLinks, Fd, Bk;
    assert Root(u) in u.ring;
    assert HeadLinks(Unring(mem, u.ring[k]), Root(u), par, Root(u.left), Root(u.right));
  }

  /** The head of a ring of several hands its place to the next oldest. */
  lemma UnlinkHead(mem: Mem, u: Tree, l: int, b: nat, par: int, i: int, f: map<int, int>)
    requires u.Node? && Trie(u, l, b) && Backed(u, f) && Linked(mem, u, par, i) && Spaced(f)
    requires |u.ring| > 1
    ensures var x := u.ring[0];
            Root(Removed(u, x)) == u.ring[1] && Heir(Unring(mem, x), x, Removed(u, x), l, b, i, f)
  {
    var x, z := u.ring[0], u.ring[1];
    var m := Unring(mem, x);
    Splice(mem, u, 0, l, b, par, i, f);
    assert z in u.ring && x in u.ring;
    var v := u.(ring := Cut(u.ring, 0));
    assert v.ring[0] == z && v.ring == u.ring[1..];
    assert Plain(mem, z);
    hide Rd, Wr, Unring, Untouched, Confined, RingLinks, Fd, Bk, Removed, Linked;
    assert Trie(v, l, b);
    assert Heir(m, x, v, l, b, i, f);
  }

  /** The last chunk of its size, above others: the leaf is cut off and stands ready. */
  lemma UnlinkSole(mem: Mem, u: Tree, l: int, b: nat, par: int, i: int, f: map<int, int>)
    requires u.Node? && Trie(u, l, b) && Backed(u, f) && Linked(mem, u, par, i) && Spaced(f)
    requires |u.ring| == 1 && !IsLeaf(u)
    ensures var x, d := u.ring[0], Toward(u);
            var k := Kid(u, d);
            var q, c := LeafHost(k, x), LeafSide(k, d);
            var m := Wr(mem, Child(q, c), 0);
            && q in f && HasSize(u, f[q])
            && Root(Removed(u, x)) == Root(RightLeaf(k))
            && Heir(m, x, Removed(u, x), l, b, i, f)
            && Untouched(mem, m, f, {q}) && Confined(mem, m, f)
            && (forall a | a < HEAP_MIN :: Rd(m, a) == Rd(mem, a))
  {
    var x, d := u.ring[0], Toward(u);
    var k, lo := Kid(u, d), KidLo(l, b, d);
    var q, c := LeafHost(k, x), LeafSide(k, d);
    var m := Wr(mem, Child(q, c), 0);
    RootIn(u, l, b, f);
    if !IsLeaf(k) { HostIn(k, lo, b - 1, x, f); }
    WriteLink(mem, f, {q}, q, if c then 20 else 16, 0);
    assert SameBut(mem, m, q, c) && ChildAt(m, q, c) == 0;
    DetachStep(mem, m, u, l, b, i, f);
    DropRootTrie(u, l, b);
    RemovedBacked(u, x, f);
    DropLeaf(k, lo, b - 1);
    hide Rd, Wr, Untouched, Confined, RingLinks, Fd, Bk, Parent, IndexOf;
    DetachLinks(mem, m, k, lo, b - 1, x, d, i, f);
    LinkedFrame(mem, m, Kid(u, !d), x, i, f);
  }

  lemma PromoteStatic(mem: Mem, x: int, r: int, xp: int, slot: int)
    requires r >= HEAP_MIN && x != r && Far(x, r) && slot != Child(x, false) && slot != Child(x, true)
    requires var c0 := ChildAt(mem, x, false); c0 == 0 || (c0 != x && Far(c0, x) && c0 >= HEAP_MIN)
    requires var c1 := ChildAt(mem, x, true); c1 == 0 || c1 >= HEAP_MIN
    ensures forall a | a < HEAP_MIN && a != slot :: Rd(Promote(mem, x, r, xp, slot), a) == Rd(mem, a)
  {
    PromoteReads(mem, x, r, xp, slot);
    hide Rd, Wr;
  }

  lemma UntouchedMore(mem: Mem, m: Mem, f: map<int, int>, qs: set<int>, qs': set<int>)
    requires Untouched(mem, m, f, qs) && qs <= qs'
    ensures Untouched(mem, m, f, qs')
  {}

  lemma UntouchedBoth(m: Mem, m': Mem, m'': Mem, f: map<int, int>, qs: set<int>, qs': set<int>)
    requires Untouched(m, m', f, qs) && Untouched(m', m'', f, qs') && Confined(m, m', f) && Confined(m', m'', f)
    ensures Untouched(m, m'', f, qs + qs') && Confined(m, m'', f)
  {
    UntouchedMore(m, m', f, qs, qs + qs');
    UntouchedMore(m', m'', f, qs', qs + qs');
    hide Untouched, Confined;
    UntouchedTrans(m, m', m'', f, qs + qs');
  }

  lemma SameButTrans(mem: Mem, m0: Mem, m: Mem, f: map<int, int>, qs: set<int>, h: int, side: bool)
    requires Untouched(mem, m0, f, qs) && h in f && f[h] >= MIN_LARGE_SIZE && h !in qs && SameBut(m0, m, h, side)
    ensures SameBut(mem, m, h, side)
  {
    assert Same(mem, m0, h);
    hide Fd, Bk, IndexOf, Parent, ChildAt;
  }

  /** Promotion as seen from everything else. */
  lemma PromoteAll(mem: Mem, x: int, v: Tree, l: int, b: nat, i: int, f: map<int, int>, xp: int, slot: int, h: int,
                   side: bool)
    requires Heir(mem, x, v, l, b, i, f) && Outside(slot, h, side, x, v, f)
    ensures var m := Promote(mem, x, Root(v), xp, slot);
            && Untouched(mem, m, f, {Root(v), Root(v.left), Root(v.right), h}) && Confined(mem, m, f)
            && Rd(m, slot) == Root(v)
            && (slot >= HEAP_MIN ==> SameBut(mem, m, h, side))
            && Linked(m, v, xp, i)
            && (forall a | a < HEAP_MIN && a != slot :: Rd(m, a) == Rd(mem, a))
  {
    PromoteUntouched(mem, x, v, l, b, i, f, xp, slot, h, side);
    PromoteLinked(mem, x, v, l, b, i, f, xp, slot, h, side);
    RootIn(v, l, b, f);
    if v.left.Node? { RootIn(v.left, l, b - 1, f); }
    if v.right.Node? { RootIn(v.right, l + Pow2(b - 1), b - 1, f); }
    assert Root(v) in v.ring;
    hide Rd, Wr, Promote, Untouched, Confined, Linked, RingLinks, Trie, Backed;
    PromoteStatic(mem, x, Root(v), xp, slot);
  }

  lemma HeirRoots(v: Tree, l: int, b: nat, f: map<int, int>)
    requires v.Node? && Trie(v, l, b) && Backed(v, f)
    ensures forall q | q in {Root(v), Root(v.left), Root(v.right)} && q != 0 :: q in f && HasSize(v, f[q])
  {
    RootIn(v, l, b, f);
    if v.left.Node? { RootIn(v.left, l, b - 1, f); }
    if v.right.Node? { RootIn(v.right, l + Pow2(b - 1), b - 1, f); }
  }

  /** `m0` differs from `mem` inside the subtree at `s` only, and node `v` stands ready there for chunk `x`. */
  ghost predicate Ready(mem: Mem, m0: Mem, t: Tree, x: int, v: Tree, s: int, lo: int, bits: nat, slot: int, i: int,
                        f: map<int, int>, qs: set<int>) {
    var u := Lookup(t, s, lo, bits);
    var (l, b) := Place(t, s, lo, bits);
    && Stored(mem, t, lo, bits, slot, i, f) && Spaced(f)
    && v.Node? && Heir(m0, x, v, l, b, i, f) && f[x] == s && IndexOf(m0, x) == i
    && (forall z | HasSize(v, z) :: HasSize(u, z))
    && (forall q | q in qs && q in f :: HasSize(u, f[q]))
    && Untouched(mem, m0, f, qs) && Confined(mem, m0, f) && (forall a | a < HEAP_MIN :: Rd(m0, a) == Rd(mem, a))
  }

  lemma Takeover(mem: Mem, m0: Mem, t: Tree, x: int, v: Tree, s: int, lo: int, bits: nat, slot: int, i: int,
                 f: map<int, int>, qs: set<int>)
    requires Ready(mem, m0, t, x, v, s, lo, bits, slot, i, f, qs)
    ensures var h, c := ParentOf(t, s, lo, bits, slot), SlotOf(t, s, lo, bits, slot);
            var m := Promote(m0, x, Root(v), h, c);
            && Linked(m, v, h, i) && Rd(m, c) == Root(v)
            && (!Stops(t, s, bits) ==>
                  SameBut(mem, m, h, SideOf(t, s, lo, bits, false)) && Rd(m, slot) == Rd(mem, slot))
            && Untouched(mem, m, f, qs + {Root(v), Root(v.left), Root(v.right), h}) && Confined(mem, m, f)
            && (forall a | a < HEAP_MIN && a != slot :: Rd(m, a) == Rd(mem, a))
  {
    var (l, b) := Place(t, s, lo, bits);
    var h, c, side := ParentOf(t, s, lo, bits, slot), SlotOf(t, s, lo, bits, slot), SideOf(t, s, lo, bits, false);
    var m := Promote(m0, x, Root(v), h, c);
    hide Rd, Wr, Promote, Untouched, Confined, Linked, RingLinks, Trie, Backed, Place, Lookup, ParentOf, SlotOf, SideOf;
    PlaceOf(t, s, lo, bits, slot, f);
    PromoteAll(m0, x, v, l, b, i, f, h, c, h, side);
    UntouchedBoth(mem, m0, m, f, qs, {Root(v), Root(v.left), Root(v.right), h});
    if !Stops(t, s, bits) { SameButTrans(mem, m0, m, f, qs, h, side); }
  }

  /** A node ready to replace the head of its place does so in the whole tree. */
  lemma Replace(mem: Mem, m0: Mem, t: Tree, x: int, v: Tree, s: int, lo: int, bits: nat, slot: int, i: int, f: map<int,
                int>, qs: set<int>)
    requires Ready(mem, m0, t, x, v, s, lo, bits, slot, i, f, qs)
    ensures var h := ParentOf(t, s, lo, bits, slot);
            var m := Promote(m0, x, Root(v), h, SlotOf(t, s, lo, bits, slot));
            && Linked(m, Graft(t, s, lo, bits, v), slot, i) && Rd(m, slot) == Root(Graft(t, s, lo, bits, v))
            && Untouched(mem, m, f, qs + {Root(v), Root(v.left), Root(v.right), h}) && Confined(mem, m, f)
            && (forall a | a < HEAP_MIN && a != slot :: Rd(m, a) == Rd(mem, a))
  {
    var (l, b) := Place(t, s, lo, bits);
    var h, c := ParentOf(t, s, lo, bits, slot), SlotOf(t, s, lo, bits, slot);
    hide Rd, Wr, Promote, Untouched, Confined, Linked, RingLinks, Trie, Backed, Place, Graft, Lookup, ParentOf, SlotOf;
    hide SideOf, SameBut;
    HeirRoots(v, l, b, f);
    Takeover(mem, m0, t, x, v, s, lo, bits, slot, i, f, qs);
    EditAt(mem, Promote(m0, x, Root(v), h, c), t, s, lo, bits, slot, i, v, f, f,
        qs + {Root(v), Root(v.left), Root(v.right), h});
  }

  /** The parent's other child word leads somewhere else. */
  lemma {:induction false} OtherSide(mem: Mem, t: Tree, s: int, lo: int, bits: nat, par: int, side: bool, i: int,
      f: map<int, int>, x: int)
    requires Trie(t, lo, bits) && Backed(t, f) && Linked(mem, t, par, i) && !Stops(t, s, bits) && HasSize(t, s)
    requires x in f && f[x] == s && x != 0
    ensures ChildAt(mem, ParentOf(t, s, lo, bits, par), !SideOf(t, s, lo, bits, side)) != x
    ensures Root(t) != x
    decreases t
  {
    var d := Turn(s, lo, bits);
    var k, l := Kid(t, d), KidLo(lo, bits, d);
    RootIn(t, lo, bits, f);
    SizeBounds(t, s, lo, bits);
    Split(t, s, lo, bits);
    if Stops(k, s, bits - 1) {
      var o := Kid(t, !d);
      if o.Node? { RootIn(o, KidLo(lo, bits, !d), bits - 1, f); }
    } else {
      OtherSide(mem, k, s, l, bits - 1, Root(t), d, i, f, x);
    }
  }
}

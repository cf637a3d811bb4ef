/** The kernel's sbrk: a break that moves by bytes over a heap that grows and shrinks by pages. */
module Sbrk {
  const PAGE := 0x1000
  const HEAP_LIMIT := 0x8000_0000
  const ADDRESSES := 0x1_0000_0000

  ghost predicate PageAligned(a: int) { a % PAGE == 0 }

  /** How many pages a heap of `pages` pages has once its break is `size` bytes above its start. */
  ghost function PagesFor(pages: int, size: int): int {
    if size > pages * PAGE then (size + PAGE - 1) / PAGE
    else if size < (pages - 1) * PAGE then size / PAGE + 1
    else pages
  }

  ghost predicate Fitting(pages: int, size: int) { (pages - 1) * PAGE <= size <= pages * PAGE }

  /**
   * The count fits the break. It does not change if it fits already; it grows to the least that fits, and shrinks to
   * the greatest.
   */
  lemma PagesFit(pages: int, size: int)
    ensures Fitting(PagesFor(pages, size), size)
    ensures Fitting(pages, size) ==> PagesFor(pages, size) == pages
    ensures forall n | Fitting(n, size) && n > pages && !Fitting(pages, size) :: pages < PagesFor(pages, size) <= n
    ensures forall n | Fitting(n, size) && n < pages && !Fitting(pages, size) :: n <= PagesFor(pages, size) < pages
  {}

  /** The count is negative exactly for a break more than a page below the start of the heap. */
  lemma StaysInHeap(pages: int, size: int)
    requires pages >= 0
    ensures PagesFor(pages, size) >= 0 <==> size >= -PAGE
  {}

  /** Virtual page `k` of a heap. */
  function PageAt(start: int, k: int): int { start + k * PAGE }

  /**
   * In the heap's part of the address space exactly the first `pages` pages are mapped, each to its own physical page.
   */
  ghost predicate Mapped(space: map<int, nat>, start: int, pages: int) {
    && (forall v | v in space && start <= v < HEAP_LIMIT :: v < PageAt(start, pages) && PageAligned(v))
    && (forall k | 0 <= k < pages :: PageAt(start, k) in space)
    && (forall i, j | 0 <= i < j < pages :: space[PageAt(start, i)] != space[PageAt(start, j)])
  }

  /** The physical pages behind the heap. */
  ghost function Behind(space: map<int, nat>, start: int, pages: int): set<nat> {
    set k | 0 <= k < pages && PageAt(start, k) in space :: space[PageAt(start, k)]
  }

  /** Every physical page has the references others hold and one if the heap uses it, and is free when it has none. */
  ghost predicate Counted(heap: set<nat>, others: map<nat, nat>, refs: map<nat, nat>, free: set<nat>) {
    && heap <= refs.Keys && free <= refs.Keys && refs.Keys == others.Keys
    && (forall p | p in refs :: refs[p] == others[p] + if p in heap then 1 else 0)
    && (forall p | p in refs :: p in free <==> refs[p] == 0)
  }

  lemma BehindMore(space: map<int, nat>, start: int, pages: int, phys: nat)
    requires Mapped(space, start, pages) && pages >= 0 && PageAligned(start) && PageAt(start, pages) < HEAP_LIMIT
    requires phys !in Behind(space, start, pages)
    ensures var now := space[PageAt(start, pages) := phys];
            Mapped(now, start, pages + 1) && Behind(now, start, pages + 1) == Behind(space, start, pages) + {phys}
  {
    var now := space[PageAt(start, pages) := phys];
    forall k | 0 <= k < pages
      ensures now[PageAt(start, k)] == space[PageAt(start, k)] && space[PageAt(start, k)] in Behind(space, start, pages)
    {
    }
    assert now[PageAt(start, pages)] == phys;
  }

  lemma BehindLess(space: map<int, nat>, start: int, pages: int)
    requires Mapped(space, start, pages) && pages > 0 && PageAligned(start) && PageAt(start, pages - 1) < HEAP_LIMIT
    ensures var virt := PageAt(start, pages - 1);
            virt in space && Mapped(space - {virt}, start, pages - 1)
            && Behind(space - {virt}, start, pages - 1) == Behind(space, start, pages) - {space[virt]}
            && space[virt] in Behind(space, start, pages)
  {
    var virt := PageAt(start, pages - 1);
    var now := space - {virt};
    forall k | 0 <= k < pages - 1 ensures PageAt(start, k) in now && now[PageAt(start, k)] == space[PageAt(start, k)] {}
    forall v | v in now && start <= v < HEAP_LIMIT
      ensures v < PageAt(start, pages - 1)
    {
      Aligned(start, v, pages - 1);
    }
  }

  lemma Aligned(start: int, v: int, k: int)
    requires PageAligned(start) && PageAligned(v) && v < PageAt(start, k + 1) && v != PageAt(start, k)
    ensures v < PageAt(start, k)
  {}

  ghost function Held(refs: map<nat, nat>): set<nat> { set p | p in refs && refs[p] > 0 }

  /** Nothing is lost: the pages held and the free ones make up all there are. */
  lemma NoneLost(heap: set<nat>, others: map<nat, nat>, refs: map<nat, nat>, free: set<nat>)
    requires Counted(heap, others, refs, free)
    ensures |free| + |Held(refs)| == |refs.Keys| && heap <= Held(refs)
  {
    var held := Held(refs);
    assert held + free == refs.Keys && held * free == {};
  }

  /** Nobody else refers to the pages of the heap. */
  ghost predicate Alone(heap: set<nat>, others: map<nat, nat>) { forall p | p in heap && p in others :: others[p] == 0 }

  lemma FreeApart(heap: set<nat>, others: map<nat, nat>, refs: map<nat, nat>, free: set<nat>, phys: nat)
    requires Counted(heap, others, refs, free) && phys in free
    ensures phys !in heap && phys in refs
  {}

  lemma CountedMore(heap: set<nat>, others: map<nat, nat>, refs: map<nat, nat>, free: set<nat>, phys: nat)
    requires Counted(heap, others, refs, free) && phys in free
    ensures phys in refs && Counted(heap + {phys}, others, refs[phys := refs[phys] + 1], free - {phys})
    ensures Alone(heap, others) ==> Alone(heap + {phys}, others)
  {}

  lemma CountedLess(heap: set<nat>, others: map<nat, nat>, refs: map<nat, nat>, free: set<nat>, phys: nat)
    requires Counted(heap, others, refs, free) && phys in heap
    ensures phys in refs && refs[phys] > 0 && phys !in free
    ensures var free' := if refs[phys] == 1 then free + {phys} else free;
            Counted(heap - {phys}, others, refs[phys := refs[phys] - 1], free')
    ensures Alone(heap, others) ==> Alone(heap - {phys}, others) && refs[phys] == 1
  {}

  class Process {
    const imageEnd: int
    var heapBreak: int
    var heapStart: int
    var heapPages: int
    /** The pages of the address space and the physical pages behind them. */
    var space: map<int, nat>
    /** The number of references to every physical page, and those that are free. */
    var refs: map<nat, nat>
    var free: set<nat>
    /** The references that are not the heap's. */
    ghost const others: map<nat, nat>

    ghost predicate Backed()
      reads this
    {
      Mapped(space, heapStart, heapPages) && Counted(Behind(space, heapStart, heapPages), others, refs, free)
    }

    ghost predicate Valid()
      reads this
    {
      && PAGE < imageEnd < HEAP_LIMIT && PageAligned(imageEnd)
      && if heapBreak == 0 then Mapped(space, imageEnd, 0) && Counted({}, others, refs, free)
         else && heapStart == imageEnd && 0 <= heapPages && 0 < heapBreak < HEAP_LIMIT
              && Fitting(heapPages, heapBreak - heapStart) && Backed()
    }

    /** Where the break is, or will be once the heap is set up. */
    ghost function Break(): int reads this { if heapBreak == 0 then imageEnd else heapBreak }
    ghost function Pages(): int reads this { if heapBreak == 0 then 0 else heapPages }

    /** The pages of the heap, or the one it will be given. */
    ghost function First(): int reads this { if heapBreak == 0 then 1 else heapPages }

    /** Pages the heap has when the break is at `brk`. */
    ghost function PagesAt(brk: int): int reads this { PagesFor(First(), brk - imageEnd) }

    constructor (end: int, mappings: map<int, nat>, counts: map<nat, nat>, unused: set<nat>)
      requires PAGE < end < HEAP_LIMIT && PageAligned(end) && (forall v | v in mappings :: v < end)
      requires unused <= counts.Keys && forall p | p in counts :: p in unused <==> counts[p] == 0
      ensures Valid() && Break() == imageEnd == end && Pages() == 0 && space == mappings && others == counts
      ensures free == unused
    {
      imageEnd, space, refs, free, others := end, mappings, counts, unused, counts;
      heapBreak, heapStart, heapPages := 0, 0, 0;
    }

    /** The pages of the heap and the free ones, when the heap shares none of its pages. */
    ghost function Budget(): int reads this { |free| + Pages() }
    ghost predicate Unshared() reads this { heapBreak == 0 || Alone(Behind(space, heapStart, heapPages), others) }
    ghost predicate AloneNow() reads this { Alone(Behind(space, heapStart, heapPages), others) }

    /** There are pages enough for the heap to come to `pages`, after the first one it is given in any case. */
    ghost predicate Affords(pages: int)
      reads this
    {
      (heapBreak == 0 ==> |free| > 0) && |free| >= pages - Pages()
    }

    /** A free physical page behind the first virtual page above the heap. */
    method Extend()
      requires Backed() && |free| > 0 && 0 <= heapPages && PageAligned(heapStart)
      requires PageAt(heapStart, heapPages) < HEAP_LIMIT
      modifies `heapPages, `space, `refs, `free
      ensures Backed() && heapPages == old(heapPages) + 1 && |free| == |old(free)| - 1
      ensures (old(AloneNow()) ==> AloneNow())
      ensures Keeps(old(space), space, PageAt(heapStart, old(heapPages)))
    {
      hide Mapped, Behind, PageAligned, Counted, Alone, Keeps;
      var phys := Allocate(free);
      FreeApart(Behind(space, heapStart, heapPages), others, refs, free, phys);
      BehindMore(space, heapStart, heapPages, phys);
      CountedMore(Behind(space, heapStart, heapPages), others, refs, free, phys);
      KeepsPut(space, PageAt(heapStart, heapPages), phys);
      space := space[PageAt(heapStart, heapPages) := phys];
      refs := refs[phys := refs[phys] + 1];
      free := free - {phys};
      heapPages := heapPages + 1;
    }

    /** There is a page of the heap to give back. */
    ghost predicate InHeap()
      reads this
    {
      Backed() && 0 < heapPages && PageAligned(heapStart) && PageAt(heapStart, heapPages - 1) < HEAP_LIMIT
    }

    /**
     * The page below goes, and with its last reference the physical page. It is the last page of the heap, unless the
     * heap has none.
     */
    method Retract()
      modifies `heapPages, `space, `refs, `free
      ensures heapPages == old(heapPages) - 1 && space == old(space) - {PageAt(heapStart, heapPages)}
      ensures old(InHeap()) ==> Backed() && old(free) <= free
      ensures old(InHeap() && AloneNow()) ==> AloneNow() && |free| == |old(free)| + 1
    {
      hide Mapped, Behind, PageAligned, Counted, Alone;
      var virt := PageAt(heapStart, heapPages - 1);
      if InHeap() {
        BehindLess(space, heapStart, heapPages);
        CountedLess(Behind(space, heapStart, heapPages), others, refs, free, space[virt]);
      }
      if virt in space {
        var phys := space[virt];
        if phys in refs && refs[phys] > 0 {
          refs := refs[phys := refs[phys] - 1];
          if refs[phys] == 0 { free := free + {phys}; }
        }
      }
      space := space - {virt};
      heapPages := heapPages - 1;
    }

    /** The first call gives the heap a page. */
    method Initialize()
      requires Valid() && (heapBreak == 0 ==> |free| > 0)
      modifies this
      ensures Valid() && heapBreak == old(Break()) && heapPages == old(if heapBreak == 0 then 1 else heapPages)
      ensures old(Unshared()) ==> AloneNow()
      ensures |free| == |old(free)| - old(if heapBreak == 0 then 1 else 0)
      ensures Keeps(old(space), space, PageAt(imageEnd, old(Pages())))
    {
      if heapBreak == 0 {
        heapStart, heapPages := imageEnd, 0;
        Extend();
        heapBreak := heapStart;
      }
    }

    /** Pages up to the new break, as long as there are any. */
    method Expand(brk: int) returns (enough: bool)
      requires Backed() && 0 <= heapPages && PageAligned(heapStart) && heapStart >= 0 && brk < HEAP_LIMIT
      modifies `heapPages, `space, `refs, `free
      ensures enough <==> |old(free)| >= old(PagesFor(heapPages, brk - heapStart) - heapPages)
      ensures Backed() && heapPages >= old(heapPages) && Keeps(old(space), space, PageAt(heapStart, old(heapPages)))
      ensures |free| == |old(free)| - (heapPages - old(heapPages)) && (old(AloneNow()) ==> AloneNow())
      ensures enough ==>
        heapPages == if brk - heapStart > old(heapPages) * PAGE then PagesFor(old(heapPages), brk - heapStart)
                     else old(heapPages)
    {
      hide Mapped, Counted, Behind, Keeps, Alone;
      ghost var n := PagesFor(heapPages, brk - heapStart);
      KeepsAll(space, PageAt(heapStart, heapPages));
      while brk > heapStart + heapPages * PAGE
        invariant Backed() && old(heapPages) <= heapPages && Keeps(old(space), space, PageAt(heapStart, old(heapPages)))
        invariant old(AloneNow()) ==> AloneNow()
        invariant |free| == |old(free)| - (heapPages - old(heapPages))
        invariant (heapPages == old(heapPages) || heapPages <= n)
        invariant brk - heapStart > old(heapPages) * PAGE ==> n == (brk - heapStart + PAGE - 1) / PAGE
      {
        assert heapPages < n;
        if |free| == 0 { return false; }
        ghost var was := space;
        Extend();
        KeepsOn(old(space), was, space, PageAt(heapStart, old(heapPages)), PageAt(heapStart, old(heapPages)),
            PageAt(heapStart, heapPages - 1));
      }
      return true;
    }

    /** No more pages than the new break needs. A break far below the heap takes pages that are not the heap's. */
    method Shrink(brk: int)
      requires Backed() && 0 <= heapPages && PageAligned(heapStart) && PageAt(heapStart, heapPages - 1) < HEAP_LIMIT
      modifies `heapPages, `space, `refs, `free
      ensures heapPages <= old(heapPages) && Cut(old(space), space, heapStart, heapPages, old(heapPages))
      ensures heapPages == if brk - heapStart < (old(heapPages) - 1) * PAGE
                           then PagesFor(old(heapPages), brk - heapStart) else old(heapPages)
      ensures heapPages >= 0 <==> brk - heapStart >= -PAGE
      ensures heapPages >= 0 ==> Backed() && old(free) <= free
      ensures heapPages >= 0 && old(AloneNow()) ==> AloneNow() && |free| + heapPages == |old(free)| + old(heapPages)
    {
      hide Mapped, Counted, Behind, Cut, Alone;
      CutNone(space, heapStart, heapPages);
      while brk < heapStart + heapPages * PAGE - PAGE
        invariant heapPages <= old(heapPages) && Cut(old(space), space, heapStart, heapPages, old(heapPages))
        invariant heapPages >= 0 ==> Backed() && old(free) <= free
        invariant heapPages >= 0 && old(AloneNow()) ==> AloneNow() && |free| + heapPages == |old(free)| + old(heapPages)
        invariant heapPages == old(heapPages) || brk - heapStart < heapPages * PAGE
      {
        ghost var was := space;
        Retract();
        CutMore(old(space), was, heapStart, heapPages, old(heapPages));
      }
    }

    /** The two loops, for a break anywhere in the user's part of memory. */
    method Resize(brk: int) returns (enough: bool)
      requires Backed() && 0 <= heapPages && PageAligned(heapStart) && heapStart >= 0 && 0 <= brk < HEAP_LIMIT
      requires heapBreak < HEAP_LIMIT && Fitting(heapPages, heapBreak - heapStart)
      modifies `heapPages, `space, `refs, `free
      ensures enough <==> |old(free)| >= old(PagesFor(heapPages, brk - heapStart) - heapPages)
      ensures enough ==> heapPages == PagesFor(old(heapPages), brk - heapStart)
      ensures enough ==> (heapPages >= 0 <==> brk - heapStart >= -PAGE)
      ensures enough && heapPages >= 0 ==>
        && Backed() && Keeps(old(space), space, PageAt(heapStart, Least(old(heapPages), heapPages)))
        && (old(AloneNow()) ==> AloneNow() && |free| + heapPages == |old(free)| + old(heapPages))
      ensures enough && heapPages < 0 ==> heapStart - PAGE !in space
    {
      hide Mapped, Counted, Behind, Keeps, Alone, PagesFor, Fitting, PageAligned, Cut;
      ghost var pages0, space0 := heapPages, space;
      ExpandShrink(heapPages, brk - heapStart);
      enough := Expand(brk);
      if enough {
        ghost var space1, pages1 := space, heapPages;
        Top(heapStart, pages1, pages0, brk, heapBreak);
        Shrink(brk);
        if heapPages >= 0 {
          CutKeeps(space1, space, heapStart, heapPages, pages1);
          KeepsOn(space0, space1, space, PageAt(heapStart, Least(pages0, heapPages)), PageAt(heapStart, pages0),
              PageAt(heapStart, heapPages));
        } else {
          CutBelow(space1, space, heapStart, heapPages, pages1);
        }
      }
    }

    /**
     * Moves the break by `amount` bytes and returns where it was, if that leaves it in the user's part of memory. The
     * heap stays in order exactly when there are pages enough and the break goes no more than a page below the heap.
     */
    method Sbrk(amount: int) returns (enough: bool, ok: bool, address: int)
      requires Valid() && -HEAP_LIMIT <= amount < HEAP_LIMIT
      modifies this
      ensures enough <==> old(Affords(PagesAt(After(Break(), amount))))
      ensures enough ==> heapBreak == old(After(Break(), amount)) && heapPages == old(PagesAt(After(Break(), amount)))
      ensures enough ==> (ok <==> 0 <= old(Break()) + amount < HEAP_LIMIT)
      ensures enough && ok ==> address == old(Break()) && heapBreak == address + amount
      ensures enough && !ok ==> address == -1 && heapBreak == old(Break())
      ensures enough ==> (heapPages >= 0 <==> heapBreak >= imageEnd - PAGE)
      ensures enough && heapPages >= 0 ==>
        && Valid() && heapBreak != 0 && (old(Unshared()) ==> Unshared() && Budget() == old(Budget()))
        && Keeps(old(space), space, PageAt(imageEnd, Least(old(Pages()), heapPages)))
      ensures enough && heapPages < 0 ==> imageEnd - PAGE !in space
    {
      hide Mapped, Counted, Behind, Keeps, Alone, PagesFor, Fitting, PageAligned;
      ghost var space0, pages0 := space, Pages();
      if heapBreak == 0 && |free| == 0 {
        return false, false, -1;
      }
      Initialize();
      ghost var space1, pages1 := space, heapPages;
      var old1 := heapBreak;
      Wrapped(old1, amount);
      PagesFit(pages1, old1 - heapStart);
      StaysInHeap(pages1, old1 - heapStart);
      var brk := (old1 + amount) % ADDRESSES;
      if brk >= HEAP_LIMIT {
        return true, false, -1;
      }
      PagesFit(pages1, brk - heapStart);
      enough := Resize(brk);
      if !enough { return false, false, -1; }
      heapBreak := brk;
      if heapPages >= 0 {
        KeepsOn(space0, space1, space, PageAt(imageEnd, Least(pages0, heapPages)), PageAt(imageEnd, pages0),
            PageAt(imageEnd, Least(pages1, heapPages)));
      }
      return true, true, old1;
    }
  }

  function Least(a: int, b: int): int { if a < b then a else b }

  /** A break that wraps around the address space is out of bounds. */
  lemma Wrapped(b: int, amount: int)
    requires 0 < b < HEAP_LIMIT && -HEAP_LIMIT <= amount < HEAP_LIMIT
    ensures (b + amount) % ADDRESSES < HEAP_LIMIT <==> 0 <= b + amount < HEAP_LIMIT
    ensures 0 <= b + amount < HEAP_LIMIT ==> (b + amount) % ADDRESSES == b + amount
  {}

  /** Expanding and then shrinking: at most one of the loops does anything. */
  lemma ExpandShrink(pages: int, size: int)
    ensures var p := if size > pages * PAGE then PagesFor(pages, size) else pages;
            PagesFor(pages, size) == (if size < (p - 1) * PAGE then PagesFor(p, size) else p)
  {}

  lemma Top(start: int, pages: int, was: int, brk: int, brkWas: int)
    requires brkWas < HEAP_LIMIT && brk < HEAP_LIMIT && Fitting(was, brkWas - start)
    requires pages == if brk - start > was * PAGE then PagesFor(was, brk - start) else was
    ensures PageAt(start, pages - 1) < HEAP_LIMIT
  {}

  /** The physical page allocator: any page that is free. */
  method Allocate(free: set<nat>) returns (phys: nat)
    requires |free| > 0
    ensures phys in free
  {
    phys :| phys in free;
  }

  /** Below `v` the mappings are the same. */
  ghost predicate Keeps(was: map<int, nat>, now: map<int, nat>, v: int) {
    forall a | a < v :: (a in was <==> a in now) && (a in was ==> was[a] == now[a])
  }

  lemma KeepsPut(space: map<int, nat>, v: int, phys: nat)
    ensures Keeps(space, space[v := phys], v) && Keeps(space, space - {v}, v)
  {}

  lemma KeepsAll(space: map<int, nat>, v: int) ensures Keeps(space, space, v) {}

  lemma KeepsOn(a: map<int, nat>, b: map<int, nat>, c: map<int, nat>, v: int, u: int, w: int)
    requires Keeps(a, b, u) && Keeps(b, c, w) && v <= u && v <= w
    ensures Keeps(a, c, v)
  {}

  /** The pages from number `now` up to number `was` are gone, and no others. */
  ghost predicate Cut(before: map<int, nat>, after: map<int, nat>, start: int, now: int, was: int) {
    && (forall a | a in after :: a in before && before[a] == after[a])
    && (forall a | a in before ::
          a in after <==> !(PageAt(start, now) <= a < PageAt(start, was) && PageAligned(a - start)))
  }

  lemma CutNone(space: map<int, nat>, start: int, pages: int) ensures Cut(space, space, start, pages, pages) {}

  lemma CutMore(before: map<int, nat>, space: map<int, nat>, start: int, now: int, was: int)
    requires Cut(before, space, start, now + 1, was) && now < was
    ensures Cut(before, space - {PageAt(start, now)}, start, now, was)
  {
    forall a | a in space && PageAt(start, now) <= a < PageAt(start, now + 1) && PageAligned(a - start)
      ensures a == PageAt(start, now)
    {
      OnePage(start, a, now);
    }
  }

  lemma OnePage(start: int, a: int, k: int)
    requires PageAligned(a - start) && PageAt(start, k) <= a < PageAt(start, k + 1)
    ensures a == PageAt(start, k)
  {}

  lemma CutKeeps(before: map<int, nat>, after: map<int, nat>, start: int, now: int, was: int)
    requires Cut(before, after, start, now, was)
    ensures Keeps(before, after, PageAt(start, now))
  {}

  lemma CutBelow(before: map<int, nat>, after: map<int, nat>, start: int, now: int, was: int)
    requires Cut(before, after, start, now, was) && now < 0 <= was
    ensures start - PAGE !in after
  {}

  /** A heap of one page above an image of one page: two pages down, the page of the image is unmapped. */
  method BelowTheHeap() returns (p: Process, ok: bool)
    ensures p.imageEnd == 0x1_0000 && ok && p.heapPages == -1 && 0xF000 !in p.space
  {
    p := new Process(0x1_0000, map[0xF000 := 0], map[0 := 1, 1 := 0], {1});
    var enough, _, _ := p.Sbrk(0);
    var _, done, _ := p.Sbrk(-0x2000);
    ok := done;
  }

  // ---- runs

  /** Where a call leaves the break. */
  function After(b: int, amount: int): int { if 0 <= b + amount < HEAP_LIMIT then b + amount else b }

  ghost function BreakAfter(b: int, amounts: seq<int>): int {
    if amounts == [] then b else After(BreakAfter(b, amounts[..|amounts| - 1]), amounts[|amounts| - 1])
  }

  /** The pages of the heap after some calls, when it has `pages` before, or one it is given on the first. */
  ghost function PagesAfter(start: int, b: int, pages: int, amounts: seq<int>): int {
    if amounts == [] then pages
    else PagesFor(PagesAfter(start, b, pages, amounts[..|amounts| - 1]), BreakAfter(b, amounts) - start)
  }

  /** Up to call number `n` the break never is more than a page below the heap, and there are pages enough. */
  ghost predicate Roomy(start: int, b: int, pages: int, budget: int, amounts: seq<int>, n: int) {
    forall i | 0 <= i <= n <= |amounts| ::
      BreakAfter(b, amounts[..i]) >= start - PAGE && PagesAfter(start, b, pages, amounts[..i]) <= budget
  }

  lemma NextBreak(b: int, amounts: seq<int>, i: nat)
    requires i < |amounts|
    ensures BreakAfter(b, amounts[..i + 1]) == After(BreakAfter(b, amounts[..i]), amounts[i])
  {
    assert amounts[..i + 1][..i] == amounts[..i];
  }

  /** A call that succeeds returns the break it found, and leaves it moved; one that fails leaves it where it was. */
  ghost predicate Answered(before: int, amount: int, answer: (bool, int), after: int) {
    && (answer.0 <==> 0 <= before + amount < HEAP_LIMIT)
    && (answer.0 ==> answer.1 == before && after == before + amount)
    && (!answer.0 ==> answer.1 == -1 && after == before)
  }

  /** What the calls returned and left behind, one after the other. */
  ghost predicate Logged(b: int, amounts: seq<int>, log: seq<(bool, int)>) {
    |log| <= |amounts| && forall i | 0 <= i < |log| ::
      Answered(BreakAfter(b, amounts[..i]), amounts[i], log[i], BreakAfter(b, amounts[..i + 1]))
  }

  /**
   * Each call returns the break the calls before it left behind, and between them no physical page is lost. The run
   * goes well exactly when the break stays where it may be and there is always memory for the pages it needs.
   */
  method Run(p: Process, amounts: seq<int>) returns (fine: bool, log: seq<(bool, int)>)
    requires p.Valid() && p.Unshared() && forall i | 0 <= i < |amounts| :: -HEAP_LIMIT <= amounts[i] < HEAP_LIMIT
    modifies p
    ensures fine <==> amounts == [] || old(Roomy(p.imageEnd, p.Break(), p.First(), p.Budget(), amounts, |amounts|))
    ensures fine ==>
      && p.Valid() && p.Budget() == old(p.Budget()) && p.Break() == BreakAfter(old(p.Break()), amounts)
      && p.First() == PagesAfter(p.imageEnd, old(p.Break()), old(p.First()), amounts)
    ensures fine ==> |log| == |amounts| && Logged(old(p.Break()), amounts, log)
  {
    hide Process.Valid, Process.Unshared, Process.Budget, Process.Break, Process.Pages, Process.PagesAt, BreakAfter;
    hide Process.First, Process.Affords, PagesAfter, Roomy, Logged, After, Answered;
    ghost var b0, budget, first := p.Break(), p.Budget(), p.First();
    log := [];
    NoneLogged(b0, amounts);
    assert amounts[..0] == [] && PagesAfter(p.imageEnd, b0, first, []) == first by { NoPages(p.imageEnd, b0, first); }
    while |log| < |amounts|
      invariant |log| <= |amounts| && p.Valid() && p.Unshared() && p.Budget() == budget
      invariant p.Break() == BreakAfter(b0, amounts[..|log|]) && Logged(b0, amounts, log)
      invariant p.First() == PagesAfter(p.imageEnd, b0, first, amounts[..|log|])
      invariant |log| > 0 ==> p.heapBreak != 0 && Roomy(p.imageEnd, b0, first, budget, amounts, |log|)
    {
      var n: nat := |log|;
      var amount := amounts[n];
      NextBreak(b0, amounts, n);
      NextPages(p.imageEnd, b0, first, amounts, n);
      if n == 0 { RoomyStart(p, amounts); }
      RoomyNext(p.imageEnd, b0, first, budget, amounts, n);
      Affordable(p, After(p.Break(), amount));
      var enough, ok, address := p.Sbrk(amount);
      if !enough || p.heapPages < 0 {
        RoomyAll(p.imageEnd, b0, first, budget, amounts, n + 1);
        return false, log;
      }
      Started(p);
      Answers(BreakAfter(b0, amounts[..n]), amount, ok, address, p.heapBreak);
      LoggedNext(b0, amounts, log, (ok, address));
      log := log + [(ok, address)];
    }
    assert amounts[..|log|] == amounts;
    fine := true;
  }

  lemma NoPages(start: int, b: int, pages: int) ensures PagesAfter(start, b, pages, []) == pages {}

  lemma NextPages(start: int, b: int, pages: int, amounts: seq<int>, i: nat)
    requires i < |amounts|
    ensures PagesAfter(start, b, pages, amounts[..i + 1])
            == PagesFor(PagesAfter(start, b, pages, amounts[..i]), BreakAfter(b, amounts[..i + 1]) - start)
  {
    assert amounts[..i + 1][..i] == amounts[..i];
  }

  /** Before the first call there is room for it to set up the heap, or there is not. */
  lemma RoomyStart(p: Process, amounts: seq<int>)
    requires p.Valid()
    ensures Roomy(p.imageEnd, p.Break(), p.First(), p.Budget(), amounts, 0) <==> (p.heapBreak == 0 ==> |p.free| > 0)
  {
    hide Mapped, Counted, PagesFor, PageAligned;
    assert amounts[..0] == [];
    assert BreakAfter(p.Break(), []) == p.Break() && PagesAfter(p.imageEnd, p.Break(), p.First(), []) == p.First();
  }

  lemma RoomyNext(start: int, b: int, pages: int, budget: int, amounts: seq<int>, n: nat)
    requires n < |amounts|
    ensures Roomy(start, b, pages, budget, amounts, n + 1) <==>
            && Roomy(start, b, pages, budget, amounts, n)
            && BreakAfter(b, amounts[..n + 1]) >= start - PAGE
            && PagesAfter(start, b, pages, amounts[..n + 1]) <= budget
  {
    hide BreakAfter, PagesAfter;
  }

  lemma RoomyAll(start: int, b: int, pages: int, budget: int, amounts: seq<int>, n: nat)
    requires n <= |amounts| && !Roomy(start, b, pages, budget, amounts, n)
    ensures !Roomy(start, b, pages, budget, amounts, |amounts|)
  {
    hide BreakAfter, PagesAfter;
  }

  lemma Affordable(p: Process, brk: int)
    requires p.Valid()
    ensures p.PagesAt(brk) == PagesFor(p.First(), brk - p.imageEnd)
    ensures p.Affords(p.PagesAt(brk)) <==> (p.heapBreak == 0 ==> |p.free| > 0) && p.PagesAt(brk) <= p.Budget()
  {
    hide Mapped, Counted;
  }

  lemma Started(p: Process)
    requires p.heapBreak != 0
    ensures p.Break() == p.heapBreak && p.First() == p.heapPages
  {}

  lemma Answers(before: int, amount: int, ok: bool, address: int, after: int)
    requires ok <==> 0 <= before + amount < HEAP_LIMIT
    requires if ok then address == before && after == address + amount else address == -1 && after == before
    ensures Answered(before, amount, (ok, address), after)
  {}

  lemma NoneLogged(b: int, amounts: seq<int>) ensures Logged(b, amounts, []) && BreakAfter(b, amounts[..0]) == b {}

  lemma LoggedNext(b: int, amounts: seq<int>, log: seq<(bool, int)>, next: (bool, int))
    requires Logged(b, amounts, log) && |log| < |amounts|
    requires Answered(BreakAfter(b, amounts[..|log|]), amounts[|log|], next, BreakAfter(b, amounts[..|log| + 1]))
    ensures Logged(b, amounts, log + [next])
  {
    hide Answered, BreakAfter;
  }
}

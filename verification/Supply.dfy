/** Where the allocator's memory comes from: the C library's sbrk on top of the kernel's. */
module Supply {
  import Sbrk
  import System

  /** The page of the heap an address is in. */
  function PageOf(start: int, a: int): int { Sbrk.PageAt(start, (a - start) / Sbrk.PAGE) }

  /** All addresses from the start of the heap up to the break are mapped. */
  ghost predicate Usable(p: Sbrk.Process)
    reads p
  {
    forall a | p.imageEnd <= a < p.heapBreak :: PageOf(p.imageEnd, a) in p.space
  }

  lemma PageWithin(start: int, a: int, pages: int)
    requires start <= a < start + pages * Sbrk.PAGE
    ensures 0 <= (a - start) / Sbrk.PAGE < pages
  {}

  lemma Backed(p: Sbrk.Process)
    requires p.Valid() && p.heapBreak != 0
    ensures Usable(p)
  {
    hide Sbrk.Counted, Sbrk.PageAligned;
    forall a | p.imageEnd <= a < p.heapBreak ensures PageOf(p.imageEnd, a) in p.space {
      PageWithin(p.imageEnd, a, p.heapPages);
    }
  }

  /**
   * sbrk meets what the allocator relies on: it returns the old break and moves it by the increment, or fails and
   * leaves it; and all memory of the heap below the break is there.
   */
  method LibrarySbrk(p: Sbrk.Process, increment: int) returns (enough: bool, result: int)
    requires p.Valid() && -Sbrk.HEAP_LIMIT <= increment < Sbrk.HEAP_LIMIT
    modifies p
    ensures enough <==> old(p.Affords(p.PagesAt(Sbrk.After(p.Break(), increment))))
    ensures enough ==> System.Supplied(old(p.Break()), increment, result, p.heapBreak)
    ensures enough ==> (result == System.CMFAIL <==> !(0 <= old(p.Break()) + increment < Sbrk.HEAP_LIMIT))
    ensures enough && p.heapBreak >= p.imageEnd - Sbrk.PAGE ==> p.Valid() && Usable(p)
  {
    var ok, address;
    enough, ok, address := p.Sbrk(increment);
    result := if ok then address else System.CMFAIL;
    if enough && p.heapBreak >= p.imageEnd - Sbrk.PAGE { Backed(p); }
  }
}

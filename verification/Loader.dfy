/** The boot loader's search for memory that no module occupies. */
module Loader {
  const PAGE := 0x1000
  const WORD := 0x1_0000_0000
  const BITMAP_SIZE := 1024 * 1024

  /** Where a boot module was put. */
  datatype Module = Module(start: int, end: int)

  ghost predicate PageAligned(a: int) { a % PAGE == 0 }
  function AlignDown(a: int): int { a - a % PAGE }
  /** Rounding up wraps around at the end of the address space. */
  function AlignUp(a: int): int { if a % PAGE != 0 then (AlignDown(a) + PAGE) % WORD else a }

  /** Whether an address is in the pages of a module, as far as the loader can tell. */
  predicate Within(pos: int, m: Module) { AlignDown(m.start) <= pos < AlignUp(m.end) }
  /** Two stretches of memory have no address in common. */
  ghost predicate Disjoint(a: int, b: int, c: int, d: int) { b <= a || d <= c || b <= c || d <= a }

  /** A stretch of memory shares no page with any module. */
  ghost predicate Clear(modules: seq<Module>, from: int, to: int) {
    forall m | m in modules :: Disjoint(from, to, AlignDown(m.start), AlignDown(m.end + PAGE - 1))
  }

  ghost predicate AddressesOf(m: Module) { 0 <= m.start <= m.end < WORD }

  /** The start and the modules, with two pages to spare, end by `top`. */
  ghost predicate Under(modules: seq<Module>, start: int, top: int) {
    start <= top && forall m | m in modules :: AddressesOf(m) && m.end + 2 * PAGE <= top
  }

  /** Without wrapping, the pages of a module end where its last page ends. */
  lemma RoundedUp(a: int)
    requires 0 <= a <= WORD - PAGE
    ensures AlignUp(a) == AlignDown(a + PAGE - 1) && a <= AlignUp(a) < a + PAGE && PageAligned(AlignUp(a))
    ensures PageAligned(AlignDown(a))
  {}

  /** A module is seen, wherever one looks, exactly if it has nothing in the last page of the address space. */
  lemma LastPageUnseen(m: Module)
    requires AddressesOf(m) && m.start < m.end
    ensures (exists pos :: pos >= 0 && Within(pos, m)) <==> m.end <= WORD - PAGE
  {
    if m.end <= WORD - PAGE {
      RoundedUp(m.end);
      assert Within(AlignDown(m.start), m);
    }
  }

  /** A module that ends in the last page but one is seen, and one that ends a byte later is not. */
  lemma LastByte()
    ensures Within(0xFFFF_E000, Module(0xFFFF_E000, 0xFFFF_F000))
    ensures forall pos | pos >= 0 :: !Within(pos, Module(0xFFFF_E000, 0xFFFF_F001))
  {}

  /** Page `i` of a stretch. */
  function Nth(from: int, i: int): int { from + i * PAGE }
  ghost predicate Outside(modules: seq<Module>, pos: int) { forall m | m in modules :: !Within(pos, m) }

  /** If no page of a stretch starts in a module, the stretch has nothing of a module. */
  lemma StretchClear(modules: seq<Module>, from: int, n: int)
    requires PageAligned(from) && n >= 0 && (forall m | m in modules :: AddressesOf(m) && m.end <= WORD - PAGE)
    requires forall i | 0 <= i < n :: Outside(modules, Nth(from, i))
    ensures Clear(modules, from, from + n * PAGE)
  {
    forall m | m in modules ensures Disjoint(from, from + n * PAGE, AlignDown(m.start), AlignDown(m.end + PAGE - 1)) {
      RoundedUp(m.end);
      RoundedUp(m.start);
      var c := AlignDown(m.start);
      var i := if c < from then 0 else (c - from) / PAGE;
      if 0 <= i < n {
        Whole(from, c);
        assert !Within(Nth(from, i), m);
      }
    }
  }

  lemma Whole(from: int, c: int)
    requires PageAligned(from) && PageAligned(c)
    ensures (c - from) / PAGE * PAGE == c - from
  {}

  /** Whether a module covers a position, and where the first that does ends. */
  method Covering(modules: seq<Module>, pos: int) returns (found: bool, end: int)
    ensures found <==> !Outside(modules, pos)
    ensures found ==> exists m :: m in modules && Within(pos, m) && end == AlignUp(m.end)
  {
    var j := 0;
    while j < |modules|
      invariant 0 <= j <= |modules| && forall k | 0 <= k < j :: !Within(pos, modules[k])
    {
      if Within(pos, modules[j]) { return true, AlignUp(modules[j].end); }
      j := j + 1;
    }
    return false, 0;
  }

  /** A stretch of `count` pages has an address in a module. */
  ghost predicate Hit(modules: seq<Module>, from: int, count: int) {
    exists m, p :: m in modules && Within(p, m) && from <= p < from + count * PAGE
  }

  /** An address is where the pages of a module end. */
  ghost predicate Behind(modules: seq<Module>, a: int) { exists m :: m in modules && a == AlignUp(m.end) }

  /** Where nothing was found: every stretch that starts from `from` up to `to` has an address in a module. */
  ghost predicate Passed(modules: seq<Module>, from: int, to: int, count: int) {
    forall a | from <= a < to && PageAligned(a) :: Hit(modules, a, count)
  }

  lemma HitNotClear(modules: seq<Module>, from: int, count: int)
    requires Hit(modules, from, count) && forall m | m in modules :: AddressesOf(m) && m.end <= WORD - PAGE
    ensures !Clear(modules, from, from + count * PAGE)
  {
    var m, p :| m in modules && Within(p, m) && from <= p < from + count * PAGE;
    RoundedUp(m.end);
    assert !Disjoint(from, from + count * PAGE, AlignDown(m.start), AlignDown(m.end + PAGE - 1));
  }

  /** A module in the way of page `i` is in the way of every stretch up to its end. */
  lemma PassedMore(modules: seq<Module>, from: int, location: int, i: int, count: int, end: int)
    requires Passed(modules, from, location, count) && 0 <= i < count
    requires exists m :: m in modules && Within(Nth(location, i), m) && end == AlignUp(m.end)
    ensures Passed(modules, from, end, count)
  {
    var pos := Nth(location, i);
    var m :| m in modules && Within(pos, m) && end == AlignUp(m.end);
    forall a | from <= a < end && PageAligned(a) ensures Hit(modules, a, count) {
      if a >= location {
        var p := if a <= pos then pos else a;
        assert m in modules && Within(p, m) && a <= p < a + count * PAGE;
      }
    }
  }

  /** Looks at `count` pages from `location` on; a module in the way moves the location, even in mid-scan. */
  method Scan(modules: seq<Module>, from: int, count: int, ghost top: int) returns (free: bool, location: int)
    requires PageAligned(from) && 0 <= from && Under(modules, from, top) && top + count * PAGE <= WORD
    ensures free ==> location == from && forall i | 0 <= i < count :: Outside(modules, Nth(from, i))
    ensures !free ==> from < location && PageAligned(location) && Under(modules, location + PAGE, top) && count > 0
    ensures !free ==> Behind(modules, location) && Passed(modules, from, location, count)
  {
    free, location := true, from;
    var i := 0;
    while i < count
      invariant 0 <= i && (free ==> location == from && forall k | 0 <= k < i :: Outside(modules, Nth(from, k)))
      invariant !free ==> from < location && PageAligned(location) && Under(modules, location + PAGE, top) && count > 0
      invariant Passed(modules, from, location, count) && (!free ==> Behind(modules, location))
    {
      var pos := (location + i * PAGE) % WORD;
      InWord(location, i, count, top);
      var found, end := Covering(modules, pos);
      if found {
        Ahead(modules, location, pos, end, top);
        PassedMore(modules, from, location, i, count, end);
        free, location := false, end;
      }
      i := i + 1;
    }
  }

  lemma InWord(location: int, i: int, count: int, top: int)
    requires 0 <= location <= top && top + count * PAGE <= WORD && 0 <= i < count
    ensures (location + i * PAGE) % WORD == Nth(location, i)
  {}

  lemma Ahead(modules: seq<Module>, location: int, pos: int, end: int, top: int)
    requires 0 <= location <= pos && Under(modules, location, top) && top <= WORD
    requires exists m :: m in modules && Within(pos, m) && end == AlignUp(m.end)
    ensures location < end && PageAligned(end) && Under(modules, end + PAGE, top)
  {
    var m :| m in modules && Within(pos, m) && end == AlignUp(m.end);
    RoundedUp(m.end);
  }

  /**
   * The first fit the search comes to: `count` pages at or above `start` that no module has a part in. The search ends,
   * because its location only moves up, and it does not fail. It stays at `start` or goes to the second page behind a
   * module, and the only free stretches it passes over start right behind one.
   */
  method FindFreeMemory(modules: seq<Module>, start: int, count: int, ghost top: int) returns (location: int)
    requires count >= 0 && PageAligned(start) && 0 <= start < WORD && Under(modules, start, top)
    requires top + count * PAGE <= WORD
    ensures start <= location <= top && PageAligned(location) && Clear(modules, location, location + count * PAGE)
    ensures location == start || Behind(modules, location - PAGE)
    ensures forall a | start <= a < location && PageAligned(a) && Clear(modules, a, a + count * PAGE) ::
              Behind(modules, a)
  {
    hide PageAligned, Clear, Outside, Passed, Behind;
    location := start;
    Below(start);
    while location < 0xFFFF_FFFF
      invariant start <= location <= WORD - PAGE && PageAligned(location) && Under(modules, location, top)
      invariant location == start || Behind(modules, location - PAGE)
      invariant forall a | start <= a < location && PageAligned(a) && Clear(modules, a, a + count * PAGE) ::
                  Behind(modules, a)
      decreases WORD - location
    {
      var free, next := Scan(modules, location, count, top);
      if free {
        StretchClear(modules, location, count);
        return;
      }
      Below(next);
      PassedClear(modules, location, next, count);
      location := (next + PAGE) % WORD;
    }
    assert false;
  }

  /** Of the stretches that start before the second page behind `to`, only the one right behind it can be free. */
  lemma PassedClear(modules: seq<Module>, from: int, to: int, count: int)
    requires Passed(modules, from, to, count) && PageAligned(to)
    requires forall m | m in modules :: AddressesOf(m) && m.end <= WORD - PAGE
    ensures forall a | from <= a < to + PAGE && PageAligned(a) && Clear(modules, a, a + count * PAGE) :: a == to
  {
    hide Hit, Clear;
    forall a | from <= a < to + PAGE && PageAligned(a) && Clear(modules, a, a + count * PAGE) ensures a == to {
      if a < to { HitNotClear(modules, a, count); }
    }
  }

  lemma Below(a: int)
    requires PageAligned(a)
    ensures PageAligned(a + PAGE) && (a < WORD ==> a <= WORD - PAGE)
  {}

  /**
   * Where the loader puts the descriptor table and the bitmap: apart from each other, from itself and from all modules.
   */
  method Initialize(modules: seq<Module>, endAddress: int, ghost top: int)
    returns (loaderEnd: int, gdtStart: int, gdtEnd: int, bitmapStart: int, bitmapEnd: int)
    requires 0 <= endAddress <= WORD - PAGE && Under(modules, endAddress + PAGE, top) && top + PAGE + BITMAP_SIZE < WORD
    ensures endAddress <= loaderEnd <= gdtStart && gdtEnd == gdtStart + PAGE <= bitmapStart
    ensures bitmapEnd == bitmapStart + BITMAP_SIZE < WORD
    ensures PageAligned(gdtStart) && PageAligned(bitmapStart)
    ensures Clear(modules, gdtStart, gdtEnd) && Clear(modules, bitmapStart, bitmapEnd)
    ensures loaderEnd < endAddress + PAGE && PageAligned(loaderEnd)
    ensures gdtStart == loaderEnd || Behind(modules, gdtStart - PAGE)
    ensures bitmapStart == gdtEnd || Behind(modules, bitmapStart - PAGE)
  {
    hide PageAligned, Clear, AlignUp;
    RoundedUp(endAddress);
    BitmapPages();
    loaderEnd := AlignUp(endAddress);
    gdtStart := FindFreeMemory(modules, loaderEnd, 1, top);
    gdtEnd := gdtStart + PAGE;
    Below(gdtStart);
    bitmapStart := FindFreeMemory(modules, gdtEnd, AlignUp(BITMAP_SIZE) / PAGE, top + PAGE);
    BitmapEnd(bitmapStart);
    bitmapEnd := AlignUp((bitmapStart + BITMAP_SIZE) % WORD);
  }

  lemma BitmapPages() ensures AlignUp(BITMAP_SIZE) / PAGE == 256 {}

  lemma BitmapEnd(a: int)
    requires PageAligned(a) && 0 <= a && a + BITMAP_SIZE < WORD
    ensures AlignUp((a + BITMAP_SIZE) % WORD) == a + BITMAP_SIZE
  {}
}

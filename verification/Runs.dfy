/** Whole runs: any sequence of calls, with stores by the callers and other uses of sbrk in between. */
module Runs {
  import opened Words
  import opened Chunks
  import opened Heaps
  import opened Steps
  import opened System
  import opened Resizing
  import opened Aligning
  import opened Bulk
  import opened Malloc
  import opened Effects
  import opened NewMemory

  datatype Call =
    | Allocate(bytes: int)
    | AllocateZeroed(n: int, size: int)
    | AllocateAligned(alignment: int, bytes: int)
    | Resize(slot: nat, bytes: int)
    | Release(slot: nat)
    | AllocateMany(sizes: seq<int>)
    | ReleaseMany(order: seq<nat>)
    | Trim(pad: int)
    | Put(slot: nat, word: nat, value: int)
    | Break(to: int)

  /** Each slot is empty or holds a live block, no two the same. */
  ghost predicate Holds(c: Chunks, slots: seq<int>) {
    && (forall i {:trigger slots[i]} | 0 <= i < |slots| ::
         slots[i] == 0 || (slots[i] - 8 in c && c[slots[i] - 8].kind == Live))
    && (forall i, j | 0 <= i < j < |slots| && slots[i] != 0 :: slots[i] != slots[j])
  }

  /** Blocks other than those of `X` are still held. */
  lemma HoldsOn(mem: Mem, c: Chunks, m: Mem, d: Chunks, slots: seq<int>, X: set<int>)
    requires Holds(c, slots) && Keeps(mem, c, m, d, X)
    requires forall i {:trigger slots[i]} | 0 <= i < |slots| && slots[i] != 0 :: slots[i] - 8 !in X
    ensures Holds(d, slots)
  {
    forall i {:trigger slots[i]} | 0 <= i < |slots| && slots[i] != 0
      ensures slots[i] - 8 in d && d[slots[i] - 8].kind == Live
    {
      assert Stays(mem, c, m, d, slots[i] - 8);
    }
  }

  lemma HoldsNew(mem: Mem, c: Chunks, m: Mem, d: Chunks, slots: seq<int>, r: int)
    requires Holds(c, slots) && Handed(mem, c, m, d, r - 8)
    ensures Holds(d, slots + [r])
  {
    HoldsOn(mem, c, m, d, slots, {r - 8});
    var s := slots + [r];
    forall i {:trigger s[i]} | 0 <= i < |s| ensures s[i] == 0 || (s[i] - 8 in d && d[s[i] - 8].kind == Live) {
      if i < |slots| { assert s[i] == slots[i]; }
    }
    forall i, j | 0 <= i < j < |s| && s[i] != 0 ensures s[i] != s[j] { assert s[i] == slots[i]; }
  }

  lemma HoldsWithout(c: Chunks, slots: seq<int>, k: nat)
    requires Holds(c, slots) && k < |slots|
    ensures Holds(c, slots[k := 0])
    ensures (slots[k] != 0 ==> forall i {:trigger slots[k := 0][i]} | 0 <= i < |slots| :: slots[k := 0][i] != slots[k])
  {}

  lemma HoldsMoved(mem: Mem, c: Chunks, m: Mem, d: Chunks, slots: seq<int>, k: nat, r: int)
    requires Holds(c, slots) && k < |slots| && slots[k] != 0 && Keeps(mem, c, m, d, {slots[k] - 8, r - 8})
    requires r != 0 && r - 8 in d && d[r - 8].kind == Live && (r == slots[k] || !(r - 8 in c && c[r - 8].kind == Live))
    ensures Holds(d, slots[k := r])
  {
    var s := slots[k := 0];
    HoldsWithout(c, slots, k);
    HoldsOn(mem, c, m, d, s, {slots[k] - 8, r - 8});
    var t := slots[k := r];
    forall i {:trigger t[i]} | 0 <= i < |t| ensures t[i] == 0 || (t[i] - 8 in d && d[t[i] - 8].kind == Live) {
      if i != k { assert t[i] == s[i]; }
    }
    forall i, j | 0 <= i < j < |t| && t[i] != 0 ensures t[i] != t[j] {
      if i != k && j != k { assert s[i] == t[i] && s[j] == t[j]; }
      else { assert slots[i] == s[i] || i == k; assert slots[j] == s[j] || j == k; }
    }
  }

  // ---- what callers see

  /** A block as its holder sees it: the bytes and the alignment asked for, and the words known to be in it. */
  datatype Block = Gone | Held(bytes: int, align: int, words: map<nat, int>)

  /** Every block is aligned to this. */
  const EVERY := 8

  /** Zero in every whole word of the block. */
  function Zeroed(bytes: int): (words: map<nat, int>)
    ensures forall k: nat :: (k in words <==> 4 * k + 4 <= bytes) && (k in words ==> words[k] == 0)
    decreases bytes
  {
    if bytes < 4 then map[] else Zeroed(bytes - 4)[bytes / 4 - 1 := 0]
  }

  function Within(words: map<nat, int>, bytes: int): map<nat, int> {
    map k | k in words && 4 * k + 4 <= bytes :: words[k]
  }

  /** What a call does to the blocks, each a store of its own, when it succeeds. */
  ghost function Effect(view: seq<Block>, call: Call, ok: bool): seq<Block> {
    if !ok then view
    else
      match call
      case Allocate(bytes) => view + [Held(bytes, EVERY, map[])]
      case AllocateZeroed(n, size) => view + [Held(n * size, EVERY, Zeroed(n * size))]
      case AllocateAligned(alignment, bytes) => view + [Held(bytes, LeastPower(alignment), map[])]
      case Resize(k, bytes) =>
        if k < |view| && view[k].Held? then view[k := Held(bytes, EVERY, Within(view[k].words, bytes))] else view
      case Release(k) => if k < |view| then view[k := Gone] else view
      case Put(k, word, value) =>
        if k < |view| && view[k].Held? then view[k := view[k].(words := view[k].words[word := value])] else view
      case AllocateMany(sizes) => view + Blocks(sizes)
      case ReleaseMany(order) => Without(view, order)
      case Trim(_) => view
      case Break(_) => view
  }

  function Blocks(sizes: seq<int>): (bs: seq<Block>)
    ensures |bs| == |sizes|
  {
    seq(|sizes|, j requires 0 <= j < |sizes| => Held(sizes[j], EVERY, map[]))
  }

  function Without(view: seq<Block>, order: seq<nat>): (now: seq<Block>)
    ensures |now| == |view|
  {
    seq(|view|, i requires 0 <= i < |view| => if i in order then Gone else view[i])
  }

  function Emptied(slots: seq<int>, order: seq<nat>): (now: seq<int>)
    ensures |now| == |slots|
  {
    seq(|slots|, i requires 0 <= i < |slots| => if i in order then 0 else slots[i])
  }

  /** Slots there are, each named once. */
  predicate Proper(order: seq<nat>, n: nat) {
    (forall j | 0 <= j < |order| :: order[j] < n) && forall j, k | 0 <= j < k < |order| :: order[j] != order[k]
  }

  /** The heap between two calls, and the addresses its callers hold. */
  datatype Moment = Moment(mem: Mem, smallmap: bv32, treemap: bv32, h: Bins.Homes, c: Chunks, segs: seq<Segment>,
                           dv: int, dvsize: int, top: int, topsize: int, leastAddr: int, footprint: int,
                           maxFootprint: int, limit: int, brk: int, refusals: seq<int>, slots: seq<int>)

  ghost function Now(s: MallocState, slots: seq<int>): Moment
    reads s
  {
    Moment(s.mem, s.smallmap, s.treemap, s.h, s.c, s.segs, s.dv, s.dvsize, s.top, s.topsize, s.leastAddr, s.footprint,
        s.maxFootprint, s.footprintLimit, s.brk, s.refusals, slots)
  }

  /** The invariant of the allocator. */
  ghost predicate Ordered(m: Moment) {
    && Core(m.mem, m.smallmap, m.treemap, m.h, m.c, m.segs) && Owned(m.c, m.dv, m.dvsize, m.top, m.topsize, {})
    && Accounts(m.segs, m.leastAddr, m.footprint, m.maxFootprint) && BrkOk(m.brk)
  }

  lemma OrderedNow(s: MallocState, slots: seq<int>)
    requires s.Valid()
    ensures Ordered(Now(s, slots))
  {
    hide Core, Owned, Accounts, Least;
  }

  /** No free chunk was large enough for so many bytes, and no memory was got. */
  ghost predicate Lacking(was: Moment, bytes: int, refusals: seq<int>) {
    Exhausted(was.c, RequestToSize(bytes), was.dvsize, was.topsize, was.footprint, was.limit, was.refusals, refusals)
  }

  /** The only reasons for which a call may fail. */
  ghost predicate Excused(call: Call, view: seq<Block>, was: Moment, refusals: seq<int>) {
    match call
    case Allocate(bytes) => !(0 <= bytes < MAX_REQUEST) || Lacking(was, bytes, refusals)
    case AllocateZeroed(n, size) =>
      !(0 <= n < WORD && 0 <= size < WORD) || n * size >= MAX_REQUEST || Lacking(was, n * size, refusals)
    case AllocateAligned(alignment, bytes) =>
      || !(0 <= alignment <= MAX_ALIGNMENT && 0 <= bytes < MAX_REQUEST - LeastPower(alignment))
      || var all := RequestToSize(bytes) + LeastPower(alignment) + MIN_CHUNK_SIZE - 4;
         all >= MAX_REQUEST || Lacking(was, all, refusals)
    case Resize(k, bytes) => !(0 <= bytes < MAX_REQUEST) || !HeldAt(view, k) || Lacking(was, bytes, refusals)
    case AllocateMany(sizes) =>
      || !(forall i | 0 <= i < |sizes| :: 0 <= sizes[i] < WORD)
      || var all := TrueSize(|sizes|, sizes, false, true);
         all >= WORD || all - 4 >= MAX_REQUEST || Lacking(was, all - 4, refusals)
    case Release(k) => !HeldAt(view, k)
    case Put(k, word, _) => !HeldAt(view, k) || 4 * word + 4 > view[k].bytes
    case ReleaseMany(order) => !Proper(order, |view|)
    case Trim(pad) => !(0 <= pad < WORD)
    case Break(to) => !(HEAP_MIN <= to < HEAP_MAX)
  }

  /** Memory comes from the system only if no free chunk is large enough, and then not much more than is needed. */
  ghost predicate Asking(was: Moment, now: Moment, bytes: int) {
    || now.footprint == was.footprint
    || (NoneLeft(was.c, RequestToSize(bytes), was.dvsize, was.topsize)
        && was.footprint < now.footprint < was.footprint + bytes + 0x2040)
  }

  /** Memory goes back to the system, but not while there is no more than two megabytes of it. */
  ghost predicate Returning(was: Moment, now: Moment) {
    && now.footprint <= was.footprint
    && (was.footprint <= 0x20_0000 ==>
          now.footprint == was.footprint && now.brk == was.brk && now.refusals == was.refusals)
  }

  lemma AskingNow(was: Moment, now: Moment, v: View, d: Dealings, e: Dealings, bytes: int)
    requires Dealt(v, d, e, was.limit, RequestToSize(bytes)) && 0 <= bytes < WORD
    requires v.c == was.c && v.dvsize == was.dvsize && v.topsize == was.topsize
    requires d.footprint == was.footprint && e.footprint == now.footprint
    ensures Asking(was, now, bytes)
  {
    RequestFacts(bytes);
    hide NoneLeft, RequestToSize, OnPage, Mult8, Pages;
  }

  /** After a move the old block is given back as well. */
  lemma MovingAsks(was: Moment, now: Moment, v: View, w: View, d: Dealings, e: Dealings, bytes: int, p: int, q: int)
    requires Moving(v, w, d, e, was.limit, RequestToSize(bytes), p, q) && 0 <= bytes < WORD
    requires v.c == was.c && v.dvsize == was.dvsize && v.topsize == was.topsize
    requires d.footprint == was.footprint && e.footprint == now.footprint
    ensures now.footprint <= was.footprint || Asking(was, now, bytes)
  {
    hide Met, GaveBack, Dealt, RequestToSize;
    var u, f :| Met(v, u, d, f, was.limit, RequestToSize(bytes), p)
             && Dealt(v, d, f, was.limit, RequestToSize(bytes)) && GaveBack(u, w, f, e, q);
    AskingNow(was, now.(footprint := f.footprint), v, d, f, bytes);
    GaveLess(u, w, f, e, q);
  }

  lemma GaveLess(v: View, w: View, d: Dealings, e: Dealings, p: int)
    requires GaveBack(v, w, d, e, p)
    ensures e.footprint <= d.footprint
  {
    hide Coalescing, TakenBack, OnPage, TopWith;
  }

  /** What a call may do to the footprint. */
  ghost predicate Frugal(call: Call, was: Moment, now: Moment) {
    match call
    case Allocate(bytes) => Asking(was, now, bytes)
    case AllocateZeroed(n, size) => Asking(was, now, n * size)
    case AllocateAligned(alignment, bytes) =>
      alignment > MAX_ALIGNMENT || Asking(was, now, RequestToSize(bytes) + LeastPower(alignment) + MIN_CHUNK_SIZE - 4)
    case AllocateMany(sizes) =>
      || !(forall i | 0 <= i < |sizes| :: 0 <= sizes[i] < WORD)
      || Asking(was, now, TrueSize(|sizes|, sizes, false, true) - 4)
    case Resize(_, bytes) => now.footprint <= was.footprint || Asking(was, now, bytes)
    case Release(_) => Returning(was, now)
    case ReleaseMany(_) => Returning(was, now)
    case Trim(_) => now.footprint <= was.footprint
    case Put(_, _, _) => now.footprint == was.footprint && now.brk == was.brk && now.refusals == was.refusals
    case Break(_) => now.footprint == was.footprint && now.refusals == was.refusals
  }

  predicate HeldAt(view: seq<Block>, k: nat) { k < |view| && view[k].Held? }

  ghost function After(calls: seq<Call>, oks: seq<bool>): seq<Block>
    requires |oks| == |calls|
  {
    if calls == [] then []
    else
      var n := |calls| - 1;
      Effect(After(calls[..n], oks[..n]), calls[n], oks[n])
  }

  lemma AfterNext(calls: seq<Call>, oks: seq<bool>, call: Call, ok: bool)
    requires |oks| == |calls|
    ensures After(calls + [call], oks + [ok]) == Effect(After(calls, oks), call, ok)
  {
    assert (calls + [call])[..|calls|] == calls && (oks + [ok])[..|calls|] == oks;
  }

  /** The block at `r` is as large as asked for, aligned, and holds the words it should. */
  ghost predicate Shown(mem: Mem, c: Chunks, r: int, b: Block) {
    match b
    case Gone => r == 0
    case Held(bytes, align, words) =>
      && r != 0 && r - 8 in c && c[r - 8].kind == Live && Mult8(r) && Aligned(r, align) && bytes + 4 <= c[r - 8].size
      && forall k {:trigger words[k]} | k in words :: 4 * k + 8 <= c[r - 8].size && Word(mem, r, 4 * k) == words[k]
  }

  ghost predicate Shows(mem: Mem, c: Chunks, slots: seq<int>, view: seq<Block>) {
    |slots| == |view| && forall i | 0 <= i < |view| :: Shown(mem, c, slots[i], view[i])
  }

  lemma ShownOn(mem: Mem, c: Chunks, m: Mem, d: Chunks, r: int, b: Block, X: set<int>)
    requires Shown(mem, c, r, b) && Keeps(mem, c, m, d, X) && r - 8 !in X
    ensures Shown(m, d, r, b)
  {
    hide Mult8, Aligned;
    if b.Held? {
      assert Stays(mem, c, m, d, r - 8);
      forall k | k in b.words ensures Word(m, r, 4 * k) == b.words[k] {
        assert Word(mem, r, 4 * k) == b.words[k] && Rd(m, r + 4 * k) == Rd(mem, r + 4 * k);
      }
    }
  }

  lemma ShowsOn(mem: Mem, c: Chunks, m: Mem, d: Chunks, slots: seq<int>, view: seq<Block>, k: nat, r: int, b: Block,
                X: set<int>)
    requires Shows(mem, c, slots, view) && Holds(c, slots) && k < |slots| && Keeps(mem, c, m, d, X)
    requires forall x | x in X :: x == slots[k] - 8 || !(x in c && c[x].kind == Live)
    requires slots[k] != 0 && Shown(m, d, r, b)
    ensures Shows(m, d, slots[k := r], view[k := b])
  {
    hide Shown, Keeps;
    var s, v := slots[k := r], view[k := b];
    forall i | 0 <= i < |view| ensures Shown(m, d, s[i], v[i]) {
      if i != k {
        assert slots[i] != 0 ==> slots[i] != slots[k] && c[slots[i] - 8].kind == Live;
        if slots[i] == 0 {
          ShownNone(mem, c, m, d, view[i]);
        } else {
          ShownOn(mem, c, m, d, slots[i], view[i], X);
        }
      }
    }
  }

  lemma ShownNone(mem: Mem, c: Chunks, m: Mem, d: Chunks, b: Block)
    requires Shown(mem, c, 0, b)
    ensures Shown(m, d, 0, b)
  {}

  lemma ShowsNew(mem: Mem, c: Chunks, m: Mem, d: Chunks, slots: seq<int>, view: seq<Block>, r: int, b: Block)
    requires Shows(mem, c, slots, view) && Holds(c, slots) && Handed(mem, c, m, d, r - 8) && Shown(m, d, r, b)
    ensures Shows(m, d, slots + [r], view + [b])
  {
    hide Shown, Keeps;
    forall i | 0 <= i < |view| ensures Shown(m, d, slots[i], view[i]) {
      if slots[i] == 0 {
        ShownNone(mem, c, m, d, view[i]);
      } else {
        assert c[slots[i] - 8].kind == Live;
        ShownOn(mem, c, m, d, slots[i], view[i], {r - 8});
      }
    }
  }

  lemma ShownFresh(mem: Mem, c: Chunks, r: int, bytes: int)
    requires r != 0 && r - 8 in c && c[r - 8].kind == Live && Mult8(r) && 0 <= bytes < WORD
    requires c[r - 8].size >= RequestToSize(bytes)
    ensures Shown(mem, c, r, Held(bytes, EVERY, map[]))
    ensures forall align | Aligned(r, align) :: Shown(mem, c, r, Held(bytes, align, map[]))
  {
    RequestFacts(bytes);
    assert Aligned(r, EVERY);
    hide RequestToSize, Mult8, Aligned;
  }

  lemma ShownZero(mem: Mem, c: Chunks, r: int, bytes: int)
    requires Shown(mem, c, r, Held(bytes, EVERY, map[])) && Mult8(c[r - 8].size)
    requires ZeroContents(mem, r, bytes)
    ensures Shown(mem, c, r, Held(bytes, EVERY, Zeroed(bytes)))
  {
    var words := Zeroed(bytes);
    forall k | k in words ensures 4 * k + 8 <= c[r - 8].size && Word(mem, r, 4 * k) == words[k] {
      Fits(k, bytes, c[r - 8].size);
      assert SameBytes(Word(mem, r, 4 * k), 0, bytes - 4 * k);
    }
  }

  /** A word of the block is wholly in its chunk. */
  lemma Fits(k: nat, bytes: int, size: int)
    requires 4 * k + 4 <= bytes && bytes + 4 <= size && Mult8(size)
    ensures 4 * k + 8 <= size && 4 * k % 4 == 0
  {}

  lemma ShownResized(mem: Mem, c: Chunks, m: Mem, d: Chunks, oldr: int, r: int, b: Block, bytes: int)
    requires Shown(mem, c, oldr, b) && b.Held? && Shown(m, d, r, Held(bytes, EVERY, map[]))
    requires Mult8(d[r - 8].size)
    requires SameContents(mem, oldr, m, r, Min(c[oldr - 8].size - 4, bytes))
    ensures Shown(m, d, r, Held(bytes, EVERY, Within(b.words, bytes)))
  {
    hide Mult8, Aligned;
    var words := Within(b.words, bytes);
    forall k | k in words ensures 4 * k + 8 <= d[r - 8].size && Word(m, r, 4 * k) == words[k] {
      Fits(k, bytes, d[r - 8].size);
      assert Word(mem, oldr, 4 * k) == b.words[k];
      assert SameBytes(Word(m, r, 4 * k), Word(mem, oldr, 4 * k), Min(c[oldr - 8].size - 4, bytes) - 4 * k);
    }
  }

  lemma ShownPut(mem: Mem, c: Chunks, r: int, b: Block, word: nat, value: int)
    requires Shown(mem, c, r, b) && b.Held? && 4 * word + 8 <= c[r - 8].size
    ensures Shown(Wr(mem, r + 4 * word, value), c, r, b.(words := b.words[word := value]))
  {
    hide Mult8, Aligned;
    var m, words := Wr(mem, r + 4 * word, value), b.words[word := value];
    forall k | k in words ensures 4 * k + 8 <= c[r - 8].size && Word(m, r, 4 * k) == words[k] {
      if k != word { assert Word(mem, r, 4 * k) == b.words[k]; }
    }
  }

  // ---- runs

  /**
   * The heap is in order, and every block not released is live, at an address of its own, and as its holder left it.
   */
  ghost predicate Fine(mem: Mem, c: Chunks, slots: seq<int>, view: seq<Block>) {
    Holds(c, slots) && Shows(mem, c, slots, view)
  }

  /** Before call number `n` the heap is in order and the blocks are what the calls before made of them. */
  ghost predicate Stood(calls: seq<Call>, oks: seq<bool>, trace: seq<Moment>, n: nat)
    requires n <= |calls| && n <= |oks| && n < |trace|
  {
    Ordered(trace[n]) && Fine(trace[n].mem, trace[n].c, trace[n].slots, After(calls[..n], oks[..n]))
  }

  /** Call number `n` succeeded, or had a reason not to, and took from the system no more than it may. */
  ghost predicate Went(calls: seq<Call>, oks: seq<bool>, trace: seq<Moment>, n: nat)
    requires n < |calls| && n < |oks| && n + 1 < |trace|
  {
    && (oks[n] || Excused(calls[n], After(calls[..n], oks[..n]), trace[n], trace[n + 1].refusals))
    && Frugal(calls[n], trace[n], trace[n + 1])
  }

  /**
   * Any run of calls: the heap behaves as if every block were a store of its own, and no call fails without reason.
   * `oks` says which calls succeeded, `trace` what the heap was before each and is after the last.
   */
  method Run(state: MallocState, calls: seq<Call>)
    returns (slots: seq<int>, ghost oks: seq<bool>, ghost trace: seq<Moment>)
    requires state.Valid()
    modifies state
    ensures |oks| == |calls| && |trace| == |calls| + 1
    ensures trace[0] == old(Now(state, [])) && trace[|calls|] == Now(state, slots)
    ensures forall n | 0 <= n <= |calls| :: Stood(calls, oks, trace, n)
    ensures forall n | 0 <= n < |calls| :: Went(calls, oks, trace, n)
  {
    hide Core, Owned, Accounts, Fine, After, Excused, Effect, Ordered, Now, Stood, Went, Frugal;
    slots, oks, trace := [], [], [Now(state, [])];
    StoodFirst(state, calls);
    var n := 0;
    while n < |calls|
      invariant 0 <= n <= |calls| && state.Valid() && |oks| == n && |trace| == n + 1
      invariant trace[0] == old(Now(state, [])) && trace[n] == Now(state, slots)
      invariant forall k | 0 <= k <= n :: Stood(calls, oks, trace, k)
      invariant forall k | 0 <= k < n :: Went(calls, oks, trace, k)
    {
      ghost var view, ok := After(calls[..n], oks), false;
      StoodFine(state, slots, calls, oks, trace, n);
      slots, ok := Step(state, calls[n], slots, view);
      Stepped(state, slots, calls, oks, trace, n, ok);
      oks, trace := oks + [ok], trace + [Now(state, slots)];
      n := n + 1;
    }
  }

  lemma StoodFirst(s: MallocState, calls: seq<Call>)
    requires s.Valid()
    ensures Stood(calls, [], [Now(s, [])], 0)
  {
    hide Core, Owned, Accounts;
    OrderedNow(s, []);
    assert calls[..0] == [];
    hide Ordered;
  }

  lemma StoodFine(s: MallocState, slots: seq<int>, calls: seq<Call>, oks: seq<bool>, trace: seq<Moment>, n: nat)
    requires n < |calls| && |oks| == n && |trace| == n + 1 && trace[n] == Now(s, slots) && Stood(calls, oks, trace, n)
    ensures Fine(s.mem, s.c, slots, After(calls[..n], oks))
  {
    hide Ordered, Fine, After;
    assert oks[..n] == oks;
  }

  /** One call more. */
  lemma Stepped(s: MallocState, slots: seq<int>, calls: seq<Call>, oks: seq<bool>, trace: seq<Moment>, n: nat, ok: bool)
    requires s.Valid() && n < |calls| && |oks| == n && |trace| == n + 1
    requires forall k | 0 <= k <= n :: Stood(calls, oks, trace, k)
    requires forall k | 0 <= k < n :: Went(calls, oks, trace, k)
    requires Fine(s.mem, s.c, slots, Effect(After(calls[..n], oks), calls[n], ok))
    requires ok || Excused(calls[n], After(calls[..n], oks), trace[n], s.refusals)
    requires Frugal(calls[n], trace[n], Now(s, slots))
    ensures var oks', trace' := oks + [ok], trace + [Now(s, slots)];
            && (forall k | 0 <= k <= n + 1 :: Stood(calls, oks', trace', k))
            && (forall k | 0 <= k < n + 1 :: Went(calls, oks', trace', k))
  {
    hide Core, Owned, Accounts, Fine, After, Excused, Effect, Ordered, Frugal;
    var oks', trace' := oks + [ok], trace + [Now(s, slots)];
    OrderedNow(s, slots);
    AfterNext(calls[..n], oks, calls[n], ok);
    assert calls[..n + 1] == calls[..n] + [calls[n]] && oks'[..n + 1] == oks' && oks'[..n] == oks;
    forall k | 0 <= k <= n + 1 ensures Stood(calls, oks', trace', k) {
      if k <= n { assert oks'[..k] == oks[..k] && Stood(calls, oks, trace, k); }
    }
    forall k | 0 <= k < n + 1 ensures Went(calls, oks', trace', k) {
      if k < n { assert oks'[..k] == oks[..k] && Went(calls, oks, trace, k); }
    }
  }

  method Step(state: MallocState, call: Call, slots0: seq<int>, ghost view: seq<Block>)
    returns (slots: seq<int>, ghost ok: bool)
    requires state.Valid() && Fine(state.mem, state.c, slots0, view)
    modifies state
    ensures state.Valid() && Fine(state.mem, state.c, slots, Effect(view, call, ok))
    ensures ok || Excused(call, view, old(Now(state, slots0)), state.refusals)
    ensures Frugal(call, old(Now(state, slots0)), Now(state, slots))
  {
    hide Core, Owned, Accounts, Fine, Mult8, Effect, Lacking, RequestToSize, LeastPower, NoneLeft;
    slots, ok := slots0, false;
    EffectNone(view, call);
    match call
    case Allocate(bytes) =>
      if 0 <= bytes < WORD { slots, ok := New(state, call, bytes, slots, view); }
    case AllocateZeroed(n, size) =>
      if 0 <= n < WORD && 0 <= size < WORD { slots, ok := NewZeroed(state, n, size, slots, view); }
    case AllocateAligned(alignment, bytes) =>
      if 0 <= alignment <= MAX_ALIGNMENT && 0 <= bytes < WORD {
        slots, ok := NewAligned(state, alignment, bytes, slots, view);
      }
    case Resize(k, bytes) =>
      FineAt(state.mem, state.c, slots, view, k);
      if 0 <= bytes < WORD && k < |slots| && slots[k] != 0 { slots, ok := ResizeSlot(state, k, bytes, slots, view); }
    case Release(k) =>
      FineAt(state.mem, state.c, slots, view, k);
      if k < |slots| && slots[k] != 0 { slots, ok := ReleaseSlot(state, k, slots, view); }
    case Put(k, word, value) =>
      FineAt(state.mem, state.c, slots, view, k);
      if k < |slots| && slots[k] != 0 { ok := PutInSlot(state, k, word, value, slots, view); }
    case AllocateMany(sizes) =>
      if (forall i | 0 <= i < |sizes| :: 0 <= sizes[i] < WORD) && TrueSize(|sizes|, sizes, false, true) < WORD {
        slots, ok := NewMany(state, sizes, slots, view);
      }
    case ReleaseMany(order) =>
      FineAt(state.mem, state.c, slots, view, 0);
      if Proper(order, |slots|) { slots, ok := ReleaseSlots(state, order, slots, view); }
    case Trim(pad) =>
      if 0 <= pad < WORD { ok := TrimTop(state, pad, slots, view); }
    case Break(to) =>
      if HEAP_MIN <= to < HEAP_MAX {
        state.MoveBreak(to);
        BreakEffect(view, to);
        ok := true;
      }
  }

  lemma BreakEffect(view: seq<Block>, to: int) ensures Effect(view, Break(to), true) == view {}

  lemma EffectNone(view: seq<Block>, call: Call) ensures Effect(view, call, false) == view {}

  /** What is known of a slot. */
  lemma FineAt(mem: Mem, c: Chunks, slots: seq<int>, view: seq<Block>, k: nat)
    requires Fine(mem, c, slots, view)
    ensures |slots| == |view|
    ensures k < |view| ==> Shown(mem, c, slots[k], view[k]) && (slots[k] == 0 <==> view[k].Gone?)
  {
    hide Mult8;
  }

  lemma FineNew(mem: Mem, c: Chunks, m: Mem, d: Chunks, slots: seq<int>, view: seq<Block>, r: int, b: Block)
    requires Fine(mem, c, slots, view) && Handed(mem, c, m, d, r - 8) && Shown(m, d, r, b)
    ensures Fine(m, d, slots + [r], view + [b])
  {
    hide Holds, Shows, Shown, Handed;
    HoldsNew(mem, c, m, d, slots, r);
    ShowsNew(mem, c, m, d, slots, view, r, b);
  }

  lemma FineMoved(mem: Mem, c: Chunks, m: Mem, d: Chunks, slots: seq<int>, view: seq<Block>, k: nat, r: int, b: Block)
    requires Fine(mem, c, slots, view) && k < |slots| && slots[k] != 0 && Keeps(mem, c, m, d, {slots[k] - 8, r - 8})
    requires b.Held? && Shown(m, d, r, b) && (r == slots[k] || !(r - 8 in c && c[r - 8].kind == Live))
    ensures Fine(m, d, slots[k := r], view[k := b])
  {
    hide Holds, Shows, Keeps, Mult8;
    HoldsMoved(mem, c, m, d, slots, k, r);
    ShowsOn(mem, c, m, d, slots, view, k, r, b, {slots[k] - 8, r - 8});
  }

  lemma FineFreed(mem: Mem, c: Chunks, m: Mem, d: Chunks, slots: seq<int>, view: seq<Block>, k: nat)
    requires Fine(mem, c, slots, view) && k < |slots| && slots[k] != 0 && Freed(mem, c, m, d, slots[k] - 8)
    ensures Fine(m, d, slots[k := 0], view[k := Gone])
  {
    hide Holds, Shows, Keeps;
    HoldsFreed(mem, c, m, d, slots, k);
    ShowsOn(mem, c, m, d, slots, view, k, 0, Gone, {slots[k] - 8});
  }

  method New(state: MallocState, ghost call: Call, bytes: int, slots0: seq<int>, ghost view: seq<Block>)
    returns (slots: seq<int>, ghost ok: bool)
    requires state.Valid() && Fine(state.mem, state.c, slots0, view) && 0 <= bytes < WORD && call == Allocate(bytes)
    modifies state
    ensures state.Valid() && Fine(state.mem, state.c, slots, Effect(view, call, ok))
    ensures ok || Excused(call, view, old(Now(state, slots0)), state.refusals)
    ensures Asking(old(Now(state, slots0)), Now(state, slots), bytes)
  {
    hide Core, Owned, Accounts, Fine, Mult8, Shown, Keeps, RequestToSize, PrevUsed, Exhausted, Served, Met, Dealt;
    hide NoneLeft;
    ghost var m, c := state.mem, state.c;
    var r := state.Malloc(bytes);
    ok := r != 0;
    slots := slots0;
    if r != 0 {
      ShownFresh(state.mem, state.c, r, bytes);
      FineNew(m, c, state.mem, state.c, slots, view, r, Held(bytes, EVERY, map[]));
      slots := slots + [r];
      AskingNow(old(Now(state, slots0)), Now(state, slots), old(state.Now()), old(state.Deals()), state.Deals(), bytes);
    }
  }

  method NewZeroed(state: MallocState, n: int, size: int, slots0: seq<int>, ghost view: seq<Block>)
    returns (slots: seq<int>, ghost ok: bool)
    requires state.Valid() && Fine(state.mem, state.c, slots0, view) && 0 <= n < WORD && 0 <= size < WORD
    modifies state
    ensures state.Valid() && Fine(state.mem, state.c, slots, Effect(view, AllocateZeroed(n, size), ok))
    ensures ok || Excused(AllocateZeroed(n, size), view, old(Now(state, slots0)), state.refusals)
    ensures Asking(old(Now(state, slots0)), Now(state, slots), n * size)
  {
    hide Core, Owned, Accounts, Fine, Mult8, Shown, Keeps, RequestToSize, PrevUsed, Zeroed, Exhausted, Met, Dealt;
    hide Served, NoneLeft;
    ghost var m, c := state.mem, state.c;
    var r := state.Calloc(n, size);
    ok := r != 0;
    slots := slots0;
    if r != 0 {
      ghost var bytes := n * size;
      ChunkMult(state.mem, state.smallmap, state.treemap, state.h, state.segs, state.c, r - 8);
      ShownFresh(state.mem, state.c, r, bytes);
      ShownZero(state.mem, state.c, r, bytes);
      FineNew(m, c, state.mem, state.c, slots, view, r, Held(bytes, EVERY, Zeroed(bytes)));
      slots := slots + [r];
      AskingNow(old(Now(state, slots0)), Now(state, slots), old(state.Now()), old(state.Deals()), state.Deals(), bytes);
    }
  }

  method NewAligned(state: MallocState, alignment: int, bytes: int, slots0: seq<int>, ghost view: seq<Block>)
    returns (slots: seq<int>, ghost ok: bool)
    requires state.Valid() && Fine(state.mem, state.c, slots0, view) && 0 <= alignment <= MAX_ALIGNMENT
    requires 0 <= bytes < WORD
    modifies state
    ensures state.Valid() && Fine(state.mem, state.c, slots, Effect(view, AllocateAligned(alignment, bytes), ok))
    ensures ok || Excused(AllocateAligned(alignment, bytes), view, old(Now(state, slots0)), state.refusals)
    ensures Asking(old(Now(state, slots0)), Now(state, slots),
                RequestToSize(bytes) + LeastPower(alignment) + MIN_CHUNK_SIZE - 4)
  {
    hide Core, Owned, Accounts, Fine, Mult8, Shown, Keeps, RequestToSize, PrevUsed, PowerOfTwo, Aligned, Exhausted;
    hide Served, Dealt, NoneLeft, LeastPower;
    ghost var m, c := state.mem, state.c;
    ghost var a, r0;
    var r;
    r, a, r0 := state.Memalign(alignment, bytes);
    ok := r != 0;
    slots := slots0;
    if r != 0 {
      ChunkMult(state.mem, state.smallmap, state.treemap, state.h, state.segs, state.c, r - 8);
      PayloadMult(r);
      ShownFresh(state.mem, state.c, r, bytes);
      FineNew(m, c, state.mem, state.c, slots, view, r, Held(bytes, a, map[]));
      slots := slots + [r];
      RequestFacts(bytes);
      AskingNow(old(Now(state, slots0)), Now(state, slots), old(state.Now()), old(state.Deals()), state.Deals(),
          RequestToSize(bytes) + a + MIN_CHUNK_SIZE - 4);
    }
  }

  lemma PayloadMult(r: int) ensures Mult8(r - 8) ==> Mult8(r) {}

  method ResizeSlot(state: MallocState, k: nat, bytes: int, slots0: seq<int>, ghost view: seq<Block>)
    returns (slots: seq<int>, ghost ok: bool)
    requires state.Valid() && Fine(state.mem, state.c, slots0, view) && 0 <= bytes < WORD && k < |slots0|
    requires slots0[k] != 0
    modifies state
    ensures state.Valid() && Fine(state.mem, state.c, slots, Effect(view, Resize(k, bytes), ok))
    ensures ok || Excused(Resize(k, bytes), view, old(Now(state, slots0)), state.refusals)
    ensures state.footprint <= old(state.footprint) || Asking(old(Now(state, slots0)), Now(state, slots), bytes)
  {
    hide Core, Owned, Accounts, Fine, Mult8, Shown, Keeps, RequestToSize, PrevUsed, SameContents, Within, Exhausted;
    hide Stuck, Met, Dealt, Moving, Fitted, Served, NoneLeft;
    ghost var m, c := state.mem, state.c;
    FineAt(m, c, slots0, view, k);
    ShownLive(m, c, slots0[k], view[k]);
    var r := state.Realloc(slots0[k], bytes);
    ok := r != 0;
    slots := slots0;
    if r != 0 {
      ChunkMult(state.mem, state.smallmap, state.treemap, state.h, state.segs, state.c, r - 8);
      ShownFresh(state.mem, state.c, r, bytes);
      ShownResized(m, c, state.mem, state.c, slots[k], r, view[k], bytes);
      FineMoved(m, c, state.mem, state.c, slots, view, k, r, Held(bytes, EVERY, Within(view[k].words, bytes)));
      slots := slots[k := r];
      if r != slots0[k] {
        MovingAsks(old(Now(state, slots0)), Now(state, slots), old(state.Now()), state.Now(), old(state.Deals()),
            state.Deals(), bytes, r - 8, slots0[k] - 8);
      }
    }
  }

  lemma ShownLive(mem: Mem, c: Chunks, r: int, b: Block)
    requires Shown(mem, c, r, b) && b.Held?
    ensures r != 0 && r - 8 in c && c[r - 8].kind == Live && b.bytes + 4 <= c[r - 8].size
  {
    hide Mult8;
  }

  method ReleaseSlot(state: MallocState, k: nat, slots0: seq<int>, ghost view: seq<Block>)
    returns (slots: seq<int>, ghost ok: bool)
    requires state.Valid() && Fine(state.mem, state.c, slots0, view) && k < |slots0| && slots0[k] != 0
    modifies state
    ensures ok && state.Valid() && Fine(state.mem, state.c, slots, Effect(view, Release(k), ok))
    ensures Returning(old(Now(state, slots0)), Now(state, slots))
  {
    hide Core, Owned, Accounts, Fine, Shown, Keeps, GaveBack;
    ghost var m, c := state.mem, state.c;
    FineAt(m, c, slots0, view, k);
    ShownLive(m, c, slots0[k], view[k]);
    ghost var trimmed := state.Free(slots0[k]);
    FineFreed(m, c, state.mem, state.c, slots0, view, k);
    slots, ok := slots0[k := 0], true;
  }

  /** A store within the block's own words, if it has that many. */
  method PutInSlot(state: MallocState, k: nat, word: nat, value: int, slots: seq<int>, ghost view: seq<Block>)
    returns (ghost ok: bool)
    requires state.Valid() && Fine(state.mem, state.c, slots, view) && k < |slots| && slots[k] != 0 && HeldAt(view, k)
    modifies state
    ensures state.Valid() && Fine(state.mem, state.c, slots, Effect(view, Put(k, word, value), ok))
    ensures state.Deals() == old(state.Deals())
    ensures ok || 4 * word + 4 > view[k].bytes
  {
    hide Core, Owned, Accounts, Fine, Shown, Keeps, Rd, ChunkSize, Wr;
    ghost var m, c := state.mem, state.c;
    var r := slots[k];
    FineAt(m, c, slots, view, k);
    ShownLive(m, c, r, view[k]);
    LiveWords(m, state.smallmap, state.treemap, state.h, c, state.segs, r - 8);
    ok := 4 * word + 8 <= c[r - 8].size;
    if 4 * word + 8 <= ChunkSize(Rd(state.mem, r - 8 + 4)) {
      state.Store(r, word, value);
      ShownPut(m, c, r, view[k], word, value);
      assert {r - 8, r - 8} == {r - 8};
      FineMoved(m, c, state.mem, state.c, slots, view, k, r, view[k].(words := view[k].words[word := value]));
      assert slots[k := r] == slots;
    }
  }

  method TrimTop(state: MallocState, pad: int, slots: seq<int>, ghost view: seq<Block>) returns (ghost ok: bool)
    requires state.Valid() && Fine(state.mem, state.c, slots, view) && 0 <= pad < WORD
    modifies state
    ensures ok && state.Valid() && Fine(state.mem, state.c, slots, Effect(view, Trim(pad), ok))
    ensures state.footprint <= old(state.footprint)
  {
    hide Core, Owned, Accounts, Least, Fine, Keeps, OthersSame, TakenBack;
    ghost var m, c := state.mem, state.c;
    var trimmed := state.SysTrim(pad);
    FineKept(m, c, state.mem, state.c, slots, view);
    ok := true;
  }

  lemma FineKept(mem: Mem, c: Chunks, m: Mem, d: Chunks, slots: seq<int>, view: seq<Block>)
    requires Fine(mem, c, slots, view) && Keeps(mem, c, m, d, {})
    ensures Fine(m, d, slots, view)
  {
    hide Shown, Keeps;
    HoldsOn(mem, c, m, d, slots, {});
    forall i | 0 <= i < |view| ensures Shown(m, d, slots[i], view[i]) { ShownOn(mem, c, m, d, slots[i], view[i], {}); }
  }

  // ---- many blocks at once

  /** Blocks in a row are at addresses of their own. */
  lemma {:induction false} RowApart(c: Chunks, r: int, es: seq<int>, blocks: seq<int>, end: int, j: nat, k: nat)
    requires Row(c, r, es, blocks, end) && j < k < |blocks| && forall i | 0 <= i < |blocks| :: es[i] > 0
    ensures blocks[j] < blocks[k]
    decreases k
  {
    assert blocks[k - 1] + es[k - 1] == Next(blocks, k - 1, end);
    if j < k - 1 { RowApart(c, r, es, blocks, end, j, k - 1); }
  }

  lemma FineMany(mem: Mem, c: Chunks, m: Mem, d: Chunks, slots: seq<int>, view: seq<Block>, blocks: seq<int>,
                 bs: seq<Block>, X: set<int>)
    requires Fine(mem, c, slots, view) && HandedAll(mem, c, m, d, X) && InRow(X, blocks) && |bs| == |blocks|
    requires (forall j | 0 <= j < |blocks| :: blocks[j] != 0 && Shown(m, d, blocks[j], bs[j]))
    requires forall j, k | 0 <= j < k < |blocks| :: blocks[j] != blocks[k]
    ensures Fine(m, d, slots + blocks, view + bs)
  {
    hide Shown, Keeps;
    forall i {:trigger slots[i]} | 0 <= i < |slots| && slots[i] != 0 ensures slots[i] - 8 !in X {
      assert c[slots[i] - 8].kind == Live;
    }
    HoldsOn(mem, c, m, d, slots, X);
    var s, v := slots + blocks, view + bs;
    forall i | 0 <= i < |v| ensures Shown(m, d, s[i], v[i]) {
      if i < |view| {
        if slots[i] == 0 { ShownNone(mem, c, m, d, view[i]); } else { ShownOn(mem, c, m, d, slots[i], view[i], X); }
      } else {
        assert s[i] == blocks[i - |view|] && v[i] == bs[i - |view|];
      }
    }
    HoldsMany(c, d, slots, blocks, X);
  }

  lemma HoldsMany(c: Chunks, d: Chunks, slots: seq<int>, blocks: seq<int>, X: set<int>)
    requires Holds(c, slots) && Holds(d, slots) && InRow(X, blocks)
    requires forall p | p in X :: p in d && d[p].kind == Live && !(p in c && c[p].kind == Live)
    requires forall j, k | 0 <= j < k < |blocks| :: blocks[j] != blocks[k]
    ensures Holds(d, slots + blocks)
  {
    var s := slots + blocks;
    forall i {:trigger s[i]} | 0 <= i < |s| ensures s[i] == 0 || (s[i] - 8 in d && d[s[i] - 8].kind == Live) {
      if i < |slots| { assert s[i] == slots[i]; } else { assert s[i] == blocks[i - |slots|]; }
    }
    forall i, j | 0 <= i < j < |s| && s[i] != 0 ensures s[i] != s[j] {
      if j < |slots| {
        assert s[i] == slots[i] && s[j] == slots[j];
      } else if i < |slots| {
        assert s[i] == slots[i] && s[j] == blocks[j - |slots|] && slots[i] - 8 in c && c[slots[i] - 8].kind == Live;
      } else {
        assert s[i] == blocks[i - |slots|] && s[j] == blocks[j - |slots|];
      }
    }
  }

  method NewMany(state: MallocState, sizes: seq<int>, slots0: seq<int>, ghost view: seq<Block>)
    returns (slots: seq<int>, ghost ok: bool)
    requires state.Valid() && Fine(state.mem, state.c, slots0, view)
    requires forall i | 0 <= i < |sizes| :: 0 <= sizes[i] < WORD
    requires TrueSize(|sizes|, sizes, false, true) < WORD
    modifies state
    ensures state.Valid() && Fine(state.mem, state.c, slots, Effect(view, AllocateMany(sizes), ok))
    ensures ok || Excused(AllocateMany(sizes), view, old(Now(state, slots0)), state.refusals)
    ensures Asking(old(Now(state, slots0)), Now(state, slots), TrueSize(|sizes|, sizes, false, true) - 4)
  {
    hide Served, Met, Dealt, NoneLeft;
    hide Core, Owned, Accounts, Least, Fine, Shown, Keeps, HandedAll, InRow, Row, Exhausted, Sum, Blocks;
    ghost var m, c, X, last := state.mem, state.c, {}, 0;
    var n, blocks, marray := |sizes|, [], 0;
    blocks, marray, X, last := state.Ialloc(n, sizes, false, false, true);
    slots, ok := slots0, blocks != [] || n == 0;
    if blocks == [] {
      if n == 0 {
        NothingHanded(m, c, state.mem, state.c, X, slots, view);
        assert view + Blocks(sizes) == view;
      }
    } else {
      BlocksShown(state.mem, state.smallmap, state.treemap, state.h, state.segs, state.c, sizes, blocks, last);
      FineMany(m, c, state.mem, state.c, slots, view, blocks, Blocks(sizes), X);
      slots := slots + blocks;
      AskingNow(old(Now(state, slots0)), Now(state, slots), old(state.Now()), old(state.Deals()), state.Deals(),
          TrueSize(n, sizes, false, true) - 4);
    }
  }

  lemma BlocksShown(mem: Mem, smallmap: bv32, treemap: bv32, h: Bins.Homes, segs: seq<Segment>, c: Chunks,
                    sizes: seq<int>,
                    blocks: seq<int>, last: int)
    requires Core(mem, smallmap, treemap, h, c, segs) && |blocks| == |sizes| > 0
    requires forall i | 0 <= i < |sizes| :: 0 <= sizes[i] < WORD
    requires var n, es := |sizes|, ElementSizes(|sizes|, sizes, false);
             Row(c, blocks[0], es[n - 1 := last], blocks, blocks[n - 1] + last) && last >= es[n - 1]
    ensures forall j | 0 <= j < |blocks| :: blocks[j] != 0 && Shown(mem, c, blocks[j], Blocks(sizes)[j])
    ensures forall j, k | 0 <= j < k < |blocks| :: blocks[j] != blocks[k]
  {
    hide Core;
    var n := |sizes|;
    var es := ElementSizes(n, sizes, false);
    var fs := es[n - 1 := last];
    forall j | 0 <= j < n ensures fs[j] >= RequestToSize(sizes[j]) && RequestToSize(sizes[j]) >= sizes[j] + 4 {
      RequestFacts(sizes[j]);
    }
    forall j | 0 <= j < n ensures blocks[j] != 0 && Shown(mem, c, blocks[j], Blocks(sizes)[j]) {
      assert Bulk.Block(c, blocks[j], fs[j]);
      ChunkMult(mem, smallmap, treemap, h, segs, c, blocks[j] - 8);
      LiveAligned(mem, smallmap, treemap, h, c, segs, blocks[j] - 8);
    }
    hide RequestToSize, Row;
    forall j, k | 0 <= j < k < n ensures blocks[j] != blocks[k] {
      RowApart(c, blocks[0], fs, blocks, blocks[n - 1] + last, j, k);
    }
  }

  lemma Listing(c: Chunks, slots: seq<int>, order: seq<nat>, s: seq<int>, X: set<int>)
    requires Holds(c, slots) && Proper(order, |slots|) && |s| == |order|
    requires forall j | 0 <= j < |s| :: s[j] == slots[order[j]]
    requires X == set j | 0 <= j < |order| && slots[order[j]] != 0 :: slots[order[j]] - 8
    ensures Pending(s, 0, c, X)
  {
    forall j | 0 <= j < |s| ensures Entry(s, j, c, X) {}
    forall p | p in X ensures Listed(s, 0, p) {
      var j :| 0 <= j < |order| && slots[order[j]] != 0 && p == slots[order[j]] - 8;
      assert s[j] == p + 8;
    }
    forall j, k | 0 <= j < k < |s| && s[j] != 0 ensures s[j] != s[k] {
      var a, b := order[j], order[k];
      if a < b { assert slots[a] != slots[b]; } else { assert slots[b] == 0 || slots[b] != slots[a]; }
    }
  }

  lemma FineEmptied(mem: Mem, c: Chunks, m: Mem, d: Chunks, slots: seq<int>, view: seq<Block>, order: seq<nat>,
                    X: set<int>)
    requires Fine(mem, c, slots, view) && AllFreed(mem, c, m, d, X) && Proper(order, |slots|)
    requires X == set j | 0 <= j < |order| && slots[order[j]] != 0 :: slots[order[j]] - 8
    ensures Fine(m, d, Emptied(slots, order), Without(view, order))
  {
    hide Shown, Keeps;
    var s, v := Emptied(slots, order), Without(view, order);
    forall i | 0 <= i < |slots| && i !in order && slots[i] != 0 ensures slots[i] - 8 !in X {
      forall j | 0 <= j < |order| ensures slots[order[j]] != slots[i] {
        var a := order[j];
        assert a in order;
        if a < i { assert slots[a] == 0 || slots[a] != slots[i]; } else { assert slots[i] != slots[a]; }
      }
    }
    forall i | 0 <= i < |v| ensures Shown(m, d, s[i], v[i]) {
      if i in order {
        GoneShown(m, d);
      } else if slots[i] == 0 {
        ShownNone(mem, c, m, d, view[i]);
      } else {
        ShownOn(mem, c, m, d, slots[i], view[i], X);
      }
    }
    EmptiedHolds(mem, c, m, d, slots, order, X);
  }

  lemma GoneShown(m: Mem, d: Chunks) ensures Shown(m, d, 0, Gone) {}

  lemma EmptiedHolds(mem: Mem, c: Chunks, m: Mem, d: Chunks, slots: seq<int>, order: seq<nat>, X: set<int>)
    requires Holds(c, slots) && Keeps(mem, c, m, d, X)
    requires forall i | 0 <= i < |slots| && i !in order && slots[i] != 0 :: slots[i] - 8 !in X
    ensures Holds(d, Emptied(slots, order))
  {
    var s := Emptied(slots, order);
    forall i {:trigger s[i]} | 0 <= i < |s| && s[i] != 0 ensures s[i] - 8 in d && d[s[i] - 8].kind == Live {
      assert s[i] == slots[i];
      assert Stays(mem, c, m, d, slots[i] - 8);
    }
    forall i, j | 0 <= i < j < |s| && s[i] != 0 ensures s[i] != s[j] { assert s[i] == slots[i]; }
  }

  method ReleaseSlots(state: MallocState, order: seq<nat>, slots0: seq<int>, ghost view: seq<Block>)
    returns (slots: seq<int>, ghost ok: bool)
    requires state.Valid() && Fine(state.mem, state.c, slots0, view) && Proper(order, |slots0|)
    modifies state
    ensures ok && state.Valid() && Fine(state.mem, state.c, slots, Effect(view, ReleaseMany(order), ok))
    ensures Returning(old(Now(state, slots0)), Now(state, slots))
  {
    hide Trimming;
    hide Core, Owned, Accounts, Least, Fine, Keeps, Pending, AllFreed, Emptied, Without, Holds, Proper;
    ghost var m, c := state.mem, state.c;
    FineHolds(m, c, slots0, view);
    Bounded(order, |slots0|);
    var a := new int[|order|](j requires 0 <= j < |order| => slots0[order[j]]);
    ghost var X := set j | 0 <= j < |order| && slots0[order[j]] != 0 :: slots0[order[j]] - 8;
    Listing(c, slots0, order, a[..], X);
    ghost var trimmed := state.BulkFree(a, X);
    FineEmptied(m, c, state.mem, state.c, slots0, view, order, X);
    slots, ok := Emptied(slots0, order), true;
  }

  lemma FineHolds(mem: Mem, c: Chunks, slots: seq<int>, view: seq<Block>)
    requires Fine(mem, c, slots, view)
    ensures Holds(c, slots)
  {}

  lemma Bounded(order: seq<nat>, n: nat)
    requires Proper(order, n)
    ensures forall j | 0 <= j < |order| :: order[j] < n
  {}

  lemma NothingHanded(mem: Mem, c: Chunks, m: Mem, d: Chunks, X: set<int>, slots: seq<int>, view: seq<Block>)
    requires Fine(mem, c, slots, view) && HandedAll(mem, c, m, d, X)
    ensures Fine(m, d, slots, view)
  {
    hide Shown;
    forall i {:trigger slots[i]} | 0 <= i < |slots| && slots[i] != 0 ensures slots[i] - 8 !in X {
      assert c[slots[i] - 8].kind == Live;
    }
    HoldsOn(mem, c, m, d, slots, X);
    forall i | 0 <= i < |view| ensures Shown(m, d, slots[i], view[i]) {
      if slots[i] == 0 { ShownNone(mem, c, m, d, view[i]); } else { ShownOn(mem, c, m, d, slots[i], view[i], X); }
    }
  }

  lemma HoldsFreed(m: Mem, c: Chunks, m': Mem, d: Chunks, slots: seq<int>, k: nat)
    requires Holds(c, slots) && k < |slots| && slots[k] != 0 && Freed(m, c, m', d, slots[k] - 8)
    ensures Holds(d, slots[k := 0])
  {
    HoldsWithout(c, slots, k);
    HoldsOn(m, c, m', d, slots[k := 0], {slots[k] - 8});
  }
}

/** Freeing many blocks at once and one by one, on two heaps that hold the same blocks. */
module Releases {
  import opened Words
  import opened Chunks
  import opened Heaps
  import opened Steps
  import opened Growth
  import opened System
  import opened Bulk
  import opened Malloc

  /**
   * The blocks of `X` are freed together on the one heap, in the order of `a`, and one by one on the other, in that of
   * `order`. As long as no memory goes back to the system, both are tiled alike afterwards and hold the same blocks.
   */
  method FreeBothWays(s: MallocState, t: MallocState, a: array<int>, order: seq<int>, ghost X: set<int>)
    returns (ghost trimmed: bool)
    requires s != t && s.Valid() && t.Valid() && s.segs == t.segs && LiveIn(s.c, t.c) && LiveIn(t.c, s.c)
    requires Pending(a[..], 0, s.c, X) && Pending(order, 0, t.c, X)
    modifies s, t, a
    ensures s.Valid() && AllFreed(old(s.mem), old(s.c), s.mem, s.c, X)
    ensures t.Valid() && AllFreed(old(t.mem), old(t.c), t.mem, t.c, X)
    ensures trimmed ==> s.footprint < old(s.footprint) || t.footprint < old(t.footprint)
    ensures !trimmed ==> LiveIn(s.c, t.c) && LiveIn(t.c, s.c) && TilesIn(s.c, t.c) && TilesIn(t.c, s.c)
    ensures old(s.trimCheck) >= HEAP_MAX && old(t.trimCheck) >= HEAP_MAX ==> !trimmed
  {
    hide Core, Owned, Accounts, Least, BrkOk, Pending, AllFreed, LiveIn, TilesIn;
    trimmed := s.BulkFree(a, X);
    ghost var more := FreeEach(t, order, X);
    trimmed := trimmed || more;
    if !trimmed {
      CoreParts(s.mem, s.smallmap, s.treemap, s.h, s.c, s.segs);
      CoreParts(t.mem, t.smallmap, t.treemap, t.h, t.c, t.segs);
      FreedBoth(old(s.mem), old(s.c), old(t.mem), old(t.c), s.mem, s.c, t.mem, t.c, s.segs, X);
    }
  }

  /** One by one. */
  method FreeEach(t: MallocState, order: seq<int>, ghost X: set<int>) returns (ghost trimmed: bool)
    requires t.Valid() && Pending(order, 0, t.c, X)
    modifies t
    ensures t.Valid() && AllFreed(old(t.mem), old(t.c), t.mem, t.c, X)
    ensures if trimmed then t.footprint < old(t.footprint)
            else t.segs == old(t.segs) && t.footprint == old(t.footprint)
    ensures old(t.trimCheck) >= HEAP_MAX ==> !trimmed
  {
    hide Core, Owned, Accounts, Least, BrkOk, Keeps, Pending, Freed;
    trimmed := false;
    KeepsSame(t.mem, t.c);
    KeepsMore(t.mem, t.c, t.mem, t.c, X);
    var i := 0;
    while i < |order|
      invariant 0 <= i <= |order| && t.Valid() && Pending(order, i, t.c, X)
      invariant Keeps(old(t.mem), old(t.c), t.mem, t.c, X)
      invariant if trimmed then t.footprint < old(t.footprint)
                else t.segs == old(t.segs) && t.footprint == old(t.footprint)
      invariant old(t.trimCheck) >= HEAP_MAX ==> !trimmed && t.trimCheck == old(t.trimCheck)
    {
      ghost var m, c := t.mem, t.c;
      NoNegative(t.mem, t.smallmap, t.treemap, t.h, t.c, t.segs);
      if order[i] != 0 {
        PendingAt(order, i, t.c, X);
        ghost var some := t.Free(order[i]);
        trimmed := trimmed || some;
        PendingFreed(order, i, m, c, t.mem, t.c, X);
        PendingTail(order[i := 0], order, i + 1, t.c, X);
        KeepsFreed(old(t.mem), old(t.c), m, c, t.mem, t.c, X, order[i] - 8);
      } else {
        PendingZero(order, i, t.c, X);
      }
      i := i + 1;
    }
    NonePending(order, i, t.c, X);
  }
}

/** Sharing out the arguments that are no options among the positional arguments a program declares. */
module Positionals {
  import opened Options
  import opened Getopt

  const U32 := 0x1_0000_0000

  datatype Positional = Positional(min: nat, max: nat) {
    predicate Ok() { min <= max < U32 }
    predicate Words() { min < U32 && max < U32 }
    /** What it takes beyond its least number, as computed: in 32 bits. */
    function Room(): nat { (max - min) % U32 }
  }

  ghost function Mins(ps: seq<Positional>): nat { if ps == [] then 0 else Mins(ps[..|ps| - 1]) + ps[|ps| - 1].min }
  ghost function Maxs(ps: seq<Positional>): nat { if ps == [] then 0 else Maxs(ps[..|ps| - 1]) + ps[|ps| - 1].max }
  ghost function Sum(s: seq<nat>): nat { if s == [] then 0 else Sum(s[..|s| - 1]) + s[|s| - 1] }

  ghost function Rooms(ps: seq<Positional>): nat { if ps == [] then 0 else Rooms(ps[..|ps| - 1]) + ps[|ps| - 1].Room() }

  ghost predicate AllWords(ps: seq<Positional>) { forall i | 0 <= i < |ps| :: ps[i].Words() }
  ghost predicate AllOk(ps: seq<Positional>) { forall i | 0 <= i < |ps| :: ps[i].Ok() }

  /**
   * Every positional gets what it needs and no more than it takes, and none gets extra values before those in front of
   * it are full.
   */
  ghost predicate Shared(ps: seq<Positional>, left: nat, counts: seq<nat>) {
    && |counts| == |ps| && Sum(counts) == left
    && (forall i | 0 <= i < |ps| :: ps[i].min <= counts[i] <= ps[i].max)
    && (forall i, j | 0 <= i < j < |ps| :: counts[i] < ps[i].max ==> counts[j] == ps[j].min)
  }

  // ---- sums

  lemma SumNext(s: seq<nat>, i: nat)
    requires i < |s|
    ensures Sum(s[..i + 1]) == Sum(s[..i]) + s[i]
  {
    assert s[..i + 1][..i] == s[..i];
  }

  lemma MinsNext(ps: seq<Positional>, i: nat)
    requires i < |ps|
    ensures Mins(ps[..i + 1]) == Mins(ps[..i]) + ps[i].min && Maxs(ps[..i + 1]) == Maxs(ps[..i]) + ps[i].max
  {
    assert ps[..i + 1][..i] == ps[..i];
  }

  lemma RoomsNext(ps: seq<Positional>, i: nat)
    requires i < |ps|
    ensures Rooms(ps[..i + 1]) == Rooms(ps[..i]) + ps[i].Room()
  {
    assert ps[..i + 1][..i] == ps[..i];
  }

  lemma {:induction false} RoomsAre(ps: seq<Positional>)
    requires AllOk(ps)
    ensures Rooms(ps) == Maxs(ps) - Mins(ps)
  {
    if ps != [] {
      RoomsAre(ps[..|ps| - 1]);
      assert ps[|ps| - 1].Ok();
    }
  }

  lemma {:induction false} RoomsUpTo(ps: seq<Positional>, i: nat)
    requires i <= |ps|
    ensures Rooms(ps[..i]) <= Rooms(ps)
    decreases |ps| - i
  {
    if i < |ps| {
      RoomsNext(ps, i);
      RoomsUpTo(ps, i + 1);
    } else {
      assert ps[..i] == ps;
    }
  }

  lemma {:induction false} MinsUpTo(ps: seq<Positional>, i: nat)
    requires i <= |ps| && AllOk(ps)
    ensures Mins(ps[..i]) <= Mins(ps) && Maxs(ps) - Maxs(ps[..i]) >= Mins(ps) - Mins(ps[..i])
    decreases |ps| - i
  {
    if i < |ps| {
      MinsNext(ps, i);
      MinsUpTo(ps, i + 1);
    } else {
      assert ps[..i] == ps;
    }
  }

  /** Counts that are least from `k` on and most before `k`, with `give` more at `k`. */
  lemma {:induction false} SumStaged(ps: seq<Positional>, counts: seq<nat>, k: nat, n: nat)
    requires |counts| == |ps| && k <= n <= |ps|
    requires (forall j | 0 <= j < k :: counts[j] == ps[j].max) && (forall j | k < j < n :: counts[j] == ps[j].min)
    ensures k < n ==> Sum(counts[..n]) == Maxs(ps[..k]) + counts[k] + Mins(ps[..n]) - Mins(ps[..k + 1])
    ensures k == n ==> Sum(counts[..n]) == Maxs(ps[..k])
    decreases n
  {
    if n > 0 {
      SumNext(counts, n - 1);
      MinsNext(ps, n - 1);
      if k == n {
        SumStaged(ps, counts, k - 1, n - 1);
      } else {
        SumStaged(ps, counts, k, n - 1);
      }
    }
  }

  /** Counts that hand out `extra` values beyond the least, in order. */
  ghost predicate Staged(ps: seq<Positional>, extra: nat, counts: seq<nat>) {
    && |counts| == |ps| && Sum(counts) == Mins(ps) + extra
    && (forall i | 0 <= i < |ps| :: ps[i].min <= counts[i] <= ps[i].max)
    && (forall i, j | 0 <= i < j < |ps| :: counts[i] < ps[i].max ==> counts[j] == ps[j].min)
  }

  ghost predicate Upto(ps: seq<Positional>, counts: seq<nat>, k: nat) {
    && |counts| == |ps| && k <= |ps|
    && (forall j | 0 <= j < k :: counts[j] == ps[j].max) && (forall j | k < j < |ps| :: counts[j] == ps[j].min)
  }

  lemma UptoStaged(ps: seq<Positional>, counts: seq<nat>, k: nat, extra: nat)
    requires AllOk(ps) && Upto(ps, counts, k) && k < |ps| && ps[k].min <= counts[k] <= ps[k].max
    requires extra == Maxs(ps[..k]) - Mins(ps[..k]) + counts[k] - ps[k].min
    ensures Staged(ps, extra, counts) && extra <= Maxs(ps) - Mins(ps)
  {
    SumStaged(ps, counts, k, |ps|);
    assert counts[..|ps|] == counts && ps[..|ps|] == ps;
    MinsNext(ps, k);
    MinsUpTo(ps, k + 1);
  }

  /** Share out what is left beyond the least numbers; what nobody takes remains. */
  method Distribute(ps: seq<Positional>, extra0: nat, counts: array<nat>) returns (extra: nat)
    requires AllWords(ps) && counts.Length == |ps| && forall j | 0 <= j < |ps| :: counts[j] == ps[j].min
    modifies counts
    ensures extra == 0 <==> extra0 <= Rooms(ps)
    ensures extra == 0 && AllOk(ps) ==> Staged(ps, extra0, counts[..])
  {
    hide Staged, Maxs, Mins, Rooms, Positional.Room;
    extra := extra0;
    var i := 0;
    NoSums(ps, counts[..]);
    while i < |ps|
      invariant 0 <= i <= |ps| && (i == 0 || extra > 0) && extra == extra0 - Rooms(ps[..i])
      invariant AllOk(ps) ==> forall j | 0 <= j < i :: counts[j] == ps[j].max
      invariant forall j | i <= j < |ps| :: counts[j] == ps[j].min
    {
      var room := ps[i].Room();
      var more := if room < extra then room else extra;
      if AllOk(ps) { OkRoom(ps, i, more); }
      counts[i] := (counts[i] + more) % U32;
      extra := extra - more;
      RoomsNext(ps, i);
      RoomsUpTo(ps, i + 1);
      if extra == 0 {
        if AllOk(ps) { UptoStaged(ps, counts[..], i, extra0); }
        return;
      }
      i := i + 1;
    }
    assert ps[..i] == ps;
  }

  lemma OkRoom(ps: seq<Positional>, i: nat, more: nat)
    requires AllOk(ps) && i < |ps| && more <= ps[i].Room()
    ensures ps[i].Room() == ps[i].max - ps[i].min && ps[i].max < U32
    ensures Rooms(ps[..i]) == Maxs(ps[..i]) - Mins(ps[..i])
    ensures (ps[i].min + more) % U32 == ps[i].min + more
  {
    assert ps[i].Ok();
    RoomsAre(ps[..i]);
  }

  lemma NoSums(ps: seq<Positional>, counts: seq<nat>)
    ensures Maxs(ps[..0]) == 0 && Mins(ps[..0]) == 0 && (ps == [] && counts == [] ==> Staged(ps, 0, counts))
    ensures Rooms(ps[..0]) == 0 && Mins(ps) % U32 <= Mins(ps)
  {}

  /**
   * The numbers of values, when the arguments left can be shared out. They are right exactly when the declarations are
   * in order and the least numbers do not wrap around.
   */
  method CountPositionals(ps: seq<Positional>, left: nat, counts: array<nat>) returns (ok: bool)
    requires AllWords(ps) && counts.Length == |ps| && left < U32
    modifies counts
    ensures ok <==> Mins(ps) % U32 <= left <= Mins(ps) % U32 + Rooms(ps)
    ensures ok ==> (Shared(ps, left, counts[..]) <==> AllOk(ps) && Mins(ps) < U32)
  {
    hide Maxs, Mins, Rooms;
    var total := 0;
    var i := 0;
    NoSums(ps, []);
    while i < |ps|
      invariant 0 <= i <= |ps| && total == Mins(ps[..i]) % U32 && forall j | 0 <= j < i :: counts[j] == ps[j].min
    {
      counts[i] := ps[i].min;
      MinsNext(ps, i);
      total := (total + ps[i].min) % U32;
      i := i + 1;
    }
    assert ps[..i] == ps;
    if total > left { return false; }
    var extra := Distribute(ps, left - total, counts);
    ok := extra == 0;
    if ok && !AllOk(ps) { NotShared(ps, left, counts[..]); }
  }

  lemma NotShared(ps: seq<Positional>, left: nat, counts: seq<nat>)
    requires AllWords(ps) && !AllOk(ps)
    ensures !Shared(ps, left, counts)
  {
    var i :| 0 <= i < |ps| && !ps[i].Ok();
    assert ps[i].Words();
  }

  /** When the least numbers do not wrap around, that is when they add up to a count of arguments at all. */
  lemma SharedWhen(ps: seq<Positional>, left: nat)
    requires AllOk(ps) && Mins(ps) < U32
    ensures Mins(ps) % U32 == Mins(ps)
    ensures Mins(ps) % U32 <= left <= Mins(ps) % U32 + Rooms(ps) <==> Mins(ps) <= left <= Maxs(ps)
  {
    RoomsAre(ps);
  }

  /** When they do, arguments are taken for enough that are not. */
  lemma WrappedSum()
    ensures var ps := [Positional(0x8000_0000, 0x8000_0000), Positional(0x8000_0000, 0x8000_0000)];
            AllOk(ps) && Mins(ps) % U32 == 0 && Mins(ps) > 0
  {
    var p := Positional(0x8000_0000, 0x8000_0000);
    assert [p, p][..1] == [p] && [p][..0] == [];
    assert Mins([p]) == Mins([]) + p.min;
  }

  /** A positional with at least one value and at most none takes any number up to 2^32. */
  lemma CrossedBounds()
    ensures var ps := [Positional(1, 0)]; AllWords(ps) && !AllOk(ps) && Mins(ps) == 1 && Rooms(ps) == U32 - 1
  {
    var ps := [Positional(1, 0)];
    assert ps[..0] == [] && ps[0] == Positional(1, 0) && !ps[0].Ok();
  }

  // ---- the only way to share out

  lemma {:induction false} SumBounds(ps: seq<Positional>, counts: seq<nat>)
    requires |counts| == |ps| && forall i | 0 <= i < |ps| :: ps[i].min <= counts[i] <= ps[i].max
    ensures Mins(ps) <= Sum(counts) <= Maxs(ps)
  {
    if ps != [] { SumBounds(ps[..|ps| - 1], counts[..|ps| - 1]); }
  }

  lemma {:induction false} SumLess(a: seq<nat>, b: seq<nat>, i: nat)
    requires i < |a| == |b| && a[..i] == b[..i] && a[i] < b[i] && forall j | i < j < |a| :: a[j] <= b[j]
    ensures Sum(a) < Sum(b)
  {
    var n := |a| - 1;
    if i == n {
      assert Sum(a[..n]) == Sum(b[..n]);
    } else {
      assert a[..n][..i] == a[..i] && b[..n][..i] == b[..i];
      SumLess(a[..n], b[..n], i);
    }
  }

  lemma {:induction false} SharedAlike(ps: seq<Positional>, left: nat, a: seq<nat>, b: seq<nat>, i: nat)
    requires Shared(ps, left, a) && Shared(ps, left, b) && i <= |ps|
    ensures a[..i] == b[..i]
  {
    if i > 0 {
      SharedAlike(ps, left, a, b, i - 1);
      if a[i - 1] < b[i - 1] { SumLess(a, b, i - 1); }
      if b[i - 1] < a[i - 1] { SumLess(b, a, i - 1); }
    }
  }

  /** There is one way to share out the arguments, and only when they are neither too few nor too many. */
  lemma SharedOnly(ps: seq<Positional>, left: nat, a: seq<nat>, b: seq<nat>)
    requires Shared(ps, left, a) && Shared(ps, left, b)
    ensures a == b && Mins(ps) <= left <= Maxs(ps)
  {
    SharedAlike(ps, left, a, b, |ps|);
    assert a[..|ps|] == a && b[..|ps|] == b;
    SumBounds(ps, a);
  }

  // ---- handing them over

  /** Which positional each argument goes to. */
  ghost function Slots(counts: seq<nat>): (s: seq<nat>)
    ensures |s| == Sum(counts)
  {
    if counts == [] then [] else Slots(counts[..|counts| - 1]) + seq(counts[|counts| - 1], _ => |counts| - 1)
  }

  lemma {:induction false} SlotsUpTo(counts: seq<nat>, i: nat)
    requires i <= |counts|
    ensures Slots(counts[..i]) <= Slots(counts)
    decreases |counts| - i
  {
    if i < |counts| {
      assert counts[..i + 1][..i] == counts[..i];
      SlotsUpTo(counts, i + 1);
    } else {
      assert counts[..i] == counts;
    }
  }

  lemma SlotsAt(counts: seq<nat>, i: nat, c: nat)
    requires i < |counts| && c < counts[i]
    ensures var k := Sum(counts[..i]) + c; k < Sum(counts) && Slots(counts)[k] == i
  {
    assert counts[..i + 1][..i] == counts[..i];
    SlotsUpTo(counts, i + 1);
  }

  /** What was handed over: the arguments in a row, each to its positional, all but perhaps the last accepted. */
  ghost predicate Handed(log: seq<(nat, string)>, counts: seq<nat>, row: seq<string>, accepts: (nat, string) -> bool,
                         all: bool) {
    && |log| <= |row| && |row| == Sum(counts)
    && (forall k | 0 <= k < |log| :: log[k] == (Slots(counts)[k], row[k]))
    && (forall k | 0 <= k < |log| :: accepts(log[k].0, log[k].1) || (!all && k == |log| - 1))
  }

  lemma HandedNext(log: seq<(nat, string)>, counts: seq<nat>, row: seq<string>, accepts: (nat, string) -> bool, i: nat,
                   c: nat)
    requires Handed(log, counts, row, accepts, true) && i < |counts| && c < counts[i] && |log| == Sum(counts[..i]) + c
    ensures |log| < |row|
    ensures var next := (i, row[|log|]); Handed(log + [next], counts, row, accepts, accepts(next.0, next.1))
  {
    SlotsAt(counts, i, c);
  }

  /** The arguments from `optind0` on go to the positionals in order, until one is refused. */
  method Accept(argv: array<string>, optind0: nat, counts: array<nat>, accepts: (nat, string) -> bool)
    returns (ok: bool, optind: nat, log: seq<(nat, string)>)
    requires optind0 + Sum(counts[..]) == argv.Length
    ensures Handed(log, counts[..], argv[optind0..], accepts, ok) && optind == optind0 + |log|
    ensures if ok then optind == argv.Length else log != [] && !accepts(log[|log| - 1].0, log[|log| - 1].1)
  {
    hide Handed, Sum, Slots;
    ghost var all, row := counts[..], argv[optind0..];
    optind, log := optind0, [];
    NoneHanded(all, row, accepts);
    var i := 0;
    while i < counts.Length
      invariant 0 <= i <= counts.Length && Handed(log, all, row, accepts, true) && optind == optind0 + |log|
      invariant |log| == Sum(all[..i])
    {
      var c := 0;
      while c < counts[i]
        invariant 0 <= c <= counts[i] && Handed(log, all, row, accepts, true) && optind == optind0 + |log|
        invariant |log| == Sum(all[..i]) + c
      {
        HandedNext(log, all, row, accepts, i, c);
        var value := argv[optind];
        optind := optind + 1;
        log := log + [(i, value)];
        if !accepts(i, value) {
          return false, optind, log;
        }
        c := c + 1;
      }
      SumNext(all, i);
      i := i + 1;
    }
    assert all[..i] == all;
    ok := true;
  }

  lemma NoneHanded(counts: seq<nat>, row: seq<string>, accepts: (nat, string) -> bool)
    requires |row| == Sum(counts)
    ensures Handed([], counts, row, accepts, true) && Sum(counts[..0]) == 0
  {}

  /**
   * The whole of a parse: options first, then the arguments left over. When it succeeds, the positionals were given
   * exactly the arguments that are no options and no values of options, in order.
   */
  method Parse(p: OptionsParser, ps: seq<Positional>, accepts: (nat, string) -> bool)
    returns (outside: bool, ok: bool, log: seq<(nat, string)>, ghost reports: seq<Report>, ghost counts: seq<nat>)
    requires AllOk(ps) && 1 <= p.argv.Length < U32 && Mins(ps) < U32 && NoEof(p.syntax)
    modifies p, p.argv
    ensures var all := old(Read(p.syntax, p.argv[1..], 0));
      !Lost(p.syntax, all) ==>
      && !outside && reports == all.reports
      && (ok ==>
            && all.stop != Refused && Shared(ps, |all.others|, counts)
            && |log| == |all.others| && Handed(log, counts, all.others, accepts, true))
      && (!ok ==>
            || all.stop == Refused || !(Mins(ps) <= |all.others| <= Maxs(ps))
            || (log != [] && !accepts(log[|log| - 1].0, log[|log| - 1].1)))
  {
    hide Read, Shared, Handed, Mins, Maxs, NoEof, Lost;
    p.optind := 0;
    p.optreset := true;
    log, counts := [], [];
    outside, ok, reports := p.ParseOptions();
    if outside || !ok { return; }
    ghost var all := old(Read(p.syntax, p.argv[1..], 0));
    assert !Lost(p.syntax, all) ==> p.argv[p.optind..] == all.others;
    var values := new nat[|ps|];
    SharedWhen(ps, p.argv.Length - p.optind);
    ok := CountPositionals(ps, p.argv.Length - p.optind, values);
    if !ok { return; }
    counts := values[..];
    SharedSum(ps, p.argv.Length - p.optind, counts);
    ok, p.optind, log := Accept(p.argv, p.optind, values, accepts);
  }

  lemma SharedSum(ps: seq<Positional>, left: nat, counts: seq<nat>)
    requires Shared(ps, left, counts)
    ensures Sum(counts) == left
  {}
}

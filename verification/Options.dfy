/** What a command line means: the options, in order, with their values, and everything else. */
module Options {
  datatype Option<T> = None | Some(value: T)

  const NO_ARGUMENT := 0
  const REQUIRED_ARGUMENT := 1
  const OPTIONAL_ARGUMENT := 2
  const QUESTION: int := '?' as int
  const EOF: int := -1

  /** A long option either returns its value or stores it in the variable its flag names, and returns 0. */
  datatype LongOption = LongOption(name: string, hasArg: int, flag: Option<int>, val: int) {
    predicate Matches(s: string) { name <= s && (|s| == |name| || s[|name|] == '=') }
    function Code(): int { if flag.Some? then 0 else val }
    function Stored(): map<int, int> { if flag.Some? then map[flag.value := val] else map[] }
  }

  /** What a program declares. */
  datatype Syntax = Syntax(shorts: string, longs: seq<LongOption>) {
    /** A leading plus: arguments keep their order and the first that is no option ends the options. */
    predicate Plus() { "+" <= shorts }
  }

  /** What one call tells its caller. */
  datatype Report = Report(code: int, value: Option<string>, stored: map<int, int>)

  predicate IsOption(s: string) { |s| >= 2 && s[0] == '-' && s != "--" }
  predicate IsLong(s: string) { "--" <= s }

  // ---- what the declarations say

  /** Where a character first occurs. */
  function IndexOf(s: string, c: char): (i: nat)
    ensures i <= |s| && c !in s[..i] && (i < |s| ==> s[i] == c)
  {
    if s == "" || s[0] == c then 0 else 1 + IndexOf(s[1..], c)
  }

  /** One colon after an option character means a value, two mean an optional one. A colon itself takes none. */
  function Need(shorts: string, c: char): int
    requires c in shorts
  {
    var after := shorts[IndexOf(shorts, c) + 1..];
    if c == ':' then NO_ARGUMENT
    else if "::" <= after then OPTIONAL_ARGUMENT
    else if ":" <= after then REQUIRED_ARGUMENT
    else NO_ARGUMENT
  }

  /** The first long option that an argument, without its dashes, names. */
  function Named(longs: seq<LongOption>, s: string): (i: nat)
    ensures i <= |longs| && (i < |longs| ==> longs[i].Matches(s))
    ensures forall j | 0 <= j < i :: !longs[j].Matches(s)
  {
    if longs == [] || longs[0].Matches(s) then 0 else 1 + Named(longs[1..], s)
  }

  function Inline(o: LongOption, s: string): Option<string>
    requires o.Matches(s)
  {
    if |s| == |o.name| then None else Some(s[|o.name| + 1..])
  }

  // ---- what an argument says

  datatype Stop = End | Dashes | Refused | Undefined
  /** The reports an option argument gives rise to, and how many arguments it takes: none when it is refused. */
  datatype Taken = Taken(reports: seq<Report>, width: nat, stop: Stop)

  /** The option characters of `args`[0] from position `m` on. */
  ghost function Cluster(x: Syntax, args: seq<string>, m: nat): (t: Taken)
    requires args != [] && m < |args[0]|
    ensures t.width <= 2 && t.width <= |args| && (t.width == 0 <==> t.stop != End) && t.stop != Dashes
    decreases |args[0]| - m
  {
    var s, c := args[0], args[0][m];
    if c !in x.shorts then Taken([], 0, if x.shorts == "" then Refused else Undefined)
    else if c == '?' then Taken([], 0, Refused)
    else if m + 1 < |s| then
      if Need(x.shorts, c) == NO_ARGUMENT then
        var t := Cluster(x, args, m + 1);
        Taken([Report(c as int, None, map[])] + t.reports, t.width, t.stop)
      else Taken([Report(c as int, Some(s[m + 1..]), map[])], 1, End)
    else if Need(x.shorts, c) != REQUIRED_ARGUMENT then Taken([Report(c as int, None, map[])], 1, End)
    else if |args| > 1 then Taken([Report(c as int, Some(args[1]), map[])], 2, End)
    else Taken([], 0, Refused)
  }

  /** A long option with its value, after an equals sign or as the next argument. */
  ghost function Long(x: Syntax, args: seq<string>): (t: Taken)
    requires args != [] && IsLong(args[0])
    ensures t.width <= 2 && t.width <= |args| && (t.width == 0 <==> t.stop != End) && t.stop != Dashes
  {
    var s := args[0][2..];
    var i := Named(x.longs, s);
    if i == |x.longs| then Taken([], 0, Refused)
    else
      var o := x.longs[i];
      var v := Inline(o, s);
      if o.Code() == QUESTION then Taken([], 0, Refused)
      else if o.hasArg == OPTIONAL_ARGUMENT || (o.hasArg == NO_ARGUMENT && v.None?)
              || (o.hasArg == REQUIRED_ARGUMENT && v.Some?)
      then
        Taken([Report(o.Code(), v, o.Stored())], 1, End)
      else if o.hasArg == REQUIRED_ARGUMENT && |args| > 1 then
        Taken([Report(o.Code(), Some(args[1]), o.Stored())], 2, End)
      else Taken([], 0, Refused)
  }

  ghost function Front(x: Syntax, args: seq<string>, m: nat): (t: Taken)
    requires args != [] && IsOption(args[0]) && m < |args[0]|
    ensures t.width <= 2 && t.width <= |args| && (t.width == 0 <==> t.stop != End) && t.stop != Dashes
  {
    if IsLong(args[0]) then Long(x, args) else Cluster(x, args, if m == 0 then 1 else m)
  }

  // ---- what a command line says

  /** The option arguments with their values, the other arguments, and why reading stopped. */
  datatype Reading = Reading(reports: seq<Report>, options: seq<string>, others: seq<string>, stop: Stop) {
    function Dash(): seq<string> { if stop == Dashes then ["--"] else [] }
    /** The same, after arguments that are left in place. */
    function Behind(pre: seq<string>): Reading { this.(others := pre + others) }
  }

  /** The first option argument has been read up to position `m`. */
  ghost predicate Partly(args: seq<string>, m: nat) {
    m == 0 || (Next(args) < |args| && IsOption(args[Next(args)]) && !IsLong(args[Next(args)]) && m < |args[Next(args)]|)
  }

  /** The first argument that is an option or ends the options, wherever it is. */
  function Next(args: seq<string>): (k: nat)
    ensures k <= |args| && (k < |args| ==> args[k] == "--" || IsOption(args[k]))
    ensures forall j | 0 <= j < k :: args[j] != "--" && !IsOption(args[j])
  {
    if args == [] || args[0] == "--" || IsOption(args[0]) then 0 else 1 + Next(args[1..])
  }

  ghost function Read(x: Syntax, args: seq<string>, m: nat): (r: Reading)
    requires Partly(args, m)
    ensures |r.options| + |r.Dash()| + |r.others| == |args|
    decreases |args|
  {
    if args == [] then Reading([], [], [], End)
    else if args[0] == "--" then Reading([], [], args[1..], Dashes)
    else if !IsOption(args[0]) && x.Plus() then Reading([], [], args, End)
    else if !IsOption(args[0]) then
      assert Next(args) == 1 + Next(args[1..]);
      var r := Read(x, args[1..], m);
      r.(others := [args[0]] + r.others)
    else
      var t := Front(x, args, m);
      if t.width == 0 then Reading(t.reports, [], args, t.stop)
      else
        var r := Read(x, args[t.width..], 0);
        Reading(t.reports + r.reports, args[..t.width] + r.options, r.others, r.stop)
  }

  /** Arguments that are no options are left in place. */
  ghost predicate Plain(pre: seq<string>) { forall j | 0 <= j < |pre| :: pre[j] != "--" && !IsOption(pre[j]) }

  lemma {:induction false} NextAfter(pre: seq<string>, rest: seq<string>)
    requires Plain(pre)
    ensures Next(pre + rest) == |pre| + Next(rest)
  {
    if pre == [] {
      assert pre + rest == rest;
    } else {
      assert (pre + rest)[1..] == pre[1..] + rest;
      NextAfter(pre[1..], rest);
    }
  }

  lemma PartlyAfter(pre: seq<string>, rest: seq<string>, m: nat)
    requires Plain(pre)
    ensures Partly(pre + rest, m) <==> Partly(rest, m)
  {
    NextAfter(pre, rest);
    hide IsOption, IsLong;
    assert Next(rest) < |rest| ==> (pre + rest)[|pre| + Next(rest)] == rest[Next(rest)];
  }

  lemma ReadPlain(x: Syntax, args: seq<string>, m: nat)
    requires args != [] && Plain(args[..1]) && Partly(args[1..], m) && Partly(args, m) && !x.Plus()
    ensures Read(x, args, m) == Read(x, args[1..], m).Behind(args[..1])
  {
    hide Front, IsOption, IsLong;
    assert args[..1][0] == args[0] && args[..1] == [args[0]];
  }

  lemma BehindBoth(r: Reading, a: seq<string>, b: seq<string>)
    ensures r.Behind(b).Behind(a) == r.Behind(a + b) && r.Behind([]) == r
  {
    assert a + (b + r.others) == (a + b) + r.others;
  }

  lemma PlainParts(pre: seq<string>)
    requires Plain(pre) && pre != []
    ensures Plain(pre[..1]) && Plain(pre[1..]) && pre[..1] + pre[1..] == pre
  {
    hide IsOption;
  }

  lemma {:induction false} ReadAfter(x: Syntax, pre: seq<string>, rest: seq<string>, m: nat)
    requires Plain(pre) && Partly(rest, m) && !x.Plus()
    ensures Partly(pre + rest, m) && Read(x, pre + rest, m) == Read(x, rest, m).Behind(pre)
  {
    hide Read, Partly, Plain, Reading.Behind, Syntax.Plus;
    PartlyAfter(pre, rest, m);
    if pre == [] {
      assert pre + rest == rest;
      BehindBoth(Read(x, rest, m), [], []);
    } else {
      PlainParts(pre);
      PartlyAfter(pre[1..], rest, m);
      assert (pre + rest)[1..] == pre[1..] + rest && (pre + rest)[..1] == pre[..1];
      ReadPlain(x, pre + rest, m);
      ReadAfter(x, pre[1..], rest, m);
      BehindBoth(Read(x, rest, m), pre[..1], pre[1..]);
    }
  }

  // ---- reading the first argument

  /** What is left to read after an option took its arguments. */
  ghost function Took(t: Taken, taken: seq<string>, r: Reading): Reading {
    Reading(t.reports + r.reports, taken + r.options, r.others, r.stop)
  }

  lemma ReadFront(x: Syntax, rest: seq<string>, m: nat)
    requires rest != [] && IsOption(rest[0]) && Partly(rest, m) && m < |rest[0]|
    ensures var t := Front(x, rest, m);
            Read(x, rest, m) == if t.width == 0 then Reading(t.reports, [], rest, t.stop)
                                else Took(t, rest[..t.width], Read(x, rest[t.width..], 0))
  {
    assert rest[0] != "--";
    hide Front, IsOption;
  }

  lemma TookBehind(t: Taken, taken: seq<string>, r: Reading, pre: seq<string>)
    ensures Took(t, taken, r).Behind(pre) == Took(t, taken, r.Behind(pre))
  {}

  lemma PartlyNot(args: seq<string>) ensures Partly(args, 0) {}

  lemma ReadStop(x: Syntax, rest: seq<string>, m: nat)
    requires Partly(rest, m) && (rest == [] || rest[0] == "--")
    ensures Read(x, rest, m) == if rest == [] then Reading([], [], [], End) else Reading([], [], rest[1..], Dashes)
  {
    hide Front;
  }

  lemma ReadPlus(x: Syntax, args: seq<string>, m: nat)
    requires args != [] && Plain(args[..1]) && Partly(args, m) && x.Plus()
    ensures Read(x, args, m) == Reading([], [], args, End)
  {
    assert args[..1][0] == args[0];
    hide Front, IsOption, IsLong;
  }

  lemma PartlyHere(args: seq<string>, m: nat)
    requires Partly(args, m) && args != [] && IsOption(args[0])
    ensures m < |args[0]|
  {}

  lemma PartlyTail(args: seq<string>, m: nat)
    requires Partly(args, m) && args != [] && Plain(args[..1])
    ensures Partly(args[1..], m)
  {
    assert args[..1] + args[1..] == args;
    PartlyAfter(args[..1], args[1..], m);
  }

  /** An argument that is neither an option nor the double dash. */
  lemma FirstPlain(args: seq<string>)
    requires args != []
    ensures Plain(args[..1]) <==> args[0] != "--" && !IsOption(args[0])
    ensures IsOption(args[0]) ==> args[0] != "--"
  {
    assert args[..1][0] == args[0];
  }

  // ---- reading on

  lemma {:induction false} NextBefore(args: seq<string>, more: seq<string>)
    requires Next(args) < |args|
    ensures Next(args + more) == Next(args)
  {
    if args[0] == "--" || IsOption(args[0]) {
    } else {
      assert (args + more)[1..] == args[1..] + more;
      NextBefore(args[1..], more);
    }
  }

  lemma PartlyMore(args: seq<string>, more: seq<string>, m: nat)
    requires Partly(args, m)
    ensures Partly(args + more, m)
  {
    if m > 0 {
      NextBefore(args, more);
      assert (args + more)[Next(args)] == args[Next(args)];
    }
    hide IsOption, IsLong;
  }

  /** One reading after the other. */
  function Joined(r: Reading, s: Reading): Reading {
    Reading(r.reports + s.reports, r.options + s.options, r.others + s.others, s.stop)
  }

  /**
   * More arguments are read as if by themselves, if those before have been read to the end and, with a leading plus,
   * were all options.
   */
  lemma {:induction false} ReadOn(x: Syntax, args: seq<string>, more: seq<string>, m: nat)
    requires Partly(args, m) && Partly(args + more, m) && Partly(more, 0)
    requires Read(x, args, m).stop == End && (x.Plus() ==> Read(x, args, m).others == [])
    ensures Read(x, args + more, m) == Joined(Read(x, args, m), Read(x, more, 0))
    decreases |args|
  {
    hide Front, Read, Partly, Plain, IsOption, IsLong;
    var all := args + more;
    if args == [] {
      assert all == more;
      NonePartly(m);
      ReadStop(x, args, m);
    } else if args[0] == "--" {
      ReadStop(x, args, m);
    } else if !IsOption(args[0]) {
      FirstPlain(args);
      assert all[..1] == args[..1] && all[1..] == args[1..] + more;
      PartlyTail(args, m);
      PartlyTail(all, m);
      if x.Plus() {
        ReadPlus(x, args, m);
      } else {
        ReadPlain(x, args, m);
        ReadPlain(x, all, m);
        ReadOn(x, args[1..], more, m);
        assert args[..1] + (Read(x, args[1..], m).others + Read(x, more, 0).others)
            == args[..1] + Read(x, args[1..], m).others + Read(x, more, 0).others;
      }
    } else {
      PartlyHere(args, m);
      ReadFront(x, args, m);
      var t := Front(x, args, m);
      if t.width > 0 {
        var rest := args[t.width..];
        assert all == args[..t.width] + (rest + more) && all[t.width..] == rest + more;
        FrontOnly(x, args, rest + more, m);
        ReadFront(x, all, m);
        PartlyNot(rest);
        PartlyNot(rest + more);
        ReadOn(x, rest, more, 0);
        JoinedTook(t, args[..t.width], Read(x, rest, 0), Read(x, more, 0));
      }
    }
  }

  lemma JoinedTook(t: Taken, taken: seq<string>, r: Reading, s: Reading)
    ensures Took(t, taken, Joined(r, s)) == Joined(Took(t, taken, r), s)
  {
    assert t.reports + (r.reports + s.reports) == t.reports + r.reports + s.reports;
    assert taken + (r.options + s.options) == taken + r.options + s.options;
  }

  /** Whatever stands behind a double dash is left as it is. */
  lemma AfterDashes(x: Syntax, args: seq<string>, post: seq<string>, m: nat)
    requires Partly(args, m) && Read(x, args, m).stop == End && (x.Plus() ==> Read(x, args, m).others == [])
    ensures var r := Read(x, args, m);
            && Partly(args + (["--"] + post), m)
            && Read(x, args + (["--"] + post), m) == Reading(r.reports, r.options, r.others + post, Dashes)
  {
    hide Read, Partly;
    var more := ["--"] + post;
    PartlyMore(args, more, m);
    PartlyNot(more);
    ReadOn(x, args, more, m);
    ReadStop(x, more, 0);
  }

  /** With a leading plus, so is everything from the first argument on that is no option. */
  lemma AfterPlain(x: Syntax, args: seq<string>, s: string, post: seq<string>, m: nat)
    requires Partly(args, m) && Read(x, args, m).stop == End && x.Plus() && Read(x, args, m).others == []
    requires Dashless(s)
    ensures var r := Read(x, args, m);
            && Partly(args + ([s] + post), m)
            && Read(x, args + ([s] + post), m) == Reading(r.reports, r.options, [s] + post, End)
  {
    var more := [s] + post;
    FirstPlain(more);
    hide Read, Partly;
    PartlyMore(args, more, m);
    PartlyNot(more);
    ReadOn(x, args, more, m);
    ReadPlus(x, more, 0);
  }

  lemma NonePartly(m: nat) requires Partly([], m) ensures m == 0 {}

  // ---- what a reading is

  /** `args` holds both, each in its own order. */
  ghost predicate Shuffle(args: seq<string>, a: seq<string>, b: seq<string>) {
    if args == [] then a == [] && b == []
    else
      || (a != [] && a[0] == args[0] && Shuffle(args[1..], a[1..], b))
      || (b != [] && b[0] == args[0] && Shuffle(args[1..], a, b[1..]))
  }

  lemma {:induction false} ShuffleFirst(taken: seq<string>, args: seq<string>, a: seq<string>, b: seq<string>)
    requires Shuffle(args, a, b)
    ensures Shuffle(taken + args, taken + a, b)
  {
    if taken == [] {
      assert taken + args == args && taken + a == a;
    } else {
      ShuffleFirst(taken[1..], args, a, b);
      assert (taken + args)[1..] == taken[1..] + args && (taken + a)[1..] == taken[1..] + a;
    }
  }

  lemma {:induction false} ShuffleNone(args: seq<string>)
    ensures Shuffle(args, [], args)
  {
    if args != [] { ShuffleNone(args[1..]); }
  }

  /** Nothing is lost, and neither the options nor the other arguments change their order. */
  lemma {:induction false} ReadShuffle(x: Syntax, args: seq<string>, m: nat)
    requires Partly(args, m)
    ensures var r := Read(x, args, m); Shuffle(args, r.options + r.Dash(), r.others)
    decreases |args|
  {
    hide Front, Read, Partly, Plain, IsOption;
    ShuffleNone(args);
    if args == [] || args[0] == "--" {
      ReadStop(x, args, m);
      if args != [] {
        ShuffleNone(args[1..]);
        ShuffleFirst(["--"], args[1..], [], args[1..]);
        assert ["--"] + args[1..] == args && ["--"] + [] == [] + ["--"];
      }
    } else if !IsOption(args[0]) {
      FirstPlain(args);
      if x.Plus() {
        ReadPlus(x, args, m);
      } else {
        PartlyTail(args, m);
        ReadPlain(x, args, m);
        ReadShuffle(x, args[1..], m);
        var n := Read(x, args[1..], m);
        ShuffleSecond(args, n.options + n.Dash(), n.others);
      }
    } else {
      ReadShuffleOption(x, args, m);
    }
  }

  lemma ShuffleSecond(args: seq<string>, a: seq<string>, b: seq<string>)
    requires args != [] && Shuffle(args[1..], a, b)
    ensures Shuffle(args, a, args[..1] + b)
  {
    assert (args[..1] + b)[1..] == b;
  }

  lemma {:induction false} ReadShuffleOption(x: Syntax, args: seq<string>, m: nat)
    requires Partly(args, m) && args != [] && IsOption(args[0])
    ensures var r := Read(x, args, m); Shuffle(args, r.options + r.Dash(), r.others)
    decreases |args|, 0
  {
    hide Front, Read, Partly, IsOption, Shuffle;
    PartlyHere(args, m);
    ReadFront(x, args, m);
    var t := Front(x, args, m);
    if t.width == 0 {
      ShuffleNone(args);
      assert [] + Read(x, args, m).Dash() == [];
    } else {
      PartlyNot(args[t.width..]);
      var n := Read(x, args[t.width..], 0);
      ReadShuffle(x, args[t.width..], 0);
      ShuffleFirst(args[..t.width], args[t.width..], n.options + n.Dash(), n.others);
      assert args[..t.width] + args[t.width..] == args;
      assert args[..t.width] + n.options + n.Dash() == args[..t.width] + (n.options + n.Dash());
    }
  }

  /** Not an option, as far as its first character tells. */
  ghost predicate Dashless(s: string) { s == "-" || !("-" <= s) }

  /**
   * What is left over holds no option: before a double dash everything that starts with a dash, the lone dash apart, is
   * taken as an option or its value. With a leading plus the first argument left over is none.
   */
  lemma {:induction false} OthersDashless(x: Syntax, args: seq<string>, m: nat)
    requires Partly(args, m) && Read(x, args, m).stop == End
    ensures var o := Read(x, args, m).others;
            if x.Plus() then o == [] || Dashless(o[0]) else forall i | 0 <= i < |o| :: Dashless(o[i])
    decreases |args|
  {
    hide Front, Read, Partly, Plain;
    if args == [] || args[0] == "--" {
      ReadStop(x, args, m);
    } else if !IsOption(args[0]) {
      FirstPlain(args);
      if x.Plus() {
        ReadPlus(x, args, m);
      } else {
        PartlyTail(args, m);
        ReadPlain(x, args, m);
        OthersDashless(x, args[1..], m);
      }
    } else {
      PartlyHere(args, m);
      ReadFront(x, args, m);
      var t := Front(x, args, m);
      if t.width > 0 {
        PartlyNot(args[t.width..]);
        OthersDashless(x, args[t.width..], 0);
      }
    }
  }

  // ---- reading again

  /** An option and its value are read alike whatever comes after them. */
  lemma FrontOnly(x: Syntax, args: seq<string>, more: seq<string>, m: nat)
    requires args != [] && IsOption(args[0]) && m < |args[0]| && Front(x, args, m).width > 0
    ensures var w := Front(x, args, m).width;
            (args[..w] + more)[0] == args[0] && Front(x, args[..w] + more, m) == Front(x, args, m)
  {
    var w := Front(x, args, m).width;
    var b := args[..w] + more;
    assert b[0] == args[0] && (w == 2 ==> b[1] == args[1]);
    if IsLong(args[0]) {
      LongOnly(x, args, b);
    } else {
      hide Need;
      ClusterOnly(x, args, b, if m == 0 then 1 else m);
    }
  }

  lemma LongOnly(x: Syntax, args: seq<string>, b: seq<string>)
    requires args != [] && IsLong(args[0])
    requires var w := Long(x, args).width; w > 0 && |b| >= w && b[0] == args[0] && (w == 2 ==> b[1] == args[1])
    ensures Long(x, b) == Long(x, args)
  {}

  lemma {:induction false} ClusterOnly(x: Syntax, args: seq<string>, b: seq<string>, m: nat)
    requires args != [] && m < |args[0]|
    requires var w := Cluster(x, args, m).width; w > 0 && |b| >= w && b[0] == args[0] && (w == 2 ==> b[1] == args[1])
    ensures Cluster(x, b, m) == Cluster(x, args, m)
    decreases |args[0]| - m
  {
    hide Need;
    if m + 1 < |args[0]| && Need(x.shorts, args[0][m]) == NO_ARGUMENT { ClusterOnly(x, args, b, m + 1); }
  }

  /** The options of a reading, put first, are read as before. */
  lemma {:induction false} OptionsFirst(x: Syntax, args: seq<string>, tail: seq<string>)
    requires Partly(args, 0) && Partly(tail, 0) && Read(x, args, 0).stop in {End, Dashes}
    ensures var r, q := Read(x, args, 0), Read(x, tail, 0);
            Partly(r.options + tail, 0)
                && Read(x, r.options + tail, 0)
                   == Reading(r.reports + q.reports, r.options + q.options, q.others, q.stop)
    decreases |args|
  {
    hide Front, Read, Partly, Plain, IsOption;
    var r, q := Read(x, args, 0), Read(x, tail, 0);
    PartlyNot(r.options + tail);
    assert [] + tail == tail && [] + q.reports == q.reports && [] + q.options == q.options;
    if args == [] || args[0] == "--" {
      ReadStop(x, args, 0);
    } else if !IsOption(args[0]) {
      FirstPlain(args);
      if x.Plus() {
        ReadPlus(x, args, 0);
      } else {
        PartlyTail(args, 0);
        ReadPlain(x, args, 0);
        OptionsFirst(x, args[1..], tail);
      }
    } else {
      OptionsFirstOption(x, args, tail);
    }
  }

  lemma {:induction false} OptionsFirstOption(x: Syntax, args: seq<string>, tail: seq<string>)
    requires Partly(args, 0) && Partly(tail, 0) && Read(x, args, 0).stop in {End, Dashes} && args != []
    requires IsOption(args[0])
    ensures var r, q := Read(x, args, 0), Read(x, tail, 0);
            Partly(r.options + tail, 0)
                && Read(x, r.options + tail, 0)
                   == Reading(r.reports + q.reports, r.options + q.options, q.others, q.stop)
    decreases |args|, 0
  {
    hide Front, Read, Partly, IsOption;
    PartlyHere(args, 0);
    ReadFront(x, args, 0);
    var r, q, t := Read(x, args, 0), Read(x, tail, 0), Front(x, args, 0);
    PartlyNot(args[t.width..]);
    var n := Read(x, args[t.width..], 0);
    OptionsFirst(x, args[t.width..], tail);
    FrontOnly(x, args, n.options + tail, 0);
    var row := args[..t.width] + (n.options + tail);
    assert r.options + tail == row && row[..t.width] == args[..t.width] && row[t.width..] == n.options + tail;
    PartlyNot(row);
    ReadFront(x, row, 0);
    assert t.reports + (n.reports + q.reports) == r.reports + q.reports;
    assert args[..t.width] + (n.options + q.options) == r.options + q.options;
  }

  /** The other arguments, when no double dash came before them, hold no option. */
  lemma {:induction false} OthersAgain(x: Syntax, args: seq<string>)
    requires Partly(args, 0) && Read(x, args, 0).stop == End
    ensures var o := Read(x, args, 0).others; Partly(o, 0) && Read(x, o, 0) == Reading([], [], o, End)
    decreases |args|
  {
    hide Front, Read, Partly, Plain, IsOption;
    PartlyNot(Read(x, args, 0).others);
    if args == [] || args[0] == "--" {
      ReadStop(x, args, 0);
    } else if !IsOption(args[0]) {
      FirstPlain(args);
      if x.Plus() {
        ReadPlus(x, args, 0);
      } else {
        PartlyTail(args, 0);
        ReadPlain(x, args, 0);
        OthersAgain(x, args[1..]);
        var o := Read(x, args[1..], 0).others;
        ReadAfter(x, args[..1], o, 0);
      }
    } else {
      PartlyHere(args, 0);
      ReadFront(x, args, 0);
      PartlyNot(args[Front(x, args, 0).width..]);
      OthersAgain(x, args[Front(x, args, 0).width..]);
    }
  }

  /** Reading the row a reading leaves behind gives the same reading. */
  lemma Reread(x: Syntax, args: seq<string>)
    requires Partly(args, 0) && Read(x, args, 0).stop in {End, Dashes}
    ensures var r := Read(x, args, 0);
            var row := r.options + r.Dash() + r.others;
            Partly(row, 0) && Read(x, row, 0) == r
  {
    hide Read, Partly;
    var r := Read(x, args, 0);
    var tail := r.Dash() + r.others;
    PartlyNot(tail);
    OptionsFirst(x, args, tail);
    assert r.options + r.Dash() + r.others == r.options + tail;
    if r.stop == End {
      OthersAgain(x, args);
      assert tail == r.others;
    } else {
      ReadStop(x, tail, 0);
      assert tail[1..] == r.others;
    }
    assert r.reports + [] == r.reports && r.options + [] == r.options;
  }

  // ---- what a cluster says

  /** An option character that is declared, is not the question mark, and takes no value. */
  ghost predicate Bare(x: Syntax, c: char) { c in x.shorts && c != '?' && !Takes(x.shorts, c) }

  ghost predicate BareReport(x: Syntax, r: Report, c: char) { r == Report(c as int, None, map[]) && Bare(x, c) }

  ghost predicate FirstAt(s: string, c: char, i: int) { 0 <= i < |s| && s[i] == c && c !in s[..i] }

  /** A colon stands behind the first occurrence of an option character. */
  ghost predicate Takes(shorts: string, c: char) {
    c != ':' && exists i :: FirstAt(shorts, c, i) && ":" <= shorts[i + 1..]
  }

  /** Two colons do. */
  ghost predicate MayTake(shorts: string, c: char) {
    c != ':' && exists i :: FirstAt(shorts, c, i) && "::" <= shorts[i + 1..]
  }

  lemma NeedIs(shorts: string, c: char)
    requires c in shorts
    ensures Need(shorts, c) == if MayTake(shorts, c) then OPTIONAL_ARGUMENT
                               else if Takes(shorts, c) then REQUIRED_ARGUMENT else NO_ARGUMENT
    ensures MayTake(shorts, c) ==> Takes(shorts, c)
  {
    var k := IndexOf(shorts, c);
    assert FirstAt(shorts, c, k);
    forall i | FirstAt(shorts, c, i) ensures i == k { OnlyAt(shorts, c, i, k); }
    assert "::" <= shorts[k + 1..] ==> ":" <= shorts[k + 1..];
  }

  lemma Earlier(s: string, c: char, i: int, k: int)
    requires 0 <= i < k <= |s| && s[i] == c
    ensures c in s[..k]
  {
    assert s[..k][i] == c;
  }

  lemma OnlyAt(s: string, c: char, i: int, k: int)
    requires FirstAt(s, c, i) && FirstAt(s, c, k)
    ensures i == k
  {
    if i < k { Earlier(s, c, i, k); }
    if k < i { Earlier(s, c, k, i); }
  }

  /**
   * Every character from `m` on, as far as `r` goes, and a value at most for the last: what follows in the argument, or
   * the next argument for a character that must have one and has nothing behind it.
   */
  ghost predicate OncePer(x: Syntax, r: seq<Report>, args: seq<string>, m: nat, width: nat)
    requires args != []
  {
    && 0 < |r| <= |args[0]| - m
    && (forall i | 0 <= i < |r| ::
          && r[i].code == args[0][m + i] as int && args[0][m + i] in x.shorts && args[0][m + i] != '?'
          && r[i].stored == map[])
    && (forall i | 0 <= i < |r| - 1 :: r[i].value == None && !Takes(x.shorts, args[0][m + i]))
    && var c := args[0][m + |r| - 1];
       match r[|r| - 1].value
       case None => m + |r| == |args[0]| && width == 1 && (Takes(x.shorts, c) ==> MayTake(x.shorts, c))
       case Some(v) =>
         && Takes(x.shorts, c)
         && if m + |r| < |args[0]| then v == args[0][m + |r|..] && width == 1
            else !MayTake(x.shorts, c) && |args| > 1 && v == args[1] && width == 2
  }

  /** Bare characters up to one that is not declared, is the question mark, or lacks the value it must have. */
  ghost predicate BrokenOff(x: Syntax, r: seq<Report>, args: seq<string>, m: nat, stop: Stop)
    requires args != []
  {
    && m + |r| < |args[0]|
    && (forall i | 0 <= i < |r| :: BareReport(x, r[i], args[0][m + i]))
    && BrokenAt(x, args, m + |r|, stop)
  }

  ghost predicate BrokenAt(x: Syntax, args: seq<string>, k: nat, stop: Stop)
    requires args != [] && k < |args[0]|
  {
    var c := args[0][k];
    if c !in x.shorts then stop == if x.shorts == "" then Refused else Undefined
    else
      && stop == Refused
      && (c == '?' || (k + 1 == |args[0]| && |args| == 1 && Takes(x.shorts, c) && !MayTake(x.shorts, c)))
  }

  lemma OnceMore(x: Syntax, r: seq<Report>, args: seq<string>, m: nat, width: nat, first: Report)
    requires args != [] && OncePer(x, r, args, m + 1, width) && first == Report(args[0][m] as int, None, map[])
    requires Bare(x, args[0][m])
    ensures OncePer(x, [first] + r, args, m, width)
  {
    hide Takes, MayTake;
    var n := [first] + r;
    forall i | 0 <= i < |n|
      ensures n[i].code == args[0][m + i] as int && args[0][m + i] in x.shorts && args[0][m + i] != '?'
      ensures n[i].stored == map[]
      ensures i < |n| - 1 ==> n[i].value == None && !Takes(x.shorts, args[0][m + i])
    {
      if i > 0 {
        assert n[i] == r[i - 1];
        assert args[0][m + 1 + (i - 1)] == args[0][m + i];
      }
    }
    assert n[|n| - 1] == r[|r| - 1];
  }

  lemma BrokenMore(x: Syntax, r: seq<Report>, args: seq<string>, m: nat, stop: Stop, first: Report)
    requires args != [] && BrokenOff(x, r, args, m + 1, stop) && first == Report(args[0][m] as int, None, map[])
    requires Bare(x, args[0][m])
    ensures BrokenOff(x, [first] + r, args, m, stop)
  {
    hide Takes, MayTake;
    var n := [first] + r;
    forall i | 0 <= i < |n| ensures BareReport(x, n[i], args[0][m + i]) {
      if i > 0 { assert BareReport(x, r[i - 1], args[0][m + 1 + (i - 1)]); }
    }
  }

  /**
   * Options in a cluster are each reported once, in order, and only the last can have a value: the rest of the argument
   * or the next one. A cluster that is refused has reported what stands before the character that is.
   */
  lemma {:induction false} ClusterOnce(x: Syntax, args: seq<string>, m: nat)
    requires args != [] && m < |args[0]|
    ensures var t := Cluster(x, args, m);
            if t.width > 0 then OncePer(x, t.reports, args, m, t.width) else BrokenOff(x, t.reports, args, m, t.stop)
    decreases |args[0]| - m
  {
    var c := args[0][m];
    if c in x.shorts {
      NeedIs(x.shorts, c);
      hide Need, Takes, MayTake;
      if c != '?' && m + 1 < |args[0]| && Need(x.shorts, c) == NO_ARGUMENT {
        ClusterOnce(x, args, m + 1);
        var t := Cluster(x, args, m + 1);
        var first := Report(c as int, None, map[]);
        if t.width > 0 {
          OnceMore(x, t.reports, args, m, t.width, first);
        } else {
          BrokenMore(x, t.reports, args, m, t.stop, first);
        }
      }
    }
  }

  // ---- what a long option says

  /** An argument names an option: by itself, or with a value behind an equals sign. */
  ghost predicate Spells(arg: string, name: string) { arg == "--" + name || "--" + name + "=" <= arg }

  /** The first option declared that the argument names. */
  ghost predicate FirstSpelled(x: Syntax, arg: string, o: LongOption) {
    exists i | 0 <= i < |x.longs| ::
      x.longs[i] == o && Spells(arg, o.name) && forall j | 0 <= j < i :: !Spells(arg, x.longs[j].name)
  }

  lemma SpellsIs(arg: string, o: LongOption)
    requires IsLong(arg)
    ensures Spells(arg, o.name) <==> o.Matches(arg[2..])
  {
    var s := arg[2..];
    assert arg == "--" + s;
    if o.Matches(s) {
      if |s| == |o.name| {
        assert s == o.name;
      } else {
        assert s[..|o.name| + 1] == o.name + "=";
        assert arg[..|o.name| + 3] == "--" + o.name + "=";
      }
    }
    if Spells(arg, o.name) {
      if arg == "--" + o.name {
        assert s == o.name;
      } else {
        assert arg[2..|o.name| + 3] == o.name + "=";
        assert s[..|o.name|] == o.name && s[|o.name|] == '=';
      }
    }
  }

  lemma NamedIs(x: Syntax, arg: string)
    requires IsLong(arg)
    ensures var i := Named(x.longs, arg[2..]);
            if i < |x.longs| then FirstSpelled(x, arg, x.longs[i])
            else forall j | 0 <= j < |x.longs| :: !Spells(arg, x.longs[j].name)
  {
    var i := Named(x.longs, arg[2..]);
    forall j | 0 <= j < |x.longs| ensures Spells(arg, x.longs[j].name) <==> x.longs[j].Matches(arg[2..]) {
      SpellsIs(arg, x.longs[j]);
    }
    hide LongOption.Matches, Spells;
  }

  /** The value, if any, is what stands behind the equals sign, or the next argument. */
  ghost predicate OneLong(o: LongOption, args: seq<string>, t: Taken)
    requires args != []
  {
    && |t.reports| == 1 && t.stop == End
    && t.reports[0].code == (if o.flag.Some? then 0 else o.val) && t.reports[0].code != QUESTION
    && t.reports[0].stored == (if o.flag.Some? then map[o.flag.value := o.val] else map[])
    && match t.reports[0].value
       case None =>
         args[0] == "--" + o.name && t.width == 1 && (o.hasArg == NO_ARGUMENT || o.hasArg == OPTIONAL_ARGUMENT)
       case Some(v) =>
         || (args[0] == "--" + o.name + "=" + v && t.width == 1
             && (o.hasArg == REQUIRED_ARGUMENT || o.hasArg == OPTIONAL_ARGUMENT))
         || (args[0] == "--" + o.name && t.width == 2 && o.hasArg == REQUIRED_ARGUMENT && |args| > 1 && v == args[1])
  }

  /** The option stands for a question mark, has a value it may not have, lacks one it must have, or is not sound. */
  ghost predicate Improper(o: LongOption, args: seq<string>)
    requires args != []
  {
    || (if o.flag.Some? then 0 else o.val) == QUESTION
    || (o.hasArg == NO_ARGUMENT && args[0] != "--" + o.name)
    || (o.hasArg == REQUIRED_ARGUMENT && args[0] == "--" + o.name && |args| == 1)
    || o.hasArg !in {NO_ARGUMENT, REQUIRED_ARGUMENT, OPTIONAL_ARGUMENT}
  }

  lemma InlineIs(o: LongOption, arg: string)
    requires IsLong(arg) && o.Matches(arg[2..])
    ensures match Inline(o, arg[2..])
            case None => arg == "--" + o.name
            case Some(v) => arg == "--" + o.name + "=" + v && arg != "--" + o.name
  {
    var s := arg[2..];
    assert arg == "--" + s;
    if |s| == |o.name| {
      assert s == o.name;
    } else {
      assert s == s[..|o.name|] + "=" + s[|o.name| + 1..];
      assert arg == "--" + o.name + "=" + s[|o.name| + 1..];
    }
  }

  /**
   * A long option is reported once, with its own code or the store its flag asks for, and the value behind its equals
   * sign or, if it must have one, the next argument. It is refused exactly if it is none of the declared ones or may
   * not stand there like that.
   */
  lemma LongOnce(x: Syntax, args: seq<string>)
    requires args != [] && IsLong(args[0])
    ensures var t := Long(x, args);
            if t.width > 0 then exists o :: FirstSpelled(x, args[0], o) && OneLong(o, args, t) && !Improper(o, args)
            else
              && t == Taken([], 0, Refused)
              && forall o | FirstSpelled(x, args[0], o) :: Improper(o, args)
  {
    NamedIs(x, args[0]);
    var i := Named(x.longs, args[0][2..]);
    if i < |x.longs| {
      var o := x.longs[i];
      InlineIs(o, args[0]);
      OnlyFirst(x, args[0], o);
      hide Inline, FirstSpelled;
    } else {
      hide Spells;
    }
  }

  lemma OnlyFirst(x: Syntax, arg: string, o: LongOption)
    requires FirstSpelled(x, arg, o)
    ensures forall q | FirstSpelled(x, arg, q) :: q == o
  {
    hide Spells;
  }
}

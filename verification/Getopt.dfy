/** getopt_long: one option to a call, found anywhere in argv and rotated to the front in place. */
module Getopt {
  import opened Options

  // ---- short option declarations

  /** A string cut at every occurrence of a character. */
  ghost function Split(s: string, c: char): (parts: seq<string>)
    ensures parts != []
  {
    if s == "" then [""]
    else
      var n := |s| - 1;
      var p := Split(s[..n], c);
      if s[n] == c then p + [""] else p[..|p| - 1] + [p[|p| - 1] + [s[n]]]
  }

  /** A part is what stands between the first occurrence of a character and the next. */
  ghost predicate Second(s: string, c: char, part: string) {
    var i := IndexOf(s, c) + 1;
    && i + |part| <= |s| && s[i..i + |part|] == part && c !in part
    && (i + |part| < |s| ==> s[i + |part|] == c)
  }

  ghost predicate Parts(s: string, c: char, p: seq<string>) {
    if c !in s then p == [s]
    else |p| >= 2 && Second(s, c, p[1]) && (IndexOf(s, c) + 1 + |p[1]| == |s| <==> |p| == 2)
  }

  /** The part after the first occurrence decides what the option needs. */
  lemma {:induction false} SplitSecond(s: string, c: char)
    ensures Parts(s, c, Split(s, c))
  {
    if s != "" {
      hide Split, Parts;
      var t, e := s[..|s| - 1], s[|s| - 1];
      assert s == t + [e];
      SplitSecond(t, c);
      SplitLast(s, c);
      PartsMore(t, c, Split(t, c), e);
    }
  }

  lemma PartsMore(t: string, c: char, p: seq<string>, e: char)
    requires Parts(t, c, p) && p != []
    ensures Parts(t + [e], c, if e == c then p + [""] else p[..|p| - 1] + [p[|p| - 1] + [e]])
  {
    hide Second, IndexOf;
    IndexOfFront(t, e, c);
    if c in t {
      SecondMore(t, c, p[1], e);
    } else if e == c {
      SecondNone(t, c);
    }
  }

  lemma SecondMore(t: string, c: char, part: string, e: char)
    requires c in t && Second(t, c, part)
    ensures var i := IndexOf(t, c) + 1;
            && i + |part| <= |t|
            && (if i + |part| < |t| || e == c then Second(t + [e], c, part) else Second(t + [e], c, part + [e]))
  {
    IndexOfFront(t, e, c);
    hide IndexOf;
    var i, n, s := IndexOf(t, c) + 1, |part|, t + [e];
    assert s[i..i + n] == t[i..i + n];
    if i + n == |t| && e != c { assert s[i..i + n + 1] == part + [e]; }
  }

  lemma SecondNone(t: string, c: char)
    requires c !in t
    ensures Second(t + [c], c, "") && IndexOf(t + [c], c) == |t|
  {
    IndexOfFront(t, c, c);
  }

  lemma {:induction false} IndexOfFront(t: string, e: char, c: char)
    ensures IndexOf(t + [e], c) == if c in t then IndexOf(t, c) else if e == c then |t| else |t| + 1
  {
    if t == "" {
      assert t + [e] == [e];
    } else {
      assert (t + [e])[1..] == t[1..] + [e];
      IndexOfFront(t[1..], e, c);
    }
  }

  lemma SecondNeed(s: string, c: char, part: string)
    requires c in s && Second(s, c, part)
    ensures Need(s, c) == if "::" <= part then OPTIONAL_ARGUMENT else if ":" <= part then REQUIRED_ARGUMENT
            else NO_ARGUMENT
  {
    var after := s[IndexOf(s, c) + 1..];
    assert after[..|part|] == part;
    if c == ':' {
      assert |part| > 0 ==> part[0] != ':';
    } else {
      assert |part| < |after| ==> after[|part|] == c;
      assert |part| > 0 ==> after[0] == part[0];
      assert |part| > 1 ==> after[1] == part[1];
    }
  }

  lemma SplitNone(s: string, c: char)
    ensures Split(s[..0], c) == [] + [s[0..0]]
  {}

  lemma SplitNext(s: string, i: nat, c: char, parts: seq<string>, start: nat)
    requires start <= i < |s| && Split(s[..i], c) == parts + [s[start..i]]
    ensures Split(s[..i + 1], c) == if s[i] == c then parts + [s[start..i]] + [s[i + 1..i + 1]]
            else parts + [s[start..i + 1]]
  {
    hide Split;
    var t, p := s[..i + 1], parts + [s[start..i]];
    assert t[..i] == s[..i] && t[i] == s[i];
    SplitLast(t, c);
    assert s[start..i + 1] == s[start..i] + [s[i]] && s[i + 1..i + 1] == "";
    assert p[..|p| - 1] == parts && p[|p| - 1] == s[start..i];
  }

  lemma SplitLast(t: string, c: char)
    requires t != ""
    ensures var p, e := Split(t[..|t| - 1], c), t[|t| - 1];
            Split(t, c) == if e == c then p + [""] else p[..|p| - 1] + [p[|p| - 1] + [e]]
  {}

  method SplitShortOptions(shorts: string, c: char) returns (parts: seq<string>)
    ensures parts == if shorts == "" then [] else Split(shorts, c)
  {
    hide Split;
    if shorts == "" { return []; }
    var start := 0;
    parts := [];
    var i := 0;
    SplitNone(shorts, c);
    while i < |shorts|
      invariant 0 <= start <= i <= |shorts| && Split(shorts[..i], c) == parts + [shorts[start..i]]
    {
      SplitNext(shorts, i, c, parts, start);
      if shorts[i] == c {
        parts := parts + [shorts[start..i]];
        start := i + 1;
      }
      i := i + 1;
    }
    assert shorts[..i] == shorts;
    parts := parts + [shorts[start..]];
  }

  /** There is a second part exactly when the character occurs. */
  lemma SplitTwo(s: string, c: char)
    ensures |Split(s, c)| >= 2 <==> c in s
  {
    SplitSecond(s, c);
  }

  /**
   * Whether a short option is declared and what it needs. The second part is read in any case: it is not there exactly
   * if options are declared, but not this one.
   */
  method LookupShortOption(shorts: string, c: char) returns (outside: bool, found: bool, need: int)
    ensures outside <==> shorts != "" && c !in shorts
    ensures found <==> c in shorts
    ensures found ==> need == Need(shorts, c)
    ensures found ==> need == if MayTake(shorts, c) then OPTIONAL_ARGUMENT
                              else if Takes(shorts, c) then REQUIRED_ARGUMENT else NO_ARGUMENT
  {
    var parts := SplitShortOptions(shorts, c);
    if parts == [] { return false, false, REQUIRED_ARGUMENT; }
    SplitTwo(shorts, c);
    if |parts| < 2 { return true, false, REQUIRED_ARGUMENT; }
    SplitSecond(shorts, c);
    SecondNeed(shorts, c, parts[1]);
    NeedIs(shorts, c);
    hide Need, Takes, MayTake;
    if "::" <= parts[1] {
      need := OPTIONAL_ARGUMENT;
    } else if ":" <= parts[1] {
      need := REQUIRED_ARGUMENT;
    } else {
      need := NO_ARGUMENT;
    }
    outside, found := false, true;
  }

  /** With "a" declared, looking up "b" reads a part that is not there. */
  method Undeclared() returns (outside: bool)
    ensures outside
  {
    var found, need;
    outside, found, need := LookupShortOption("a", 'b');
  }

  // ---- one call

  /** The first argument that is not a lone dash. */
  function PastDash(args: seq<string>): (k: nat)
    ensures k <= |args| && (k < |args| ==> args[k] != "-")
    ensures forall j | 0 <= j < k :: args[j] == "-"
  {
    if args == [] || args[0] != "-" then 0 else 1 + PastDash(args[1..])
  }

  /** Where a call stops looking. */
  function Found(x: Syntax, args: seq<string>): (k: nat)
    ensures k <= |args| && (!x.Plus() ==> k == Next(args))
  {
    if x.Plus() then PastDash(args) else Next(args)
  }

  lemma FoundStep(x: Syntax, args: seq<string>)
    requires args != []
    ensures var s := args[0];
            Found(x, args) == if s == "--" || IsOption(s) || (s != "-" && x.Plus()) then 0 else 1 + Found(x, args[1..])
    ensures var s := args[0]; IsOption(s) <==> "-" <= s && s != "-" && s != "--"
  {}

  /** With a leading plus, a lone dash is passed over, although the option after it is not moved in front of it. */
  predicate Misled(x: Syntax, args: seq<string>) {
    var k := Found(x, args);
    x.Plus() && 0 < k < |args| && (args[k] == "--" || IsOption(args[k]))
  }

  /** A long option, or an option character that is declared, unless none is. */
  predicate Declared(x: Syntax, s: string, m: nat) {
    IsLong(s) || x.shorts == "" || |s| < 2 || m >= |s| || s[if m == 0 then 1 else m] in x.shorts
  }

  /** The option character that is not declared, or 0. */
  function Unknown(x: Syntax, s: string, m: nat): int
    requires |s| >= 2 && m < |s|
  {
    var c := s[if m == 0 then 1 else m];
    if IsLong(s) || c in x.shorts then 0 else c as int
  }

  /** What a call has to complain of. */
  function Complaint(x: Syntax, args: seq<string>, m: nat): int {
    var k := Found(x, args);
    if k < |args| && IsOption(args[k]) && m < |args[k]| then Unknown(x, args[k], m) else 0
  }

  /** What a call comes to is declared. */
  predicate Defined(x: Syntax, args: seq<string>, m: nat) {
    var k := Found(x, args);
    k < |args| && IsOption(args[k]) ==> Declared(x, args[k], m)
  }

  /** An option takes its arguments out of the row. */
  lemma StepTaken(x: Syntax, pre: seq<string>, rest: seq<string>, m: nat)
    requires Partly(rest, m) && Plain(pre) && (x.Plus() ==> pre == [])
    requires rest != [] && IsOption(rest[0]) && m < |rest[0]| && Front(x, rest, m).width > 0
    ensures var t := Front(x, rest, m);
            Partly(pre + rest, m)
                && Read(x, pre + rest, m) == Took(t, rest[..t.width], Read(x, pre + rest[t.width..], 0))
  {
    hide Front, IsOption, Read, Partly, Plain, Took, Reading.Behind;
    var t := Front(x, rest, m);
    ReadFront(x, rest, m);
    PartlyNot(rest[t.width..]);
    if x.Plus() {
      assert pre + rest == rest && pre + rest[t.width..] == rest[t.width..];
    } else {
      ReadAfter(x, pre, rest, m);
      ReadAfter(x, pre, rest[t.width..], 0);
      TookBehind(t, rest[..t.width], Read(x, rest[t.width..], 0), pre);
    }
  }

  /** An option that may not stand there ends the reading. */
  lemma StepRefused(x: Syntax, pre: seq<string>, rest: seq<string>, m: nat)
    requires Partly(rest, m) && Plain(pre) && (x.Plus() ==> pre == [])
    requires rest != [] && IsOption(rest[0]) && m < |rest[0]| && Front(x, rest, m).width == 0
    ensures var t := Front(x, rest, m);
            Partly(pre + rest, m) && Read(x, pre + rest, m) == Reading(t.reports, [], pre + rest, t.stop)
  {
    hide Front, IsOption, Read, Partly, Plain, Took;
    ReadFront(x, rest, m);
    if x.Plus() {
      assert pre + rest == rest;
    } else {
      ReadAfter(x, pre, rest, m);
    }
  }

  /** An option that is declared and has the value it needs, or may have. */
  ghost predicate Proper(x: Syntax, rest: seq<string>, m: nat)
    requires rest != [] && IsOption(rest[0]) && m < |rest[0]|
  {
    if IsLong(rest[0]) then
      var i := Named(x.longs, rest[0][2..]);
      && i < |x.longs|
      && var o := x.longs[i];
         && o.hasArg in {NO_ARGUMENT, REQUIRED_ARGUMENT, OPTIONAL_ARGUMENT}
         && (o.hasArg == NO_ARGUMENT ==> Inline(o, rest[0][2..]).None?)
         && (o.hasArg == REQUIRED_ARGUMENT ==> Inline(o, rest[0][2..]).Some? || |rest| > 1)
    else
      var n := if m == 0 then 1 else m;
      && rest[0][n] in x.shorts
      && (Need(x.shorts, rest[0][n]) == REQUIRED_ARGUMENT ==> n + 1 < |rest[0]| || |rest| > 1)
  }

  /** What stands for the option in the caller's program. */
  ghost function CodeOf(x: Syntax, rest: seq<string>, m: nat): int
    requires rest != [] && IsOption(rest[0]) && m < |rest[0]| && Proper(x, rest, m)
  {
    if IsLong(rest[0]) then x.longs[Named(x.longs, rest[0][2..])].Code()
    else rest[0][if m == 0 then 1 else m] as int
  }

  lemma FrontProper(x: Syntax, rest: seq<string>, m: nat)
    requires rest != [] && IsOption(rest[0]) && m < |rest[0]| && Proper(x, rest, m)
    ensures var t, code := Front(x, rest, m), CodeOf(x, rest, m);
            if code == QUESTION then t == Taken([], 0, Refused) else t.reports != [] && t.reports[0].code == code
  {
    hide Need, Inline;
  }

  /**
   * A question mark stands for a refusal. So a proper option, long or at any place in a cluster, is the next to be
   * reported exactly if its code is not the question mark; if it is, it is refused.
   */
  lemma ReportedUnlessQuestion(x: Syntax, pre: seq<string>, rest: seq<string>, m: nat)
    requires Plain(pre) && (x.Plus() ==> pre == []) && Partly(rest, m)
    requires rest != [] && IsOption(rest[0]) && m < |rest[0]| && Proper(x, rest, m)
    ensures Partly(pre + rest, m)
    ensures var r, code := Read(x, pre + rest, m), CodeOf(x, rest, m);
            && (r.reports != [] && r.reports[0].code == code <==> code != QUESTION)
            && (code == QUESTION ==> r == Reading([], [], pre + rest, Refused))
  {
    hide Read, Partly, Front, Plain, Proper, CodeOf, IsOption, Took;
    FrontProper(x, rest, m);
    var t := Front(x, rest, m);
    if t.width == 0 {
      StepRefused(x, pre, rest, m);
    } else {
      StepTaken(x, pre, rest, m);
      PartlyNot(pre + rest[t.width..]);
      TookFirst(t, rest[..t.width], Read(x, pre + rest[t.width..], 0));
    }
  }

  lemma TookFirst(t: Taken, taken: seq<string>, r: Reading)
    ensures t.reports <= Took(t, taken, r).reports && (t.reports != [] ==> Took(t, taken, r).reports != [])
  {}

  /** An option named by a question mark is refused although it is declared. */
  lemma QuestionRefused()
    ensures Partly(["-?"], 0) && Read(Syntax("?", []), ["-?"], 0) == Reading([], [], ["-?"], Refused)
  {
    var x, rest := Syntax("?", []), ["-?"];
    assert rest[0][1] == '?' && "--"[1] == '-';
    assert IsOption(rest[0]) && !IsLong(rest[0]) && Need(x.shorts, '?') == NO_ARGUMENT && Proper(x, rest, 0);
    assert CodeOf(x, rest, 0) == QUESTION && [] + rest == rest;
    hide Read, Partly, Proper, CodeOf;
    PartlyNot(rest);
    ReportedUnlessQuestion(x, [], rest, 0);
  }

  ghost predicate Short(rest: seq<string>, m: nat) {
    rest != [] && IsOption(rest[0]) && !IsLong(rest[0]) && m < |rest[0]|
  }

  lemma WithinFront(x: Syntax, rest: seq<string>, m: nat)
    requires Short(rest, m) && Short(rest, m + 1) && m > 0
    requires var c := rest[0][m]; c in x.shorts && c != '?' && Need(x.shorts, c) == NO_ARGUMENT
    ensures Partly(rest, m) && Partly(rest, m + 1)
    ensures var u := Front(x, rest, m + 1);
            Front(x, rest, m) == Taken([Report(rest[0][m] as int, None, map[])] + u.reports, u.width, u.stop)
  {
    hide Need;
  }

  lemma TookMore(report: Report, u: Taken, taken: seq<string>, r: Reading)
    ensures var now := Took(u, taken, r);
            Took(u.(reports := [report] + u.reports), taken, r) == now.(reports := [report] + now.reports)
  {
    assert [report] + u.reports + r.reports == [report] + (u.reports + r.reports);
  }

  /** An option inside a cluster leaves the argument where it is. */
  lemma StepWithin(x: Syntax, pre: seq<string>, rest: seq<string>, m: nat)
    requires Plain(pre) && (x.Plus() ==> pre == []) && Short(rest, m) && Short(rest, m + 1) && m > 0
    requires var c := rest[0][m]; c in x.shorts && c != '?' && Need(x.shorts, c) == NO_ARGUMENT
    ensures Partly(pre + rest, m) && Partly(pre + rest, m + 1)
    ensures var now := Read(x, pre + rest, m + 1);
            Read(x, pre + rest, m) == now.(reports := [Report(rest[0][m] as int, None, map[])] + now.reports)
  {
    hide Front, IsOption, IsLong, Need, Partly, Plain, Read, Took;
    WithinFront(x, rest, m);
    var u := Front(x, rest, m + 1);
    if u.width == 0 {
      StepRefused(x, pre, rest, m);
      StepRefused(x, pre, rest, m + 1);
    } else {
      StepTaken(x, pre, rest, m);
      StepTaken(x, pre, rest, m + 1);
      PartlyNot(pre + rest[u.width..]);
      TookMore(Report(rest[0][m] as int, None, map[]), u, rest[..u.width], Read(x, pre + rest[u.width..], 0));
    }
  }

  /** Nothing to take. */
  lemma StepEnd(x: Syntax, args: seq<string>, m: nat)
    requires Partly(args, m) && !Misled(x, args) && var k := Found(x, args); k < |args| ==> !IsOption(args[k])
    ensures var k := Found(x, args);
            Read(x, args, m) == if k < |args| && args[k] == "--" then Reading([], [], args[..k] + args[k + 1..], Dashes)
                                else Reading([], [], args, End)
  {
    var k := Found(x, args);
    if !x.Plus() {
      assert Plain(args[..k]) && args[..k] + args[k..] == args;
      PartlyAfter(args[..k], args[k..], m);
      ReadStop(x, args[k..], m);
      hide Read, Plain, Partly, IsOption;
      ReadAfter(x, args[..k], args[k..], m);
      assert k < |args| ==> args[k..][1..] == args[k + 1..];
      assert k == |args| ==> args[..k] + [] == args;
    }
  }

  lemma FoundFront(x: Syntax, args: seq<string>, m: nat)
    requires Partly(args, m) && var k := Found(x, args); k < |args| && IsOption(args[k])
    ensures var k := Found(x, args);
            Partly(args[k..], m) && Plain(args[..k]) && m < |args[k]| && (IsLong(args[k]) ==> m == 0)
    ensures args[..Found(x, args)] + args[Found(x, args)..] == args
  {
    var k := Found(x, args);
    assert args == args[..k] + args[k..];
    assert Plain(args[..k]);
    PartlyAfter(args[..k], args[k..], m);
    assert Next(args[k..]) == 0;
  }

  /** What reading one option does. */
  ghost predicate Handled(x: Syntax, rest: seq<string>, m: nat, report: Report, multi: nat, consumed: nat)
    requires rest != [] && IsOption(rest[0]) && m < |rest[0]|
  {
    var t := Front(x, rest, m);
    if report.code == QUESTION then t.reports == [] && t.width == 0 && t.stop == Refused
    else
      && t.reports != [] && t.reports[0] == report && report.code != EOF
      && if multi == 0 then |t.reports| == 1 && t.width == consumed && consumed > 0
         else multi == (if m == 0 then 1 else m) + 1 && consumed == 0 && Within(x, rest, multi - 1, report)
  }

  /** An option character that takes no value, with more after it. */
  ghost predicate Within(x: Syntax, rest: seq<string>, m: nat, report: Report) {
    && m > 0 && Short(rest, m + 1) && report == Report(rest[0][m] as int, None, map[])
    && var c := rest[0][m]; c in x.shorts && c != '?' && Need(x.shorts, c) == NO_ARGUMENT
  }

  lemma ReadAtOne(x: Syntax, args: seq<string>, rest: seq<string>, pre: seq<string>)
    requires args == pre + rest && Plain(pre) && (x.Plus() ==> pre == []) && Short(rest, 1)
    ensures Partly(args, 1) && Partly(args, 0) && Read(x, args, 1) == Read(x, args, 0)
  {
    hide Read, Plain, IsOption, IsLong;
    assert Front(x, rest, 0) == Front(x, rest, 1);
    hide Front;
    if Front(x, rest, 0).width == 0 {
      StepRefused(x, pre, rest, 0);
      StepRefused(x, pre, rest, 1);
    } else {
      StepTaken(x, pre, rest, 0);
      StepTaken(x, pre, rest, 1);
    }
  }

  /** What a call reports, and what is left to report and to leave behind after it. */
  ghost predicate Delivered(was: Reading, now: Reading, report: Report, taken: seq<string>) {
    was == Reading([report] + now.reports, taken + now.options, now.others, now.stop)
  }

  lemma StepHandled(x: Syntax, pre: seq<string>, rest: seq<string>, m: nat, report: Report, multi: nat, consumed: nat)
    requires Partly(rest, m) && Plain(pre) && (x.Plus() ==> pre == [])
    requires rest != [] && IsOption(rest[0]) && m < |rest[0]| && Handled(x, rest, m, report, multi, consumed)
    ensures Partly(pre + rest, m)
    ensures report.code == QUESTION ==> Read(x, pre + rest, m) == Reading([], [], pre + rest, Refused)
    ensures report.code != QUESTION ==>
              && consumed <= |rest| && Partly(pre + rest[consumed..], multi)
              && Delivered(Read(x, pre + rest, m), Read(x, pre + rest[consumed..], multi), report, rest[..consumed])
  {
    hide Read, Plain, IsOption, Front, Within, Partly;
    if report.code == QUESTION {
      StepRefused(x, pre, rest, m);
    } else if multi == 0 {
      PartlyNot(pre + rest[consumed..]);
      StepTaken(x, pre, rest, m);
    } else {
      WithinShort(x, rest, multi - 1, report);
      StepWithin(x, pre, rest, multi - 1);
      if m == 0 { ReadAtOne(x, pre + rest, rest, pre); }
      assert rest[0..] == rest;
    }
  }

  lemma WithinShort(x: Syntax, rest: seq<string>, m: nat, report: Report)
    requires Within(x, rest, m, report)
    ensures m > 0 && Short(rest, m) && Short(rest, m + 1) && report == Report(rest[0][m] as int, None, map[])
    ensures var c := rest[0][m]; c in x.shorts && c != '?' && Need(x.shorts, c) == NO_ARGUMENT
  {}

  /** No long option returns what stands for the end of the options. */
  ghost predicate NoEof(x: Syntax) { forall i | 0 <= i < |x.longs| :: x.longs[i].Code() != EOF }

  lemma NotNamed(name: string, s: string)
    requires !(name <= s && (|s| == |name| || s[|name|] == '='))
    ensures s != name && !(name + "=" <= s)
  {}

  class OptionsParser {
    const argv: array<string>
    const syntax: Syntax
    var optind: nat
    var optarg: Option<string>
    var optopt: int
    var optreset: bool
    /** How far into a cluster of short options the calls have come. */
    var multi: nat
    var argIndex: nat
    var consumed: nat
    var longIndex: nat
    /** The variables that the flags of long options name. */
    var flags: map<int, int>

    ghost function Left(): seq<string>
      requires optind <= argv.Length
      reads this, argv
    {
      argv[optind..]
    }

    ghost predicate Valid()
      reads this, argv
    {
      optind <= argv.Length && Partly(Left(), multi) && NoEof(syntax)
    }

    /** What the calls from here on will report and leave behind. */
    ghost function Now(): Reading
      requires Valid()
      reads this, argv
    {
      Read(syntax, Left(), multi)
    }

    method FindNextOption() returns (found: bool)
      requires optind <= argv.Length
      modifies `argIndex
      ensures argIndex == optind + Found(syntax, Left())
      ensures found <==> argIndex < argv.Length && IsOption(argv[argIndex])
    {
      hide Found, Syntax.Plus;
      argIndex := optind;
      while argIndex < argv.Length
        invariant optind <= argIndex <= argv.Length
        invariant Found(syntax, Left()) == argIndex - optind + Found(syntax, argv[argIndex..])
      {
        var arg := argv[argIndex];
        assert argv[argIndex..][1..] == argv[argIndex + 1..];
        FoundStep(syntax, argv[argIndex..]);
        if !("-" <= arg) {
          if syntax.Plus() { return false; }
        } else if arg == "-" {
        } else if arg == "--" {
          return false;
        } else {
          return true;
        }
        argIndex := argIndex + 1;
      }
      return false;
    }

    method LookupLongOption(s: string) returns (i: nat)
      modifies `longIndex, `optarg
      ensures i == Named(syntax.longs, s)
      ensures i < |syntax.longs| ==> optarg == Inline(syntax.longs[i], s) && longIndex == i
      ensures i < |syntax.longs| ==>
        match optarg
        case None => s == syntax.longs[i].name
        case Some(v) => s == syntax.longs[i].name + "=" + v
      ensures forall j | 0 <= j < i :: s != syntax.longs[j].name && !(syntax.longs[j].name + "=" <= s)
    {
      i := 0;
      while i < |syntax.longs|
        invariant 0 <= i <= |syntax.longs| && Named(syntax.longs, s) == i + Named(syntax.longs[i..], s)
        invariant forall j | 0 <= j < i :: s != syntax.longs[j].name && !(syntax.longs[j].name + "=" <= s)
      {
        var name := syntax.longs[i].name;
        assert syntax.longs[i..][1..] == syntax.longs[i + 1..];
        if name <= s {
          longIndex := i;
          if |s| == |name| {
            optarg := None;
            return;
          } else if s[|name|] == '=' {
            optarg := Some(s[|name| + 1..]);
            assert s == s[..|name|] + "=" + s[|name| + 1..];
            return;
          }
        }
        NotNamed(name, s);
        i := i + 1;
      }
    }

    method HandleLongOption() returns (res: int)
      requires argIndex < argv.Length && IsLong(argv[argIndex])
      modifies `optopt, `optarg, `longIndex, `consumed, `flags
      ensures var t := Long(syntax, argv[argIndex..]);
              if t.width == 0 then res == QUESTION
              else t.reports == [Report(res, optarg, t.reports[0].stored)] && res != QUESTION && consumed == t.width
                   && flags == old(flags) + t.reports[0].stored
      ensures var args := argv[argIndex..];
              if res == QUESTION then forall o | FirstSpelled(syntax, args[0], o) :: Improper(o, args)
              else
                && longIndex < |syntax.longs| && var o := syntax.longs[longIndex];
                && FirstSpelled(syntax, args[0], o)
                && var stored := if o.flag.Some? then map[o.flag.value := o.val] else map[];
                   flags == old(flags) + stored && OneLong(o, args, Taken([Report(res, optarg, stored)], consumed, End))
      ensures optopt == 0
    {
      LongOnce(syntax, argv[argIndex..]);
      NamedIs(syntax, argv[argIndex]);
      forall o | FirstSpelled(syntax, argv[argIndex], o) { OnlyFirst(syntax, argv[argIndex], o); }
      hide FirstSpelled, Improper, OneLong;
      optopt := 0;
      var i := LookupLongOption(argv[argIndex][2..]);
      if i == |syntax.longs| { return QUESTION; }
      var o := syntax.longs[i];
      if o.hasArg == NO_ARGUMENT {
        if optarg.Some? { return QUESTION; }
        consumed := 1;
      } else if o.hasArg == REQUIRED_ARGUMENT {
        if optarg.Some? {
          consumed := 1;
        } else if argIndex + 1 < argv.Length {
          optarg := Some(argv[argIndex + 1]);
          consumed := 2;
        } else {
          return QUESTION;
        }
      } else if o.hasArg == OPTIONAL_ARGUMENT {
        consumed := 1;
      } else {
        return QUESTION;
      }
      if o.flag.Some? {
        flags := flags[o.flag.value := o.val];
        return 0;
      }
      return o.val;
    }

    method HandleShortOption() returns (outside: bool, res: int)
      requires argIndex < argv.Length && Short(argv[argIndex..], multi)
      modifies `optopt, `optarg, `multi, `consumed
      ensures outside <==> !Declared(syntax, argv[argIndex], old(multi))
      ensures outside ==> res == QUESTION
      ensures old(optopt) == 0 ==> optopt == Unknown(syntax, argv[argIndex], old(multi))
      ensures !outside ==>
        ShortDone(syntax, argv[argIndex..], if old(multi) == 0 then 1 else old(multi), res, optarg, multi, consumed)
    {
      var arg := argv[argIndex];
      if multi == 0 { multi := 1; }
      var c := arg[multi];
      multi := multi + 1;
      var found, need;
      outside, found, need := LookupShortOption(syntax.shorts, c);
      if !found {
        optopt := c as int;
        return outside, QUESTION;
      }
      hide Need;
      if multi < |arg| {
        if need == NO_ARGUMENT {
          optarg := None;
          consumed := 0;
        } else {
          optarg := Some(arg[multi..]);
          multi := 0;
          consumed := 1;
        }
      } else {
        multi := 0;
        if need != REQUIRED_ARGUMENT {
          optarg := None;
          consumed := 1;
        } else if argIndex + 1 < argv.Length {
          optarg := Some(argv[argIndex + 1]);
          consumed := 2;
        } else {
          return false, QUESTION;
        }
      }
      return false, c as int;
    }

    /** Rotate the arguments taken to the front of those not yet dealt with. */
    method ShiftArgv()
      requires optind <= argIndex && argIndex + consumed <= argv.Length
      modifies argv
      ensures argv[..] == Rotated(old(argv[..]), optind, argIndex, consumed)
    {
      if optind == argIndex || consumed == 0 {
        RotatedNot(argv[..], optind, argIndex, consumed);
        return;
      }
      ghost var row := argv[..];
      var buffer := argv[argIndex..argIndex + consumed];
      MoveUp();
      ghost var moved := argv[..];
      CopyIn(buffer);
      RotatedBy(row, optind, argIndex, consumed, moved, argv[..]);
    }

    /** memmove of the arguments passed over. */
    method MoveUp()
      requires optind <= argIndex && argIndex + consumed <= argv.Length
      modifies argv
      ensures argv[..] == old(argv[..optind + consumed] + argv[optind..argIndex] + argv[argIndex + consumed..])
    {
      forall i | optind <= i < argIndex { argv[i + consumed] := argv[i]; }
    }

    /** memcpy back to the front. */
    method CopyIn(buffer: seq<string>)
      requires optind + |buffer| <= argv.Length
      modifies argv
      ensures argv[..] == old(argv[..optind]) + buffer + old(argv[optind + |buffer|..])
    {
      forall i | 0 <= i < |buffer| { argv[optind + i] := buffer[i]; }
    }

    method HandleOption() returns (outside: bool, res: int, ghost report: Report)
      requires argIndex < argv.Length
      requires var rest := argv[argIndex..]; IsOption(rest[0]) && multi < |rest[0]| && (IsLong(rest[0]) ==> multi == 0)
      requires NoEof(syntax)
      modifies `optopt, `optarg, `multi, `consumed, `longIndex, `flags
      ensures outside <==> !Declared(syntax, argv[argIndex], old(multi))
      ensures report.code == res && (outside ==> res == QUESTION)
      ensures !outside ==> res != EOF && Handled(syntax, argv[argIndex..], old(multi), report, multi, consumed)
      ensures res != QUESTION ==>
        optarg == report.value && flags == old(flags) + report.stored && argIndex + consumed <= argv.Length
      ensures old(optopt) == 0 ==> optopt == Unknown(syntax, argv[argIndex], old(multi))
    {
      ghost var rest := argv[argIndex..];
      outside := false;
      if IsLong(argv[argIndex]) {
        res := HandleLongOption();
        ghost var t := Long(syntax, rest);
        report := if t.width == 0 then Report(res, None, map[]) else t.reports[0];
      } else {
        outside, res := HandleShortOption();
        report := Report(res, optarg, map[]);
      }
      hide Cluster;
    }

    /** The arguments taken join those dealt with. */
    method Advance()
      requires optind <= argIndex && argIndex + consumed <= argv.Length
      modifies argv, `optind
      ensures optind == old(optind) + consumed
      ensures argv[..] == if syntax.Plus() then old(argv[..])
              else Rotated(old(argv[..]), old(optind), argIndex, consumed)
    {
      if !syntax.Plus() { ShiftArgv(); }
      optind := optind + consumed;
    }

    lemma RowParts(at: nat)
      requires at <= optind <= argv.Length
      ensures argv[..at] == argv[..][..at] && argv[at..optind] == argv[..][at..optind] && Left() == argv[..][optind..]
    {}

    /** No option was found. */
    method NoOption() returns (res: int)
      requires Valid() && argIndex == optind + Found(syntax, Left())
      requires (argIndex < argv.Length ==> !IsOption(argv[argIndex]))
      modifies this, argv
      ensures res == EOF && optreset == old(optreset) && optind <= argv.Length && optopt == old(optopt)
      ensures !Misled(syntax, old(Left())) ==> Ended(old(Now()), old(argv[..optind]), argv[..], optind)
      ensures Misled(syntax, old(Left())) ==> argv[..] == old(argv[..]) && optind == old(optind) + 1
    {
      hide Read, Partly, Found, IsOption, Misled, Ended, NoEof, Syntax.Plus, Rotated;
      ghost var args, row, at, was := Left(), argv[..], optind, Now();
      FoundAt(syntax, args);
      assert argIndex < argv.Length ==> args[argIndex - optind] == argv[argIndex];
      res := EOF;
      consumed := if argIndex < argv.Length && argv[argIndex] == "--" then 1 else 0;
      EndedWith(syntax, row, at, argIndex, multi, consumed);
      Advance();
    }

    /** An option was found. */
    method TakeOption() returns (outside: bool, res: int, ghost report: Report)
      requires Valid() && argIndex == optind + Found(syntax, Left()) && argIndex < argv.Length
      requires IsOption(argv[argIndex])
      modifies this, argv
      ensures outside <==> !Defined(syntax, old(Left()), old(multi))
      ensures report.code == res != EOF && optreset == old(optreset)
      ensures !Misled(syntax, old(Left())) ==>
        var was := old(Now());
        if outside then was.reports == [] && was.stop == Undefined
        else if res == QUESTION then was == Reading([], [], old(Left()), Refused)
        else
          && optarg == report.value && flags == old(flags) + report.stored
          && old(optind) <= optind && argv[..old(optind)] == old(argv[..optind])
          && Valid() && Delivered(was, Now(), report, argv[old(optind)..optind])
      ensures Misled(syntax, old(Left())) && !outside ==>
        && argv[..] == old(argv[..]) && Again(syntax, old(Left()), old(multi), report, multi, consumed)
        && (res != QUESTION ==> optind == old(optind) + consumed)
      ensures res != QUESTION ==> Valid() && Further(old(optind), old(multi), old(argv[..]))
      ensures !outside && res == QUESTION ==> argv[..] == old(argv[..]) && optind == old(optind)
      ensures old(optopt) == 0 ==> optopt == Complaint(syntax, old(Left()), old(multi))
    {
      hide Handled, Delivered, Read, Partly, Found, IsOption, Misled, NoEof, Defined, Declared, Rotated, Syntax.Plus;
      hide Again, Unknown;
      ghost var args, m, row, at := Left(), multi, argv[..], optind;
      TakeReady(syntax, row, at, argIndex, m);
      assert row[at..] == args && row[argIndex..] == argv[argIndex..];
      outside, res, report := HandleOption();
      if outside {
        TakeOutside(syntax, row, at, argIndex, m);
        return;
      }
      TakeAgain(syntax, row, at, argIndex, m, report, multi, consumed);
      if res == QUESTION {
        TakeRefused(syntax, row, at, argIndex, m, report, multi, consumed);
        return;
      }
      AgainMoves(syntax, row, at, argIndex, m, report, multi, consumed);
      Advance();
      TakeDone(syntax, row, at, argIndex, m, report, multi, consumed, argv[..]);
      RowParts(at);
      if consumed > 0 { PartlyNot(Left()); }
    }

    /** The calls have come further. */
    ghost predicate Further(at: nat, m: nat, row: seq<string>)
      reads this, argv
    {
      optind > at || (optind == at && multi > m && argv[..] == row)
    }

    /**
     * One call: it reports the next option, or that there are no more, or refuses, unless it looks up an option that is
     * not declared. With a leading plus it may pass over a lone dash, and is then misled.
     */
    method NextOption() returns (outside: bool, res: int, ghost report: Report)
      requires Valid()
      modifies this, argv
      ensures outside <==> !Defined(syntax, old(Left()), old(multi))
      ensures report.code == res && optreset == old(optreset) && (!outside ==> optind <= argv.Length)
      ensures !Misled(syntax, old(Left())) ==>
        var was := old(Now());
        if outside then was.reports == [] && was.stop == Undefined
        else if was.reports != [] then
          && res != QUESTION && res != EOF && optarg == report.value && flags == old(flags) + report.stored
          && old(optind) <= optind && argv[..old(optind)] == old(argv[..optind])
          && Valid() && Delivered(was, Now(), report, argv[old(optind)..optind])
        else if was.stop == Refused then
          && res == QUESTION && was == Reading([], [], old(Left()), Refused)
          && argv[..] == old(argv[..]) && optind == old(optind)
        else res == EOF && Ended(was, old(argv[..optind]), argv[..], optind)
      ensures Misled(syntax, old(Left())) ==> old(Now()) == Reading([], [], old(Left()), End)
      ensures Misled(syntax, old(Left())) && !outside ==>
        && argv[..] == old(argv[..])
        && if IsOption(old(Left())[Found(syntax, old(Left()))]) then
             && res != EOF && Again(syntax, old(Left()), old(multi), report, multi, consumed)
             && (res != QUESTION ==> optind == old(optind) + consumed)
           else res == EOF && optind == old(optind) + 1
      ensures res != QUESTION && res != EOF ==> Valid() && Further(old(optind), old(multi), old(argv[..]))
      ensures old(Now()).reports == [] && old(Now()).stop in {End, Dashes} && !outside ==>
        (res == EOF && Ended(old(Now()), old(argv[..optind]), argv[..], optind) <==> !Misled(syntax, old(Left())))
      ensures old(optopt) == 0 ==> optopt == Complaint(syntax, old(Left()), old(multi))
    {
      hide Read, Partly, Found, IsOption, Defined, Misled, Again;
      ghost var left := Left();
      FoundAt(syntax, left);
      if Misled(syntax, left) { MisledRead(syntax, left, multi); }
      var found := FindNextOption();
      assert argIndex < argv.Length ==> left[argIndex - optind] == argv[argIndex];
      if !found {
        NothingDefined(syntax, left, multi);
        res := NoOption();
        outside := false;
        report := Report(res, None, map[]);
      } else {
        outside, res, report := TakeOption();
      }
    }

    constructor (argv0: array<string>, syntax0: Syntax)
      ensures argv == argv0 && syntax == syntax0 && optarg == None && optind == 1 && multi == 0 && !optreset
      ensures flags == map[]
    {
      argv, syntax := argv0, syntax0;
      optind, optarg, optopt, optreset, multi := 1, None, 0, false, 0;
      argIndex, consumed, longIndex, flags := 0, 0, 0, map[];
    }

    /** Nothing has been read yet, or it is to be read again. */
    ghost predicate Fresh() reads this {
      argv.Length >= 1 && (optreset || optind == 0 || (optind == 1 && multi == 0)) && NoEof(syntax)
    }

    /** What every call of getopt_long does before it looks for an option. */
    method Begin()
      modifies this
      ensures flags == old(flags) && !optreset && optarg == None && optopt == 0
      ensures if old(optreset) || old(optind) == 0 then optind == 1 && multi == 0
              else optind == old(optind) && multi == old(multi)
    {
      if optreset || optind == 0 {
        optreset := false;
        optind := 1;
        multi := 0;
      }
      optopt := 0;
      optarg := None;
    }

    /** A call, from wherever the globals say it is to go on. */
    method GetoptLong() returns (outside: bool, res: int, ghost report: Report)
      requires Able()
      modifies this, argv
      ensures outside <==> !Defined(syntax, old(Rest()), old(At()))
      ensures report.code == res && !optreset && (!outside ==> optind <= argv.Length)
      ensures var was, done, left := old(Start()), old(Done()), old(Rest());
        !Misled(syntax, left) ==>
          if outside then was.reports == [] && was.stop == Undefined
          else if was.reports != [] then
            && res != QUESTION && res != EOF && optarg == report.value && flags == old(flags) + report.stored
            && |done| <= optind && argv[..|done|] == done
            && Valid() && Delivered(was, Now(), report, argv[|done|..optind])
          else if was.stop == Refused then
            && res == QUESTION && was == Reading([], [], left, Refused)
            && argv[..] == done + left && optind == |done|
          else res == EOF && Ended(was, done, argv[..], optind)
      ensures var was, done, left := old(Start()), old(Done()), old(Rest());
        Misled(syntax, left) ==>
          && was == Reading([], [], left, End)
          && (!outside ==>
                && argv[..] == done + left && (res == EOF ==> optind == |done| + 1))
      ensures res != QUESTION && res != EOF ==>
        Valid() && Further(|old(Done())|, old(At()), old(Done() + Rest())) && |old(Done())| > 0
      ensures optopt == Complaint(syntax, old(Rest()), old(At()))
    {
      hide Read, Partly, Found, IsOption, Defined, Misled, Delivered, Ended, Again;
      PartlyNot(argv[1..]);
      Begin();
      assert argv[..] == Done() + Rest();
      outside, res, report := NextOption();
    }

    ghost predicate Able() reads this, argv { if optreset || optind == 0 then Fresh() else Valid() }
    ghost function At(): nat reads this { if optreset || optind == 0 then 0 else multi }

    ghost function Rest(): seq<string>
      requires Able()
      reads this, argv
    {
      if optreset || optind == 0 then argv[1..] else Left()
    }

    ghost function Done(): seq<string>
      requires Able()
      reads this, argv
    {
      if optreset || optind == 0 then argv[..1] else argv[..optind]
    }

    ghost function Start(): Reading requires Able() reads this, argv { Read(syntax, Rest(), At()) }

    /**
     * Calls until there are no more options, as ArgsParser makes them. Every option is reported once, in order, and
     * argv ends as a stable partition: the options with their values, the double dash, and all other arguments. It does
     * exactly if every short option is declared and, with a leading plus, no lone dash stands before an option or the
     * double dash.
     */
    method ParseOptions() returns (outside: bool, ok: bool, ghost reports: seq<Report>)
      requires Fresh()
      modifies this, argv
      ensures var all := old(Read(syntax, argv[1..], 0));
        !outside && Parsed(all, old(argv[..1]), ok, reports, argv[..], optind) <==> !Lost(syntax, all)
      ensures !outside ==> optind <= argv.Length
    {
      hide Read, Partly, Found, IsOption, Defined, Misled, Delivered, Ended, Parsed, Ahead, Lost, Going;
      hide Room, Complaint;
      PartlyNot(argv[1..]);
      ghost var all, first := Read(syntax, argv[1..], 0), argv[..1];
      reports := [];
      assert Start() == all && Done() == first;
      AheadStart(syntax, all, first);
      ghost var astray := false;
      while true
        invariant Able() && Going(syntax, all, first, astray, reports, Start(), Done())
        decreases |Rest()|, Room(Rest(), At())
      {
        ghost var was, done, left, m := Start(), Done(), Rest(), At();
        PartlyNot(left);
        var res: int;
        ghost var report: Report;
        outside, res, report := GetoptLong();
        if outside {
          GoneOutside(syntax, all, first, astray, reports, was, done, left);
          return true, false, reports;
        } else if res == EOF {
          GoneEnd(syntax, all, first, astray, reports, was, done, left, m, argv[..], optind);
          return false, true, reports;
        } else if res == QUESTION {
          GoneRefused(syntax, all, first, astray, reports, was, done, left, argv[..], optind);
          return false, false, reports;
        }
        RowParts(|done|);
        RowParts(optind);
        Onward(syntax, all, first, astray, reports, was, done, left, m, report, Now(), argv[..], optind, multi);
        astray := astray || Misled(syntax, left);
        reports := reports + [report];
      }
    }
  }

  /** With a leading plus, an option behind a lone dash is reported twice. */
  method ReportedTwice() returns (first: int, second: int)
    ensures first == second == 'a' as int
  {
    hide Read, Handled, Front, Again;
    var argv := new string[3](i => if i == 0 then "p" else if i == 1 then "-" else "-a");
    var p := new OptionsParser(argv, Syntax("+a", []));
    ghost var r: Report;
    ghost var left := ["-", "-a"];
    assert p.Left() == left;
    BehindDash(left);
    var outside;
    outside, first, r := p.NextOption();
    OptionA(r, p.multi, p.consumed);
    assert p.Left() == ["-a"];
    AloneA();
    ghost var was := p.Now();
    assert was.reports == [Report('a' as int, None, map[])];
    outside, second, r := p.NextOption();
    assert was.reports[0] == r;
  }

  lemma BehindDash(left: seq<string>)
    requires left == ["-", "-a"]
    ensures var x := Syntax("+a", []);
            Found(x, left) == 1 && Misled(x, left) && Defined(x, left, 0) && IsOption(left[1])
  {
    assert left[1..] == ["-a"] && |left[1..][0]| == 2;
    assert PastDash(left[1..]) == 0;
  }

  lemma OptionA(r: Report, multi: nat, consumed: nat)
    requires Again(Syntax("+a", []), ["-", "-a"], 0, r, multi, consumed)
    ensures r.code == 'a' as int && multi == 0 && consumed == 1
  {
    var x, left := Syntax("+a", []), ["-", "-a"];
    BehindDash(left);
    assert left[1..] == ["-a"];
    FrontA();
    hide Front;
  }

  lemma FrontA()
    ensures Front(Syntax("+a", []), ["-a"], 0) == Taken([Report('a' as int, None, map[])], 1, End)
  {}

  lemma AloneA()
    ensures var x, left := Syntax("+a", []), ["-a"];
            && Found(x, left) == 0 && !Misled(x, left) && Defined(x, left, 0) && Partly(left, 0)
            && Read(x, left, 0) == Reading([Report('a' as int, None, map[])], ["-a"], [], End)
  {
    FrontA();
  }

  /** What was reported and is still to come makes up the whole. */
  ghost predicate Ahead(all: Reading, first: seq<string>, reports: seq<Report>, now: Reading, done: seq<string>) {
    && all.reports == reports + now.reports && first + all.options == done + now.options
    && all.others == now.others && all.stop == now.stop && |first| <= |done|
  }

  lemma AheadNext(all: Reading, first: seq<string>, reports: seq<Report>, was: Reading, done: seq<string>,
                  report: Report, now: Reading, taken: seq<string>)
    requires Ahead(all, first, reports, was, done) && Delivered(was, now, report, taken)
    ensures Ahead(all, first, reports + [report], now, done + taken) && |now.reports| < |was.reports|
  {
    assert reports + ([report] + now.reports) == reports + [report] + now.reports;
    assert done + (taken + now.options) == done + taken + now.options;
  }

  lemma AheadEnded(all: Reading, first: seq<string>, reports: seq<Report>, was: Reading, done: seq<string>,
                   argv: seq<string>, optind: nat)
    requires Ahead(all, first, reports, was, done) && Ended(was, done, argv, optind)
    ensures reports == all.reports && all.stop != Refused && argv == first + all.options + all.Dash() + all.others
    ensures optind == |first| + |all.options| + |all.Dash()|
  {
    assert done + was.options == done;
  }

  lemma AheadRefused(all: Reading, first: seq<string>, reports: seq<Report>, was: Reading, done: seq<string>,
                     left: seq<string>)
    requires Ahead(all, first, reports, was, done) && was == Reading([], [], left, Refused)
    ensures reports == all.reports && all.stop == Refused && all.Dash() == []
    ensures done + left == first + all.options + all.Dash() + all.others && |done| == |first| + |all.options|
  {
    assert done + was.options == done;
  }

  // ---- going on to the end

  /** All options are read as they should be, and the row is left in order. */
  ghost predicate Parsed(all: Reading, first: seq<string>, ok: bool, reports: seq<Report>, argv: seq<string>,
                         optind: nat) {
    && reports == all.reports && (ok <==> all.stop != Refused)
    && argv == first + all.options + all.Dash() + all.others
    && optind == |first| + |all.options| + |all.Dash()|
  }

  /** The calls come to an option that is not declared, or are misled. */
  ghost predicate Lost(x: Syntax, all: Reading) {
    all.stop == Undefined || (all.stop == End && Misled(x, all.others))
  }

  ghost predicate Going(x: Syntax, all: Reading, first: seq<string>, astray: bool, reports: seq<Report>, now: Reading,
                        done: seq<string>) {
    if astray then Lost(x, all) && |reports| > |all.reports| else Ahead(all, first, reports, now, done)
  }

  lemma AheadStart(x: Syntax, all: Reading, first: seq<string>)
    ensures Going(x, all, first, false, [], all, first)
  {}

  lemma GoneOutside(x: Syntax, all: Reading, first: seq<string>, astray: bool, reports: seq<Report>, was: Reading,
                    done: seq<string>, left: seq<string>)
    requires Going(x, all, first, astray, reports, was, done)
    requires if Misled(x, left) then was == Reading([], [], left, End) else was.reports == [] && was.stop == Undefined
    ensures Lost(x, all)
  {
    hide Misled;
  }

  lemma GoneEnd(x: Syntax, all: Reading, first: seq<string>, astray: bool, reports: seq<Report>, was: Reading,
                done: seq<string>, left: seq<string>, m: nat, argv: seq<string>, optind: nat)
    requires Going(x, all, first, astray, reports, was, done) && Partly(left, m) && was == Read(x, left, m)
    requires if Misled(x, left) then was == Reading([], [], left, End) && optind == |done| + 1
             else Ended(was, done, argv, optind)
    ensures Parsed(all, first, true, reports, argv, optind) <==> !Lost(x, all)
  {
    hide Misled, Read, Partly;
    if !astray && Misled(x, left) {
      assert done + was.options == done;
    } else if !astray {
      AheadEnded(all, first, reports, was, done, argv, optind);
      if was.stop == End { OthersAll(x, left, m); }
    }
  }

  lemma GoneRefused(x: Syntax, all: Reading, first: seq<string>, astray: bool, reports: seq<Report>, was: Reading,
                    done: seq<string>, left: seq<string>, argv: seq<string>, optind: nat)
    requires Going(x, all, first, astray, reports, was, done)
    requires if Misled(x, left) then was == Reading([], [], left, End)
             else was == Reading([], [], left, Refused) && argv == done + left && optind == |done|
    ensures Parsed(all, first, false, reports, argv, optind) <==> !Lost(x, all)
  {
    hide Misled;
    if !astray && !Misled(x, left) { AheadRefused(all, first, reports, was, done, left); }
  }

  lemma GoingOn(x: Syntax, all: Reading, first: seq<string>, astray: bool, reports: seq<Report>, was: Reading,
                done: seq<string>, left: seq<string>, report: Report, now: Reading, taken: seq<string>)
    requires Going(x, all, first, astray, reports, was, done)
    requires if Misled(x, left) then was == Reading([], [], left, End) else Delivered(was, now, report, taken)
    ensures Going(x, all, first, astray || Misled(x, left), reports + [report], now, done + taken)
  {
    hide Misled;
    if !astray && !Misled(x, left) { AheadNext(all, first, reports, was, done, report, now, taken); }
  }

  lemma {:induction false} ShuffleOnly(args: seq<string>, b: seq<string>)
    requires Shuffle(args, [], b)
    ensures args == b
  {
    if args != [] { ShuffleOnly(args[1..], b[1..]); }
  }

  /** When no option is read, all arguments are others. */
  lemma OthersAll(x: Syntax, args: seq<string>, m: nat)
    requires Partly(args, m) && Read(x, args, m).options == [] && Read(x, args, m).stop == End
    ensures Read(x, args, m).others == args
  {
    hide Read, Partly;
    ReadShuffle(x, args, m);
    ShuffleOnly(args, Read(x, args, m).others);
  }

  /** What is left of the option the calls are at. */
  ghost function Room(args: seq<string>, m: nat): int {
    if Next(args) < |args| then |args[Next(args)]| - m else 0
  }

  lemma RoomLess(left: seq<string>, m: nat, now: seq<string>, multi: nat, done: seq<string>, did: seq<string>,
                 row: seq<string>)
    requires row == did + now && Partly(left, m) && Partly(now, multi) && |row| == |done + left|
    requires |did| > |done| || (|did| == |done| && multi > m && row == done + left)
    ensures |now| < |left| || (|now| == |left| && 0 <= Room(now, multi) < Room(left, m))
  {
    hide IsOption, IsLong;
    if |did| == |done| { assert now == row[|did|..] && left == (done + left)[|done|..]; }
  }

  lemma Onward(x: Syntax, all: Reading, first: seq<string>, astray: bool, reports: seq<Report>, was: Reading,
               done: seq<string>, left: seq<string>, m: nat, report: Report, now: Reading, row: seq<string>, k: nat,
               multi: nat)
    requires Going(x, all, first, astray, reports, was, done)
    requires |done| <= k <= |row| == |done + left| && row[..|done|] == done
    requires Partly(left, m) && Partly(row[k..], multi)
    requires k > |done| || (multi > m && row == done + left)
    requires if Misled(x, left) then was == Reading([], [], left, End) else Delivered(was, now, report, row[|done|..k])
    ensures Going(x, all, first, astray || Misled(x, left), reports + [report], now, row[..k])
    ensures |row[k..]| < |left| || (|row[k..]| == |left| && 0 <= Room(row[k..], multi) < Room(left, m))
  {
    hide Going, Misled, Delivered, Partly, Room;
    assert row[..k] == done + row[|done|..k] && row == row[..k] + row[k..];
    GoingOn(x, all, first, astray, reports, was, done, left, report, now, row[|done|..k]);
    RoomLess(left, m, row[k..], multi, done, row[..k], row);
  }

  /** A misled call has nothing to read by the rules. */
  lemma MisledRead(x: Syntax, args: seq<string>, m: nat)
    requires Misled(x, args) && Partly(args, m)
    ensures Read(x, args, m) == Reading([], [], args, End)
  {
    assert args[0] == "-";
    FirstPlain(args);
    hide Read, Partly;
    ReadPlus(x, args, m);
  }

  lemma NothingDefined(x: Syntax, args: seq<string>, m: nat)
    requires var k := Found(x, args); k < |args| ==> !IsOption(args[k])
    ensures Defined(x, args, m)
  {}

  /** A call has found an option at `index`. */
  ghost predicate Taking(x: Syntax, row: seq<string>, at: nat, index: nat, m: nat) {
    at <= index < |row| && Partly(row[at..], m) && index == at + Found(x, row[at..]) && IsOption(row[index])
  }

  lemma TakeReady(x: Syntax, row: seq<string>, at: nat, index: nat, m: nat)
    requires Taking(x, row, at, index, m)
    ensures var s := row[index]; m < |s| && (IsLong(s) ==> m == 0) && (Defined(x, row[at..], m) <==> Declared(x, s, m))
  {
    hide Partly, Found, IsOption, Declared;
    assert row[at..][index - at] == row[index];
    FoundFront(x, row[at..], m);
  }

  /** The option a call comes to is not declared. */
  lemma TakeOutside(x: Syntax, row: seq<string>, at: nat, index: nat, m: nat)
    requires Taking(x, row, at, index, m) && !Declared(x, row[index], m)
    ensures !Misled(x, row[at..]) ==> var r := Read(x, row[at..], m); r.reports == [] && r.stop == Undefined
  {
    hide Partly, Found, Read, Misled, Syntax.Plus;
    var args, k := row[at..], index - at;
    assert args[k] == row[index] && args[k..] == row[index..];
    FoundFront(x, args, m);
    FoundAt(x, args);
    assert Front(x, args[k..], m) == Taken([], 0, Undefined);
    hide Front, Declared, IsOption;
    if !Misled(x, args) { StepRefused(x, args[..k], args[k..], m); }
  }

  /** An option that is reported moves the place the calls have come to. */
  lemma AgainMoves(x: Syntax, row: seq<string>, at: nat, index: nat, m: nat, report: Report, multi: nat, consumed: nat)
    requires Taking(x, row, at, index, m) && m < |row[index]| && Handled(x, row[index..], m, report, multi, consumed)
    requires report.code != QUESTION
    ensures consumed > 0 || multi > m
    ensures consumed == 0 ==> Rotated(row, at, index, 0) == row && Partly(row[at..], multi)
    ensures consumed > 0 ==> multi == 0
  {
    hide Found, Front, Partly;
    RotatedNot(row, at, index, 0);
    if consumed == 0 {
      assert row[index..][0] == row[index] == row[at..][index - at];
      PartlyMore(x, row[at..], m, index - at, multi);
    }
  }

  lemma PartlyMore(x: Syntax, args: seq<string>, m: nat, k: nat, multi: nat)
    requires Partly(args, m) && k == Found(x, args) && k < |args| && IsOption(args[k]) && !IsLong(args[k])
    requires multi < |args[k]|
    ensures Partly(args, multi)
  {
    assert Next(args) == k;
  }

  lemma TakeAgain(x: Syntax, row: seq<string>, at: nat, index: nat, m: nat, report: Report, multi: nat, consumed: nat)
    requires Taking(x, row, at, index, m) && m < |row[index]| && Handled(x, row[index..], m, report, multi, consumed)
    ensures Again(x, row[at..], m, report, multi, consumed) && (Misled(x, row[at..]) ==> x.Plus())
  {
    hide Partly, Found, IsOption, Handled;
    assert row[at..][index - at] == row[index] && row[at..][index - at..] == row[index..];
  }

  lemma TakeRefused(x: Syntax, row: seq<string>, at: nat, index: nat, m: nat, report: Report, multi: nat, consumed: nat)
    requires Taking(x, row, at, index, m) && m < |row[index]| && Handled(x, row[index..], m, report, multi, consumed)
    requires report.code == QUESTION
    ensures !Misled(x, row[at..]) ==> Read(x, row[at..], m) == Reading([], [], row[at..], Refused)
  {
    hide Partly, Found, IsOption, Handled, Read, Misled, Syntax.Plus;
    var args, k := row[at..], index - at;
    assert args[k] == row[index] && args[k..] == row[index..];
    FoundFront(x, args, m);
    FoundAt(x, args);
    if !Misled(x, args) { StepHandled(x, args[..k], args[k..], m, report, multi, consumed); }
  }

  lemma TakeDone(x: Syntax, row: seq<string>, at: nat, index: nat, m: nat, report: Report, multi: nat, consumed: nat,
                 r: seq<string>)
    requires Taking(x, row, at, index, m) && m < |row[index]| && Handled(x, row[index..], m, report, multi, consumed)
    requires report.code != QUESTION
    requires index + consumed <= |row| && r == if x.Plus() then row else Rotated(row, at, index, consumed)
    ensures !Misled(x, row[at..]) ==>
              && |r| == |row| && r[..at] == row[..at] && Partly(r[at + consumed..], multi)
              && Delivered(Read(x, row[at..], m), Read(x, r[at + consumed..], multi), report, r[at..at + consumed])
  {
    hide Partly, Found, IsOption, Handled, Read, Misled, Syntax.Plus, Rotated, Delivered;
    var args, k := row[at..], index - at;
    assert args[k] == row[index] && args[k..] == row[index..];
    FoundFront(x, args, m);
    FoundAt(x, args);
    if !Misled(x, args) {
      StepHandled(x, args[..k], args[k..], m, report, multi, consumed);
      RowAfter(x, row, at, index, consumed, r);
    }
  }

  /** The option behind the lone dashes was read where it stands. */
  ghost predicate Again(x: Syntax, args: seq<string>, m: nat, report: Report, multi: nat, consumed: nat) {
    var k := Found(x, args);
    k < |args| && IsOption(args[k]) && m < |args[k]| && Handled(x, args[k..], m, report, multi, consumed)
  }

  /** The row of arguments when no options are left. */
  ghost predicate Ended(was: Reading, done: seq<string>, argv: seq<string>, optind: nat) {
    was.reports == [] && was.options == [] && was.stop in {End, Dashes} && argv == done + was.Dash() + was.others
        && optind == |done + was.Dash()|
  }

  lemma EndedWith(x: Syntax, row: seq<string>, at: nat, index: nat, m: nat, consumed: nat)
    requires at <= index <= |row| && Partly(row[at..], m) && index == at + Found(x, row[at..])
    requires (index < |row| ==> !IsOption(row[index]))
    requires consumed == if index < |row| && row[index] == "--" then 1 else 0
    ensures !Misled(x, row[at..]) ==>
              var r := if x.Plus() then row else Rotated(row, at, index, consumed);
              Ended(Read(x, row[at..], m), row[..at], r, at + consumed)
  {
    hide Read, Partly, Found, IsOption, Misled, Rotated, Syntax.Plus;
    var args, k := row[at..], index - at;
    assert k < |args| ==> args[k] == row[index];
    if !Misled(x, args) {
      FoundAt(x, args);
      StepEnd(x, args, m);
      if consumed == 0 || k == 0 { RotatedNot(row, at, index, consumed); }
      RotatedParts(row, at, index, consumed);
      assert row[..at] + args == row;
      assert consumed == 1 ==>
        row[index..index + 1] == ["--"] && args[..k] == row[at..index] && args[k + 1..] == row[index + 1..];
    }
  }

  /** The stretch of `w` arguments at `index` comes before those from `at` on. */
  ghost function Rotated(row: seq<string>, at: nat, index: nat, w: nat): seq<string>
    requires at <= index && index + w <= |row|
  {
    row[..at] + row[index..index + w] + row[at..index] + row[index + w..]
  }

  lemma RotatedNot(row: seq<string>, at: nat, index: nat, w: nat)
    requires at <= index && index + w <= |row| && (at == index || w == 0)
    ensures Rotated(row, at, index, w) == row
  {}

  lemma RotatedParts(row: seq<string>, at: nat, index: nat, w: nat)
    requires at <= index && index + w <= |row|
    ensures var r := Rotated(row, at, index, w);
            && |r| == |row| && r == row[..at] + row[index..index + w] + (row[at..index] + row[index + w..])
            && r[..at] == row[..at] && r[at..at + w] == row[index..index + w]
            && r[at + w..] == row[at..index] + row[index + w..]
  {}

  lemma RotatedBy(row: seq<string>, at: nat, index: nat, w: nat, moved: seq<string>, r: seq<string>)
    requires at <= index && index + w <= |row| && moved == row[..at + w] + row[at..index] + row[index + w..]
    requires r == moved[..at] + row[index..index + w] + moved[at + w..]
    ensures r == Rotated(row, at, index, w)
  {
    assert moved[..at] == row[..at];
    assert moved[at + w..] == row[at..index] + row[index + w..];
  }

  /** The row after an option and its values were taken out of it. */
  lemma RowAfter(x: Syntax, row: seq<string>, at: nat, index: nat, w: nat, r: seq<string>)
    requires at <= index && index + w <= |row| && (x.Plus() ==> index == at)
    requires r == if x.Plus() then row else Rotated(row, at, index, w)
    ensures var pre, rest := row[at..][..index - at], row[at..][index - at..];
            && |r| == |row| && w <= |rest| && r[..at] == row[..at] && r[at..at + w] == rest[..w]
            && r[at + w..] == pre + rest[w..]
  {
    hide Rotated;
    if x.Plus() { RotatedNot(row, at, index, w); }
    RotatedParts(row, at, index, w);
    Slices(row, at, index, w);
  }

  lemma Slices(row: seq<string>, at: nat, index: nat, w: nat)
    requires at <= index && index + w <= |row|
    ensures row[at..][..index - at] == row[at..index] && row[at..][index - at..] == row[index..]
    ensures row[index..][..w] == row[index..index + w] && row[index..][w..] == row[index + w..]
  {}

  lemma FoundAt(x: Syntax, args: seq<string>)
    ensures var k := Found(x, args);
            && (k < |args| && (args[k] == "--" || IsOption(args[k])) ==> (Misled(x, args) <==> x.Plus() && k > 0))
            && (Misled(x, args) ==> k < |args| && (args[k] == "--" || IsOption(args[k])))
  {}

  /** What reading one option character does. */
  ghost predicate ShortDone(x: Syntax, rest: seq<string>, m: nat, res: int, optarg: Option<string>, multi: nat,
                            consumed: nat)
    requires Short(rest, m)
  {
    var t := Cluster(x, rest, m);
    if t.reports == [] then res == QUESTION && t.stop == Refused
    else
      && t.reports[0] == Report(res, optarg, map[]) && res != QUESTION && res != EOF
      && if multi == 0 then |t.reports| == 1 && t.width == consumed && consumed > 0
         else
           && multi == m + 1 && consumed == 0 && Short(rest, multi)
           && var c := rest[0][m]; c in x.shorts && c != '?' && Need(x.shorts, c) == NO_ARGUMENT
  }
}

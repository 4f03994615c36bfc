/** Whole runs of getopt. In PERMUTE mode, however the vector is permuted on the way, the calls
    report what one left-to-right reading of the original arguments would, and leave the vector
    stably partitioned. In the other two modes they leave it alone, and report what the reading
    in order does. */
module GetoptRun {
  import opened Wrappers
  import opened GetoptSpec

  // ---------- The reference: one reading, no permutation ----------

  datatype Parsed = Parsed(opts: seq<string>, nonopts: seq<string>, events: seq<Event>)

  // nextchar, if not empty, is the part of args[0] not decoded yet.
  function Parse(o: Options, args: seq<string>, nextchar: string): Parsed
    requires nextchar != "" ==> args != [] && IsOption(args[0])
    decreases |args|, if nextchar != "" then |nextchar| else if args != [] then |args[0]| else 0
  {
    if nextchar != "" then
      var d := Decode(o, args[0], nextchar, if |args| > 1 then Some(args[1]) else None);
      var p := Parse(o, args[d.used..], d.rest);
      Parsed(args[..d.used] + p.opts, p.nonopts, [d.event] + p.events)
    else if args == [] then Parsed([], [], [])
    else if args[0] == "--" then Parsed(args[..1], args[1..], [])
    else if !IsOption(args[0]) then
      var p := Parse(o, args[1..], "");
      Parsed(p.opts, args[..1] + p.nonopts, p.events)
    else Parse(o, args, AfterDashes(o, args[0]))
  }

  // s merges a and b, each keeping its own order.
  ghost predicate Shuffle<T>(s: seq<T>, a: seq<T>, b: seq<T>) {
    if s == [] then a == [] && b == []
    else
      || (a != [] && s[0] == a[0] && Shuffle(s[1..], a[1..], b))
      || (b != [] && s[0] == b[0] && Shuffle(s[1..], a, b[1..]))
  }

  lemma ShuffleLeft<T>(s: seq<T>, a: seq<T>, b: seq<T>, x: seq<T>)
    requires Shuffle(s, a, b)
    ensures Shuffle(x + s, x + a, b)
  {
    if x == [] {
      assert x + s == s && x + a == a;
    } else {
      ShuffleLeft(s, a, b, x[1..]);
      assert (x + s)[1..] == x[1..] + s && (x + a)[1..] == x[1..] + a;
    }
  }

  lemma ShuffleRight<T>(s: seq<T>, b: seq<T>)
    ensures Shuffle(s, [], b) <==> s == b
  {
  }

  // The two outputs of the reading are a stable partition of its input.
  lemma {:induction false} ParsePartitions(o: Options, args: seq<string>, nextchar: string)
    requires nextchar != "" ==> args != [] && IsOption(args[0])
    ensures var p := Parse(o, args, nextchar); Shuffle(args, p.opts, p.nonopts)
    decreases |args|, if nextchar != "" then |nextchar| else if args != [] then |args[0]| else 0
  {
    hide Decode;
    var p := Parse(o, args, nextchar);
    if nextchar != "" {
      var d := Decode(o, args[0], nextchar, if |args| > 1 then Some(args[1]) else None);
      ParsePartitions(o, args[d.used..], d.rest);
      var q := Parse(o, args[d.used..], d.rest);
      ShuffleLeft(args[d.used..], q.opts, q.nonopts, args[..d.used]);
      assert args[..d.used] + args[d.used..] == args;
    } else if args == [] {
    } else if args[0] == "--" {
      ShuffleRight(args[1..], args[1..]);
      assert p.opts[1..] == [];
    } else if !IsOption(args[0]) {
      ParsePartitions(o, args[1..], "");
      assert p.nonopts[1..] == Parse(o, args[1..], "").nonopts;
    } else {
      ParsePartitions(o, args, AfterDashes(o, args[0]));
    }
  }

  // ---------- What a state of the scan still leads to ----------

  function Rest(o: Options, s: State): Parsed
    requires Valid(s)
  {
    Parse(o, s.argv[s.optind..], s.nextchar)
  }

  function FinalArgv(o: Options, s: State): seq<string>
    requires Valid(s)
  {
    s.argv[..s.first] + s.argv[s.last..s.optind] + Rest(o, s).opts + s.argv[s.first..s.last] + Rest(o, s).nonopts
  }

  function FinalOptind(o: Options, s: State): nat
    requires Valid(s)
  {
    s.first + (s.optind - s.last) + |Rest(o, s).opts|
  }

  // s and s' lead to the same end, s' after reporting the events in between.
  ghost predicate LeadsOn(o: Options, s: State, s': State, between: seq<Event>)
    requires Valid(s)
  {
    && Valid(s') && s'.ordering == s.ordering
    && FinalArgv(o, s') == FinalArgv(o, s) && FinalOptind(o, s') == FinalOptind(o, s)
    && Rest(o, s).events == between + Rest(o, s').events
  }

  lemma ParseScan(o: Options, args: seq<string>, nextchar: string)
    requires nextchar != "" && args != [] && IsOption(args[0])
    ensures var d := Decode(o, args[0], nextchar, if |args| > 1 then Some(args[1]) else None);
      var p := Parse(o, args[d.used..], d.rest);
      Parse(o, args, nextchar) == Parsed(args[..d.used] + p.opts, p.nonopts, [d.event] + p.events)
  {
    hide Decode;
  }

  lemma ParseSkip(o: Options, args: seq<string>)
    requires args != [] && !IsOption(args[0])
    ensures var p := Parse(o, args[1..], ""); Parse(o, args, "") == Parsed(p.opts, args[..1] + p.nonopts, p.events)
  {
    assert args[0] != "--";
  }

  // Elements are taken off the rest of the vector when they have been decoded.
  lemma ScanLeadsOn(o: Options, s: State)
    requires Valid(s) && s.nextchar != ""
    ensures LeadsOn(o, s, Scan(o, s).0, [Scan(o, s).1])
  {
    hide Decode, Parse;
    var args := s.argv[s.optind..];
    var s' := Scan(o, s).0;
    var d := Decode(o, args[0], s.nextchar, if |args| > 1 then Some(args[1]) else None);
    ParseScan(o, args, s.nextchar);
    assert s.argv[s'.optind..] == args[d.used..];
    assert s.argv[s.last..s'.optind] == s.argv[s.last..s.optind] + args[..d.used];
    Widen(s.argv[..s.first], s.argv[s.last..s.optind], args[..d.used], Parse(o, args[d.used..], d.rest).opts);
  }

  lemma ExchangeLeadsOn(o: Options, s: State)
    requires Valid(s) && s.nextchar == ""
    ensures LeadsOn(o, s, Exchange(s), [])
  {
    var s', a := Exchange(s), s.argv;
    assert s'.argv[..s'.first] == a[..s.first] + a[s.last..s.optind];
    assert s'.argv[s'.first..s'.last] == a[s.first..s.last];
    assert s'.argv[s'.optind..] == a[s.optind..];
    assert s'.argv[s'.last..s'.optind] == [];
    var p := Rest(o, s);
    assert s'.argv[..s'.first] + [] + p.opts == a[..s.first] + a[s.last..s.optind] + p.opts;
  }

  lemma {:induction false} ParseSkips(o: Options, args: seq<string>, k: nat)
    requires k <= |args| && forall i | 0 <= i < k :: !IsOption(args[i])
    ensures var p, q := Parse(o, args, ""), Parse(o, args[k..], "");
      p == Parsed(q.opts, args[..k] + q.nonopts, q.events)
  {
    hide Parse;
    if k > 0 {
      ParseSkip(o, args);
      ParseSkips(o, args[1..], k - 1);
      assert args[1..][k - 1..] == args[k..] && args[..1] + args[1..][..k - 1] == args[..k];
      var q := Parse(o, args[k..], "");
      Widen([], args[..1], args[1..][..k - 1], q.nonopts);
    } else {
      assert args[0..] == args;
    }
  }

  lemma SkipLeadsOn(o: Options, s: State)
    requires Valid(s) && s.nextchar == "" && s.last == s.optind
    ensures var j := SkipNonOptions(s.argv, s.optind); LeadsOn(o, s, s.(optind := j, last := j), [])
  {
    hide Parse, IsOption, SkipNonOptions;
    var j, i, a := SkipNonOptions(s.argv, s.optind), s.optind, s.argv;
    ParseSkips(o, a[i..], j - i);
    assert a[i..][j - i..] == a[j..] && a[i..][..j - i] == a[i..j];
    var q := Parse(o, a[j..], "");
    assert Rest(o, s) == Parsed(q.opts, a[i..j] + q.nonopts, q.events);
    SkipSame(a, s.first, i, j, q.opts, q.nonopts);
  }

  lemma SkipSame<T>(a: seq<T>, first: nat, i: nat, j: nat, opts: seq<T>, nonopts: seq<T>)
    requires first <= i <= j <= |a|
    ensures a[..first] + a[i..i] + opts + a[first..i] + (a[i..j] + nonopts) ==
      a[..first] + a[j..j] + opts + a[first..j] + nonopts
  {
    assert a[first..j] == a[first..i] + a[i..j];
    assert a[i..i] == [] && a[j..j] == [];
    Widen(a[..first] + [] + opts, a[first..i], a[i..j], nonopts);
  }

  lemma Widen<T>(x: seq<T>, m1: seq<T>, m2: seq<T>, n: seq<T>)
    ensures x + m1 + (m2 + n) == x + (m1 + m2) + n
  {
  }

  lemma GatherLeadsOn(o: Options, s: State)
    requires Valid(s) && s.nextchar == ""
    ensures LeadsOn(o, s, Gather(s), []) && Gather(s).nextchar == "" && Gather(s).last == Gather(s).optind
    ensures Gather(s).optind < |Gather(s).argv| ==> IsOption(Gather(s).argv[Gather(s).optind])
  {
    if s.first != s.last && s.last != s.optind {
      ExchangeLeadsOn(o, s);
      SkipLeadsOn(o, Exchange(s));
    } else if s.last != s.optind {
      var s1, a := s.(first := s.optind, last := s.optind), s.argv;
      assert a[..s.first] + a[s.last..s.optind] == a[..s.optind] && a[s.first..s.last] == [];
      assert a[s.optind..s.optind] == [];
      assert LeadsOn(o, s, s1, []);
      SkipLeadsOn(o, s1);
    } else {
      SkipLeadsOn(o, s);
    }
  }

  // Nothing but gathered arguments is left.
  ghost predicate Ended(o: Options, s: State, s': State)
    requires Valid(s)
  {
    s'.argv == FinalArgv(o, s) && s'.optind == FinalOptind(o, s) && Rest(o, s).events == []
  }

  lemma DashDashEnds(o: Options, s: State)
    requires Valid(s) && s.nextchar == "" && s.last == s.optind < |s.argv| && s.argv[s.optind] == "--"
    ensures var s' := DashDash(s);
      s'.optind == s'.last == |s.argv| == |s'.argv| && Ended(o, s, s'.(optind := s'.first))
  {
    var a, i := s.argv, s.optind;
    assert a[i..][..1] == a[i..i + 1] && a[i..][1..] == a[i + 1..] && a[i..i] == [];
    if s.first == s.last {
      assert a[..i] + [] + a[i..i + 1] + [] + a[i + 1..] == a;
    }
  }

  // The remaining elements and the part of the current one that is still to be scanned.
  function Rank(s: State): (nat, nat)
    requires s.optind <= |s.argv|
  {
    (|s.argv| - s.optind,
     if s.nextchar != "" then |s.nextchar| else if s.optind < |s.argv| then |s.argv[s.optind]| else 0)
  }

  ghost predicate Closer(s: State, s': State)
    requires s.optind <= |s.argv|
  {
    && s'.optind <= |s'.argv|
    && (Rank(s').0 < Rank(s).0 || (Rank(s').0 == Rank(s).0 && Rank(s').1 < Rank(s).1))
  }

  lemma CallProgresses(o: Options, s: State)
    requires Valid(s)
    ensures var (s', e) := Call(o, s);
      e != FINISHED ==> Valid(s') && Closer(s, s') && |s'.argv| == |s.argv| && s'.ordering == s.ordering
  {
    hide Decode, Seek;
    if s.nextchar == "" {
      SeekKeeps(s);
    }
  }

  lemma SeekKeeps(s: State)
    requires s.first <= s.last && s.optind <= |s.argv| && s.nextchar == ""
    ensures var s1 := Seek(s);
      && Valid(s1) && s1.nextchar == "" && s1.ordering == s.ordering && |s1.argv| == |s.argv| && s.optind <= s1.optind
      && (s1.optind < |s1.argv| ==> s1.argv[s1.optind] != "--")
      && (s1.optind == s.optind < |s.argv| ==> s1.argv[s.optind] == s.argv[s.optind])
  {
    hide SkipNonOptions;
  }

  lemma ExhaustedEnds(o: Options, s: State)
    requires Valid(s) && s.nextchar == "" && s.last == s.optind == |s.argv|
    ensures Ended(o, s, s.(optind := s.first))
  {
    assert s.argv[|s.argv|..] == [] && s.argv[..s.first] + [] + [] + s.argv[s.first..] + [] == s.argv;
  }

  lemma OpenElementLeadsOn(o: Options, s: State)
    requires Valid(s) && s.nextchar == "" && s.optind < |s.argv|
    requires IsOption(s.argv[s.optind]) && s.argv[s.optind] != "--"
    ensures LeadsOn(o, s, s.(nextchar := AfterDashes(o, s.argv[s.optind])), [])
  {
    assert s.argv[s.optind..][0] == s.argv[s.optind];
  }

  // One call in PERMUTE mode: it ends the scan with the promised vector, or reports the
  // next event and still leads to the same end.
  lemma CallLeadsOn(o: Options, s: State)
    requires Valid(s) && s.ordering == PERMUTE && Usable(o)
    ensures var (s', e) := Call(o, s);
      if e.code == END then Ended(o, s, s') else LeadsOn(o, s, s', [e])
  {
    hide Decode, Gather, Rest, FinalArgv, FinalOptind;
    if s.nextchar != "" {
      ScanLeadsOn(o, s);
    } else {
      var s1 := Gather(s);
      GatherLeadsOn(o, s);
      if s1.optind == |s1.argv| {
        ExhaustedEnds(o, s1);
      } else if s1.argv[s1.optind] == "--" {
        DashDashEnds(o, s1);
      } else {
        OpenElementLeadsOn(o, s1);
        ScanLeadsOn(o, s1.(nextchar := AfterDashes(o, s1.argv[s1.optind])));
      }
    }
  }

  // ---------- Whole runs ----------

  // Call until the end is reported. The first call, which initialises, may see other option
  // letters than the calls after it.
  function Run(o: Options, later: Options, s: State): (State, seq<Event>)
    requires Valid(s)
    decreases Rank(s).0, Rank(s).1
  {
    CallProgresses(o, s);
    var (s1, e) := Call(o, s);
    if e == FINISHED then (s1, [])
    else
      var (s2, es) := Run(later, later, s1);
      (s2, [e] + es)
  }

  lemma {:induction false} RunReaches(o: Options, s: State)
    requires Valid(s) && s.ordering == PERMUTE && Usable(o)
    ensures var (s', es) := Run(o, o, s);
      s'.argv == FinalArgv(o, s) && s'.optind == FinalOptind(o, s) && es == Rest(o, s).events
    decreases Rank(s).0, Rank(s).1
  {
    hide Call, Rest, FinalArgv, FinalOptind;
    CallLeadsOn(o, s);
    CallProgresses(o, s);
    var (s1, e) := Call(o, s);
    CodeEnds(o, s);
    if e != FINISHED {
      RunReaches(o, s1);
    }
  }

  lemma CodeEnds(o: Options, s: State)
    requires Valid(s) && Usable(o)
    ensures Call(o, s).1.code == END <==> Call(o, s).1 == FINISHED
  {
    hide Seek, Decode;
    if s.nextchar == "" {
      SeekKeeps(s);
    }
  }

  // Main result: a run from optind == i with nothing skipped yet, in PERMUTE mode.
  lemma WholeRun(o: Options, argv: seq<string>, i: nat)
    requires i <= |argv| && Usable(o)
    ensures var (s, events) := Run(o, o, State(argv, i, "", PERMUTE, i, i));
      var p := Parse(o, argv[i..], "");
      && s.argv == argv[..i] + p.opts + p.nonopts
      && s.optind == i + |p.opts|
      && events == p.events
      && Shuffle(argv[i..], p.opts, p.nonopts)
  {
    hide Parse, Run, Shuffle;
    var s := State(argv, i, "", PERMUTE, i, i);
    RunReaches(o, s);
    ParsePartitions(o, argv[i..], "");
    var p := Parse(o, argv[i..], "");
    assert argv[i..i] == [];
    assert argv[..i] + [] + p.opts + [] + p.nonopts == argv[..i] + p.opts + p.nonopts;
  }

  // ---------- The other two modes ----------

  // The reading in order: it ends at a non-option, or passes it on as the argument of an
  // option with code 1. passed counts the elements it has gone past.
  datatype Swept = Swept(events: seq<Event>, passed: nat)

  function Sweep(o: Options, later: Options, args: seq<string>, nextchar: string, mode: Ordering): (r: Swept)
    requires nextchar != "" ==> args != [] && IsOption(args[0])
    decreases |args|, if nextchar != "" then |nextchar| else if args != [] then |args[0]| else 0
  {
    if nextchar != "" then
      var d := Decode(o, args[0], nextchar, if |args| > 1 then Some(args[1]) else None);
      var r := Sweep(later, later, args[d.used..], d.rest, mode);
      Swept([d.event] + r.events, d.used + r.passed)
    else if args == [] then Swept([], 0)
    else if args[0] == "--" then Swept([], 1)
    else if IsOption(args[0]) then Sweep(o, later, args, AfterDashes(o, args[0]), mode)
    else if mode == REQUIRE_ORDER then Swept([], 0)
    else
      var r := Sweep(later, later, args[1..], "", mode);
      Swept([Event(1, Some(args[0]), None)] + r.events, 1 + r.passed)
  }

  // One call in the reading in order.
  lemma SweepCall(o: Options, later: Options, s: State)
    requires Valid(s) && s.ordering != PERMUTE && s.first == s.last
    ensures var (s1, e) := Call(o, s);
      var r := Sweep(o, later, s.argv[s.optind..], s.nextchar, s.ordering);
      && s1.argv == s.argv && s.optind <= s1.optind <= |s.argv|
      && if e == FINISHED then r == Swept([], s1.optind - s.optind)
         else
           && Valid(s1) && s1.ordering == s.ordering && s1.first == s1.last
           && var r1 := Sweep(later, later, s.argv[s1.optind..], s1.nextchar, s.ordering);
              r == Swept([e] + r1.events, s1.optind - s.optind + r1.passed)
  {
    hide Decode, Sweep;
    var args := s.argv[s.optind..];
    if s.nextchar != "" {
      SweepScan(o, later, s);
      NotFinished(o, s);
    } else {
      SweepOpens(o, later, args, s.ordering);
      if args != [] && args[0] != "--" && IsOption(args[0]) {
        SweepScan(o, later, s.(nextchar := AfterDashes(o, args[0])));
        NotFinished(o, s.(nextchar := AfterDashes(o, args[0])));
      } else if args != [] && args[0] != "--" {
        assert args[1..] == s.argv[s.optind + 1..];
      }
    }
  }

  lemma NotFinished(o: Options, s: State)
    requires Valid(s) && s.nextchar != ""
    ensures Scan(o, s).1 != FINISHED
  {
    hide Lookup, NamePart, IndexOf, DecodeShort;
  }

  lemma SweepScan(o: Options, later: Options, s: State)
    requires Valid(s) && s.nextchar != ""
    ensures var (s1, e) := Scan(o, s);
      var r1 := Sweep(later, later, s.argv[s1.optind..], s1.nextchar, s.ordering);
      Sweep(o, later, s.argv[s.optind..], s.nextchar, s.ordering) ==
        Swept([e] + r1.events, s1.optind - s.optind + r1.passed)
  {
    hide Decode;
    var args, s1 := s.argv[s.optind..], Scan(o, s).0;
    assert s.argv[s1.optind..] == args[s1.optind - s.optind..];
  }

  lemma SweepDecodes(o: Options, later: Options, args: seq<string>, nextchar: string, mode: Ordering)
    requires nextchar != "" && args != [] && IsOption(args[0])
    ensures var d := Decode(o, args[0], nextchar, if |args| > 1 then Some(args[1]) else None);
      var r := Sweep(later, later, args[d.used..], d.rest, mode);
      Sweep(o, later, args, nextchar, mode) == Swept([d.event] + r.events, d.used + r.passed)
  {
    hide Decode;
  }

  lemma SweepOpens(o: Options, later: Options, args: seq<string>, mode: Ordering)
    ensures Sweep(o, later, args, "", mode) ==
      if args == [] then Swept([], 0)
      else if args[0] == "--" then Swept([], 1)
      else if IsOption(args[0]) then Sweep(o, later, args, AfterDashes(o, args[0]), mode)
      else if mode == REQUIRE_ORDER then Swept([], 0)
      else
        var r := Sweep(later, later, args[1..], "", mode);
        Swept([Event(1, Some(args[0]), None)] + r.events, 1 + r.passed)
  {
  }

  // Main result: in these modes a run never touches the vector, and reports what the reading
  // in order reports, with the letters that each call sees.
  lemma {:induction false} OtherOrderingsSweep(o: Options, later: Options, s: State)
    requires Valid(s) && s.ordering != PERMUTE && s.first == s.last
    ensures var (s', events) := Run(o, later, s);
      var r := Sweep(o, later, s.argv[s.optind..], s.nextchar, s.ordering);
      s'.argv == s.argv && s'.optind == s.optind + r.passed && events == r.events
    decreases Rank(s).0, Rank(s).1
  {
    hide Call, Sweep;
    CallProgresses(o, s);
    SweepCall(o, later, s);
    var (s1, e) := Call(o, s);
    if e != FINISHED {
      OtherOrderingsSweep(later, later, s1);
    }
  }

  // What the caller's loop from i on leaves: vector, optind and reports.
  ghost predicate Outcome(o: Options, later: Options, argv: seq<string>, i: nat, mode: Ordering,
                          argv': seq<string>, optind': nat, events: seq<Event>)
    requires i <= |argv|
  {
    if mode == PERMUTE then
      var p := Parse(later, argv[i..], "");
      && argv' == argv[..i] + p.opts + p.nonopts && optind' == i + |p.opts| && events == p.events
      && Shuffle(argv[i..], p.opts, p.nonopts)
    else
      var r := Sweep(o, later, argv[i..], "", mode);
      argv' == argv && optind' == i + r.passed && events == r.events
  }

  lemma AnyRun(o: Options, later: Options, argv: seq<string>, i: nat, mode: Ordering)
    requires i <= |argv| && Usable(later) && (mode == PERMUTE ==> o == later)
    ensures var (s, events) := Run(o, later, State(argv, i, "", mode, i, i));
      Outcome(o, later, argv, i, mode, s.argv, s.optind, events)
  {
    hide Run, Parse, Sweep, Shuffle;
    if mode == PERMUTE {
      WholeRun(later, argv, i);
    } else {
      OtherOrderingsSweep(o, later, State(argv, i, "", mode, i, i));
    }
  }
}

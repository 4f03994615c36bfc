/** What getopt reports, said of whole elements of the vector: which argument an option gets, where
    it comes from, and what becomes of arguments that are no options. */
module GetoptReports {
  import opened Wrappers
  import opened GetoptSpec
  import opened GetoptRun
  import opened GetoptLetters

  // ---------- Long options ----------

  function CodeOf(p: LongOption): int {
    if p.flag.Some? then 0 else p.val
  }

  // Reading elem, with `more` as part of it if it takes the next element, then args.
  ghost predicate Reports(o: Options, taken: seq<string>, args: seq<string>, e: Event) {
    var p := Parse(o, args, "");
    Parse(o, taken + args, "") == Parsed(taken + p.opts, p.nonopts, [e] + p.events)
  }

  lemma OneElement(o: Options, elem: string, more: seq<string>, args: seq<string>)
    requires IsOption(elem) && elem != "--" && |more| <= 1
    requires var next := if more + args != [] then Some((more + args)[0]) else None;
      var d := Decode(o, elem, AfterDashes(o, elem), next); d.rest == "" && d.used == 1 + |more|
    ensures var next := if more + args != [] then Some((more + args)[0]) else None;
      Reports(o, [elem] + more, args, Decode(o, elem, AfterDashes(o, elem), next).event)
  {
    hide Decode;
    var all := [elem] + more + args;
    assert all[0] == elem && all[1..] == more + args && all[1 + |more|..] == args && all[..1 + |more|] == [elem] + more;
    ParseScan(o, all, AfterDashes(o, elem));
  }

  lemma NameAndRest(name: string, rest: string)
    requires '=' !in name && (rest == "" || rest[0] == '=')
    ensures NamePart(name + rest) == name
  {
    assert (name + rest)[..|name|] == name;
    NameEnds(name + rest, |name|);
  }

  // An option that takes an argument gets, of --name=value, the value.
  lemma ValueAfterEquals(o: Options, name: string, value: string, i: nat, args: seq<string>)
    requires o.longopts.Some? && '=' !in name && Lookup(o.longopts.value, name, o.longOnly) == Found(i)
    requires name != "" && o.longopts.value[i].hasArg != 0
    ensures Reports(o, ["--" + name + "=" + value], args, Event(CodeOf(o.longopts.value[i]), Some(value), Some(i)))
  {
    hide Lookup, NamePart;
    var elem := "--" + name + "=" + value;
    assert elem[2..] == name + ("=" + value);
    NameAndRest(name, "=" + value);
    assert (name + ("=" + value))[|name| + 1..] == value;
    OneElement(o, elem, [], args);
    assert [elem] + [] == [elem];
  }

  // One that takes none is not reported if it is given one.
  lemma ValueRefused(o: Options, name: string, value: string, i: nat, args: seq<string>)
    requires o.longopts.Some? && '=' !in name && Lookup(o.longopts.value, name, o.longOnly) == Found(i)
    requires name != "" && o.longopts.value[i].hasArg == 0
    ensures Reports(o, ["--" + name + "=" + value], args, Event('?' as int, None, None))
  {
    hide Lookup, NamePart;
    var elem := "--" + name + "=" + value;
    assert elem[2..] == name + ("=" + value);
    NameAndRest(name, "=" + value);
    OneElement(o, elem, [], args);
    assert [elem] + [] == [elem];
  }

  // Without a value, a required argument is the next element, which is used up with the option.
  lemma ValueIsNext(o: Options, name: string, value: string, i: nat, args: seq<string>)
    requires o.longopts.Some? && '=' !in name && Lookup(o.longopts.value, name, o.longOnly) == Found(i)
    requires name != "" && o.longopts.value[i].hasArg == 1
    ensures Reports(o, ["--" + name, value], args, Event(CodeOf(o.longopts.value[i]), Some(value), Some(i)))
    ensures Reports(o, ["--" + name], [],
                    Event(if |o.optstring| > 0 && o.optstring[0] == ':' then ':' as int else '?' as int, None, None))
  {
    hide Lookup, NamePart;
    var elem := "--" + name;
    assert elem[2..] == name && name + "" == name;
    NameAndRest(name, "");
    OneElement(o, elem, [value], args);
    assert [elem] + [value] == [elem, value] && ([value] + args)[0] == value;
    OneElement(o, elem, [], []);
    assert [elem] + [] == [elem];
  }

  // Other options take nothing.
  lemma NoValue(o: Options, name: string, i: nat, args: seq<string>)
    requires o.longopts.Some? && '=' !in name && Lookup(o.longopts.value, name, o.longOnly) == Found(i)
    requires name != "" && o.longopts.value[i].hasArg != 1
    ensures Reports(o, ["--" + name], args, Event(CodeOf(o.longopts.value[i]), None, Some(i)))
  {
    hide Lookup, NamePart;
    var elem := "--" + name;
    assert elem[2..] == name && name + "" == name;
    NameAndRest(name, "");
    OneElement(o, elem, [], args);
    assert [elem] + [] == [elem];
  }

  // What no name starts with, or what is ambiguous, is an error, whatever follows a '='.
  lemma NotFound(o: Options, name: string, rest: string, args: seq<string>)
    requires o.longopts.Some? && '=' !in name && !Lookup(o.longopts.value, name, o.longOnly).Found?
    requires name != "" && (rest == "" || rest[0] == '=')
    ensures Reports(o, ["--" + name + rest], args, Event('?' as int, None, None))
  {
    hide Lookup, NamePart;
    var elem := "--" + name + rest;
    assert elem[2..] == name + rest;
    NameAndRest(name, rest);
    OneElement(o, elem, [], args);
    assert [elem] + [] == [elem];
  }

  // With getopt_long_only one dash does as well.
  lemma OneDash(o: Options, text: string, next: Option<string>)
    requires LongOnly(o) && |text| > 1 && text[0] != '-' && Lookup(o.longopts.value, NamePart(text), true) != NoMatch
    ensures AfterDashes(o, "-" + text) == AfterDashes(o, "--" + text) == text
    ensures Decode(o, "-" + text, text, next) == Decode(o, "--" + text, text, next)
  {
    hide Lookup, NamePart;
    assert ("-" + text)[1..] == text && ("--" + text)[2..] == text;
  }

  // A single character behind one dash is an option letter if it can be, and a long option only if
  // it cannot. More is read as option letters if no long name starts with it and the first one is
  // a letter, and is an error if not.
  lemma OneDashLetters(o: Options, text: string, next: Option<string>)
    requires LongOnly(o) && text != "" && text[0] != '-'
    ensures ("-" + text)[1] == text[0] && AfterDashes(o, "-" + text) == text
    ensures |text| == 1 ==>
      Decode(o, "-" + text, text, next) ==
        if text[0] in o.optstring then Decode(o.(longopts := None), "-" + text, text, next)
        else Decode(o, "--" + text, text, next)
    ensures |text| > 1 && Lookup(o.longopts.value, NamePart(text), true) == NoMatch ==>
      Decode(o, "-" + text, text, next) ==
        if text[0] in o.optstring then Decode(o.(longopts := None), "-" + text, text, next)
        else Decoded(Event('?' as int, None, None), "", 1)
  {
    hide Lookup, NamePart;
    assert ("-" + text)[1..] == text;
  }

  // ---------- Short options ----------

  // c is an option letter, with v behind it.
  ghost predicate Letter(letters: string, u: string, c: char, v: string) {
    letters == u + [c] + v && c !in u && c != ':'
  }

  lemma LetterKind(letters: string, u: string, c: char, v: string)
    requires Letter(letters, u, c, v)
    ensures KindOf(letters, c) ==
      if v == "" || v[0] != ':' then Plain else if |v| < 2 || v[1] != ':' then Required else Optional
  {
    var t := IndexOf(letters, c);
    assert letters[|u|] == c && c in letters;
    assert forall j | 0 <= j < |u| :: letters[j] == u[j] && u[j] in u;
    assert forall j | 0 <= j < t :: letters[..t][j] == letters[j] && letters[j] in letters[..t];
    assert letters[|u| + 1..] == v;
  }

  // What a single short option delivers, when elements are not tried as long options first.
  ghost predicate Plainly(o: Options, c: char) {
    !LongOnly(o) && (o.longopts.Some? ==> c != '-')
  }

  lemma ShortOpens(o: Options, c: char, text: string)
    requires Plainly(o, c) && [c] + text != "-"
    ensures var elem := "-" + [c] + text;
      && IsOption(elem) && elem != "--" && AfterDashes(o, elem) == [c] + text && ([c] + text)[1..] == text
      && forall next :: Decode(o, elem, [c] + text, next) == DecodeShort(o, [c] + text, next)
  {
    assert ("-" + [c] + text)[1..] == [c] + text && ("-" + [c] + text)[2..] == text;
  }

  lemma ShortElement(o: Options, c: char, text: string, more: seq<string>, args: seq<string>, e: Event)
    requires Plainly(o, c) && [c] + text != "-" && |more| <= 1
    requires var next := if more + args != [] then Some((more + args)[0]) else None;
      DecodeShort(o, [c] + text, next) == Decoded(e, "", 1 + |more|)
    ensures Reports(o, ["-" + [c] + text] + more, args, e)
  {
    hide Decode, DecodeShort;
    ShortOpens(o, c, text);
    OneElement(o, "-" + [c] + text, more, args);
  }

  // A letter with one colon gets the rest of its element, or else the next element.
  lemma RequiredArgument(o: Options, u: string, c: char, v: string, text: string, args: seq<string>)
    requires Plainly(o, c) && Letter(o.optstring, u, c, ":" + v) && (v == "" || v[0] != ':') && [c] + text != "-"
    ensures text != "" ==> Reports(o, ["-" + [c] + text], args, Event(c as int, Some(text), None))
    ensures c != '-' ==> Reports(o, ["-" + [c], text], args, Event(c as int, Some(text), None))
    ensures c != '-' ==> Reports(o, ["-" + [c]], [],
      Event(if o.optstring[0] == ':' then ':' as int else '?' as int, None, None))
  {
    hide DecodeShort, IndexOf;
    LetterKind(o.optstring, u, c, ":" + v);
    var next := if args != [] then Some(args[0]) else None;
    ShortByKind(o, [c] + text, next);
    if text != "" {
      ShortElement(o, c, text, [], args, Event(c as int, Some(text), None));
      assert ["-" + [c] + text] + [] == ["-" + [c] + text];
    }
    if c != '-' {
      ShortByKind(o, [c] + "", Some(text));
      ShortByKind(o, [c] + "", None);
      assert "-" + [c] + "" == "-" + [c] && ([c] + "")[1..] == "";
      assert ([text] + args)[0] == text && ["-" + [c]] + [text] == ["-" + [c], text];
      ShortElement(o, c, "", [text], args, Event(c as int, Some(text), None));
      ShortElement(o, c, "", [], [], Event(MissingArgument(o), None, None));
      assert ["-" + [c]] + [] == ["-" + [c]];
    }
  }

  // A letter with two colons gets the rest of its element and never the next one.
  lemma OptionalArgument(o: Options, u: string, c: char, v: string, text: string, args: seq<string>)
    requires Plainly(o, c) && Letter(o.optstring, u, c, "::" + v) && [c] + text != "-"
    ensures Reports(o, ["-" + [c] + text], args, Event(c as int, if text == "" then None else Some(text), None))
  {
    hide DecodeShort, IndexOf;
    LetterKind(o.optstring, u, c, "::" + v);
    var next := if args != [] then Some(args[0]) else None;
    ShortByKind(o, [c] + text, next);
    ShortElement(o, c, text, [], args, Event(c as int, if text == "" then None else Some(text), None));
    assert ["-" + [c] + text] + [] == ["-" + [c] + text];
  }

  // Letters without arguments can be joined: -abc is -a -bc. What is no letter is an error, and
  // does not keep the rest from being read.
  lemma Joined(o: Options, c: char, text: string, args: seq<string>)
    requires Plainly(o, c) && [c] + text != "-" && KindOf(o.optstring, c) in {Plain, Absent}
    ensures var e := Event(if KindOf(o.optstring, c) == Absent then '?' as int else c as int, None, None);
      && (text == "" ==> Reports(o, ["-" + [c]], args, e))
      && (text != "" && text[0] != '-' ==>
          var p := Parse(o, ["-" + text] + args, "");
          && Parse(o, ["-" + [c] + text] + args, "").events == [e] + p.events
          && Parse(o, ["-" + [c] + text] + args, "").nonopts == p.nonopts)
  {
    hide DecodeShort, Decode, KindOf;
    var next := if args != [] then Some(args[0]) else None;
    ShortByKind(o, [c] + text, next);
    var e := Event(if KindOf(o.optstring, c) == Absent then '?' as int else c as int, None, None);
    if text == "" {
      ShortElement(o, c, text, [], args, e);
      assert "-" + [c] + "" == "-" + [c] && ["-" + [c]] + [] == ["-" + [c]];
    } else if text[0] != '-' {
      ShortOpens(o, c, text);
      var all := ["-" + [c] + text] + args;
      assert all[1..] == args && all[0..] == all;
      ParseScan(o, all, [c] + text);
      TextMoves(o, "-" + [c] + text, "-" + text, text, args);
      assert ("-" + text)[1..] == text;
    }
  }

  // Only the text still to be scanned matters, not the element it is in.
  lemma {:induction false} TextMoves(o: Options, elem: string, elem': string, text: string, args: seq<string>)
    requires IsOption(elem) && IsOption(elem') && text != ""
    requires !TriesLong(o, elem) && !TriesLong(o, elem')
    ensures var p, q := Parse(o, [elem] + args, text), Parse(o, [elem'] + args, text);
      p.events == q.events && p.nonopts == q.nonopts
    decreases |text|
  {
    hide DecodeShort, Parse;
    var next := if args != [] then Some(args[0]) else None;
    var d := DecodeShort(o, text, next);
    assert ([elem] + args)[1..] == args && ([elem'] + args)[1..] == args;
    assert ([elem] + args)[0..] == [elem] + args && ([elem'] + args)[0..] == [elem'] + args;
    ParseScan(o, [elem] + args, text);
    ParseScan(o, [elem'] + args, text);
    if d.rest != "" {
      TextMoves(o, elem, elem', d.rest, args);
    } else {
      assert ([elem] + args)[d.used..] == args[d.used - 1..] == ([elem'] + args)[d.used..];
    }
  }

  // ---------- What is no option ----------

  // An element is an option if and only if it has a dash and something behind it; a single dash
  // is an argument.
  lemma OptionsHaveADash(text: string)
    ensures IsOption("-" + text) <==> text != ""
    ensures text == "" || text[0] != '-' ==> !IsOption(text)
  {
  }

  // "--" is used up; nothing behind it is read as an option.
  lemma DoubleDash(o: Options, args: seq<string>, mode: Ordering)
    ensures Parse(o, ["--"] + args, "") == Parsed(["--"], args, [])
    ensures Sweep(o, o, ["--"] + args, "", mode) == Swept([], 1)
  {
    assert (["--"] + args)[1..] == args && (["--"] + args)[..1] == ["--"];
  }

  // The reading in order stops at a "--" it has used up, at the end, or, in REQUIRE_ORDER mode
  // only, at an argument that is no option.
  lemma {:induction false} SweepStops(o: Options, later: Options, args: seq<string>, nextchar: string, mode: Ordering)
    requires nextchar != "" ==> args != [] && IsOption(args[0])
    ensures var n := Sweep(o, later, args, nextchar, mode).passed;
      && n <= |args|
      && (|| n == |args| || (n > 0 && args[n - 1] == "--") || (mode == REQUIRE_ORDER && !IsOption(args[n])))
    decreases |args|, if nextchar != "" then |nextchar| else if args != [] then |args[0]| else 0
  {
    hide Decode, Sweep;
    if nextchar != "" {
      var d := Decode(o, args[0], nextchar, if |args| > 1 then Some(args[1]) else None);
      SweepDecodes(o, later, args, nextchar, mode);
      SweepStops(later, later, args[d.used..], d.rest, mode);
      var n := Sweep(later, later, args[d.used..], d.rest, mode).passed;
      if n < |args[d.used..]| {
        assert args[d.used..][n] == args[d.used + n];
      }
    } else {
      SweepOpens(o, later, args, mode);
      if args != [] && args[0] != "--" {
        if IsOption(args[0]) {
          SweepStops(o, later, args, AfterDashes(o, args[0]), mode);
        } else if mode != REQUIRE_ORDER {
          SweepStops(later, later, args[1..], "", mode);
        }
      }
    }
  }

  // ---------- The mode in the option letters ----------

  // Where a whole run stands when it comes to an argument that is no option: with '+' before the
  // letters, or POSIXLY_CORRECT, it ends there; with '-' it passes the argument on with code 1
  // and goes on; otherwise it goes on, and the argument is the first one behind the options.
  lemma ModeOfLetters(o: Options, later: Options, optstring: string, posixlyCorrect: bool, argv: seq<string>, i: nat,
                      argv': seq<string>, optind': nat, events: seq<Event>)
    requires i < |argv| && !IsOption(argv[i])
    requires Outcome(o, later, argv, i, OrderingOf(optstring, posixlyCorrect), argv', optind', events)
    ensures |optstring| > 0 && optstring[0] == '+' ==> argv' == argv && optind' == i && events == []
    ensures |optstring| > 0 && optstring[0] == '-' ==>
      && argv' == argv && optind' > i && events != [] && events[0] == Event(1, Some(argv[i]), None)
      && Outcome(later, later, argv, i + 1, RETURN_IN_ORDER, argv', optind', events[1..])
    ensures |optstring| == 0 || optstring[0] !in "+-" ==>
      if posixlyCorrect then argv' == argv && optind' == i && events == []
      else i <= optind' < |argv'| && argv'[optind'] == argv[i] && events == Parse(later, argv[i + 1..], "").events
  {
    hide Decode;
    var args := argv[i..];
    assert args[0] == argv[i] && args[1..] == argv[i + 1..] && args[..1] == [argv[i]];
    if OrderingOf(optstring, posixlyCorrect) == PERMUTE {
      ParseSkip(later, args);
      var p, q := Parse(later, args, ""), Parse(later, args[1..], "");
      assert p.nonopts == [argv[i]] + q.nonopts;
      assert argv'[optind'] == p.nonopts[0];
    } else {
      SweepOpens(o, later, args, OrderingOf(optstring, posixlyCorrect));
    }
  }

  // However it began, a run with '+' or POSIXLY_CORRECT ends at an argument that is no option,
  // behind a "--" or at the end; one with '-' at one of the latter two only.
  lemma ModeEnds(o: Options, later: Options, optstring: string, posixlyCorrect: bool, argv: seq<string>, i: nat,
                 argv': seq<string>, optind': nat, events: seq<Event>)
    requires i <= |argv| && OrderingOf(optstring, posixlyCorrect) != PERMUTE
    requires Outcome(o, later, argv, i, OrderingOf(optstring, posixlyCorrect), argv', optind', events)
    ensures i <= optind' <= |argv| && argv' == argv
    ensures
      || optind' == |argv| || (optind' > i && argv[optind' - 1] == "--")
      || (!(|optstring| > 0 && optstring[0] == '-') && !IsOption(argv[optind']))
  {
    hide Sweep;
    SweepStops(o, later, argv[i..], "", OrderingOf(optstring, posixlyCorrect));
  }

  // The letters that the calls work with are those behind the prefix.
  lemma PrefixStripped(letters: string)
    ensures Stripped("+" + letters) == Stripped("-" + letters) == letters
    ensures letters == "" || letters[0] !in "+-" ==> Stripped(letters) == letters
  {
    assert ("+" + letters)[1..] == letters && ("-" + letters)[1..] == letters;
  }

  // A caller that moves optind back to where no argument has been skipped yet, or further, has the
  // vector read from there as in a new run.
  lemma MovedBack(o: Options, s: State, i: nat)
    requires i <= s.first <= s.last && i <= |s.argv|
    ensures Call(o, s.(optind := i, nextchar := "")) == Call(o, State(s.argv, i, "", s.ordering, i, i))
  {
    assert Clamp(s.(optind := i, nextchar := "")) == State(s.argv, i, "", s.ordering, i, i);
  }
}

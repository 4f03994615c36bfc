/** The mode prefix of the option letters: the initialising call strips it, the calls after it
    take it for a letter. When that makes a difference. */
module GetoptLetters {
  import opened Wrappers
  import opened GetoptSpec
  import opened GetoptRun

  datatype Kind = Absent | Plain | Required | Optional

  // What the letters say about an option character.
  function KindOf(letters: string, c: char): Kind {
    var t := IndexOf(letters, c);
    if t < 0 || c == ':' then Absent else ColonsAfter(letters, t + 1)
  }

  function ColonsAfter(letters: string, i: int): Kind {
    if !ColonAt(letters, i) then Plain else if ColonAt(letters, i + 1) then Optional else Required
  }

  // Decoding a short option looks at the letters only for the kind of the character and for
  // the report of a missing argument.
  function ByKind(k: Kind, missing: int, nextchar: string, next: Option<string>): Decoded
    requires nextchar != ""
  {
    var c, rest := nextchar[0], nextchar[1..];
    var last := if rest == "" then 1 else 0;
    match k
    case Absent => Report('?' as int, None, rest, last)
    case Plain => Report(c as int, None, rest, last)
    case Optional => Report(c as int, if rest != "" then Some(rest) else None, "", 1)
    case Required =>
      if rest != "" then Report(c as int, Some(rest), "", 1)
      else if next.None? then Report(missing, None, "", 1)
      else Report(c as int, next, "", 2)
  }

  lemma ShortByKind(o: Options, nextchar: string, next: Option<string>)
    requires nextchar != ""
    ensures DecodeShort(o, nextchar, next) ==
      ByKind(KindOf(o.optstring, nextchar[0]), MissingArgument(o), nextchar, next)
  {
    hide IndexOf;
  }

  // A prefix shifts the letters and adds itself.
  lemma PrefixShifts(ch: char, letters: string, c: char)
    requires ch != ':'
    ensures KindOf([ch] + letters, c) == if c == ch then ColonsAfter(letters, 0) else KindOf(letters, c)
    ensures IndexOf([ch] + letters, c) >= 0 <==> c == ch || IndexOf(letters, c) >= 0
  {
    var all := [ch] + letters;
    assert all[0] == ch && all[1..] == letters;
    assert forall i | 0 <= i < |letters| :: all[i + 1] == letters[i];
  }

  lemma MissingReports(o: Options, ch: char)
    requires ch != ':'
    ensures MissingArgument(Prefixed(o, ch)) == '?' as int
    ensures MissingArgument(o) == if ColonAt(o.optstring, 0) then ':' as int else '?' as int
  {
  }

  // The options as the calls after the first one see them.
  function Prefixed(o: Options, ch: char): Options {
    o.(optstring := [ch] + o.optstring)
  }

  // ---------- When the prefix goes unnoticed ----------

  function Table(o: Options): seq<LongOption> {
    if o.longopts.Some? then o.longopts.value else []
  }

  // Every element is tried as a long option first.
  predicate LongOnly(o: Options) {
    o.longopts.Some? && o.longOnly
  }

  ghost predicate NoName(t: seq<LongOption>, name: string) {
    forall j | 0 <= j < |t| :: !(name <= t[j].name)
  }

  // Behind this letter the rest of the element is scanned further.
  ghost predicate Leads(letters: string, a: char) {
    a != '-' && IndexOf(letters, a) >= 0 && (a == ':' || KindOf(letters, a) == Plain)
  }

  // Can c come up as a short option, at the end of an element (bare) or before more text?
  // Only a '-' may be kept from it, if elements are tried as long options: it needs a letter
  // before it, and there must be no name that starts like the two.
  ghost predicate Comes(o: Options, c: char, bare: bool) {
    LongOnly(o) && c == '-' ==>
      exists a :: Leads(o.optstring, a) &&
        if bare then NoName(Table(o), "-") && NoName(Table(o), NamePart([a, '-'])) else a != '=' || Table(o) == []
  }

  // Some long option can miss its argument.
  ghost predicate CanMiss(o: Options) {
    exists i, n :: 0 <= i < |Table(o)| && 0 < n <= |Table(o)[i].name| && Misses(o, i, n)
  }

  // The option is found by the first n characters of its name and requires an argument.
  ghost predicate Misses(o: Options, i: nat, n: nat)
    requires i < |Table(o)| && n <= |Table(o)[i].name|
  {
    var name := Table(o)[i].name[..n];
    '=' !in name && Lookup(Table(o), name, o.longOnly) == Found(i) && Table(o)[i].hasArg == 1
  }

  predicate TakesText(k: Kind) {
    k == Optional || k == Required
  }

  // Two kinds that a short option does not tell apart, at the end of an element or before text.
  predicate Alike(k: Kind, j: Kind, bare: bool) {
    k == j || (!bare && TakesText(k) && TakesText(j))
  }

  // What keeps the prefix from being noticed: where it can come up it is an option letter
  // anyway, of the kind that the colons behind the prefix give it; and if the letters start
  // with a colon, no argument can be missing.
  ghost predicate Harmless(o: Options, ch: char) {
    var k, j := ColonsAfter(o.optstring, 0), KindOf(o.optstring, ch);
    && (forall bare | Comes(o, ch, bare) :: Alike(k, j, bare))
    && (ColonAt(o.optstring, 0) ==> !CanMiss(o) && forall c | Comes(o, c, true) :: KindOf(o.optstring, c) != Required)
  }

  // ---------- Unnoticed prefixes ----------

  // Where the scan can be in an element. If elements are tried as long options, it gets past
  // the first letter only when no name fits.
  ghost predicate Within(o: Options, elem: string, nextchar: string) {
    && IsOption(elem) && elem != "--" && nextchar != ""
    && (LongOnly(o) && nextchar != AfterDashes(o, elem) ==>
          && elem[1] != '-' && |elem| > 2 && Comes(o, '-', false)
          && (|| KindOf(o.optstring, '-') == Plain
              || exists a :: Leads(o.optstring, a) && NoName(Table(o), NamePart([a] + nextchar))))
  }

  // More of the element is left only behind a letter that takes no argument.
  lemma ShortGoesOn(o: Options, nextchar: string, next: Option<string>)
    requires nextchar != "" && DecodeShort(o, nextchar, next).rest != ""
    ensures DecodeShort(o, nextchar, next).rest == nextchar[1..]
    ensures var c := nextchar[0]; KindOf(o.optstring, c) == Plain || IndexOf(o.optstring, c) < 0 || c == ':'
  {
  }

  lemma LongGoesOn(o: Options, elem: string, nextchar: string, next: Option<string>)
    requires IsOption(elem) && nextchar != "" && TriesLong(o, elem) && Decode(o, elem, nextchar, next).rest != ""
    ensures LongOnly(o) && elem[1] != '-' && IndexOf(o.optstring, nextchar[0]) >= 0
    ensures NoName(Table(o), NamePart(nextchar))
    ensures Decode(o, elem, nextchar, next) == DecodeShort(o, nextchar, next)
  {
    hide DecodeShort, Lookup, NamePart;
  }

  lemma StaysWithin(o: Options, elem: string, nextchar: string, next: Option<string>)
    requires Within(o, elem, nextchar)
    ensures var d := Decode(o, elem, nextchar, next); d.rest != "" ==> Within(o, elem, d.rest)
  {
    hide Decode, DecodeShort, KindOf;
    var d := Decode(o, elem, nextchar, next);
    if LongOnly(o) && d.rest != "" {
      if TriesLong(o, elem) {
        LongGoesOn(o, elem, nextchar, next);
        ShortGoesOn(o, nextchar, next);
        var a := nextchar[0];
        assert [a] + d.rest == nextchar;
        if a != '-' {
          assert Leads(o.optstring, a);
          if a == '=' {
            assert NamePart(nextchar) == "";
            if Table(o) != [] {
              EveryName(Table(o));
            }
          }
        }
      } else {
        Shrinks(o, elem, nextchar, next);
      }
    }
  }

  lemma EveryName(t: seq<LongOption>)
    requires t != []
    ensures !NoName(t, "")
  {
    assert "" <= t[0].name;
  }

  // With getopt_long_only, an element that is not tried as a long option is a single letter.
  lemma Shrinks(o: Options, elem: string, nextchar: string, next: Option<string>)
    requires Within(o, elem, nextchar) && LongOnly(o) && !TriesLong(o, elem)
    ensures Decode(o, elem, nextchar, next).rest == "" && |nextchar| == 1
  {
    assert |Decode(o, elem, nextchar, next).rest| < |nextchar|;
  }

  lemma FoundSame(o: Options, ch: char, i: nat, nextchar: string, next: Option<string>)
    requires ch in "+-" && Harmless(o, ch) && nextchar != "" && o.longopts.Some?
    requires Lookup(o.longopts.value, NamePart(nextchar), o.longOnly) == Found(i)
    ensures DecodeFound(Prefixed(o, ch), i, nextchar, next) == DecodeFound(o, i, nextchar, next)
  {
    hide Lookup, KindOf, Comes;
    MissingReports(o, ch);
    var name := NamePart(nextchar);
    if |name| == |nextchar| && o.longopts.value[i].hasArg == 1 {
      assert Table(o)[i].name[..|name|] == name && Misses(o, i, |name|);
    }
  }

  lemma ShortSame(o: Options, ch: char, nextchar: string, next: Option<string>)
    requires ch in "+-" && nextchar != ""
    requires var k := KindOf(o.optstring, nextchar[0]);
      && Alike(KindOf([ch] + o.optstring, nextchar[0]), k, |nextchar| == 1)
      && (ColonAt(o.optstring, 0) && |nextchar| == 1 ==> k != Required)
    ensures DecodeShort(Prefixed(o, ch), nextchar, next) == DecodeShort(o, nextchar, next)
  {
    hide KindOf, DecodeShort;
    MissingReports(o, ch);
    ShortByKind(o, nextchar, next);
    ShortByKind(Prefixed(o, ch), nextchar, next);
  }

  // What is asked of the letter scanned next.
  lemma LetterSame(o: Options, ch: char, nextchar: string, next: Option<string>)
    requires ch in "+-" && Harmless(o, ch) && nextchar != ""
    requires Comes(o, nextchar[0], false)
    requires |nextchar| == 1 ==>
      Comes(o, nextchar[0], true) || (nextchar[0] == '-' && KindOf(o.optstring, '-') == Plain)
    ensures IndexOf([ch] + o.optstring, nextchar[0]) >= 0 <==> IndexOf(o.optstring, nextchar[0]) >= 0
    ensures DecodeShort(Prefixed(o, ch), nextchar, next) == DecodeShort(o, nextchar, next)
  {
    hide Comes, ColonsAfter, DecodeShort, IndexOf, CanMiss;
    PrefixShifts(ch, o.optstring, nextchar[0]);
    KindIn(o.optstring, nextchar[0]);
    ShortSame(o, ch, nextchar, next);
  }

  lemma KindIn(letters: string, c: char)
    ensures KindOf(letters, c) != Absent ==> IndexOf(letters, c) >= 0
    ensures c == ':' ==> KindOf(letters, c) == Absent
    ensures ColonsAfter(letters, 0) != Absent
  {
  }

  // Where a '-' is scanned, it could come up.
  lemma DashComes(o: Options, elem: string, nextchar: string)
    requires LongOnly(o) && Within(o, elem, nextchar) && elem[1] != '-' && nextchar[0] == '-'
    requires NoName(Table(o), NamePart(nextchar))
    ensures Comes(o, '-', false)
    ensures |nextchar| == 1 ==> Comes(o, '-', true) || KindOf(o.optstring, '-') == Plain
  {
    hide KindOf;
    if |nextchar| == 1 && KindOf(o.optstring, '-') != Plain {
      assert nextchar == "-" && NamePart(nextchar) == nextchar;
      var a :| Leads(o.optstring, a) && NoName(Table(o), NamePart([a] + nextchar));
      assert [a] + nextchar == [a, '-'];
    }
  }

  lemma SameDecode(o: Options, ch: char, elem: string, nextchar: string, next: Option<string>)
    requires ch in "+-" && Harmless(o, ch) && Within(o, elem, nextchar)
    ensures Decode(Prefixed(o, ch), elem, nextchar, next) == Decode(o, elem, nextchar, next)
  {
    hide DecodeShort, DecodeFound, Harmless, IndexOf, KindOf, Lookup, NamePart;
    if !LongOnly(o) {
      LetterSame(o, ch, nextchar, next);
    } else if elem[1] != '-' {
      LetterSame(o, ch, [elem[1]], None);
      if TriesLong(o, elem) {
        if Lookup(o.longopts.value, NamePart(nextchar), o.longOnly).NoMatch? {
          if nextchar[0] == '-' {
            DashComes(o, elem, nextchar);
          }
          LetterSame(o, ch, nextchar, next);
        }
      } else {
        LetterSame(o, ch, nextchar, next);
      }
    }
    if TriesLong(o, elem) {
      match Lookup(o.longopts.value, NamePart(nextchar), o.longOnly) {
        case Found(i) => FoundSame(o, ch, i, nextchar, next);
        case _ =>
      }
    }
  }

  // So a run with either letters, or with the stripped ones in the first call only, is the same.
  lemma {:induction false} SameRuns(o: Options, ch: char, args: seq<string>, nextchar: string, mode: Ordering)
    requires ch in "+-" && Harmless(o, ch)
    requires nextchar != "" ==> args != [] && Within(o, args[0], nextchar)
    ensures var p := Prefixed(o, ch);
      Sweep(o, p, args, nextchar, mode) == Sweep(p, p, args, nextchar, mode) == Sweep(o, o, args, nextchar, mode)
    decreases |args|, if nextchar != "" then |nextchar| else if args != [] then |args[0]| else 0
  {
    hide Decode, Sweep, Harmless, Within;
    var p := Prefixed(o, ch);
    if nextchar != "" {
      assert IsOption(args[0]) by { WithinOption(o, args[0], nextchar); }
      var next := if |args| > 1 then Some(args[1]) else None;
      var d := Decode(o, args[0], nextchar, next);
      SameDecode(o, ch, args[0], nextchar, next);
      StaysWithin(o, args[0], nextchar, next);
      SweepDecodes(o, p, args, nextchar, mode);
      SweepDecodes(o, o, args, nextchar, mode);
      SweepDecodes(p, p, args, nextchar, mode);
      SameRuns(o, ch, args[d.used..], d.rest, mode);
    } else {
      SweepOpens(o, p, args, mode);
      SweepOpens(o, o, args, mode);
      SweepOpens(p, p, args, mode);
      if args != [] && args[0] != "--" {
        if IsOption(args[0]) {
          OpensWithin(o, args[0]);
          SameRuns(o, ch, args, AfterDashes(o, args[0]), mode);
        } else {
          SameRuns(o, ch, args[1..], "", mode);
        }
      }
    }
  }

  lemma WithinOption(o: Options, elem: string, nextchar: string)
    requires Within(o, elem, nextchar)
    ensures IsOption(elem)
  {
  }

  lemma OpensWithin(o: Options, elem: string)
    requires IsOption(elem) && elem != "--"
    ensures Within(o, elem, AfterDashes(o, elem))
  {
  }

  // ---------- Noticed prefixes ----------

  // Runs from the second call on do not tell the letters apart.
  ghost predicate LaterSame(o: Options, p: Options, mode: Ordering) {
    forall args :: Sweep(o, o, args, "", mode) == Sweep(p, p, args, "", mode)
  }

  // Neither do whole runs, in which the first call sees the stripped letters.
  ghost predicate AllSame(o: Options, ch: char, mode: Ordering) {
    forall args :: Sweep(o, Prefixed(o, ch), args, "", mode) == Sweep(o, o, args, "", mode)
  }

  // An element that takes up the first call.
  function Filler(o: Options): string {
    if o.longopts.Some? then "--=" else "-:"
  }

  lemma FillerTakesOne(o: Options, args: seq<string>, mode: Ordering, later: Options)
    ensures var r, d := Sweep(later, later, args, "", mode),
        Decode(o, Filler(o), AfterDashes(o, Filler(o)), if args != [] then Some(args[0]) else None);
      Sweep(o, later, [Filler(o)] + args, "", mode) == Swept([d.event] + r.events, 1 + r.passed)
  {
    hide Sweep, Lookup, DecodeShort;
    var all, next := [Filler(o)] + args, if args != [] then Some(args[0]) else None;
    var nextchar := AfterDashes(o, Filler(o));
    assert all[1..] == args && all[0] == Filler(o);
    SweepOpens(o, later, all, mode);
    SweepDecodes(o, later, all, nextchar, mode);
    if o.longopts.Some? {
      assert nextchar == "=" && NamePart(nextchar) == "";
    } else {
      assert nextchar == ":";
      ShortByKind(o, nextchar, next);
    }
  }

  lemma FirstCallSkipped(o: Options, ch: char, mode: Ordering)
    requires AllSame(o, ch, mode)
    ensures LaterSame(o, Prefixed(o, ch), mode)
  {
    hide Sweep, Decode, Filler;
    var p := Prefixed(o, ch);
    forall args ensures Sweep(o, o, args, "", mode) == Sweep(p, p, args, "", mode) {
      var all := [Filler(o)] + args;
      FillerTakesOne(o, args, mode, p);
      FillerTakesOne(o, args, mode, o);
      assert Sweep(o, p, all, "", mode) == Sweep(o, o, all, "", mode);
      var r, r' := Sweep(o, o, args, "", mode), Sweep(p, p, args, "", mode);
      assert r.events == Sweep(o, o, all, "", mode).events[1..];
      assert r'.events == Sweep(o, p, all, "", mode).events[1..];
    }
  }

  function Vector(elem: string, next: Option<string>): seq<string> {
    [elem] + if next.Some? then [next.value] else []
  }

  // The first two reports on a vector.
  lemma FirstEvents(o: Options, elem: string, next: Option<string>, mode: Ordering)
    requires IsOption(elem) && elem != "--"
    ensures var s, d := Sweep(o, o, Vector(elem, next), "", mode).events, Decode(o, elem, AfterDashes(o, elem), next);
      && s != [] && s[0] == d.event
      && (d.rest != "" ==> |s| > 1 && s[1] == Decode(o, elem, d.rest, next).event)
  {
    hide Sweep, Decode;
    var args := Vector(elem, next);
    SweepOpens(o, o, args, mode);
    SweepDecodes(o, o, args, AfterDashes(o, elem), mode);
    var d := Decode(o, elem, AfterDashes(o, elem), next);
    if d.rest != "" {
      assert args[0..] == args;
      SweepDecodes(o, o, args, d.rest, mode);
    }
  }

  lemma EventsSame(o: Options, p: Options, elem: string, next: Option<string>, mode: Ordering)
    requires LaterSame(o, p, mode) && o.longopts == p.longopts && IsOption(elem) && elem != "--"
    ensures var c := AfterDashes(o, elem);
      var d, e := Decode(o, elem, c, next), Decode(p, elem, c, next);
      && d.event == e.event
      && (d.rest == e.rest != "" ==> Decode(o, elem, d.rest, next).event == Decode(p, elem, e.rest, next).event)
  {
    hide Sweep, Decode;
    FirstEvents(o, elem, next, mode);
    FirstEvents(p, elem, next, mode);
    assert Sweep(o, o, Vector(elem, next), "", mode) == Sweep(p, p, Vector(elem, next), "", mode);
  }

  // The letters are not told apart by a short option before this text.
  ghost predicate SameShort(o: Options, ch: char, c: char, rest: string, next: Option<string>) {
    DecodeShort(Prefixed(o, ch), [c] + rest, next).event == DecodeShort(o, [c] + rest, next).event
  }

  lemma ShortTells(o: Options, ch: char, c: char, rest: string, next: Option<string>)
    requires ch in "+-" && SameShort(o, ch, c, rest, next)
    ensures ByKind(KindOf([ch] + o.optstring, c), '?' as int, [c] + rest, next).event ==
      ByKind(KindOf(o.optstring, c), if ColonAt(o.optstring, 0) then ':' as int else '?' as int, [c] + rest, next).event
    ensures KindOf([ch] + o.optstring, c) == if c == ch then ColonsAfter(o.optstring, 0) else KindOf(o.optstring, c)
  {
    hide DecodeShort, ByKind, KindOf;
    MissingReports(o, ch);
    ShortByKind(o, [c] + rest, next);
    ShortByKind(Prefixed(o, ch), [c] + rest, next);
    PrefixShifts(ch, o.optstring, c);
  }

  lemma TextTells(o: Options, ch: char, rest: string)
    requires ch in "+-" && rest != "" && SameShort(o, ch, ch, rest, None)
    ensures Alike(ColonsAfter(o.optstring, 0), KindOf(o.optstring, ch), false)
  {
    hide KindOf, ColonsAfter, SameShort;
    ShortTells(o, ch, ch, rest, None);
    KindIn(o.optstring, ch);
  }

  lemma BareTells(o: Options, ch: char)
    requires ch in "+-" && SameShort(o, ch, ch, "", Some("v"))
    requires Alike(ColonsAfter(o.optstring, 0), KindOf(o.optstring, ch), false)
    ensures ColonsAfter(o.optstring, 0) == KindOf(o.optstring, ch)
  {
    hide KindOf, ColonsAfter, SameShort;
    ShortTells(o, ch, ch, "", Some("v"));
    KindIn(o.optstring, ch);
  }

  lemma MissingTells(o: Options, ch: char, c: char)
    requires ch in "+-" && SameShort(o, ch, c, "", None) && ColonAt(o.optstring, 0)
    requires KindOf([ch] + o.optstring, c) == KindOf(o.optstring, c)
    ensures KindOf(o.optstring, c) != Required
  {
    hide KindOf, SameShort;
    ShortTells(o, ch, c, "", None);
  }

  // Elements that get a short option scanned: behind a ':', which is never an option,
  lemma ColonReaches(o: Options, ch: char, c: char, rest: string, next: Option<string>, mode: Ordering)
    requires ch in "+-" && LaterSame(o, Prefixed(o, ch), mode) && !LongOnly(o)
    ensures SameShort(o, ch, c, rest, next)
  {
    hide DecodeShort, LaterSame, KindOf;
    var p, elem := Prefixed(o, ch), "-:" + [c] + rest;
    assert elem[1..] == ":" + [c] + rest && (":" + [c] + rest)[1..] == [c] + rest;
    EventsSame(o, p, elem, next, mode);
    ShortByKind(o, elem[1..], next);
    ShortByKind(p, elem[1..], next);
    KindIn(o.optstring, ':');
    KindIn(p.optstring, ':');
  }

  // alone in an element,
  lemma AloneReaches(o: Options, ch: char, c: char, next: Option<string>, mode: Ordering)
    requires ch in "+-" && LaterSame(o, Prefixed(o, ch), mode) && LongOnly(o) && c != '-'
    requires IndexOf(o.optstring, c) >= 0
    ensures SameShort(o, ch, c, "", next)
  {
    hide DecodeShort, LaterSame, IndexOf, Lookup;
    PrefixShifts(ch, o.optstring, c);
    var elem := "-" + [c];
    assert elem[1..] == [c] + "";
    EventsSame(o, Prefixed(o, ch), elem, next, mode);
  }

  // before a text longer than any name,
  function Longer(t: seq<LongOption>): (r: string)
    ensures r != "" && '=' !in r && forall j | 0 <= j < |t| :: |t[j].name| < |r|
  {
    if t == [] then "x" else Longer(t[..|t| - 1]) + seq(|t[|t| - 1].name|, _ => 'x')
  }

  lemma NoneLonger(t: seq<LongOption>, start: string)
    requires '=' !in start
    ensures NoName(t, NamePart(start + Longer(t)))
  {
    assert NamePart(start + Longer(t)) == start + Longer(t);
  }

  // Nothing but its letters tells o from p, where no name fits.
  lemma NoNameShort(o: Options, elem: string, nextchar: string, next: Option<string>)
    requires IsOption(elem) && LongOnly(o) && elem[1] != '-' && |elem| > 2 && nextchar != ""
    requires NoName(Table(o), NamePart(nextchar))
    ensures Decode(o, elem, nextchar, next).event == DecodeShort(o, nextchar, next).event
    ensures IndexOf(o.optstring, nextchar[0]) >= 0 ==> Decode(o, elem, nextchar, next) == DecodeShort(o, nextchar, next)
  {
    hide NamePart;
  }

  lemma TextReaches(o: Options, ch: char, c: char, next: Option<string>, mode: Ordering)
    requires ch in "+-" && LaterSame(o, Prefixed(o, ch), mode) && LongOnly(o) && c !in "-="
    ensures SameShort(o, ch, c, Longer(Table(o)), next)
  {
    hide DecodeShort, Decode, LaterSame, NamePart;
    var p, rest := Prefixed(o, ch), Longer(Table(o));
    var elem := "-" + [c] + rest;
    assert elem[1..] == [c] + rest;
    NoneLonger(Table(o), [c]);
    EventsSame(o, p, elem, next, mode);
    NoNameShort(o, elem, [c] + rest, next);
    NoNameShort(p, elem, [c] + rest, next);
  }

  // and a '-' behind a letter that leads on.
  lemma LeaderReaches(o: Options, ch: char, a: char, rest: string, next: Option<string>, mode: Ordering)
    requires ch in "+-" && LaterSame(o, Prefixed(o, ch), mode) && LongOnly(o) && Leads(o.optstring, a)
    requires a == ch ==> KindOf([ch] + o.optstring, a) == KindOf(o.optstring, a)
    requires NoName(Table(o), NamePart([a] + (['-'] + rest))) && NoName(Table(o), NamePart(['-'] + rest))
    ensures SameShort(o, ch, '-', rest, next)
  {
    hide DecodeShort, Decode, LaterSame, NamePart, KindOf, IndexOf, NoName;
    PrefixShifts(ch, o.optstring, a);
    var p, text := Prefixed(o, ch), [a] + (['-'] + rest);
    var elem := "-" + text;
    assert elem[1..] == text && text[1..] == ['-'] + rest;
    EventsSame(o, p, elem, next, mode);
    Led(o, elem, text, next);
    Led(p, elem, text, next);
    NoNameShort(o, elem, ['-'] + rest, next);
    NoNameShort(p, elem, ['-'] + rest, next);
  }

  lemma Led(o: Options, elem: string, nextchar: string, next: Option<string>)
    requires IsOption(elem) && LongOnly(o) && elem[1] != '-' && |elem| > 2 && |nextchar| > 1
    requires NoName(Table(o), NamePart(nextchar)) && Leads(o.optstring, nextchar[0])
    ensures Decode(o, elem, nextchar, next).rest == nextchar[1..]
  {
    hide Decode, DecodeShort, NamePart, KindOf, NoName;
    NoNameShort(o, elem, nextchar, next);
    ShortByKind(o, nextchar, next);
    KindIn(o.optstring, ':');
  }

  // The kinds before text, if the prefix can come up there.
  lemma TextAlike(o: Options, ch: char, mode: Ordering)
    requires ch in "+-" && LaterSame(o, Prefixed(o, ch), mode) && Comes(o, ch, false)
    ensures Alike(ColonsAfter(o.optstring, 0), KindOf(o.optstring, ch), false)
  {
    hide LaterSame, KindOf, ColonsAfter, SameShort, IndexOf, NamePart, Alike;
    var rest := Longer(Table(o));
    if !LongOnly(o) {
      ColonReaches(o, ch, ch, rest, None, mode);
    } else if ch == '+' {
      TextReaches(o, ch, ch, None, mode);
    } else {
      var a :| Leads(o.optstring, a) && (a != '=' || Table(o) == []);
      if a != '=' {
        NoneLonger(Table(o), [a, '-']);
        assert [a, '-'] + rest == [a] + (['-'] + rest);
      }
      NoneLonger(Table(o), ['-']);
      LeaderReaches(o, ch, a, rest, None, mode);
    }
    TextTells(o, ch, rest);
  }

  lemma BareBeforeText(o: Options, c: char)
    requires Comes(o, c, true)
    ensures Comes(o, c, false)
  {
    hide KindOf, IndexOf;
    if LongOnly(o) && c == '-' {
      var a :| Leads(o.optstring, a) && NoName(Table(o), "-") && NoName(Table(o), NamePart([a, '-']));
      if a == '=' && Table(o) != [] {
        assert NamePart([a, '-']) == "";
        EveryName(Table(o));
      }
    }
  }

  // A letter that can come up at the end of an element tells there.
  lemma BareReaches(o: Options, ch: char, c: char, next: Option<string>, mode: Ordering)
    requires ch in "+-" && LaterSame(o, Prefixed(o, ch), mode) && Comes(o, c, true)
    requires IndexOf(o.optstring, c) >= 0
    requires c == '-' && ch == '+' ==> KindOf([ch] + o.optstring, ch) == KindOf(o.optstring, ch)
    ensures SameShort(o, ch, c, "", next)
  {
    hide LaterSame, KindOf, SameShort, IndexOf, NamePart, NoName;
    if !LongOnly(o) {
      ColonReaches(o, ch, c, "", next, mode);
    } else if c != '-' {
      AloneReaches(o, ch, c, next, mode);
    } else {
      var a :| Leads(o.optstring, a) && NoName(Table(o), "-") && NoName(Table(o), NamePart([a, '-']));
      assert [a] + (['-'] + "") == [a, '-'] && ['-'] + "" == "-";
      assert NamePart("-") == "-" by { NameIsAll("-"); }
      LeaderReaches(o, ch, a, "", next, mode);
    }
  }

  lemma NameIsAll(name: string)
    requires '=' !in name
    ensures NamePart(name) == name
  {
  }

  lemma BareSame(o: Options, ch: char, mode: Ordering)
    requires ch in "+-" && LaterSame(o, Prefixed(o, ch), mode) && Comes(o, ch, true)
    ensures ColonsAfter(o.optstring, 0) == KindOf(o.optstring, ch)
  {
    hide LaterSame, KindOf, ColonsAfter, SameShort, IndexOf, Comes;
    BareBeforeText(o, ch);
    TextAlike(o, ch, mode);
    KindIn(o.optstring, ch);
    BareReaches(o, ch, ch, Some("v"), mode);
    BareTells(o, ch);
  }

  lemma NoneRequired(o: Options, ch: char, c: char, mode: Ordering)
    requires ch in "+-" && LaterSame(o, Prefixed(o, ch), mode) && Comes(o, c, true) && ColonAt(o.optstring, 0)
    ensures KindOf(o.optstring, c) != Required
  {
    hide LaterSame, KindOf, ColonsAfter, SameShort, IndexOf;
    PrefixShifts(ch, o.optstring, c);
    PrefixShifts(ch, o.optstring, ch);
    KindIn(o.optstring, c);
    if c == ch || ch == '+' {
      BareSame(o, ch, mode);
    }
    if KindOf(o.optstring, c) == Required {
      BareReaches(o, ch, c, None, mode);
      MissingTells(o, ch, c);
    }
  }

  lemma NoneMisses(o: Options, ch: char, i: nat, n: nat, mode: Ordering)
    requires ch in "+-" && LaterSame(o, Prefixed(o, ch), mode) && ColonAt(o.optstring, 0)
    requires i < |Table(o)| && 0 < n <= |Table(o)[i].name|
    ensures !Misses(o, i, n)
  {
    hide LaterSame, Lookup, DecodeShort, NamePart;
    if Misses(o, i, n) {
      var name := Table(o)[i].name[..n];
      var elem := "--" + name;
      assert elem[2..] == name;
      NameIsAll(name);
      MissingReports(o, ch);
      EventsSame(o, Prefixed(o, ch), elem, None, mode);
    }
  }

  lemma SameIsHarmless(o: Options, ch: char, mode: Ordering)
    requires ch in "+-" && AllSame(o, ch, mode)
    ensures Harmless(o, ch)
  {
    hide LaterSame, AllSame, KindOf, ColonsAfter, Comes, Misses, ColonAt;
    FirstCallSkipped(o, ch, mode);
    forall bare | Comes(o, ch, bare) ensures Alike(ColonsAfter(o.optstring, 0), KindOf(o.optstring, ch), bare) {
      if bare {
        BareSame(o, ch, mode);
      } else {
        TextAlike(o, ch, mode);
      }
    }
    if ColonAt(o.optstring, 0) {
      forall c | Comes(o, c, true) ensures KindOf(o.optstring, c) != Required {
        NoneRequired(o, ch, c, mode);
      }
      forall i, n | 0 <= i < |Table(o)| && 0 < n <= |Table(o)[i].name| ensures !Misses(o, i, n) {
        NoneMisses(o, ch, i, n, mode);
      }
    }
  }

  // Main result: with the prefix in the letters of every call but the first, every run reports
  // what it would with the stripped letters throughout, if and only if the prefix is harmless.
  lemma RunsAgreeIff(o: Options, ch: char, mode: Ordering)
    requires ch in "+-"
    ensures AllSame(o, ch, mode) <==> Harmless(o, ch)
  {
    hide Sweep, Harmless;
    if Harmless(o, ch) {
      forall args ensures Sweep(o, Prefixed(o, ch), args, "", mode) == Sweep(o, o, args, "", mode) {
        SameRuns(o, ch, args, "", mode);
      }
    }
    if AllSame(o, ch, mode) {
      SameIsHarmless(o, ch, mode);
    }
  }

  // Unless elements are tried as long options first, the condition is on the letters and on
  // long options that can miss their argument.
  lemma HarmlessIff(o: Options, ch: char)
    requires !LongOnly(o)
    ensures Harmless(o, ch) <==>
      && KindOf(o.optstring, ch) == ColonsAfter(o.optstring, 0)
      && (ColonAt(o.optstring, 0) ==> !CanMiss(o) && forall c :: KindOf(o.optstring, c) != Required)
  {
    hide KindOf, ColonsAfter, CanMiss;
    assert Comes(o, ch, true);
    forall c ensures Comes(o, c, true) {
    }
  }

  // ---------- An input that tells ----------

  // getopt(3, {"p", "-a", "-+"}, "+a"), called three times: the second call reports the mode
  // prefix as an option, which the letters "a" do not have.
  lemma PrefixBecomesLetter()
    ensures var args, a, later := ["-a", "-+"], Options("a", None, false), Options("+a", None, false);
      && Sweep(a, later, args, "", REQUIRE_ORDER).events ==
        [Event('a' as int, None, None), Event('+' as int, None, None)]
      && Sweep(a, a, args, "", REQUIRE_ORDER).events == [Event('a' as int, None, None), Event('?' as int, None, None)]
    ensures var a := Options("a", None, false); Prefixed(a, '+') == Options("+a", None, false) && !Harmless(a, '+')
  {
    var args, a, later := ["-a", "-+"], Options("a", None, false), Options("+a", None, false);
    assert args[1..] == ["-+"] && args[0][1..] == "a" && args[1][1..] == "+";
    assert IndexOf("a", 'a') == 0 && IndexOf("a", '+') == -1 && IndexOf("+a", '+') == 0;
    HarmlessIff(a, '+');
    assert KindOf("a", '+') == Absent && ColonsAfter("a", 0) == Plain;
    PrefixSecond(a, later);
    PrefixSecond(a, a);
    assert Decode(a, "-a", "a", Some("-+")) == Report('a' as int, None, "", 1);
  }

  lemma PrefixSecond(a: Options, o: Options)
    requires a.optstring == "a" && o.longopts == None
    ensures IndexOf(o.optstring, '+') < 0 ==>
      Sweep(o, o, ["-+"], "", REQUIRE_ORDER).events == [Event('?' as int, None, None)]
    ensures o.optstring == "+a" ==> Sweep(o, o, ["-+"], "", REQUIRE_ORDER).events == [Event('+' as int, None, None)]
  {
    var args := ["-+"];
    assert args[0][1..] == "+" && args[1..] == [];
    assert Sweep(o, o, [], "", REQUIRE_ORDER) == Swept([], 0);
    var d := Decode(o, "-+", "+", None);
    assert d.rest == "" && d.used == 1;
    assert Sweep(o, o, args, "+", REQUIRE_ORDER).events == [d.event] + [];
  }
}

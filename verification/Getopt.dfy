/** getopt over a mutable argument vector: the static scan state, the in-place exchange of
    skipped non-options and processed options, and the scanner itself. */
module Getopt {
  import opened Wrappers
  import opened GetoptSpec
  import opened GetoptRun

  // a with its ranges [i, i + len) and [j, j + len) interchanged.
  ghost predicate SwappedRanges<T>(a: seq<T>, b: seq<T>, i: nat, j: nat, len: nat)
    requires i + len <= j && j + len <= |a|
  {
    b == a[..i] + a[j..j + len] + a[i + len..j] + a[i..i + len] + a[j + len..]
  }

  // Rotating the adjacent blocks x y z, when the first and the last have equal length and
  // have been swapped: only the blocks on one side remain to be rotated.
  lemma RotateShortBottom<T>(a: seq<T>, b: seq<T>, bottom: nat, middle: nat, top: nat)
    requires bottom <= middle <= top <= |a| && middle - bottom < top - middle
    requires SwappedRanges(a, b, bottom, top - (middle - bottom), middle - bottom)
    ensures |b| == |a| && Rotate(b, bottom, middle, top - (middle - bottom)) == Rotate(a, bottom, middle, top)
  {
    var len := middle - bottom;
    var w, x, y, z, v := a[..bottom], a[bottom..middle], a[middle..top - len], a[top - len..top], a[top..];
    assert b == w + z + y + x + v;
    assert b[..bottom] == w && b[bottom..middle] == z && b[middle..top - len] == y && b[top - len..] == x + v;
    assert a[middle..top] == y + z;
    assert w + y + z + (x + v) == w + (y + z) + x + v;
  }

  lemma RotateShortTop<T>(a: seq<T>, b: seq<T>, bottom: nat, middle: nat, top: nat)
    requires bottom <= middle <= top <= |a| && top - middle <= middle - bottom
    requires SwappedRanges(a, b, bottom, middle, top - middle)
    ensures |b| == |a| && Rotate(b, bottom + (top - middle), middle, top) == Rotate(a, bottom, middle, top)
  {
    var len := top - middle;
    var w, x, y, z, v := a[..bottom], a[bottom..bottom + len], a[bottom + len..middle], a[middle..top], a[top..];
    assert b == w + z + y + x + v;
    assert b[..bottom + len] == w + z && b[bottom + len..middle] == y && b[middle..top] == x && b[top..] == v;
    assert a[bottom..middle] == x + y;
    assert w + z + x + y + v == w + z + (x + y) + v;
  }

  lemma RotateNothing<T>(a: seq<T>, bottom: nat, middle: nat, top: nat)
    requires bottom <= middle <= top <= |a| && (bottom == middle || middle == top)
    ensures Rotate(a, bottom, middle, top) == a
  {
  }

  // Where position m gets its element from when [i, i + len) and [j, j + len) are interchanged.
  function SwapSource(m: int, i: int, j: int, len: int): int {
    if i <= m < i + len then m + (j - i) else if j <= m < j + len then m - (j - i) else m
  }

  lemma SwappedByPosition<T>(a: seq<T>, b: seq<T>, i: nat, j: nat, len: nat)
    requires i + len <= j && j + len <= |a| == |b|
    requires forall m | 0 <= m < |a| :: b[m] == a[SwapSource(m, i, j, len)]
    ensures SwappedRanges(a, b, i, j, len)
  {
    assert b[..i] == a[..i] && b[i..i + len] == a[j..j + len] && b[i + len..j] == a[i + len..j];
    assert b[j..j + len] == a[i..i + len] && b[j + len..] == a[j + len..];
    assert b[..i] + b[i..i + len] == b[..i + len] && b[..i + len] + b[i + len..j] == b[..j];
    assert b[..j] + b[j..j + len] == b[..j + len] && b[..j + len] + b[j + len..] == b;
  }

  method SwapRanges(argv: array<string>, i: nat, j: nat, len: nat)
    requires i + len <= j && j + len <= argv.Length
    modifies argv
    ensures SwappedRanges(old(argv[..]), argv[..], i, j, len)
  {
    for k := 0 to len
      invariant forall m | 0 <= m < argv.Length :: argv[m] == old(argv[..])[SwapSource(m, i, j, k)]
    {
      var tem := argv[i + k];
      argv[i + k] := argv[j + k];
      argv[j + k] := tem;
    }
    SwappedByPosition(old(argv[..]), argv[..], i, j, len);
  }

  // The short bottom segment goes to the top end, where it belongs.
  method SwapBottom(argv: array<string>, bottom: nat, middle: nat, top: nat)
    requires bottom <= middle <= top <= argv.Length && middle - bottom < top - middle
    modifies argv
    ensures Rotate(argv[..], bottom, middle, top - (middle - bottom)) == Rotate(old(argv[..]), bottom, middle, top)
  {
    hide Rotate, SwappedRanges;
    SwapRanges(argv, bottom, top - (middle - bottom), middle - bottom);
    RotateShortBottom(old(argv[..]), argv[..], bottom, middle, top);
  }

  // The short top segment goes to the bottom end.
  method SwapTop(argv: array<string>, bottom: nat, middle: nat, top: nat)
    requires bottom <= middle <= top <= argv.Length && top - middle <= middle - bottom
    modifies argv
    ensures Rotate(argv[..], bottom + (top - middle), middle, top) == Rotate(old(argv[..]), bottom, middle, top)
  {
    hide Rotate, SwappedRanges;
    SwapRanges(argv, bottom, middle, top - middle);
    RotateShortTop(old(argv[..]), argv[..], bottom, middle, top);
  }

  // The first option matching name as the source's loop finds it.
  method FindLongOption(t: seq<LongOption>, name: string, longOnly: bool) returns (m: Match)
    ensures m == Lookup(t, name, longOnly)
  {
    var pfound: Option<nat> := None;
    var ambig := false;
    for p := 0 to |t|
      invariant forall j | 0 <= j < p :: t[j].name != name
      invariant pfound.Some? ==> pfound.value < p && name <= t[pfound.value].name
      invariant forall j | 0 <= j < p && (pfound.None? || j < pfound.value) :: !(name <= t[j].name)
      invariant ambig <==> pfound.Some? && exists j | pfound.value < j < p ::
        name <= t[j].name && (longOnly || !SameMeaning(t[pfound.value], t[j]))
    {
      if name <= t[p].name {
        if |name| == |t[p].name| {
          return Found(p);
        } else if pfound.None? {
          pfound := Some(p);
        } else if longOnly || !SameMeaning(t[pfound.value], t[p]) {
          ambig := true;
        }
      }
    }
    assert FirstPrefix(t, name) == pfound;
    return if ambig then AmbiguousMatch else if pfound.Some? then Found(pfound.value) else NoMatch;
  }

  // The static variables that persist between calls.
  class Scanner {
    var optind: nat
    var nextchar: string
    var ordering: Ordering
    var first_nonopt: nat
    var last_nonopt: nat
    var initialized: bool
    var optarg: Option<string>
    var longind: Option<nat>

    constructor ()
      ensures optind == 1 && !initialized
    {
      optind, first_nonopt, last_nonopt := 1, 0, 0;
      nextchar, ordering, initialized := "", PERMUTE, false;
      optarg, longind := None, None;
    }

    ghost function View(argv: array<string>): State
      reads this, argv
    {
      State(argv[..], optind, nextchar, ordering, first_nonopt, last_nonopt)
    }

    // Interchanges the adjacent segments [first_nonopt, last_nonopt) and [last_nonopt, optind)
    // in place, by swaps of the shorter segment with the far end of the longer one.
    method ExchangeSegments(argv: array<string>)
      requires first_nonopt <= last_nonopt <= optind <= argv.Length
      modifies argv, this`first_nonopt, this`last_nonopt
      ensures View(argv) == Exchange(old(View(argv)))
    {
      hide Rotate;
      var bottom, middle, top := first_nonopt, last_nonopt, optind;
      ghost var goal := Rotate(argv[..], bottom, middle, top);
      while top > middle && middle > bottom
        invariant first_nonopt <= bottom <= middle <= top <= optind
        invariant Rotate(argv[..], bottom, middle, top) == goal
        invariant unchanged(this)
        decreases top - bottom
      {
        if top - middle > middle - bottom {
          var len := middle - bottom;
          SwapBottom(argv, bottom, middle, top);
          top := top - len;
        } else {
          var len := top - middle;
          SwapTop(argv, bottom, middle, top);
          bottom := bottom + len;
        }
      }
      RotateNothing(argv[..], bottom, middle, top);
      first_nonopt := first_nonopt + (optind - last_nonopt);
      last_nonopt := optind;
    }

    method Initialize(optstring: string, posixlyCorrect: bool) returns (rest: string)
      modifies this`first_nonopt, this`last_nonopt, this`nextchar, this`ordering
      ensures first_nonopt == last_nonopt == optind && nextchar == ""
      ensures ordering == OrderingOf(optstring, posixlyCorrect)
      ensures rest == Stripped(optstring)
    {
      first_nonopt, last_nonopt := optind, optind;
      nextchar := "";
      rest := optstring;
      if optstring != "" && optstring[0] == '-' {
        ordering := RETURN_IN_ORDER;
        rest := optstring[1..];
      } else if optstring != "" && optstring[0] == '+' {
        ordering := REQUIRE_ORDER;
        rest := optstring[1..];
      } else if posixlyCorrect {
        ordering := REQUIRE_ORDER;
      } else {
        ordering := PERMUTE;
      }
    }

    method SkipOver(argv: array<string>)
      requires optind <= argv.Length
      modifies this`optind, this`last_nonopt
      ensures optind == last_nonopt == SkipNonOptions(argv[..], old(optind))
    {
      while optind < argv.Length && !IsOption(argv[optind])
        invariant optind <= argv.Length && SkipNonOptions(argv[..], optind) == SkipNonOptions(argv[..], old(optind))
      {
        optind := optind + 1;
      }
      last_nonopt := optind;
    }

    // PERMUTE only: moves the options just processed in front and skips non-options.
    method GatherNonOptions(argv: array<string>)
      requires first_nonopt <= last_nonopt <= optind <= argv.Length
      modifies this`optind, this`first_nonopt, this`last_nonopt, argv
      ensures View(argv) == Gather(old(View(argv)))
    {
      hide Rotate, SkipNonOptions;
      if first_nonopt != last_nonopt && last_nonopt != optind {
        ExchangeSegments(argv);
      } else if last_nonopt != optind {
        first_nonopt := optind;
      }
      SkipOver(argv);
    }

    method SkipDashDash(argv: array<string>)
      requires first_nonopt <= last_nonopt <= optind <= argv.Length
      modifies this`optind, this`first_nonopt, this`last_nonopt, argv
      ensures View(argv) == DashDash(old(View(argv)))
    {
      hide Rotate;
      if optind != argv.Length && argv[optind] == "--" {
        optind := optind + 1;
        if first_nonopt != last_nonopt && last_nonopt != optind {
          ExchangeSegments(argv);
        } else if first_nonopt == last_nonopt {
          first_nonopt := optind;
        }
        last_nonopt := argv.Length;
        optind := argv.Length;
      }
    }

    // Advances to the next element to be decoded, permuting as it goes.
    method Advance(argv: array<string>)
      requires first_nonopt <= last_nonopt && optind <= argv.Length
      modifies this`optind, this`first_nonopt, this`last_nonopt, argv
      ensures View(argv) == Seek(old(View(argv)))
    {
      hide DashDash, Rotate, SkipNonOptions;
      if last_nonopt > optind {
        last_nonopt := optind;
      }
      if first_nonopt > optind {
        first_nonopt := optind;
      }
      if ordering == PERMUTE {
        GatherNonOptions(argv);
      }
      SkipDashDash(argv);
    }

    // What a decoder leaves behind: it has consumed d from the state it started in.
    twostate predicate Consumed(argv: array<string>, d: Decoded, code: int, new ind: Option<nat>)
      reads this, argv
    {
      && View(argv) == old(View(argv)).(nextchar := d.rest, optind := old(optind) + d.used)
      && d.event == Event(code, optarg, ind)
    }

    // The long-option branch; handled is false when the element is to be read as short options.
    method ScanLong(argv: array<string>, o: Options) returns (handled: bool, code: int, ind: Option<nat>)
      requires Valid(View(argv)) && nextchar != "" && TriesLong(o, argv[optind]) && optarg == None
      modifies this`optind, this`nextchar, this`optarg
      ensures handled ==> Consumed(argv, old(Decode(o, argv[optind], nextchar, Following(argv, optind))), code, ind)
      ensures !handled ==> unchanged(this)
      ensures !handled ==>
        Decode(o, argv[optind], nextchar, Following(argv, optind)) == DecodeShort(o, nextchar, Following(argv, optind))
    {
      hide DecodeShort, Lookup, NamePart, MissingArgument, IndexOf;
      code, ind := '?' as int, None;
      var nameend := 0;
      while nameend < |nextchar| && nextchar[nameend] != '='
        invariant nameend <= |nextchar| && '=' !in nextchar[..nameend]
      {
        nameend := nameend + 1;
      }
      NameEnds(nextchar, nameend);
      var m := FindLongOption(o.longopts.value, nextchar[..nameend], o.longOnly);
      match m
      case AmbiguousMatch =>
        nextchar := "";
        optind := optind + 1;
        return true, '?' as int, None;
      case Found(i) =>
        var p := o.longopts.value[i];
        optind := optind + 1;
        if nameend < |nextchar| {
          if p.hasArg != 0 {
            optarg := Some(nextchar[nameend + 1..]);
          } else {
            nextchar := "";
            return true, '?' as int, None;
          }
        } else if p.hasArg == 1 {
          if optind < argv.Length {
            optarg := Some(argv[optind]);
            optind := optind + 1;
          } else {
            nextchar := "";
            return true, MissingArgument(o), None;
          }
        }
        nextchar := "";
        return true, if p.flag.Some? then 0 else p.val, Some(i);
      case NoMatch =>
        if !o.longOnly || argv[optind][1] == '-' || IndexOf(o.optstring, nextchar[0]) < 0 {
          nextchar := "";
          optind := optind + 1;
          return true, '?' as int, None;
        }
        return false, 0, None;
    }

    // The short-option branch.
    method ScanShort(argv: array<string>, o: Options) returns (code: int)
      requires Valid(View(argv)) && nextchar != "" && optarg == None
      modifies this`optind, this`nextchar, this`optarg
      ensures Consumed(argv, old(DecodeShort(o, nextchar, Following(argv, optind))), code, None)
    {
      var c := nextchar[0];
      nextchar := nextchar[1..];
      var temp := IndexOf(o.optstring, c);
      if nextchar == "" {
        optind := optind + 1;
      }
      if temp < 0 || c == ':' {
        return '?' as int;
      }
      code := c as int;
      if ColonAt(o.optstring, temp + 1) {
        if nextchar != "" {
          optarg := Some(nextchar);
          optind := optind + 1;
        } else if ColonAt(o.optstring, temp + 2) {
          optarg := None;
        } else if optind == argv.Length {
          code := MissingArgument(o);
        } else {
          optarg := Some(argv[optind]);
          optind := optind + 1;
        }
        nextchar := "";
      }
    }

    // Decodes what nextchar points at.
    method ScanElement(argv: array<string>, o: Options) returns (code: int, ind: Option<nat>)
      requires Valid(View(argv)) && nextchar != "" && optarg == None
      modifies this`optind, this`nextchar, this`optarg
      ensures Scan(o, old(View(argv))) == (View(argv), Event(code, optarg, ind))
    {
      hide DecodeShort, Decode;
      var handled := false;
      if TriesLong(o, argv[optind]) {
        handled, code, ind := ScanLong(argv, o);
      } else {
        NotLong(o, argv[optind], nextchar, Following(argv, optind));
      }
      if !handled {
        ind := None;
        code := ScanShort(argv, o);
      }
    }

    // The scan state a call works on: the stored one, or a fresh one on the first call.
    ghost function StartState(argv: array<string>, optstring: string, posixlyCorrect: bool): State
      reads this, argv
    {
      if optind != 0 && initialized then View(argv)
      else
        var i := if optind == 0 then 1 else optind;
        State(argv[..], i, "", OrderingOf(optstring, posixlyCorrect), i, i)
    }

    // The option letters, without the mode prefix on an initialising call only.
    ghost function Letters(optstring: string): string
      reads this
    {
      if optind == 0 || !initialized then Stripped(optstring) else optstring
    }

    method Start(argv: array<string>, optstring: string, posixlyCorrect: bool) returns (letters: string)
      requires argv.Length > 0
      modifies this`optind, this`first_nonopt, this`last_nonopt, this`nextchar, this`ordering, this`initialized
      ensures initialized && View(argv) == old(StartState(argv, optstring, posixlyCorrect)) &&
        letters == old(Letters(optstring))
    {
      letters := optstring;
      if optind == 0 || !initialized {
        if optind == 0 {
          optind := 1;
        }
        letters := Initialize(optstring, posixlyCorrect);
        initialized := true;
      }
    }

    // One call of getopt, getopt_long or getopt_long_only.
    method GetoptInternal(argv: array<string>, optstring: string, longopts: Option<seq<LongOption>>, longOnly: bool,
                          posixlyCorrect: bool)
      returns (code: int, ind: Option<nat>)
      requires optind <= argv.Length && !UsesWExtension(optstring)
      requires optind != 0 && initialized ==> first_nonopt <= last_nonopt && (nextchar != "" ==> Valid(View(argv)))
      modifies this, argv
      ensures argv.Length == 0 ==> code == END && unchanged(this)
      ensures argv.Length > 0 ==> initialized
      ensures argv.Length > 0 ==>
        Call(Options(old(Letters(optstring)), longopts, longOnly), old(StartState(argv, optstring, posixlyCorrect)))
          == (View(argv), Event(code, optarg, ind))
    {
      hide Seek, Scan;
      ind := None;
      if argv.Length < 1 {
        return END, None;
      }
      optarg := None;
      var letters := Start(argv, optstring, posixlyCorrect);
      var o := Options(letters, longopts, longOnly);
      if nextchar == "" {
        SeekKeeps(View(argv));
        Advance(argv);
        if optind == argv.Length {
          if first_nonopt != last_nonopt {
            optind := first_nonopt;
          }
          return END, None;
        }
        if !IsOption(argv[optind]) {
          if ordering == REQUIRE_ORDER {
            return END, None;
          }
          optarg := Some(argv[optind]);
          optind := optind + 1;
          return 1, None;
        }
        nextchar := AfterDashes(o, argv[optind]);
      }
      code, ind := ScanElement(argv, o);
    }

    // The caller's loop: getopt until it returns -1, from an uninitialised scanner. In PERMUTE
    // mode the reports are those of one left-to-right reading of the original vector, which
    // ends as options then non-options, with optind at the boundary. In the other modes the
    // vector stays and the reports are those of the reading in order, the first call without
    // and the later ones with the mode prefix among the option letters.
    method ScanAll(argv: array<string>, optstring: string, longopts: Option<seq<LongOption>>, longOnly: bool,
                   posixlyCorrect: bool)
      returns (events: seq<Event>)
      requires 0 < argv.Length && optind <= argv.Length && (optind == 0 || !initialized)
      requires !UsesWExtension(optstring) && Usable(Options(optstring, longopts, longOnly))
      modifies this, argv
      ensures var i, later := if old(optind) == 0 then 1 else old(optind), Options(optstring, longopts, longOnly);
        Outcome(later.(optstring := Stripped(optstring)), later, old(argv[..]), i,
          OrderingOf(optstring, posixlyCorrect),
                argv[..], optind, events)
    {
      hide Call, Run, Outcome;
      ghost var later := Options(optstring, longopts, longOnly);
      ghost var o := later.(optstring := Letters(optstring));
      ghost var s0 := StartState(argv, optstring, posixlyCorrect);
      assert s0 == State(argv[..], s0.optind, "", OrderingOf(optstring, posixlyCorrect), s0.optind, s0.optind);
      AnyRun(o, later, argv[..], s0.optind, s0.ordering);
      ghost var end := Run(o, later, s0);
      ghost var before, i := argv[..], s0.optind;
      assert Outcome(later.(optstring := Stripped(optstring)), later, before, i, s0.ordering, end.0.argv, end.0.optind,
        end.1);
      events := [];
      ghost var s := s0;
      while true
        invariant optind <= argv.Length && s == StartState(argv, optstring, posixlyCorrect)
        invariant s.first <= s.last && Valid(s) && o == later.(optstring := Letters(optstring))
        invariant Run(o, later, s).0 == end.0 && events + Run(o, later, s).1 == end.1
        invariant Outcome(later.(optstring := Stripped(optstring)), later, before, i, s0.ordering, end.0.argv,
          end.0.optind, end.1)
        decreases Rank(s).0, Rank(s).1
      {
        CallProgresses(o, s);
        CodeEnds(o, s);
        RunStep(o, later, s);
        var code, ind := GetoptInternal(argv, optstring, longopts, longOnly, posixlyCorrect);
        if code == END {
          assert end.0 == View(argv) && end.1 == events;
          break;
        }
        events := events + [Event(code, optarg, ind)];
        s := View(argv);
        o := later;
      }
    }
  }

  lemma RunStep(o: Options, later: Options, s: State)
    requires Valid(s)
    ensures var (s1, e) := Call(o, s);
      if e == FINISHED then Run(o, later, s) == (s1, [])
      else Valid(s1) && Run(o, later, s) == (Run(later, later, s1).0, [e] + Run(later, later, s1).1)
  {
    CallProgresses(o, s);
  }

  function Following(argv: array<string>, i: nat): Option<string>
    reads argv
  {
    if i + 1 < argv.Length then Some(argv[i + 1]) else None
  }

  // "W;" asks for "-W foo" to be treated as "--foo".
  predicate UsesWExtension(optstring: string) {
    exists i | 0 <= i < |optstring| - 1 :: optstring[i] == 'W' && optstring[i + 1] == ';'
  }

  lemma NotLong(o: Options, elem: string, nextchar: string, next: Option<string>)
    requires IsOption(elem) && nextchar != "" && !TriesLong(o, elem)
    ensures Decode(o, elem, nextchar, next) == DecodeShort(o, nextchar, next)
  {
  }
}

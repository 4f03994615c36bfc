/** One call of getopt as a function of the argument vector and the static scan state. */
module GetoptSpec {
  import opened Wrappers

  datatype Ordering = REQUIRE_ORDER | PERMUTE | RETURN_IN_ORDER

  // hasArg: 0 none, 1 required, 2 optional; flag names the caller's variable, if any.
  datatype LongOption = LongOption(name: string, hasArg: nat, flag: Option<nat>, val: int)

  // The option tables as the scanner uses them.
  datatype Options = Options(optstring: string, longopts: Option<seq<LongOption>>, longOnly: bool)

  // What a call reports: the return code, optarg, and the index stored through longind.
  datatype Event = Event(code: int, optarg: Option<string>, longind: Option<nat>)

  const END := -1

  predicate IsOption(s: string) {
    |s| >= 2 && s[0] == '-'
  }

  // The option letters without the mode prefix.
  function Stripped(optstring: string): string {
    if optstring != "" && optstring[0] in "-+" then optstring[1..] else optstring
  }

  function OrderingOf(optstring: string, posixlyCorrect: bool): Ordering {
    if optstring != "" && optstring[0] == '-' then RETURN_IN_ORDER
    else if (optstring != "" && optstring[0] == '+') || posixlyCorrect then REQUIRE_ORDER
    else PERMUTE
  }

  // Position of the first c in s, or -1.
  function IndexOf(s: string, c: char): (r: int)
    ensures -1 <= r < |s|
    ensures r >= 0 ==> s[r] == c && c !in s[..r]
    ensures r < 0 ==> c !in s
  {
    if s == "" then -1
    else if s[0] == c then 0
    else
      var r := IndexOf(s[1..], c);
      if r < 0 then -1 else
        assert s[..r + 1] == [s[0]] + s[1..][..r];
        r + 1
  }

  // s up to the first '='.
  function NamePart(s: string): (r: string)
    ensures r <= s && '=' !in r
    ensures |r| < |s| ==> s[|r|] == '='
  {
    var i := IndexOf(s, '=');
    if i < 0 then s else s[..i]
  }

  lemma NameEnds(s: string, k: nat)
    requires k <= |s| && '=' !in s[..k] && (k < |s| ==> s[k] == '=')
    ensures NamePart(s) == s[..k]
  {
    var n := |NamePart(s)|;
    assert forall j | 0 <= j < k :: s[..k][j] == s[j] && s[j] in s[..k];
    assert forall j | 0 <= j < n :: NamePart(s)[j] == s[j] && s[j] in NamePart(s);
    assert n == k;
  }

  // ---------- Long options ----------

  function FirstExact(t: seq<LongOption>, name: string): (r: Option<nat>)
    ensures r.Some? ==> r.value < |t| && t[r.value].name == name && forall j | 0 <= j < r.value :: t[j].name != name
    ensures r.None? ==> forall j | 0 <= j < |t| :: t[j].name != name
  {
    if t == [] then None
    else if t[|t| - 1].name == name && FirstExact(t[..|t| - 1], name).None? then Some(|t| - 1)
    else FirstExact(t[..|t| - 1], name)
  }

  function FirstPrefix(t: seq<LongOption>, name: string): (r: Option<nat>)
    ensures r.Some? ==> r.value < |t| && name <= t[r.value].name && forall j | 0 <= j < r.value :: !(name <= t[j].name)
    ensures r.None? ==> forall j | 0 <= j < |t| :: !(name <= t[j].name)
  {
    if t == [] then None
    else if name <= t[|t| - 1].name && FirstPrefix(t[..|t| - 1], name).None? then Some(|t| - 1)
    else FirstPrefix(t[..|t| - 1], name)
  }

  predicate SameMeaning(p: LongOption, q: LongOption) {
    p.hasArg == q.hasArg && p.flag == q.flag && p.val == q.val
  }

  // Two different options abbreviate to name.
  predicate Ambiguous(t: seq<LongOption>, name: string, longOnly: bool) {
    FirstPrefix(t, name).Some? &&
    exists j | FirstPrefix(t, name).value < j < |t| ::
      name <= t[j].name && (longOnly || !SameMeaning(t[FirstPrefix(t, name).value], t[j]))
  }

  datatype Match = NoMatch | AmbiguousMatch | Found(index: nat)

  // An exact name wins; an abbreviation must be unambiguous.
  function Lookup(t: seq<LongOption>, name: string, longOnly: bool): (m: Match)
    ensures m.Found? ==> m.index < |t| && name <= t[m.index].name
    ensures m.NoMatch? <==> forall j | 0 <= j < |t| :: !(name <= t[j].name)
    ensures m.AmbiguousMatch? ==> forall j | 0 <= j < |t| :: t[j].name != name
    ensures m.AmbiguousMatch? ==>
      exists i, j | 0 <= i < j < |t| :: name <= t[i].name && name <= t[j].name && (longOnly || !SameMeaning(t[i], t[j]))
    ensures m.Found? && t[m.index].name != name ==> forall j | 0 <= j < |t| && name <= t[j].name ::
      m.index <= j && t[j].name != name && (j == m.index || (!longOnly && SameMeaning(t[m.index], t[j])))
  {
    if FirstExact(t, name).Some? then Found(FirstExact(t, name).value)
    else if Ambiguous(t, name, longOnly) then AmbiguousMatch
    else if FirstPrefix(t, name).Some? then Found(FirstPrefix(t, name).value)
    else NoMatch
  }

  // ---------- Decoding an option element ----------

  // The report, the text of the element still to scan, and how many elements were used up.
  datatype Decoded = Decoded(event: Event, rest: string, used: nat)

  function Report(code: int, optarg: Option<string>, rest: string, used: nat): Decoded {
    Decoded(Event(code, optarg, None), rest, used)
  }

  function MissingArgument(o: Options): int {
    if o.optstring != "" && o.optstring[0] == ':' then ':' as int else '?' as int
  }

  predicate ColonAt(s: string, i: int) {
    0 <= i < |s| && s[i] == ':'
  }

  function DecodeShort(o: Options, nextchar: string, next: Option<string>): (d: Decoded)
    requires nextchar != ""
    ensures d.rest == "" <==> d.used > 0
    ensures |d.rest| < |nextchar| && d.used <= 2 && (d.used == 2 ==> next.Some?)
    ensures d.event.code != END
  {
    var c, rest, t := nextchar[0], nextchar[1..], IndexOf(o.optstring, nextchar[0]);
    var last := if rest == "" then 1 else 0;
    if t < 0 || c == ':' then Report('?' as int, None, rest, last)
    else if !ColonAt(o.optstring, t + 1) then Report(c as int, None, rest, last)
    else if rest != "" then Report(c as int, Some(rest), "", 1)
    else if ColonAt(o.optstring, t + 2) then Report(c as int, None, "", 1)
    else if next.None? then Report(MissingArgument(o), None, "", 1)
    else Report(c as int, next, "", 2)
  }

  // Is the element now being scanned to be tried as a long option?
  predicate TriesLong(o: Options, elem: string)
    requires IsOption(elem)
  {
    o.longopts.Some? && (elem[1] == '-' || (o.longOnly && (|elem| > 2 || IndexOf(o.optstring, elem[1]) < 0)))
  }

  function DecodeFound(o: Options, i: nat, nextchar: string, next: Option<string>): Decoded
    requires o.longopts.Some? && i < |o.longopts.value|
  {
    var p, name := o.longopts.value[i], NamePart(nextchar);
    var code := if p.flag.Some? then 0 else p.val;
    if |name| < |nextchar| then
      if p.hasArg != 0 then Decoded(Event(code, Some(nextchar[|name| + 1..]), Some(i)), "", 1)
      else Report('?' as int, None, "", 1)
    else if p.hasArg == 1 then
      if next.Some? then Decoded(Event(code, next, Some(i)), "", 2)
      else Report(MissingArgument(o), None, "", 1)
    else Decoded(Event(code, None, Some(i)), "", 1)
  }

  // No long option reports the code that means the end of the scan.
  ghost predicate Usable(o: Options) {
    o.longopts.Some? ==> forall i | 0 <= i < |o.longopts.value| ::
      o.longopts.value[i].flag.Some? || o.longopts.value[i].val != END
  }

  function Decode(o: Options, elem: string, nextchar: string, next: Option<string>): (d: Decoded)
    requires IsOption(elem) && nextchar != ""
    ensures d.rest == "" <==> d.used > 0
    ensures |d.rest| < |nextchar| && d.used <= 2 && (d.used == 2 ==> next.Some?)
    ensures Usable(o) ==> d.event.code != END
  {
    if TriesLong(o, elem) then
      match Lookup(o.longopts.value, NamePart(nextchar), o.longOnly)
      case AmbiguousMatch => Report('?' as int, None, "", 1)
      case Found(i) => DecodeFound(o, i, nextchar, next)
      case NoMatch =>
        if !o.longOnly || elem[1] == '-' || IndexOf(o.optstring, nextchar[0]) < 0 then Report('?' as int, None, "", 1)
        else DecodeShort(o, nextchar, next)
    else DecodeShort(o, nextchar, next)
  }

  // The text of an option element after its punctuation.
  function AfterDashes(o: Options, elem: string): (r: string)
    requires IsOption(elem) && elem != "--"
    ensures r != "" && |r| < |elem|
  {
    if o.longopts.Some? && elem[1] == '-' then elem[2..] else elem[1..]
  }

  // ---------- The scan state ----------

  // first and last bound the non-options skipped so far and not yet moved.
  datatype State = State(argv: seq<string>, optind: nat, nextchar: string, ordering: Ordering, first: nat, last: nat)

  predicate Valid(s: State) {
    && s.first <= s.last <= s.optind <= |s.argv|
    && (s.nextchar != "" ==> s.optind < |s.argv| && IsOption(s.argv[s.optind]))
  }

  function Rotate<T>(a: seq<T>, bottom: nat, middle: nat, top: nat): (r: seq<T>)
    requires bottom <= middle <= top <= |a|
    ensures |r| == |a|
  {
    a[..bottom] + a[middle..top] + a[bottom..middle] + a[top..]
  }

  // The skipped non-options and the options after them change places.
  function Exchange(s: State): State
    requires s.first <= s.last <= s.optind <= |s.argv|
  {
    s.(argv := Rotate(s.argv, s.first, s.last, s.optind), first := s.first + (s.optind - s.last), last := s.optind)
  }

  function SkipNonOptions(argv: seq<string>, i: nat): (r: nat)
    requires i <= |argv|
    ensures i <= r <= |argv| && (r < |argv| ==> IsOption(argv[r]))
    ensures forall k | i <= k < r :: !IsOption(argv[k])
    decreases |argv| - i
  {
    if i == |argv| || IsOption(argv[i]) then i else SkipNonOptions(argv, i + 1)
  }

  // Rational values for the bounds when the caller has moved optind back.
  function Clamp(s: State): State {
    s.(last := if s.last > s.optind then s.optind else s.last,
       first := if s.first > s.optind then s.optind else s.first)
  }

  // PERMUTE only: move the options just processed in front, then skip non-options.
  function Gather(s: State): State
    requires s.first <= s.last <= s.optind <= |s.argv|
  {
    var s1 := if s.first != s.last && s.last != s.optind then Exchange(s)
              else if s.last != s.optind then s.(first := s.optind) else s;
    var j := SkipNonOptions(s1.argv, s1.optind);
    s1.(optind := j, last := j)
  }

  // The element "--" counts as an option; everything after it as non-options.
  function DashDash(s: State): State
    requires s.first <= s.last <= s.optind <= |s.argv|
  {
    if s.optind != |s.argv| && s.argv[s.optind] == "--" then
      var s1 := s.(optind := s.optind + 1);
      var s2 := if s1.first != s1.last && s1.last != s1.optind then Exchange(s1)
                else if s1.first == s1.last then s1.(first := s1.optind) else s1;
      s2.(last := |s.argv|, optind := |s.argv|)
    else s
  }

  function Seek(s: State): State
    requires s.first <= s.last && s.optind <= |s.argv|
  {
    var c := Clamp(s);
    DashDash(if c.ordering == PERMUTE then Gather(c) else c)
  }

  // Decode what nextchar points at.
  function Scan(o: Options, s: State): (State, Event)
    requires Valid(s) && s.nextchar != ""
  {
    var next := if s.optind + 1 < |s.argv| then Some(s.argv[s.optind + 1]) else None;
    var d := Decode(o, s.argv[s.optind], s.nextchar, next);
    (s.(nextchar := d.rest, optind := s.optind + d.used), d.event)
  }

  const FINISHED := Event(END, None, None)

  // One call after initialisation.
  function Call(o: Options, s: State): (State, Event)
    requires s.first <= s.last && s.optind <= |s.argv| && (s.nextchar != "" ==> Valid(s))
  {
    if s.nextchar != "" then Scan(o, s)
    else
      var s1 := Seek(s);
      if s1.optind == |s1.argv| then
        (if s1.first != s1.last then s1.(optind := s1.first) else s1, FINISHED)
      else if !IsOption(s1.argv[s1.optind]) then
        if s1.ordering == REQUIRE_ORDER then (s1, FINISHED)
        else (s1.(optind := s1.optind + 1), Event(1, Some(s1.argv[s1.optind]), None))
      else
        Scan(o, s1.(nextchar := AfterDashes(o, s1.argv[s1.optind])))
  }
}

/** Timed runs of the heartbeat. A process sleeps in select from the instant its iteration
    starts until a datagram arrives or the timeout elapses; everything else takes no time. */
module Heartbeat {
  import opened Wrappers
  import opened HeartbeatSpec

  function Sec(t: real): int {
    t.Floor
  }

  lemma SecMonotone(a: real, b: real, d: int)
    ensures a <= b + d as real ==> Sec(a) <= Sec(b) + d
    ensures Sec(a) - Sec(b) >= d ==> a - b > (d - 1) as real
    ensures Sec(a) - Sec(b) < d ==> a < b + d as real
  {
  }

  // ---------- ping alone, whatever arrives or gets lost ----------

  // start: when the current select began; lastStart: when the iteration of the latest check
  // began; checks: the instants of all checks so far; t0: when main read the clock first.
  datatype PingRun = PingRun(p: Ping, t0: real, start: real, lastStart: real, checks: seq<real>)

  ghost predicate PingInit(s: PingRun) {
    && s.start == s.lastStart == s.t0 && s.checks == []
    && s.p.targets == [] && s.p.curr == s.p.last == Sec(s.t0)
    && s.p.lastPingForOnline == 0 <= Sec(s.t0)
  }

  // The process wakes at instant t, at the latest when its timeout elapses.
  ghost predicate WakesAt(c: PingConfig, s: PingRun, t: real, input: Input) {
    && s.start <= t <= s.start + c.interval as real
    && (input.Timeout? ==> t == s.start + c.interval as real)
  }

  ghost function After(c: PingConfig, s: PingRun, t: real, input: Input, garbage: int): PingRun {
    var p := Wake(c, s.p, Sec(t), input, garbage).0;
    if Checks(c, s.p, input) then PingRun(p, s.t0, t, s.start, s.checks + [t])
    else s.(p := p, start := t)
  }

  ghost predicate PingNext(c: PingConfig, s: PingRun, s': PingRun) {
    exists t, input, garbage :: WakesAt(c, s, t, input) && s' == After(c, s, t, input, garbage)
  }

  // At most one target per address, all on the fixed port.
  ghost predicate OnePerAddress(ts: seq<Target>) {
    && (forall i, j | 0 <= i < j < |ts| :: ts[i].remote.addr != ts[j].remote.addr)
    && (forall i | 0 <= i < |ts| :: ts[i].remote.port == PP_PORT)
  }

  ghost predicate CheckTimes(c: PingConfig, t0: real, checks: seq<real>) {
    && (checks != [] ==> t0 <= checks[0] < t0 + (3 * c.interval) as real)
    && (forall i | 0 <= i < |checks| - 1 :: checks[i] <= checks[i + 1] < checks[i] + (3 * c.interval) as real)
    && (forall i | 0 <= i < |checks| - 2 :: Sec(checks[i + 2]) - Sec(checks[i]) >= c.interval)
  }

  // The instant of the latest check, or of the start.
  ghost function LastCheck(s: PingRun): real {
    if s.checks == [] then s.t0 else s.checks[|s.checks| - 1]
  }

  ghost predicate PingInv(c: PingConfig, s: PingRun) {
    && s.p.curr == Sec(s.start) && s.p.last == Sec(s.lastStart)
    && s.lastStart <= LastCheck(s) <= s.start < s.lastStart + (2 * c.interval) as real
    && (|s.checks| >= 2 ==> s.checks[|s.checks| - 2] <= s.lastStart)
    && CheckTimes(c, s.t0, s.checks)
    && OnePerAddress(s.p.targets)
    && FreshSince(s.p.targets, Sec(LastCheck(s)) - c.maxInterval)
    && s.p.lastPingForOnline <= Sec(LastCheck(s))
    && (s.checks != [] ==> Sec(LastCheck(s)) - s.p.lastPingForOnline <= c.onlineGap)
  }

  // Online targets were heard from at low or later.
  ghost predicate FreshSince(ts: seq<Target>, low: int) {
    forall i | 0 <= i < |ts| && ts[i].online :: ts[i].lastUpdated >= low
  }

  lemma {:induction false} HeardAt(ts: seq<Target>, e: Endpoint, now: int, i: nat)
    requires i < |ts|
    ensures var r := Heard(ts, e, now);
      r[i] ==
        if ts[i].remote == e && (forall j | 0 <= j < i :: ts[j].remote != e)
        then ts[i].(lastUpdated := now, online := true)
        else ts[i]
  {
    if ts[0].remote != e && i > 0 {
      HeardAt(ts[1..], e, now, i - 1);
      assert forall j | 1 <= j < i :: ts[j] == ts[1..][j - 1];
      assert forall j | 0 <= j < i - 1 :: ts[1..][j] == ts[j + 1];
    }
  }

  lemma HeardKeeps(ts: seq<Target>, e: Endpoint, now: int, low: int)
    requires OnePerAddress(ts) && FreshSince(ts, low) && low <= now
    ensures OnePerAddress(Heard(ts, e, now)) && FreshSince(Heard(ts, e, now), low)
  {
    forall i | 0 <= i < |ts| ensures Heard(ts, e, now)[i].remote == ts[i].remote {
      HeardAt(ts, e, now, i);
    }
    forall i | 0 <= i < |ts| && Heard(ts, e, now)[i].online ensures Heard(ts, e, now)[i].lastUpdated >= low {
      HeardAt(ts, e, now, i);
    }
  }

  lemma AnnouncedKeeps(ts: seq<Target>, addr: nat, info: string, garbage: int, low: int)
    requires OnePerAddress(ts) && FreshSince(ts, low)
    ensures OnePerAddress(Announced(ts, addr, info, garbage)) && FreshSince(Announced(ts, addr, info, garbage), low)
  {
    hide FindTarget;
    var i := FindTarget(ts, addr);
    var r := Announced(ts, addr, info, garbage);
    if i == |ts| {
      assert forall j | 1 <= j < |r| :: r[j] == ts[j - 1];
    } else {
      assert forall j | 0 <= j < |ts| :: r[j].remote == ts[j].remote;
    }
  }

  lemma DeliverKeeps(ts: seq<Target>, now: int, input: Input, garbage: int, low: int)
    requires OnePerAddress(ts) && FreshSince(ts, low) && low <= now
    ensures var r := Deliver(ts, now, input, garbage); OnePerAddress(r) && FreshSince(r, low)
  {
    hide Heard, Announced;
    if input.Ready? {
      var ts1 := ts;
      if input.uni.Some? && IsPong(input.uni.value.1) {
        HeardKeeps(ts, input.uni.value.0, now, low);
        ts1 := Heard(ts, input.uni.value.0, now);
      }
      if input.multi.Some? && IsAnnouncement(input.multi.value.1) {
        AnnouncedKeeps(ts1, input.multi.value.0, input.multi.value.1[5..], garbage, low);
      }
    }
  }

  // A check leaves only targets heard from within maxInterval online.
  lemma ExpireKeeps(c: PingConfig, ts: seq<Target>, now: int)
    requires OnePerAddress(ts)
    ensures OnePerAddress(ExpireAll(c, ts, now)) && FreshSince(ExpireAll(c, ts, now), now - c.maxInterval)
  {
    assert forall i | 0 <= i < |ts| :: ExpireAll(c, ts, now)[i].remote == ts[i].remote;
  }

  lemma CheckTimesGrow(c: PingConfig, t0: real, checks: seq<real>, t: real)
    requires CheckTimes(c, t0, checks)
    requires if checks == [] then t0 <= t < t0 + (3 * c.interval) as real
             else checks[|checks| - 1] <= t < checks[|checks| - 1] + (3 * c.interval) as real
    requires |checks| >= 2 ==> Sec(t) - Sec(checks[|checks| - 2]) >= c.interval
    ensures CheckTimes(c, t0, checks + [t])
  {
    var all, n := checks + [t], |checks|;
    forall i | 0 <= i < n ensures all[i] <= all[i + 1] < all[i] + (3 * c.interval) as real {
      if i < n - 1 {
        assert checks[i] <= checks[i + 1];
      }
    }
    forall i | 0 <= i < n - 1 ensures Sec(all[i + 2]) - Sec(all[i]) >= c.interval {
      if i < n - 2 {
        assert Sec(checks[i + 2]) - Sec(checks[i]) >= c.interval;
      }
    }
  }

  lemma PingStep(c: PingConfig, s: PingRun, t: real, input: Input, garbage: int)
    requires c.interval > 0 && PingInv(c, s) && WakesAt(c, s, t, input)
    ensures PingInv(c, After(c, s, t, input, garbage))
  {
    hide Deliver, ExpireAll, Pinged, CheckTimes, OnePerAddress;
    SecMonotone(s.start, s.lastStart, c.interval);
    SecMonotone(LastCheck(s), t, 0);
    DeliverKeeps(s.p.targets, Sec(t), input, garbage, Sec(LastCheck(s)) - c.maxInterval);
    ExpireKeeps(c, Deliver(s.p.targets, Sec(t), input, garbage), Sec(t));
    if Checks(c, s.p, input) {
      if |s.checks| >= 2 {
        SecMonotone(s.checks[|s.checks| - 2], s.lastStart, 0);
        SecMonotone(s.start, t, 0);
      }
      CheckTimesGrow(c, s.t0, s.checks, t);
    }
  }

  // Every state of every run: at most one target per address, checks less than three
  // intervals apart, three of them spanning an interval on the clock that time(0) reads, and
  // no target online that was silent for maxInterval + 3 intervals.
  lemma {:induction false} FailureDetector(c: PingConfig, run: seq<PingRun>, k: nat)
    requires c.interval > 0 && k < |run| && PingInit(run[0])
    requires forall i | 0 <= i < |run| - 1 :: PingNext(c, run[i], run[i + 1])
    ensures PingInv(c, run[k])
    ensures forall t: real, i |
      && run[k].start <= t <= run[k].start + c.interval as real
      && 0 <= i < |run[k].p.targets| && run[k].p.targets[i].online ::
      Sec(t) - run[k].p.targets[i].lastUpdated <= c.maxInterval + 3 * c.interval
  {
    if k > 0 {
      FailureDetector(c, run, k - 1);
      assert PingNext(c, run[k - 1], run[k - 1 + 1]);
      var t, input, garbage :| WakesAt(c, run[k - 1], t, input) && run[k] == After(c, run[k - 1], t, input, garbage);
      PingStep(c, run[k - 1], t, input, garbage);
    }
    var s := run[k];
    forall t: real, i | s.start <= t <= s.start + c.interval as real && 0 <= i < |s.p.targets| && s.p.targets[i].online
      ensures Sec(t) - s.p.targets[i].lastUpdated <= c.maxInterval + 3 * c.interval
    {
      SecMonotone(t, LastCheck(s), 3 * c.interval);
    }
  }

  // ---------- ping and one pong together ----------

  // The pong process runs at address `addr` on the fixed port; `me` is ping's endpoint.
  // Its select began at `start`. lastPong is the instant of its latest pong, or of the ping
  // that made its remote valid; since then it has got `strays` datagrams from elsewhere, and
  // `pinged` pings, the latest of them at pingedAt. `window` is the instant of the latest
  // stray, or lastPong; since then it has got inWindow pings, the first of them at firstPing.
  // listedAt is when ping learnt of it.
  datatype PongRun = PongRun(p: Pong, addr: nat, start: real, lastPong: real, strays: nat, pinged: nat, pingedAt: real,
                             window: real, inWindow: nat, firstPing: real, listedAt: real)

  datatype System = System(ping: PingRun, pong: PongRun, me: Endpoint, now: real)

  datatype Configs = Configs(ping: PingConfig, pong: PongConfig)

  function Restarted(q: PongRun, t: real): PongRun {
    q.(start := t, lastPong := t, strays := 0, pinged := 0, window := t, inWindow := 0)
  }

  // Pong handles a ping the instant it is sent.
  ghost function Pinging(cs: Configs, q: PongRun, t: real, me: Endpoint): PongRun {
    var p := PongReceive(cs.pong, q.p, Sec(t), me, "ping").0;
    if q.p.remote.None? then Restarted(q, t).(p := p)
    else
      q.(p := p, start := t, pinged := q.pinged + 1, pingedAt := t,
         inWindow := q.inWindow + 1, firstPing := if q.inWindow == 0 then t else q.firstPing)
  }

  // Ping wakes with some input; if it pings our pong, that pong handles it at once.
  ghost function PingWakes(cs: Configs, s: System, t: real, input: Input, garbage: int): System {
    var sent := Wake(cs.ping, s.ping.p, Sec(t), input, garbage).1;
    var here := Endpoint(s.pong.addr, PP_PORT);
    System(After(cs.ping, s.ping, t, input, garbage),
           if here in sent then Pinging(cs, s.pong, t, s.me) else s.pong, s.me, t)
  }

  // Input that does not come from our pong's address.
  ghost predicate Foreign(addr: nat, input: Input) {
    input.Ready? ==>
      && (input.uni.Some? ==> input.uni.value.0.addr != addr)
      && (input.multi.Some? ==> input.multi.value.0 != addr)
  }

  // An announcement reaches ping at once, perhaps together with a foreign datagram on the
  // other socket.
  ghost function Announcing(cs: Configs, s: System, q: PongRun, t: real, other: Input, info: string,
                            garbage: int): System
    requires other.Ready?
  {
    PingWakes(cs, s.(pong := q.(listedAt := if Ours(s).None? then t else q.listedAt)), t,
              Ready(other.uni, Some((q.addr, "pong\n" + info))), garbage)
  }

  // Our pong's select times out: what it sends reaches ping at once.
  ghost function PongWakes(cs: Configs, s: System, t: real, other: Input, info: string, garbage: int): System
    requires other.Ready?
  {
    var (p, out) := PongTimeout(cs.pong, s.pong.p, Sec(t));
    var q := s.pong.(p := p, start := t);
    match out
    case Silent => s.(pong := q, now := t)
    case SendPong(to) =>
      if to == s.me then
        PingWakes(cs, s.(pong := Restarted(q, t)), t, Ready(Some((Endpoint(q.addr, PP_PORT), "pong")), other.multi),
          garbage)
      else s.(pong := q, now := t)
    case Announce => Announcing(cs, s, q, t, other, info, garbage)
  }

  // A datagram from elsewhere makes our pong's select return and start again.
  ghost function StrayArrives(cs: Configs, s: System, t: real, from: Endpoint, data: string, other: Input,
                              info: string, garbage: int): System
    requires other.Ready?
  {
    var (p, out) := PongReceive(cs.pong, s.pong.p, Sec(t), from, data);
    var q := s.pong.(p := p, start := t, strays := s.pong.strays + 1, window := t, inWindow := 0);
    if out.Announce? then Announcing(cs, s, q, t, other, info, garbage) else s.(pong := q, now := t)
  }

  // No process sleeps past its timeout.
  ghost predicate InTime(cs: Configs, s: System, t: real) {
    s.now <= t <= s.ping.start + cs.ping.interval as real && t <= s.pong.start + cs.pong.interval as real
  }

  ghost predicate PingMoves(cs: Configs, s: System, s': System, t: real, input: Input, garbage: int) {
    && InTime(cs, s, t) && WakesAt(cs.ping, s.ping, t, input) && Foreign(s.pong.addr, input)
    && s' == PingWakes(cs, s, t, input, garbage)
  }

  ghost predicate PongMoves(cs: Configs, s: System, s': System, t: real, other: Input, info: string, garbage: int) {
    && InTime(cs, s, t) && t == s.pong.start + cs.pong.interval as real
    && other.Ready? && Foreign(s.pong.addr, other) && info != ""
    && s' == PongWakes(cs, s, t, other, info, garbage)
  }

  // Nobody but our ping sends pings.
  ghost predicate StrayMoves(cs: Configs, s: System, s': System, t: real, from: Endpoint, data: string, other: Input,
                             info: string, garbage: int)
  {
    && InTime(cs, s, t) && !IsPing(data)
    && other.Ready? && Foreign(s.pong.addr, other) && info != ""
    && s' == StrayArrives(cs, s, t, from, data, other, info, garbage)
  }

  // Between two pongs, at most m datagrams come from elsewhere.
  ghost predicate Next(cs: Configs, m: nat, s: System, s': System) {
    && (s'.pong.p.remote.Some? ==> s'.pong.strays <= m)
    && (|| (exists t, input, garbage :: PingMoves(cs, s, s', t, input, garbage))
        || (exists t, other, info, garbage :: PongMoves(cs, s, s', t, other, info, garbage))
        || (exists t, from, data, other, info, garbage :: StrayMoves(cs, s, s', t, from, data, other, info, garbage)))
  }

  // A pong comes up in any state that ping may be in, at any phase of both timers; ping may
  // have got its first announcement or not.
  ghost predicate Init(cs: Configs, s: System) {
    && PingInv(cs.ping, s.ping)
    && s.ping.start <= s.now <= s.ping.start + cs.ping.interval as real
    && s.pong.start <= s.now <= s.pong.start + cs.pong.interval as real
    && s.pong.p.remote == None
    && (Ours(s).Some? ==> !Ours(s).value.online && LastCheck(s.ping) <= s.pong.listedAt)
  }

  // What the intervals must satisfy if m datagrams may come from elsewhere between two pongs.
  // At most one ping to an online target then falls between two pongs.
  predicate Compatible(cs: Configs, m: nat) {
    && 0 < cs.ping.interval
    && (2 + m) * cs.pong.interval <= cs.ping.onlineGap
    && cs.ping.onlineGap + 3 * cs.ping.interval <= cs.pong.patience
  }

  // No online target times out: either every pong is in time; or every pong that no ping has
  // put off is, and a second check after such a ping comes too late to notice; or the select of
  // pong is never left alone for long enough to get anything online.
  predicate Bearable(cs: Configs, m: nat) {
    || (2 + m) * cs.pong.interval <= cs.ping.maxInterval
    || ((1 + m) * cs.pong.interval <= cs.ping.maxInterval && (2 + m) * cs.pong.interval < cs.ping.interval)
    || 3 * cs.ping.interval <= cs.pong.interval
  }

  // Pong answers between two checks.
  predicate Prompt(cs: Configs) {
    2 * cs.pong.interval <= cs.ping.interval - 1
  }

  const DEFAULTS := Configs(PingConfig(10, 15, 60), PongConfig(3, 60 * 3, 30))

  // The first target at e.
  function Entry(ts: seq<Target>, e: Endpoint): (r: Option<Target>)
    ensures r.Some? ==> r.value in ts && r.value.remote == e
    ensures r.None? ==> forall x | x in ts :: x.remote != e
  {
    if ts == [] then None else if ts[0].remote == e then Some(ts[0]) else Entry(ts[1..], e)
  }

  function Here(s: System): Endpoint {
    Endpoint(s.pong.addr, PP_PORT)
  }

  // Our pong's entry in the target list.
  function Ours(s: System): Option<Target> {
    Entry(s.ping.p.targets, Here(s))
  }

  predicate Online(s: System) {
    Ours(s).Some? && Ours(s).value.online
  }

  // At most two pings since the last stray, each within one timeout of the event before.
  ghost predicate PongPhase(cs: Configs, q: PongRun, checks: seq<real>) {
    var J := cs.pong.interval as real;
    && q.lastPong <= q.window <= q.lastPong + (3 * (q.strays * cs.pong.interval)) as real && q.window <= q.start
    && if q.inWindow == 0 then q.start == q.window
       else if q.inWindow == 1 then
         q.start == q.firstPing <= q.window + J && |checks| >= 1 && q.firstPing <= checks[|checks| - 1]
       else
         q.inWindow == 2 && q.firstPing <= q.window + J && q.start <= q.firstPing + J
         && |checks| >= 2 && q.firstPing <= checks[|checks| - 2]
  }

  // While online, a target gets at most one ping between two pongs; if that puts off the pong,
  // the iteration of ping that sent it began after the latest one.
  ghost predicate OnlinePhase(cs: Configs, q: PongRun, lastPingForOnline: int, lastStart: real) {
    && q.pinged <= 1 && q.start <= q.lastPong + ((q.pinged + q.strays) * cs.pong.interval) as real
    && (q.pinged == 1 ==> q.lastPong <= q.pingedAt && lastPingForOnline == Sec(q.pingedAt))
    && (q.start <= q.lastPong + (q.strays * cs.pong.interval) as real || q.lastPong <= lastStart)
  }

  ghost predicate Inv(cs: Configs, m: nat, s: System) {
    && PingInv(cs.ping, s.ping)
    && s.ping.start <= s.now <= s.ping.start + cs.ping.interval as real
    && s.pong.start <= s.now
    && PongSide(cs, m, s, Ours(s), s.now)
    && (Online(s) ==> s.pong.lastPong <= s.ping.start)
  }

  // The pong side of the invariant, for the entry e that ping has for it at instant t.
  ghost predicate PongSide(cs: Configs, m: nat, s: System, e: Option<Target>, t: real) {
    && s.pong.start <= t <= s.pong.start + cs.pong.interval as real
    && (s.pong.p.remote.None? ==> e.None? || !e.value.online)
    && (s.pong.p.remote.Some? ==>
        && s.pong.p.remote.value == s.me && s.ping.checks != [] && e.Some? && s.pong.strays <= m
        && s.pong.p.lastPingStamp >= s.ping.p.lastPingForOnline
        && s.pong.lastPong <= s.pong.start
        && (Prompt(cs) ==> PongPhase(cs, s.pong, s.ping.checks))
        && (e.value.online ==>
            && e.value.lastUpdated == Sec(s.pong.lastPong)
            && OnlinePhase(cs, s.pong, s.ping.p.lastPingForOnline, s.ping.lastStart)))
    && (3 * cs.ping.interval <= cs.pong.interval ==> Shut(s, e))
    && (Prompt(cs) && Bearable(cs, m) && e.Some? && !e.value.online ==> Waiting(cs, s))
  }

  // Never online: every check pings the target before its select times out.
  ghost predicate Shut(s: System, e: Option<Target>) {
    (e.Some? ==> !e.value.online) && (s.pong.p.remote.Some? ==> LastCheck(s.ping) <= s.pong.start)
  }

  // Listed but not online yet: no check since it was listed, or pinged soon after that.
  ghost predicate Waiting(cs: Configs, s: System) {
    if s.pong.p.remote.None? then LastCheck(s.ping) <= s.pong.listedAt
    else s.pong.lastPong <= s.pong.listedAt + (3 * cs.ping.interval) as real
  }

  lemma Scale(a: nat, b: nat, j: nat)
    requires a <= b
    ensures a * j <= b * j
  {
  }

  // While a target is online, its latest pong is recent.
  lemma PongGap(cs: Configs, m: nat, q: PongRun, lastPingForOnline: int, lastStart: real, t: real)
    requires OnlinePhase(cs, q, lastPingForOnline, lastStart)
    requires q.strays <= m && t <= q.start + cs.pong.interval as real
    ensures t <= q.lastPong + ((2 + m) * cs.pong.interval) as real
    ensures Sec(t) - Sec(q.lastPong) <= (2 + m) * cs.pong.interval
  {
    Scale(q.pinged + q.strays, 1 + m, cs.pong.interval);
    SecMonotone(t, q.lastPong, (2 + m) * cs.pong.interval);
  }

  // Any valid remote is answered soon.
  lemma AnswerGap(cs: Configs, m: nat, q: PongRun, checks: seq<real>, t: real)
    requires PongPhase(cs, q, checks) && q.strays <= m && t <= q.start + cs.pong.interval as real
    ensures t <= q.window + (3 * cs.pong.interval) as real
    ensures t <= q.lastPong + (3 * ((1 + m) * cs.pong.interval)) as real
  {
    Scale(q.strays, m, cs.pong.interval);
  }

  // While the remote is valid, ping's latest ping is recent enough for pong's patience.
  lemma PingGap(cs: Configs, m: nat, s: System, t: real)
    requires Compatible(cs, m) && Inv(cs, m, s) && InTime(cs, s, t) && s.pong.p.remote.Some?
    ensures Sec(t) - s.pong.p.lastPingStamp <= cs.ping.onlineGap + 3 * cs.ping.interval <= cs.pong.patience
  {
    SecMonotone(t, LastCheck(s.ping), 3 * cs.ping.interval);
  }

  // ---------- Our entry through one iteration of ping ----------

  lemma {:induction false} EntryHeard(ts: seq<Target>, e: Endpoint, here: Endpoint, now: int)
    ensures Entry(Heard(ts, e, now), here) ==
      (if e == here && Entry(ts, here).Some?
       then Some(Entry(ts, here).value.(lastUpdated := now, online := true))
       else Entry(ts, here))
  {
    if ts != [] && ts[0].remote != e {
      EntryHeard(ts[1..], e, here, now);
    }
  }

  lemma {:induction false} EntryUpdate(ts: seq<Target>, i: nat, x: Target, here: Endpoint)
    requires i < |ts| && x.remote == ts[i].remote
    requires forall j | 0 <= j < i :: ts[j].remote != ts[i].remote
    ensures Entry(ts[i := x], here) == if x.remote == here then Some(x) else Entry(ts, here)
  {
    if i > 0 {
      assert ts[i := x][1..] == ts[1..][i - 1 := x];
      assert forall j | 0 <= j < i - 1 :: ts[1..][j] == ts[j + 1];
      EntryUpdate(ts[1..], i - 1, x, here);
    }
  }

  lemma EntryAnnounced(ts: seq<Target>, addr: nat, info: string, garbage: int, here: Endpoint)
    requires OnePerAddress(ts) && here.port == PP_PORT
    ensures var r := Entry(Announced(ts, addr, info, garbage), here);
      if addr == here.addr then
        var stamp := if Entry(ts, here).Some? then Entry(ts, here).value.lastUpdated else garbage;
        r == Some(Target(here, false, stamp, info))
      else r == Entry(ts, here)
  {
    hide FindTarget;
    var i := FindTarget(ts, addr);
    if i == |ts| {
      assert Announced(ts, addr, info, garbage)[1..] == ts;
    } else {
      EntryUpdate(ts, i, ts[i].(info := info, online := false), here);
    }
  }

  lemma {:induction false} EntryExpired(c: PingConfig, ts: seq<Target>, now: int, here: Endpoint)
    ensures Entry(ExpireAll(c, ts, now), here) ==
      if Entry(ts, here).Some? then Some(Expire(c, Entry(ts, here).value, now)) else None
  {
    if ts != [] {
      assert ExpireAll(c, ts, now)[1..] == ExpireAll(c, ts[1..], now);
      EntryExpired(c, ts[1..], now, here);
    }
  }

  lemma {:induction false} EntryPinged(ts: seq<Target>, all: bool, here: Endpoint)
    requires OnePerAddress(ts)
    ensures here in Pinged(ts, all) <==> Entry(ts, here).Some? && (all || !Entry(ts, here).value.online)
  {
    if ts != [] {
      var rest := ts[1..];
      assert OnePerAddress(rest) by {
        assert forall i | 0 <= i < |rest| :: rest[i] == ts[i + 1];
      }
      EntryPinged(rest, all, here);
      assert forall x | x in rest :: x.remote.addr != ts[0].remote.addr;
    }
  }

  lemma EntryForeign(ts: seq<Target>, now: int, input: Input, garbage: int, here: Endpoint, low: int)
    requires OnePerAddress(ts) && here.port == PP_PORT && Foreign(here.addr, input)
    requires FreshSince(ts, low) && low <= now
    ensures Entry(Deliver(ts, now, input, garbage), here) == Entry(ts, here)
  {
    if input.Ready? {
      var ts1 := ts;
      if input.uni.Some? && IsPong(input.uni.value.1) {
        EntryHeard(ts, input.uni.value.0, here, now);
        HeardKeeps(ts, input.uni.value.0, now, low);
        ts1 := Heard(ts, input.uni.value.0, now);
      }
      if input.multi.Some? && IsAnnouncement(input.multi.value.1) {
        EntryAnnounced(ts1, input.multi.value.0, input.multi.value.1[5..], garbage, here);
      }
    }
  }

  // Main result on one iteration's datagrams, for any target address: a "pong" from its endpoint
  // puts a listed target online and stamps it; an announcement, "pong" and a line end and then
  // anything, from its address lists it, or renews it, offline and with that text; nothing else
  // touches it.
  lemma EntryDelivered(ts: seq<Target>, now: int, uni: Option<(Endpoint, string)>, multi: Option<(nat, string)>,
                       garbage: int, here: Endpoint, info: string)
    requires OnePerAddress(ts) && here.port == PP_PORT
    ensures var t := Entry(ts, here);
      var t' :=
        if uni == Some((here, "pong")) && t.Some? then Some(t.value.(lastUpdated := now, online := true)) else t;
      var r := Entry(Deliver(ts, now, Ready(uni, multi), garbage), here);
      && (multi == Some((here.addr, "pong\n" + info)) && info != "" ==>
          r == Some(Target(here, false, if t'.Some? then t'.value.lastUpdated else garbage, info)))
      && ((multi.Some? && multi.value.0 == here.addr ==> !("pong\n" < multi.value.1)) ==> r == t')
  {
    hide Announced, Heard, OnePerAddress, Entry;
    var ts1 := if uni.Some? && uni.value.1 == "pong" then Heard(ts, uni.value.0, now) else ts;
    if uni.Some? {
      EntryHeard(ts, uni.value.0, here, now);
      HeardOnePerAddress(ts, uni.value.0, now);
    }
    if multi.Some? {
      var data := multi.value.1;
      if |data| > 5 {
        EntryAnnounced(ts1, multi.value.0, data[5..], garbage, here);
      }
      assert ("pong\n" + info)[..5] == "pong\n" && ("pong\n" + info)[5..] == info;
    }
  }

  lemma HeardOnePerAddress(ts: seq<Target>, e: Endpoint, now: int)
    requires OnePerAddress(ts)
    ensures OnePerAddress(Heard(ts, e, now))
  {
    forall i | 0 <= i < |ts| ensures Heard(ts, e, now)[i].remote == ts[i].remote {
      HeardAt(ts, e, now, i);
    }
  }

  // ---------- The invariant of the composed system ----------

  // If the pong was put off by a ping, the next check is an interval after the latest pong.
  lemma SecondCheck(cs: Configs, s: System, t: real, input: Input)
    requires PingInv(cs.ping, s.ping) && WakesAt(cs.ping, s.ping, t, input) && Checks(cs.ping, s.ping.p, input)
    requires s.pong.lastPong <= s.ping.lastStart
    ensures Sec(t) - Sec(s.pong.lastPong) >= cs.ping.interval
  {
    SecMonotone(s.pong.lastPong, s.ping.lastStart, 0);
    SecMonotone(s.ping.start, t, 0);
    SecMonotone(s.pong.lastPong + cs.ping.interval as real, t, 0);
  }

  // A check cannot expire our entry.
  lemma NotExpired(cs: Configs, m: nat, s: System, e: Target, t: real, input: Input)
    requires Bearable(cs, m) && PongSide(cs, m, s, Some(e), t)
    requires PingInv(cs.ping, s.ping) && WakesAt(cs.ping, s.ping, t, input) && Checks(cs.ping, s.ping.p, input)
    ensures Expire(cs.ping, e, Sec(t)) == e
  {
    hide CheckTimes, OnePerAddress, FreshSince, PongPhase;
    if e.online {
      var q := s.pong;
      PongGap(cs, m, q, s.ping.p.lastPingForOnline, s.ping.lastStart, t);
      if q.start <= q.lastPong + (q.strays * cs.pong.interval) as real {
        Scale(q.strays, m, cs.pong.interval);
        assert (1 + m) * cs.pong.interval == m * cs.pong.interval + cs.pong.interval;
        SecMonotone(t, q.lastPong, (1 + m) * cs.pong.interval);
      } else {
        SecondCheck(cs, s, t, input);
      }
    }
  }

  // A third ping in a window would come after the timeout.
  lemma PhaseAfterPing(cs: Configs, s: System, t: real)
    requires Prompt(cs) && s.pong.p.remote.Some? && PongPhase(cs, s.pong, s.ping.checks)
    requires s.pong.start <= t <= s.pong.start + cs.pong.interval as real
    requires CheckTimes(cs.ping, s.ping.t0, s.ping.checks + [t])
    ensures PongPhase(cs, Pinging(cs, s.pong, t, s.me), s.ping.checks + [t])
  {
    var all, n := s.ping.checks + [t], |s.ping.checks|;
    if n >= 2 {
      assert Sec(all[n - 2 + 2]) - Sec(all[n - 2]) >= cs.ping.interval;
      SecMonotone(all[n], all[n - 2], cs.ping.interval);
    }
    if n >= 1 {
      assert all[n - 1] <= all[n - 1 + 1];
    }
  }

  // A second ping to an online target would come after the timeout.
  lemma OnlineAfterPing(cs: Configs, m: nat, s: System, t: real)
    requires Compatible(cs, m) && s.pong.p.remote.Some? && s.pong.strays <= m
    requires OnlinePhase(cs, s.pong, s.ping.p.lastPingForOnline, s.ping.lastStart)
    requires s.pong.lastPong <= s.pong.start <= t <= s.pong.start + cs.pong.interval as real
    requires s.pong.lastPong <= s.ping.start || s.pong.lastPong == t
    requires ToOnline(cs.ping, s.ping.p, Sec(t))
    ensures OnlinePhase(cs, Pinging(cs, s.pong, t, s.me), Sec(t), s.ping.start)
  {
    var q, J := s.pong, cs.pong.interval;
    PongGap(cs, m, q, s.ping.p.lastPingForOnline, s.ping.lastStart, t);
    if q.pinged == 1 {
      SecMonotone(t, q.pingedAt, (2 + m) * J);
    }
    assert (1 + q.strays) * J == q.strays * J + J;
  }

  // The first ping starts a phase.
  lemma NewPhase(cs: Configs, q: PongRun, t: real, me: Endpoint, checks: seq<real>)
    ensures q.p.remote.None? ==> PongPhase(cs, Pinging(cs, q, t, me), checks)
  {
  }

  lemma RestartedPhase(cs: Configs, q: PongRun, t: real, checks: seq<real>, lastPingForOnline: int, lastStart: real)
    ensures PongPhase(cs, Restarted(q, t), checks) && OnlinePhase(cs, Restarted(q, t), lastPingForOnline, lastStart)
  {
  }

  // Without a ping the phase survives a check.
  lemma PhaseAfterCheck(cs: Configs, s: System, t: real)
    requires PongPhase(cs, s.pong, s.ping.checks)
    requires CheckTimes(cs.ping, s.ping.t0, s.ping.checks + [t])
    ensures PongPhase(cs, s.pong, s.ping.checks + [t])
  {
    var all, n := s.ping.checks + [t], |s.ping.checks|;
    if n >= 1 {
      assert all[n - 1] <= all[n - 1 + 1];
    }
    if n >= 2 {
      assert all[n - 2] <= all[n - 2 + 1];
    }
  }

  // A stray opens a new window.
  lemma PhaseAfterStray(cs: Configs, q: PongRun, t: real, checks: seq<real>, lastPingForOnline: int, lastStart: real)
    requires q.start <= t <= q.start + cs.pong.interval as real
    ensures var r := q.(start := t, strays := q.strays + 1, window := t, inWindow := 0);
      && (PongPhase(cs, q, checks) ==> PongPhase(cs, r, checks))
      && (OnlinePhase(cs, q, lastPingForOnline, lastStart) ==> OnlinePhase(cs, r, lastPingForOnline, lastStart))
  {
    var k, J := q.strays, cs.pong.interval;
    assert (k + 1) * J == k * J + J;
    assert (q.pinged + k + 1) * J == (q.pinged + k) * J + J;
  }

  // One check by ping, which has e for our pong after delivery, and what it does to the entry.
  lemma CheckKeepsSide(cs: Configs, m: nat, s: System, t: real, input: Input, garbage: int, e: Option<Target>)
    requires Compatible(cs, m) && PingInv(cs.ping, s.ping) && WakesAt(cs.ping, s.ping, t, input)
    requires Checks(cs.ping, s.ping.p, input) && PongSide(cs, m, s, e, t)
    requires PingInv(cs.ping, After(cs.ping, s.ping, t, input, garbage))
    requires e.Some? && e.value.online ==> s.pong.lastPong <= s.ping.start || s.pong.lastPong == t
    ensures var all := ToOnline(cs.ping, s.ping.p, Sec(t));
      var q := if e.Some? && (all || !e.value.online) then Pinging(cs, s.pong, t, s.me) else s.pong;
      var e' := if e.Some? then Some(Expire(cs.ping, e.value, Sec(t))) else None;
      PongSide(cs, m, System(After(cs.ping, s.ping, t, input, garbage), q, s.me, t), e', t)
  {
    hide Deliver, ExpireAll, CheckTimes, OnePerAddress, Pinged, PongPhase, OnlinePhase, FreshSince, Entry;
    hide Bearable, Compatible, Prompt, ToOnline;
    NewPhase(cs, s.pong, t, s.me, s.ping.checks + [t]);
    if e.Some? && Bearable(cs, m) {
      NotExpired(cs, m, s, e.value, t, input);
    }
    if s.pong.p.remote.Some? {
      if Prompt(cs) {
        CheckTimesOf(cs.ping, s.ping, t, input, garbage);
        PhaseAfterPing(cs, s, t);
        PhaseAfterCheck(cs, s, t);
      }
      if e.value.online {
        if ToOnline(cs.ping, s.ping.p, Sec(t)) {
          OnlineAfterPing(cs, m, s, t);
        } else {
          OnlineAfterCheck(cs, s, t);
        }
      }
    }
  }

  lemma CheckTimesOf(c: PingConfig, s: PingRun, t: real, input: Input, garbage: int)
    requires Checks(c, s.p, input) && PingInv(c, After(c, s, t, input, garbage))
    ensures CheckTimes(c, s.t0, s.checks + [t])
  {
  }

  // One iteration of ping, for any input that leaves our entry fit for the pong side.
  lemma PingWakesKeeps(cs: Configs, m: nat, s: System, t: real, input: Input, garbage: int)
    requires Compatible(cs, m) && PingInv(cs.ping, s.ping) && WakesAt(cs.ping, s.ping, t, input)
    requires PongSide(cs, m, s, Entry(Deliver(s.ping.p.targets, Sec(t), input, garbage), Here(s)), t)
    requires var e := Entry(Deliver(s.ping.p.targets, Sec(t), input, garbage), Here(s));
      e.Some? && e.value.online ==> s.pong.lastPong <= s.ping.start || s.pong.lastPong == t
    ensures var s' := PingWakes(cs, s, t, input, garbage);
      && Inv(cs, m, s') && (s.pong.p.remote.Some? ==> s'.pong.p.remote.Some?)
    ensures var e := Entry(Deliver(s.ping.p.targets, Sec(t), input, garbage), Here(s));
      Bearable(cs, m) && e.Some? && e.value.online ==> Online(PingWakes(cs, s, t, input, garbage))
  {
    hide Deliver, ExpireAll, CheckTimes, OnePerAddress, Pinged, PongPhase, OnlinePhase, FreshSince, Entry, Bearable,
      Prompt, Waiting;
    PingStep(cs.ping, s.ping, t, input, garbage);
    SecMonotone(LastCheck(s.ping), t, 0);
    var ts := Deliver(s.ping.p.targets, Sec(t), input, garbage);
    if Checks(cs.ping, s.ping.p, input) {
      DeliverKeeps(s.ping.p.targets, Sec(t), input, garbage, Sec(LastCheck(s.ping)) - cs.ping.maxInterval);
      EntryPinged(ts, ToOnline(cs.ping, s.ping.p, Sec(t)), Here(s));
      EntryExpired(cs.ping, ts, Sec(t), Here(s));
      var e := Entry(ts, Here(s));
      CheckKeepsSide(cs, m, s, t, input, garbage, e);
      if e.Some? && Bearable(cs, m) {
        NotExpired(cs, m, s, e.value, t, input);
      }
    } else {
      WaitingStays(cs, s, t, input, garbage);
    }
  }

  lemma WaitingStays(cs: Configs, s: System, t: real, input: Input, garbage: int)
    requires !Checks(cs.ping, s.ping.p, input)
    ensures Waiting(cs, s) ==> Waiting(cs, PingWakes(cs, s, t, input, garbage))
  {
  }

  // Iterations begin later and later.
  lemma OnlineAfterCheck(cs: Configs, s: System, t: real)
    requires OnlinePhase(cs, s.pong, s.ping.p.lastPingForOnline, s.ping.lastStart) && s.ping.lastStart <= s.ping.start
    ensures OnlinePhase(cs, s.pong, s.ping.p.lastPingForOnline, s.ping.start)
  {
  }

  lemma ForeignWakeKeeps(cs: Configs, m: nat, s: System, t: real, input: Input, garbage: int)
    requires Compatible(cs, m) && Inv(cs, m, s) && InTime(cs, s, t)
    requires WakesAt(cs.ping, s.ping, t, input) && Foreign(s.pong.addr, input)
    ensures Kept(cs, m, s, PingWakes(cs, s, t, input, garbage))
  {
    hide Deliver, CheckTimes, OnePerAddress, PongPhase, OnlinePhase, FreshSince, Entry, PingWakes;
    SecMonotone(LastCheck(s.ping), t, 0);
    EntryForeign(s.ping.p.targets, Sec(t), input, garbage, Here(s), Sec(LastCheck(s.ping)) - cs.ping.maxInterval);
    PingWakesKeeps(cs, m, s, t, input, garbage);
  }

  // The invariant holds after a step, which neither expires an online target nor makes
  // pong drop its remote.
  ghost predicate Kept(cs: Configs, m: nat, s: System, s': System) {
    && Inv(cs, m, s') && (Bearable(cs, m) && Online(s) ==> Online(s'))
    && (s.pong.p.remote.Some? ==> s'.pong.p.remote.Some?)
  }

  // The entry after our own pong, and after our own announcement.
  lemma EntryOwnPong(ts: seq<Target>, now: int, other: Option<(nat, string)>, garbage: int, here: Endpoint, low: int)
    requires OnePerAddress(ts) && here.port == PP_PORT && (other.Some? ==> other.value.0 != here.addr)
    requires FreshSince(ts, low) && low <= now
    ensures Entry(Deliver(ts, now, Ready(Some((here, "pong")), other), garbage), here) ==
      if Entry(ts, here).Some? then Some(Entry(ts, here).value.(lastUpdated := now, online := true)) else None
  {
    EntryHeard(ts, here, here, now);
    HeardKeeps(ts, here, now, low);
    if other.Some? && IsAnnouncement(other.value.1) {
      EntryAnnounced(Heard(ts, here, now), other.value.0, other.value.1[5..], garbage, here);
    }
  }

  lemma EntryOwnAnnouncement(ts: seq<Target>, now: int, other: Option<(Endpoint, string)>, info: string, garbage: int,
                             here: Endpoint, low: int)
    requires OnePerAddress(ts) && here.port == PP_PORT && info != ""
    requires FreshSince(ts, low) && low <= now
    ensures var e := Entry(Deliver(ts, now, Ready(other, Some((here.addr, "pong\n" + info))), garbage), here);
      e.Some? && !e.value.online
  {
    var ts1 := ts;
    if other.Some? && IsPong(other.value.1) {
      HeardKeeps(ts, other.value.0, now, low);
      ts1 := Heard(ts, other.value.0, now);
    }
    var data := "pong\n" + info;
    assert data[..5] == "pong\n" && |data| > 5;
    EntryAnnounced(ts1, here.addr, data[5..], garbage, here);
  }

  // Our announcement reaches ping.
  lemma AnnouncingKeeps(cs: Configs, m: nat, s: System, q: PongRun, t: real, other: Input, info: string, garbage: int)
    requires Compatible(cs, m) && Inv(cs, m, s) && InTime(cs, s, t) && s.pong.p.remote.None?
    requires q.p.remote.None? && q.start == t && q.addr == s.pong.addr && q.listedAt == s.pong.listedAt
    requires other.Ready? && Foreign(s.pong.addr, other) && info != ""
    ensures Kept(cs, m, s, Announcing(cs, s, q, t, other, info, garbage))
  {
    hide Deliver, CheckTimes, OnePerAddress, FreshSince, Entry, PingWakes;
    SecMonotone(LastCheck(s.ping), t, 0);
    var low := Sec(LastCheck(s.ping)) - cs.ping.maxInterval;
    var s1 := s.(pong := q.(listedAt := if Ours(s).None? then t else q.listedAt));
    EntryOwnAnnouncement(s.ping.p.targets, Sec(t), other.uni, info, garbage, Here(s), low);
    PingWakesKeeps(cs, m, s1, t, Ready(other.uni, Some((s.pong.addr, "pong\n" + info))), garbage);
  }

  lemma PongWakeKeeps(cs: Configs, m: nat, s: System, t: real, other: Input, info: string, garbage: int)
    requires Compatible(cs, m) && Inv(cs, m, s) && InTime(cs, s, t) && t == s.pong.start + cs.pong.interval as real
    requires other.Ready? && Foreign(s.pong.addr, other) && info != ""
    ensures Kept(cs, m, s, PongWakes(cs, s, t, other, info, garbage))
  {
    hide Deliver, CheckTimes, OnePerAddress, FreshSince, Entry, PingWakes, Announcing, PongPhase, OnlinePhase;
    SecMonotone(LastCheck(s.ping), t, 0);
    var low := Sec(LastCheck(s.ping)) - cs.ping.maxInterval;
    var (p, out) := PongTimeout(cs.pong, s.pong.p, Sec(t));
    var q := s.pong.(p := p, start := t);
    if s.pong.p.remote.Some? {
      PingGap(cs, m, s, t);
      var s1 := s.(pong := Restarted(q, t));
      RestartedPhase(cs, q, t, s.ping.checks, s.ping.p.lastPingForOnline, s.ping.lastStart);
      EntryOwnPong(s.ping.p.targets, Sec(t), other.multi, garbage, Here(s), low);
      PingWakesKeeps(cs, m, s1, t, Ready(Some((Here(s), "pong")), other.multi), garbage);
    } else if out.Announce? {
      AnnouncingKeeps(cs, m, s, q, t, other, info, garbage);
    }
  }

  lemma StrayKeeps(cs: Configs, m: nat, s: System, t: real, from: Endpoint, data: string, other: Input, info: string,
                   garbage: int)
    requires Compatible(cs, m) && Inv(cs, m, s) && InTime(cs, s, t) && !IsPing(data)
    requires other.Ready? && Foreign(s.pong.addr, other) && info != ""
    requires var s' := StrayArrives(cs, s, t, from, data, other, info, garbage);
      s'.pong.p.remote.Some? ==> s'.pong.strays <= m
    ensures Kept(cs, m, s, StrayArrives(cs, s, t, from, data, other, info, garbage))
  {
    hide Announcing, PingInv, PongPhase, OnlinePhase, Entry;
    if s.pong.p.remote.Some? {
      PhaseAfterStray(cs, s.pong, t, s.ping.checks, s.ping.p.lastPingForOnline, s.ping.lastStart);
    } else {
      var (p, out) := PongReceive(cs.pong, s.pong.p, Sec(t), from, data);
      var q := s.pong.(p := p, start := t, strays := s.pong.strays + 1, window := t, inWindow := 0);
      if out.Announce? {
        AnnouncingKeeps(cs, m, s, q, t, other, info, garbage);
      }
    }
  }

  lemma NextKeeps(cs: Configs, m: nat, s: System, s': System)
    requires Compatible(cs, m) && Inv(cs, m, s) && Next(cs, m, s, s')
    ensures Kept(cs, m, s, s')
  {
    hide Inv, Kept, Compatible;
    if exists t, input, garbage :: PingMoves(cs, s, s', t, input, garbage) {
      var t, input, garbage :| PingMoves(cs, s, s', t, input, garbage);
      ForeignWakeKeeps(cs, m, s, t, input, garbage);
    } else if exists t, other, info, garbage :: PongMoves(cs, s, s', t, other, info, garbage) {
      var t, other, info, garbage :| PongMoves(cs, s, s', t, other, info, garbage);
      PongWakeKeeps(cs, m, s, t, other, info, garbage);
    } else {
      var t, from, data, other, info, garbage :| StrayMoves(cs, s, s', t, from, data, other, info, garbage);
      StrayKeeps(cs, m, s, t, from, data, other, info, garbage);
    }
  }

  lemma InitHolds(cs: Configs, m: nat, s: System)
    requires Compatible(cs, m) && Init(cs, s)
    ensures Inv(cs, m, s)
  {
  }

  ghost predicate IsRun(cs: Configs, m: nat, run: seq<System>) {
    run != [] && Init(cs, run[0]) && forall i | 0 <= i < |run| - 1 :: Next(cs, m, run[i], run[i + 1])
  }

  lemma {:induction false} RunInv(cs: Configs, m: nat, run: seq<System>, k: nat)
    requires Compatible(cs, m) && IsRun(cs, m, run) && k < |run|
    ensures Inv(cs, m, run[k])
    ensures k > 0 ==> Kept(cs, m, run[k - 1], run[k])
  {
    hide Inv, Next, Init, Compatible;
    if k == 0 {
      InitHolds(cs, m, run[0]);
    } else {
      RunInv(cs, m, run, k - 1);
      assert Next(cs, m, run[k - 1], run[k - 1 + 1]);
      NextKeeps(cs, m, run[k - 1], run[k]);
    }
  }

  lemma {:induction false} OnlineForever(cs: Configs, m: nat, run: seq<System>, j: nat, k: nat)
    requires Compatible(cs, m) && IsRun(cs, m, run) && j <= k < |run|
    ensures Bearable(cs, m) && Online(run[j]) ==> Online(run[k])
    ensures run[j].pong.p.remote.Some? ==> run[k].pong.p.remote.Some?
  {
    hide Inv, Next, Init, Online, Compatible;
    if j < k {
      OnlineForever(cs, m, run, j, k - 1);
      RunInv(cs, m, run, k);
    }
  }

  // Main result: with lossless instant delivery and compatible intervals, in every run of
  // ping with a pong, whenever the two were started, whatever else reaches ping, and whatever
  // but pings reaches pong, if only at most m datagrams between two pongs,
  //   pong never drops its remote;
  //   an online target's pongs are at most 2 + m pong intervals apart;
  //   pings reach the target less than onlineGap + 3 check intervals apart;
  //   if that is bearable, a target once online never times out;
  //   if pong is prompt besides, a listed target is online within 3 check intervals and
  //   3 + 3 * m pong intervals.
  lemma HeartbeatHolds(cs: Configs, m: nat, run: seq<System>, k: nat, t: real)
    requires Compatible(cs, m) && IsRun(cs, m, run) && k < |run| && InTime(cs, run[k], t)
    ensures forall j: nat | j <= k && run[j].pong.p.remote.Some? :: run[k].pong.p.remote.Some?
    ensures Online(run[k]) ==> t <= run[k].pong.lastPong + ((2 + m) * cs.pong.interval) as real
    ensures run[k].pong.p.remote.Some? ==>
      Sec(t) - run[k].pong.p.lastPingStamp <= cs.ping.onlineGap + 3 * cs.ping.interval
    ensures Bearable(cs, m) ==> forall j: nat | j <= k && Online(run[j]) :: Online(run[k])
    ensures Bearable(cs, m) && Prompt(cs) && Ours(run[k]).Some? && !Online(run[k]) ==>
      t <= run[k].pong.listedAt + (3 * cs.ping.interval + 3 * ((1 + m) * cs.pong.interval)) as real
  {
    hide Inv, Next, Init, Online, Compatible, Bearable, Prompt, Ours;
    RunInv(cs, m, run, k);
    forall j: nat | j <= k
      ensures Bearable(cs, m) && Online(run[j]) ==> Online(run[k])
      ensures run[j].pong.p.remote.Some? ==> run[k].pong.p.remote.Some?
    {
      OnlineForever(cs, m, run, j, k);
    }
    Gaps(cs, m, run[k], t);
  }

  lemma Gaps(cs: Configs, m: nat, s: System, t: real)
    requires Compatible(cs, m) && Inv(cs, m, s) && InTime(cs, s, t)
    ensures Online(s) ==> t <= s.pong.lastPong + ((2 + m) * cs.pong.interval) as real
    ensures s.pong.p.remote.Some? ==> Sec(t) - s.pong.p.lastPingStamp <= cs.ping.onlineGap + 3 * cs.ping.interval
    ensures Bearable(cs, m) && Prompt(cs) && Ours(s).Some? && !Online(s) ==>
      t <= s.pong.listedAt + (3 * cs.ping.interval + 3 * ((1 + m) * cs.pong.interval)) as real
  {
    hide CheckTimes, OnePerAddress, FreshSince, Entry, Sec, PongPhase, OnlinePhase, Bearable, Compatible, Waiting;
    if s.pong.p.remote.Some? {
      PingGap(cs, m, s, t);
      if Online(s) {
        PongGap(cs, m, s.pong, s.ping.p.lastPingForOnline, s.ping.lastStart, t);
      }
    }
    if Bearable(cs, m) && Prompt(cs) && Ours(s).Some? && !Online(s) {
      ListedGap(cs, m, s, t);
    }
  }

  lemma ListedGap(cs: Configs, m: nat, s: System, t: real)
    requires PingInv(cs.ping, s.ping) && Waiting(cs, s) && InTime(cs, s, t)
    requires s.pong.p.remote.Some? ==> PongPhase(cs, s.pong, s.ping.checks) && s.pong.strays <= m
    ensures t <= s.pong.listedAt + (3 * cs.ping.interval + 3 * ((1 + m) * cs.pong.interval)) as real
  {
    hide CheckTimes, OnePerAddress, FreshSince, Sec, PongPhase;
    if s.pong.p.remote.Some? {
      AnswerGap(cs, m, s.pong, s.ping.checks, t);
    } else {
      assert (1 + m) * cs.pong.interval >= 0;
    }
  }
}

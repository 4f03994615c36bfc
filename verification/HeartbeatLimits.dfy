/** The intervals under which targets do time out although they answer at every chance they get:
    for all intervals that are not bearable, a run in which that happens. */
module HeartbeatLimits {
  import opened Wrappers
  import opened HeartbeatSpec
  import opened Heartbeat

  const ME := Endpoint(1, 5)
  const PONG_ADDR: nat := 2
  const PONG_END := Endpoint(PONG_ADDR, PP_PORT)

  // A datagram that means nothing to either program.
  const NOISE := Ready(Some((Endpoint(9, 9), "x")), None)

  // What there is to know of a system with one target, listed and pinged, at whole seconds:
  // when the selects of ping and pong began, and ping's iteration with the latest check; when
  // ping last heard of the target, last pinged online targets, and pong last got a ping.
  datatype Facts = Facts(now: int, pingStart: int, lastStart: int, pongStart: int,
                         online: bool, heard: int, asked: int, stamp: int, strays: nat)

  ghost predicate Holds(s: System, f: Facts) {
    && s.me == ME && s.now == f.now as real && f.pingStart <= f.now
    && s.ping.p == Ping([Target(PONG_END, f.online, f.heard, "i")], f.asked, f.pingStart, f.lastStart)
    && s.ping.start == f.pingStart as real
    && s.pong.p.remote == Some(ME) && s.pong.p.lastPingStamp == f.stamp
    && s.pong.addr == PONG_ADDR && s.pong.start == f.pongStart as real && s.pong.strays == f.strays
  }

  // A run that has come to a state like this.
  ghost predicate Reaches(cs: Configs, m: nat, run: seq<System>, f: Facts) {
    run != [] && IsRun(cs, m, run) && Holds(run[|run| - 1], f)
  }

  lemma Extended(cs: Configs, m: nat, run: seq<System>, s: System)
    requires IsRun(cs, m, run) && Next(cs, m, run[|run| - 1], s)
    ensures IsRun(cs, m, run + [s])
  {
    hide Next, Init;
    var all := run + [s];
    forall i | 0 <= i < |all| - 1 ensures Next(cs, m, all[i], all[i + 1]) {
      if i < |run| - 1 {
        assert Next(cs, m, run[i], run[i + 1]);
      }
    }
  }

  predicate May(cs: Configs, f: Facts, t: int) {
    f.now <= t <= f.pingStart + cs.ping.interval && t <= f.pongStart + cs.pong.interval
  }

  // The next iteration of ping makes a check.
  predicate Eager(cs: Configs, f: Facts) {
    f.pingStart - f.lastStart >= cs.ping.interval
  }

  // ---------- One step more ----------

  // Noise wakes ping.
  function Woken(cs: Configs, f: Facts, t: int): Facts {
    if !Eager(cs, f) then f.(now := t, pingStart := t)
    else
      var all := t - f.asked > cs.ping.onlineGap;
      var g := f.(now := t, pingStart := t, lastStart := f.pingStart,
                  online := f.online && t - f.heard <= cs.ping.maxInterval, asked := if all then t else f.asked);
      if all || !f.online then g.(pongStart := t, stamp := t) else g
  }

  lemma WokenHolds(cs: Configs, s: System, f: Facts, t: int)
    requires Holds(s, f) && May(cs, f, t)
    ensures Holds(PingWakes(cs, s, t as real, NOISE, 0), Woken(cs, f, t)) && Woken(cs, f, t).strays == f.strays
  {
    assert Pinged(s.ping.p.targets, t - f.asked > cs.ping.onlineGap) ==
      if t - f.asked > cs.ping.onlineGap || !f.online then [PONG_END] else [];
  }

  lemma Wakes(cs: Configs, m: nat, run: seq<System>, f: Facts, t: int) returns (longer: seq<System>)
    requires Reaches(cs, m, run, f) && May(cs, f, t) && f.strays <= m
    ensures |longer| == |run| + 1 && run < longer && longer[0] == run[0] && Reaches(cs, m, longer, Woken(cs, f, t))
  {
    hide PingWakes, Woken;
    var s := run[|run| - 1];
    var s' := PingWakes(cs, s, t as real, NOISE, 0);
    WokenHolds(cs, s, f, t);
    assert PingMoves(cs, s, s', t as real, NOISE, 0);
    Extended(cs, m, run, s');
    longer := run + [s'];
  }

  // A datagram from elsewhere reaches pong.
  lemma Strays(cs: Configs, m: nat, run: seq<System>, f: Facts, t: int) returns (longer: seq<System>)
    requires Reaches(cs, m, run, f) && May(cs, f, t) && f.strays < m
    ensures run < longer && longer[0] == run[0]
    ensures Reaches(cs, m, longer, f.(now := t, pongStart := t, strays := f.strays + 1))
  {
    hide PingWakes;
    var s := run[|run| - 1];
    var s' := StrayArrives(cs, s, t as real, Endpoint(9, 9), "x", NOISE, "i", 0);
    assert StrayMoves(cs, s, s', t as real, Endpoint(9, 9), "x", NOISE, "i", 0);
    Extended(cs, m, run, s');
    longer := run + [s'];
  }

  // The target's pong reaches ping, which may make a check at once.
  function Answered(cs: Configs, f: Facts): Facts {
    var t := f.pongStart + cs.pong.interval;
    f.(now := t, pingStart := t, lastStart := if Eager(cs, f) then f.pingStart else f.lastStart,
       pongStart := t, online := true, heard := t, strays := 0)
  }

  lemma AnsweredHolds(cs: Configs, s: System, f: Facts)
    requires Holds(s, f)
    requires var t := f.pongStart + cs.pong.interval;
      && May(cs, f, t) && t - f.stamp <= cs.pong.patience
      && (Eager(cs, f) ==> t - f.asked <= cs.ping.onlineGap)
    ensures var t := f.pongStart + cs.pong.interval;
      Holds(PongWakes(cs, s, t as real, Ready(None, None), "i", 0), Answered(cs, f)) && Answered(cs, f).strays == 0
  {
    var t, input := f.pongStart + cs.pong.interval, Ready(Some((PONG_END, "pong")), None);
    var ts := [Target(PONG_END, true, t, "i")];
    assert Pinged(ts, false) == [];
    assert Deliver(s.ping.p.targets, Sec(t as real), input, 0) == ts;
  }

  lemma Answers(cs: Configs, m: nat, run: seq<System>, f: Facts) returns (longer: seq<System>)
    requires Reaches(cs, m, run, f)
    requires var t := f.pongStart + cs.pong.interval;
      && May(cs, f, t) && t - f.stamp <= cs.pong.patience
      && (Eager(cs, f) ==> t - f.asked <= cs.ping.onlineGap)
    ensures run < longer && longer[0] == run[0] && Reaches(cs, m, longer, Answered(cs, f))
  {
    hide PongWakes, Answered;
    var s, t := run[|run| - 1], f.pongStart + cs.pong.interval;
    var s' := PongWakes(cs, s, t as real, Ready(None, None), "i", 0);
    AnsweredHolds(cs, s, f);
    assert PongMoves(cs, s, s', t as real, Ready(None, None), "i", 0);
    Extended(cs, m, run, s');
    longer := run + [s'];
  }

  // ---------- Several steps ----------

  // When ping is next woken: at the last moment, or as early as makes the wake after it a check.
  function NextWake(cs: Configs, f: Facts): int {
    if Eager(cs, f) then f.pingStart + cs.ping.interval else f.lastStart + cs.ping.interval
  }

  // Up to b, with pong kept silent by strays, n at the most, nothing happens to an online
  // target; and at b ping will make a check.
  ghost predicate Drivable(cs: Configs, f: Facts, n: nat, b: int) {
    && f.online && f.lastStart <= f.pingStart <= f.now && f.pongStart <= f.now <= b
    && f.now <= NextWake(cs, f) && f.now <= f.pongStart + cs.pong.interval
    && (!Eager(cs, f) ==> f.lastStart + cs.ping.interval <= b)
    && (b <= f.heard + cs.ping.maxInterval + 1 || b <= f.lastStart + cs.ping.interval)
    && b - f.asked <= cs.ping.onlineGap + 1
    && f.strays <= n && b <= f.pongStart + (n - f.strays + 1) * cs.pong.interval
  }

  // Both kinds of step lead on.
  lemma WokenDrivable(cs: Configs, f: Facts, n: nat, b: int)
    requires cs.ping.interval > 0 && Drivable(cs, f, n, b)
    requires NextWake(cs, f) <= f.pongStart + cs.pong.interval && (Eager(cs, f) ==> NextWake(cs, f) < b)
    ensures var g := Woken(cs, f, NextWake(cs, f));
      && May(cs, f, NextWake(cs, f)) && Drivable(cs, g, n, b) && f.pingStart < g.pingStart
      && g.heard == f.heard && g.asked == f.asked && g.strays == f.strays && g.pongStart == f.pongStart
  {
  }

  lemma StrayedDrivable(cs: Configs, f: Facts, n: nat, b: int)
    requires cs.pong.interval > 0 && Drivable(cs, f, n, b)
    requires var t := f.pongStart + cs.pong.interval; t < NextWake(cs, f) && t < b
    ensures var t := f.pongStart + cs.pong.interval;
      f.strays < n && May(cs, f, t) && Drivable(cs, f.(now := t, pongStart := t, strays := f.strays + 1), n, b)
  {
    var t, J, k := f.pongStart + cs.pong.interval, cs.pong.interval, n - f.strays;
    assert (k + 1) * J == k * J + J;
  }

  lemma {:induction false} Drive(cs: Configs, m: nat, run: seq<System>, f: Facts, n: nat, b: int)
    returns (longer: seq<System>, g: Facts)
    requires cs.ping.interval > 0 && cs.pong.interval > 0 && n <= m
    requires Reaches(cs, m, run, f) && Drivable(cs, f, n, b)
    ensures Reaches(cs, m, longer, g) && longer[0] == run[0] && Eager(cs, g) && May(cs, g, b)
    ensures g.online && g.heard == f.heard && g.asked == f.asked && g.strays <= n
    ensures f.pingStart <= g.pingStart <= g.now
    ensures g.pongStart == f.pongStart + (g.strays - f.strays) * cs.pong.interval
    decreases 2 * b - f.pingStart - f.pongStart
  {
    hide Reaches, Drivable, Woken;
    var pe, qe := NextWake(cs, f), f.pongStart + cs.pong.interval;
    DrivableBounds(cs, f, n, b);
    if Eager(cs, f) && b <= pe && b <= qe {
      return run, f;
    }
    if pe <= qe {
      WokenDrivable(cs, f, n, b);
      var one := Wakes(cs, m, run, f, pe);
      longer, g := Drive(cs, m, one, Woken(cs, f, pe), n, b);
    } else {
      StrayedDrivable(cs, f, n, b);
      var one := Strays(cs, m, run, f, qe);
      longer, g := Drive(cs, m, one, f.(now := qe, pongStart := qe, strays := f.strays + 1), n, b);
      StraysAdd(cs.pong.interval, f.strays, g.strays);
    }
  }

  lemma DrivableBounds(cs: Configs, f: Facts, n: nat, b: int)
    requires Drivable(cs, f, n, b)
    ensures f.online && f.pingStart <= f.now <= b && f.pongStart <= b && f.strays <= n
    ensures !Eager(cs, f) ==> NextWake(cs, f) <= b
  {
  }

  lemma StraysAdd(j: int, k: int, n: int)
    ensures j + (n - (k + 1)) * j == (n - k) * j
  {
  }

  // ---------- Getting a target online ----------

  // Ping without targets began an iteration at `at` with a check.
  ghost predicate Settled(c: PingConfig, q: PingRun, at: int, asked: int) {
    PingInv(c, q) && q.p == Ping([], asked, at, at - c.interval) && q.start == at as real
  }

  // A state like this that keeps the invariant of ping.
  lemma Settles(c: PingConfig, at: int, asked: int) returns (q: PingRun)
    requires c.interval > 0 && asked <= at <= asked + c.onlineGap
    ensures Settled(c, q, at, asked)
  {
    var before := (at - c.interval) as real;
    q := PingRun(Ping([], asked, at, at - c.interval), before, at as real, before, [at as real]);
    assert LastCheck(q) == at as real;
  }

  // Pong is about to announce itself at c.
  function Begin(cs: Configs, q: PingRun, c: int): System {
    System(q, PongRun(Pong(None, 0, c - cs.pong.announceGap - 1), PONG_ADDR, (c - cs.pong.interval) as real,
                      0.0, 0, 0, 0.0, 0.0, 0, 0.0, 0.0), ME, c as real)
  }

  lemma BeginFits(cs: Configs, q: PingRun, c: int, at: int, asked: int)
    requires at <= c <= at + cs.ping.interval && Settled(cs.ping, q, at, asked)
    ensures Init(cs, Begin(cs, q, c))
  {
    hide PingInv;
    assert Ours(Begin(cs, q, c)) == None;
  }

  // Listed, pinged and waiting for its select to time out.
  function Listed(cs: Configs, c: int, at: int, asked: int): Facts {
    Facts(c, c, at, c, false, 0, if c - asked > cs.ping.onlineGap then c else asked, c, 0)
  }

  lemma Announces(cs: Configs, m: nat, q: PingRun, c: int, at: int, asked: int) returns (run: seq<System>)
    requires cs.ping.interval > 0 && at <= c <= at + cs.ping.interval && Settled(cs.ping, q, at, asked)
    ensures Reaches(cs, m, run, Listed(cs, c, at, asked)) && run[0].ping == q
  {
    var s := Begin(cs, q, c);
    BeginFits(cs, q, c, at, asked);
    assert "pong\ni"[..5] == "pong\n" && "pong\ni"[5..] == "i" && "pong\n" + "i" == "pong\ni";
    assert Pinged([Target(PONG_END, false, 0, "i")], c - asked > cs.ping.onlineGap) == [PONG_END];
    var s' := PongWakes(cs, s, c as real, Ready(None, None), "i", 0);
    assert PongMoves(cs, s, s', c as real, Ready(None, None), "i", 0);
    Extended(cs, m, [s], s');
    run := [s, s'];
    assert [s] + [s'] == run;
  }

  // When the check before the announcement was made.
  function Before(cs: Configs): nat
    requires cs.ping.interval > 0
  {
    if cs.pong.interval <= cs.ping.interval then cs.ping.interval - 1 else 0
  }

  // The pong that makes the target online comes before ping's next check, or with it.
  lemma ComesOnline(cs: Configs, m: nat, q: PingRun, c: int, asked: int) returns (run: seq<System>, f: Facts)
    requires Compatible(cs, m) && 0 < cs.pong.interval < 3 * cs.ping.interval
    requires Settled(cs.ping, q, c - Before(cs), asked)
    requires cs.pong.interval <= cs.ping.interval || (c - asked) + cs.pong.interval <= cs.ping.onlineGap
    ensures Reaches(cs, m, run, f) && run[0].ping == q
    ensures f.online && f.heard == f.now == f.pingStart == f.pongStart == c + cs.pong.interval && f.strays == 0
    ensures f.asked == if c - asked > cs.ping.onlineGap then c else asked
    ensures f.lastStart <= f.now && f.lastStart + cs.ping.interval <= f.now + cs.pong.interval
    ensures cs.pong.interval <= cs.ping.interval ==> Eager(cs, f)
  {
    hide Reaches, PingInv;
    var I, J := cs.ping.interval, cs.pong.interval;
    assert 2 * J <= (2 + m) * J by {
      Scale(2, 2 + m, J);
    }
    run := Announces(cs, m, q, c, c - Before(cs), asked);
    f := Listed(cs, c, c - Before(cs), asked);
    if J > I {
      run := Wakes(cs, m, run, f, c + I - 1);
      f := Woken(cs, f, c + I - 1);
      if J > 2 * I - 1 {
        run := Wakes(cs, m, run, f, c + 2 * I - 1);
        f := Woken(cs, f, c + 2 * I - 1);
      }
    }
    run := Answers(cs, m, run, f);
    f := Answered(cs, f);
  }

  // ---------- Starving an online target ----------

  // A target that is offline at the end of the run was online before.
  ghost predicate TimesOut(cs: Configs, m: nat, run: seq<System>) {
    IsRun(cs, m, run) && |run| >= 2 && Online(run[|run| - 2]) && !Online(run[|run| - 1])
  }

  lemma HoldsOnline(s: System, f: Facts)
    requires Holds(s, f)
    ensures Online(s) <==> f.online
  {
  }

  // At b the check finds the target silent for too long.
  lemma Expires(cs: Configs, m: nat, run: seq<System>, f: Facts, b: int) returns (longer: seq<System>)
    requires Reaches(cs, m, run, f) && Eager(cs, f) && May(cs, f, b) && f.strays <= m
    requires f.online && b - f.heard > cs.ping.maxInterval
    ensures TimesOut(cs, m, longer) && longer[0] == run[0]
  {
    hide Online, IsRun;
    longer := Wakes(cs, m, run, f, b);
    HoldsOnline(run[|run| - 1], f);
    HoldsOnline(longer[|longer| - 1], Woken(cs, f, b));
  }

  // Strays alone keep pong silent for long enough.
  lemma StraysStarve(cs: Configs, m: nat) returns (run: seq<System>)
    requires Compatible(cs, m) && 0 < cs.pong.interval < 3 * cs.ping.interval
    requires (1 + m) * cs.pong.interval > cs.ping.maxInterval
    ensures TimesOut(cs, m, run)
  {
    hide Reaches, TimesOut;
    var I, J, G, d := cs.ping.interval, cs.pong.interval, cs.ping.onlineGap, Before(cs);
    assert (2 + m) * J == J + (1 + m) * J && 2 * J <= (2 + m) * J by {
      Scale(2, 2 + m, J);
    }
    var c := I + G;
    var f: Facts;
    var asked := if d == 0 then c else c - d - G;
    var q := Settles(cs.ping, c - d, asked);
    run, f := ComesOnline(cs, m, q, c, asked);
    var b := Max(f.heard + cs.ping.maxInterval + 1, f.lastStart + I);
    run, f := Drive(cs, m, run, f, m, b);
    run := Expires(cs, m, run, f, b);
  }

  // When ping must have pinged online targets for it to do so again one pong after the first.
  function Asked(cs: Configs, c: int): int
    requires cs.ping.interval > 0
  {
    var d, due := Before(cs), cs.ping.onlineGap + 1 - 2 * cs.pong.interval;
    c - if d > due then d else due
  }

  // A ping to the online target puts off its pong for the first time.
  lemma PutsOff(cs: Configs, m: nat, q: PingRun, c: int) returns (run: seq<System>, f: Facts, heard: int)
    requires Compatible(cs, m) && 0 < cs.pong.interval < 3 * cs.ping.interval
    requires (1 + m) * cs.pong.interval <= cs.ping.maxInterval
    requires cs.ping.interval <= (2 + m) * cs.pong.interval
    requires Settled(cs.ping, q, c - Before(cs), Asked(cs, c))
    ensures Reaches(cs, m, run, f) && f.online && f.heard == heard && f.strays == 0 && run[0].ping == q
    ensures f.now == f.pingStart == f.pongStart == f.asked == heard + cs.pong.interval
    ensures heard <= f.lastStart <= f.now
    ensures cs.pong.interval <= cs.ping.interval ==> f.lastStart == heard
  {
    hide Reaches, Settled;
    var I, J := cs.ping.interval, cs.pong.interval;
    assert 2 * J <= (2 + m) * J && J <= (1 + m) * J by {
      Scale(2, 2 + m, J);
      Scale(1, 1 + m, J);
    }
    run, f := ComesOnline(cs, m, q, c, Asked(cs, c));
    heard := f.heard;
    if J > I {
      run, f := Drive(cs, m, run, f, 0, heard + J);
    }
    run := Wakes(cs, m, run, f, heard + J);
    f := Woken(cs, f, heard + J);
  }

  // With strays after it, that is long enough.
  lemma PingStarves(cs: Configs, m: nat, q: PingRun, c: int) returns (run: seq<System>)
    requires Compatible(cs, m) && 0 < cs.pong.interval < 3 * cs.ping.interval
    requires (1 + m) * cs.pong.interval <= cs.ping.maxInterval < (2 + m) * cs.pong.interval
    requires cs.ping.interval <= (2 + m) * cs.pong.interval
    requires Settled(cs.ping, q, c - Before(cs), Asked(cs, c))
    ensures TimesOut(cs, m, run) && run[0].ping == q
  {
    hide Reaches, TimesOut, Settled;
    var I, J, X := cs.ping.interval, cs.pong.interval, cs.ping.maxInterval;
    assert (2 + m) * J == J + (1 + m) * J && 2 * J <= (2 + m) * J by {
      Scale(2, 2 + m, J);
    }
    var f: Facts, heard: int;
    run, f, heard := PutsOff(cs, m, q, c);
    var b := Max(heard + X + 1, f.lastStart + I);
    run, f := Drive(cs, m, run, f, m, b);
    run := Expires(cs, m, run, f, b);
  }

  // No run, with at most m strays between two pongs, takes an online target offline.
  ghost predicate NeverTimesOut(cs: Configs, m: nat) {
    forall run, j: nat, k: nat | IsRun(cs, m, run) && j <= k < |run| && Online(run[j]) :: Online(run[k])
  }

  // Main result: for all compatible intervals, no target ever times out if and only if m
  // datagrams from elsewhere between two pongs are bearable.
  lemma NeverTimesOutIff(cs: Configs, m: nat)
    requires Compatible(cs, m)
    ensures NeverTimesOut(cs, m) <==> Bearable(cs, m)
  {
    hide IsRun, Online;
    if Bearable(cs, m) {
      forall run, j: nat, k: nat | IsRun(cs, m, run) && j <= k < |run| && Online(run[j]) ensures Online(run[k]) {
        OnlineForever(cs, m, run, j, k);
      }
    } else {
      assert cs.pong.interval > 0;
      var run: seq<System>;
      if (1 + m) * cs.pong.interval > cs.ping.maxInterval {
        run := StraysStarve(cs, m);
      } else {
        Scale(2, 2 + m, cs.pong.interval);
        var q := Settles(cs.ping, 0 - Before(cs), Asked(cs, 0));
        run := PingStarves(cs, m, q, 0);
      }
      assert Online(run[|run| - 2]) && !Online(run[|run| - 1]);
    }
  }

  lemma MoreStrays(cs: Configs, m: nat, n: nat)
    requires NeverTimesOut(cs, n) && m <= n
    ensures NeverTimesOut(cs, m)
  {
    hide Next, Online, Init;
    forall run, j: nat, k: nat | IsRun(cs, m, run) && j <= k < |run| && Online(run[j]) ensures Online(run[k]) {
      forall i | 0 <= i < |run| - 1 ensures Next(cs, n, run[i], run[i + 1]) {
        assert Next(cs, m, run[i], run[i + 1]);
        FewerStrays(cs, m, n, run[i], run[i + 1]);
      }
      assert IsRun(cs, n, run);
    }
  }

  lemma FewerStrays(cs: Configs, m: nat, n: nat, s: System, s': System)
    requires Next(cs, m, s, s') && m <= n
    ensures Next(cs, n, s, s')
  {
  }

  // ---------- The shipped intervals ----------

  // A run of ping alone, from its start.
  ghost predicate Alone(c: PingConfig, run: seq<PingRun>) {
    run != [] && PingInit(run[0]) && forall i | 0 <= i < |run| - 1 :: PingNext(c, run[i], run[i + 1])
  }

  lemma AloneLonger(c: PingConfig, run: seq<PingRun>, t: real, input: Input)
    requires Alone(c, run) && WakesAt(c, run[|run| - 1], t, input)
    ensures Alone(c, run + [After(c, run[|run| - 1], t, input, 0)])
  {
    hide After, PingInit;
    var all := run + [After(c, run[|run| - 1], t, input, 0)];
    forall i | 0 <= i < |all| - 1 ensures PingNext(c, all[i], all[i + 1]) {
      if i < |run| - 1 {
        assert PingNext(c, run[i], run[i + 1]);
      }
    }
  }

  // Ping comes to such a state by itself when its timeouts from `from` on meet `at`.
  lemma {:induction false} Idles(c: PingConfig, run: seq<PingRun>, from: int, k: nat, asked: int)
    returns (longer: seq<PingRun>)
    requires c.interval > 0 && Alone(c, run) && run[|run| - 1].start == from as real
    requires run[|run| - 1].p.(last := 0) == Ping([], asked, from, 0)
    requires k > 0 && from + k * c.interval - asked <= c.onlineGap
    ensures Alone(c, longer) && Settled(c, longer[|longer| - 1], from + k * c.interval, asked)
    decreases k
  {
    hide PingInv, PingInit, PingNext;
    var t := from + c.interval;
    AloneLonger(c, run, t as real, Timeout);
    longer := run + [After(c, run[|run| - 1], t as real, Timeout, 0)];
    assert from + k * c.interval == t + (k - 1) * c.interval && (k - 1) * c.interval >= 0;
    if k == 1 {
      AloneInv(c, longer);
    } else {
      longer := Idles(c, longer, t, k - 1, asked);
    }
  }

  lemma AloneInv(c: PingConfig, run: seq<PingRun>)
    requires c.interval > 0 && Alone(c, run)
    ensures PingInv(c, run[|run| - 1])
  {
    FailureDetector(c, run, |run| - 1);
  }

  // A run of ping from its start, and then with a pong that gets four datagrams from elsewhere
  // between two pongs: a target that answers at every chance it gets is taken offline.
  lemma FourStraysStarve() returns (alone: seq<PingRun>, run: seq<System>)
    ensures Alone(DEFAULTS.ping, alone) && run != [] && run[0].ping == alone[|alone| - 1]
    ensures TimesOut(DEFAULTS, 4, run)
  {
    hide PingInv, IsRun, Online;
    var c := DEFAULTS.ping;
    var start := PingRun(Ping([], 0, 90, 90), 90.0, 90.0, 90.0, []);
    AloneLonger(c, [start], 100.0, Timeout);
    alone := [start] + [After(c, start, 100.0, Timeout, 0)];
    AloneLonger(c, alone, 106.0, NOISE);
    alone := alone + [After(c, alone[1], 106.0, NOISE, 0)];
    alone := Idles(c, alone, 106, 4, 100);
    run := PingStarves(DEFAULTS, 4, alone[|alone| - 1], 155);
  }

  // The intervals the two programs are shipped with bear three datagrams from elsewhere
  // between two pongs, and not four.
  lemma DefaultsBearThree(m: nat)
    ensures NeverTimesOut(DEFAULTS, m) <==> m <= 3
    ensures m <= 3 ==> Compatible(DEFAULTS, m) && Bearable(DEFAULTS, m) && Prompt(DEFAULTS)
  {
    hide NeverTimesOut;
    NeverTimesOutIff(DEFAULTS, 4);
    if m <= 3 {
      NeverTimesOutIff(DEFAULTS, m);
    } else if NeverTimesOut(DEFAULTS, m) {
      MoreStrays(DEFAULTS, 4, m);
    }
  }

  // Pong's interval can be set. With the shipped ping, targets stay online up to 7 seconds, and
  // from 30 seconds on none ever comes online.
  lemma OtherPongIntervals(interval: nat)
    requires 2 * interval <= DEFAULTS.ping.onlineGap
    ensures NeverTimesOut(DEFAULTS.(pong := DEFAULTS.pong.(interval := interval)), 0) <==>
      interval <= 7 || interval >= 30
  {
    hide NeverTimesOut;
    NeverTimesOutIff(DEFAULTS.(pong := DEFAULTS.pong.(interval := interval)), 0);
  }
}

/** What pong does, told from the datagrams and timeouts it has had: whom it answers and until
    when, and how often it announces itself. */
module PongHistory {
  import opened Wrappers
  import opened HeartbeatSpec

  // One return of select: the time, and a datagram unless it timed out.
  datatype Tick = Tick(now: int, datagram: Option<(Endpoint, string)>)

  function Step(c: PongConfig, p: Pong, t: Tick): (Pong, Output) {
    match t.datagram
    case None => PongTimeout(c, p, t.now)
    case Some(d) => PongReceive(c, p, t.now, d.0, d.1)
  }

  // A run of pong from its start.
  function Ran(c: PongConfig, start: int, ticks: seq<Tick>): (r: (Pong, seq<Output>))
    ensures |r.1| == |ticks|
  {
    if ticks == [] then (Pong(None, 0, start), [])
    else
      var (p, outs) := Ran(c, start, ticks[..|ticks| - 1]);
      var (p', out) := Step(c, p, ticks[|ticks| - 1]);
      (p', outs + [out])
  }

  // ---------- The same from the history alone ----------

  predicate Pings(t: Tick) {
    t.datagram.Some? && "ping" <= t.datagram.value.1
  }

  // The latest ping, or -1.
  function LastPing(ticks: seq<Tick>): (k: int)
    ensures -1 <= k < |ticks| && (k >= 0 ==> Pings(ticks[k]))
    ensures forall j | k < j < |ticks| :: !Pings(ticks[j])
  {
    if ticks == [] then -1
    else if Pings(ticks[|ticks| - 1]) then |ticks| - 1
    else LastPing(ticks[..|ticks| - 1])
  }

  // No timeout after the k-th tick came later than the patience allows.
  ghost predicate InPatience(c: PongConfig, ticks: seq<Tick>, k: nat)
    requires k < |ticks|
  {
    forall j | k < j < |ticks| && ticks[j].datagram.None? :: ticks[j].now - ticks[k].now <= c.patience
  }

  // Pong listens to whoever pinged it last, until a timeout finds that ping too old.
  ghost predicate Listens(c: PongConfig, ticks: seq<Tick>) {
    LastPing(ticks) >= 0 && InPatience(c, ticks, LastPing(ticks))
  }

  // When it announced itself last, or started.
  function LastAnnounced(start: int, ticks: seq<Tick>, outs: seq<Output>): int
    requires |ticks| == |outs|
  {
    if ticks == [] then start
    else if outs[|outs| - 1] == Announce then ticks[|ticks| - 1].now
    else LastAnnounced(start, ticks[..|ticks| - 1], outs[..|outs| - 1])
  }

  // What the last tick must make pong send.
  ghost function Due(c: PongConfig, start: int, ticks: seq<Tick>, outs: seq<Output>): Output
    requires |ticks| == |outs| + 1
  {
    var n := |outs|;
    if Listens(c, ticks) then
      (if ticks[n].datagram.None? then SendPong(ticks[LastPing(ticks)].datagram.value.0) else Silent)
    else if ticks[n].now - LastAnnounced(start, ticks[..n], outs) > c.announceGap then Announce
    else Silent
  }

  // Main result: in every run, at every tick, pong answers a timeout to whoever pinged it last, if
  // no timeout since then came later than its patience; and only while it has nobody to answer,
  // it announces itself, at the first tick after the gap since it last did.
  lemma {:induction false} RunIsDue(c: PongConfig, start: int, ticks: seq<Tick>, k: nat)
    requires k < |ticks|
    ensures var outs := Ran(c, start, ticks).1; outs[k] == Due(c, start, ticks[..k + 1], outs[..k])
    decreases |ticks|
  {
    hide Due, Step;
    var n := |ticks| - 1;
    var outs := Ran(c, start, ticks).1;
    var before := Ran(c, start, ticks[..n]).1;
    assert outs[..n] == before;
    if k < n {
      RunIsDue(c, start, ticks[..n], k);
      assert ticks[..n][..k + 1] == ticks[..k + 1] && outs[..k] == before[..k];
    } else {
      StateIs(c, start, ticks[..n]);
      StepIsDue(c, start, ticks);
      assert ticks[..k + 1] == ticks && outs[..k] == before;
    }
  }

  // The state says the same as the history.
  ghost predicate Agrees(c: PongConfig, start: int, ticks: seq<Tick>, p: Pong, outs: seq<Output>) {
    var k := LastPing(ticks);
    && |outs| == |ticks| && p.lastMc == LastAnnounced(start, ticks, outs)
    && (p.remote.Some? <==> Listens(c, ticks))
    && (p.remote.Some? ==> p.remote == Some(ticks[k].datagram.value.0) && p.lastPingStamp == ticks[k].now)
  }

  lemma {:induction false} StateIs(c: PongConfig, start: int, ticks: seq<Tick>)
    ensures Agrees(c, start, ticks, Ran(c, start, ticks).0, Ran(c, start, ticks).1)
  {
    hide Agrees;
    if ticks == [] {
      NothingHappened(c, start);
    } else {
      StateIs(c, start, ticks[..|ticks| - 1]);
      StepAgrees(c, start, ticks);
    }
  }

  lemma NothingHappened(c: PongConfig, start: int)
    ensures Agrees(c, start, [], Ran(c, start, []).0, Ran(c, start, []).1)
  {
  }

  lemma StepAgrees(c: PongConfig, start: int, ticks: seq<Tick>)
    requires ticks != []
    requires var r := Ran(c, start, ticks[..|ticks| - 1]); Agrees(c, start, ticks[..|ticks| - 1], r.0, r.1)
    ensures Agrees(c, start, ticks, Ran(c, start, ticks).0, Ran(c, start, ticks).1)
  {
    var n := |ticks| - 1;
    var outs, before := Ran(c, start, ticks).1, Ran(c, start, ticks[..n]).1;
    assert outs[..n] == before;
    ListensStep(c, ticks);
  }

  // How listening goes on over one more tick.
  lemma ListensStep(c: PongConfig, ticks: seq<Tick>)
    requires ticks != []
    ensures var n := |ticks| - 1;
      Listens(c, ticks) <==>
        || Pings(ticks[n])
        || (&& Listens(c, ticks[..n])
            && (ticks[n].datagram.None? ==> ticks[n].now - ticks[LastPing(ticks)].now <= c.patience))
    ensures !Pings(ticks[|ticks| - 1]) ==> LastPing(ticks) == LastPing(ticks[..|ticks| - 1])
  {
    hide Pings, InPatience;
    if !Pings(ticks[|ticks| - 1]) && LastPing(ticks) >= 0 {
      PatienceStep(c, ticks, LastPing(ticks));
    } else if Pings(ticks[|ticks| - 1]) {
      NothingLater(c, ticks);
    }
  }

  lemma PatienceStep(c: PongConfig, ticks: seq<Tick>, k: nat)
    requires k < |ticks| - 1
    ensures var n := |ticks| - 1;
      InPatience(c, ticks, k) <==>
        InPatience(c, ticks[..n], k) && (ticks[n].datagram.None? ==> ticks[n].now - ticks[k].now <= c.patience)
  {
    var before := ticks[..|ticks| - 1];
    assert forall j | 0 <= j < |before| :: before[j] == ticks[j];
  }

  lemma NothingLater(c: PongConfig, ticks: seq<Tick>)
    requires ticks != []
    ensures InPatience(c, ticks, |ticks| - 1)
  {
  }

  lemma StepIsDue(c: PongConfig, start: int, ticks: seq<Tick>)
    requires ticks != []
    requires var r := Ran(c, start, ticks[..|ticks| - 1]); Agrees(c, start, ticks[..|ticks| - 1], r.0, r.1)
    ensures var n, outs := |ticks| - 1, Ran(c, start, ticks).1; outs[n] == Due(c, start, ticks, outs[..n])
  {
    var n := |ticks| - 1;
    var outs, before := Ran(c, start, ticks).1, Ran(c, start, ticks[..n]).1;
    assert outs[..n] == before;
    ListensStep(c, ticks);
  }

  // ---------- What follows ----------

  lemma {:induction false} LatestAnnouncement(start: int, ticks: seq<Tick>, outs: seq<Output>, i: nat) returns (l: nat)
    requires i < |ticks| == |outs| && outs[i] == Announce
    ensures i <= l < |ticks| && outs[l] == Announce && LastAnnounced(start, ticks, outs) == ticks[l].now
    decreases |ticks|
  {
    var n := |ticks| - 1;
    if outs[n] == Announce {
      l := n;
    } else {
      l := LatestAnnouncement(start, ticks[..n], outs[..n], i);
    }
  }

  // Two announcements are more than the gap apart, whatever comes in between.
  lemma {:induction false} AnnouncementsApart(c: PongConfig, start: int, ticks: seq<Tick>, i: nat, j: nat)
    requires i < j < |ticks| && Ran(c, start, ticks).1[i] == Announce == Ran(c, start, ticks).1[j]
    ensures ticks[j].now - ticks[i].now > c.announceGap
    decreases j
  {
    hide Ran, Step, Listens;
    var outs := Ran(c, start, ticks).1;
    RunIsDue(c, start, ticks, j);
    var l := LatestAnnouncement(start, ticks[..j], outs[..j], i);
    assert ticks[..j + 1][..j] == ticks[..j];
    if l > i {
      AnnouncementsApart(c, start, ticks, i, l);
    }
  }

  // Nobody is answered any more once a timeout has come later than the patience after the last
  // ping: when ping ends, the pongs end.
  lemma PongsEnd(c: PongConfig, start: int, ticks: seq<Tick>, i: nat, k: nat)
    requires i <= k < |ticks| && ticks[i].datagram.None?
    requires forall j | 0 <= j <= i && Pings(ticks[j]) :: ticks[i].now - ticks[j].now > c.patience
    requires forall j | i < j <= k :: !Pings(ticks[j])
    ensures !Ran(c, start, ticks).1[k].SendPong?
  {
    hide Ran, Step;
    RunIsDue(c, start, ticks, k);
    var past := ticks[..k + 1];
    var l := LastPing(past);
    if l >= 0 {
      assert past[l] == ticks[l] && past[i] == ticks[i];
    }
  }
}

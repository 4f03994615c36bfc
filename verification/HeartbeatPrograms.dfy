/** ping and pong as programs over their global variables. */
module HeartbeatPrograms {
  import opened Wrappers
  import opened HeartbeatSpec
  import opened PongHistory

  lemma {:induction false} PingedGrows(ts: seq<Target>, i: nat, all: bool)
    requires i < |ts|
    ensures Pinged(ts[..i + 1], all) == Pinged(ts[..i], all) + (if !ts[i].online || all then [ts[i].remote] else [])
  {
    if i > 0 {
      PingedGrows(ts[1..], i - 1, all);
      assert ts[..i + 1][1..] == ts[1..][..i] && ts[..i][1..] == ts[1..][..i - 1];
    }
  }

  lemma {:induction false} HeardFirst(ts: seq<Target>, i: nat, from: Endpoint, now: int)
    requires i <= |ts| && (i < |ts| ==> ts[i].remote == from) && forall j | 0 <= j < i :: ts[j].remote != from
    ensures Heard(ts, from, now) == if i == |ts| then ts else ts[i := ts[i].(lastUpdated := now, online := true)]
  {
    if i > 0 {
      assert forall j | 0 <= j < |ts[1..]| :: ts[1..][j] == ts[j + 1];
      HeardFirst(ts[1..], i - 1, from, now);
    }
  }

  // ping: _target_hosts from its head on, the static time in send_pings, and main's locals.
  class PingProgram {
    const config: PingConfig
    var targets: seq<Target>
    var lastPingForOnline: int
    var curr: int
    var last: int

    constructor (config: PingConfig, now: int)
      ensures this.config == config && View() == Ping([], 0, now, now)
    {
      this.config := config;
      targets, lastPingForOnline := [], 0;
      curr, last := now, now;
    }

    ghost function View(): Ping
      reads this
    {
      Ping(targets, lastPingForOnline, curr, last)
    }

    // Pings every offline target, and now and then the online ones too.
    method SendPings(now: int) returns (sent: seq<Endpoint>)
      modifies this`lastPingForOnline
      ensures var all := ToOnline(config, old(View()), now);
        sent == Pinged(targets, all) && lastPingForOnline == if all then now else old(lastPingForOnline)
    {
      var toOnline := false;
      if now - lastPingForOnline > config.onlineGap {
        toOnline := true;
        lastPingForOnline := now;
      }
      sent := [];
      var i := 0;
      while i < |targets|
        invariant i <= |targets| && sent == Pinged(targets[..i], toOnline)
        invariant lastPingForOnline == if toOnline then now else old(lastPingForOnline)
      {
        PingedGrows(targets, i, toOnline);
        if !targets[i].online || toOnline {
          sent := sent + [targets[i].remote];
        }
        i := i + 1;
      }
      assert targets[..i] == targets;
    }

    method CheckTimeout(now: int)
      modifies this`targets
      ensures targets == ExpireAll(config, old(targets), now)
    {
      var i := 0;
      while i < |targets|
        invariant i <= |targets| == |old(targets)|
        invariant forall j | 0 <= j < |targets| ::
          targets[j] == if j < i then Expire(config, old(targets)[j], now) else old(targets)[j]
      {
        if targets[i].online && now - targets[i].lastUpdated > config.maxInterval {
          targets := targets[i := targets[i].(online := false)];
        }
        i := i + 1;
      }
    }

    method UpdatePong(from: Endpoint, now: int)
      modifies this`targets
      ensures targets == Heard(old(targets), from, now)
    {
      var i := 0;
      while i < |targets|
        invariant i <= |targets| && targets == old(targets) && forall j | 0 <= j < i :: targets[j].remote != from
      {
        if targets[i].remote == from {
          HeardFirst(targets, i, from, now);
          targets := targets[i := targets[i].(lastUpdated := now, online := true)];
          return;
        }
        i := i + 1;
      }
      HeardFirst(targets, i, from, now);
    }

    method Find(addr: nat) returns (i: nat)
      ensures i == FindTarget(targets, addr)
    {
      i := 0;
      assert targets[0..] == targets;
      while i < |targets|
        invariant i <= |targets| && FindTarget(targets, addr) == i + FindTarget(targets[i..], addr)
      {
        if targets[i].remote.addr == addr {
          return;
        }
        assert targets[i..][1..] == targets[i + 1..];
        i := i + 1;
      }
    }

    method UpdateTargetPrivate(addr: nat, data: string, garbage: int)
      modifies this`targets
      ensures targets == Announced(old(targets), addr, data, garbage)
    {
      var i := Find(addr);
      if i == |targets| {
        targets := [Target(Endpoint(addr, PP_PORT), false, garbage, data)] + targets;
      } else {
        targets := targets[i := targets[i].(info := data, online := false)];
      }
    }

    // One iteration of the main loop after select has returned, with one clock reading.
    method Iterate(now: int, input: Input, garbage: int) returns (sent: seq<Endpoint>)
      modifies this
      ensures (View(), sent) == Wake(config, old(View()), now, input, garbage)
    {
      sent := [];
      match input {
        case Timeout =>
          sent := SendPings(now);
          CheckTimeout(now);
          last := curr;
        case Ready(uni, multi) =>
          if uni.Some? && uni.value.1 == "pong" {
            UpdatePong(uni.value.0, now);
          }
          if multi.Some? && |multi.value.1| > 5 && multi.value.1[..5] == "pong\n" {
            UpdateTargetPrivate(multi.value.0, multi.value.1[5..], garbage);
          }
          if curr - last >= config.interval {
            sent := SendPings(now);
            CheckTimeout(now);
            last := curr;
          }
      }
      curr := now;
    }
  }

  // pong: the remote it answers, when it was last pinged, and when it last announced itself.
  class PongProgram {
    const config: PongConfig
    var remote: Option<Endpoint>
    var lastPingStamp: int
    var lastMc: int

    ghost function View(): Pong
      reads this
    {
      Pong(remote, lastPingStamp, lastMc)
    }

    constructor (config: PongConfig, now: int)
      ensures this.config == config && View() == Pong(None, 0, now)
    {
      this.config := config;
      remote, lastPingStamp, lastMc := None, 0, now;
    }

    // One iteration; datagram is None when select timed out.
    method Iterate(now: int, datagram: Option<(Endpoint, string)>) returns (out: Output)
      modifies this
      ensures (View(), out) == match datagram {
        case None => PongTimeout(config, old(View()), now)
        case Some(d) => PongReceive(config, old(View()), now, d.0, d.1) }
    {
      out := Silent;
      match datagram {
        case None =>
          if remote.Some? {
            if now - lastPingStamp > config.patience {
              remote := None;
            } else {
              out := SendPong(remote.value);
            }
          }
        case Some(d) =>
          if |d.1| >= 4 && d.1[..4] == "ping" {
            remote := Some(d.0);
            lastPingStamp := now;
          }
      }
      if remote.None? && now - lastMc > config.announceGap {
        out := Announce;
        lastMc := now;
      }
    }
  }

  // pong from its start, over any returns of select: what it sends is what the history says is due.
  method Serve(config: PongConfig, start: int, ticks: seq<Tick>) returns (outs: seq<Output>)
    ensures |outs| == |ticks| && forall k | 0 <= k < |ticks| :: outs[k] == Due(config, start, ticks[..k + 1], outs[..k])
  {
    hide Due;
    var pong := new PongProgram(config, start);
    outs := [];
    for i := 0 to |ticks|
      invariant |outs| == i && (pong.View(), outs) == Ran(config, start, ticks[..i]) && pong.config == config
      invariant fresh(pong)
    {
      assert ticks[..i + 1][..i] == ticks[..i];
      var out := pong.Iterate(ticks[i].now, ticks[i].datagram);
      outs := outs + [out];
    }
    assert ticks[..|ticks|] == ticks;
    forall k | 0 <= k < |ticks| ensures outs[k] == Due(config, start, ticks[..k + 1], outs[..k]) {
      RunIsDue(config, start, ticks, k);
    }
  }
}

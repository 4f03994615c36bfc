/** The two ends of the heartbeat as functions of their state: ping keeps the list of
    targets, pong answers whoever pinged it. Times are those of time(0), in seconds. */
module HeartbeatSpec {
  import opened Wrappers

  datatype Endpoint = Endpoint(addr: nat, port: nat)

  const PP_PORT := 11011

  // ---------- ping ----------

  // interval, maxInterval: _interval and _max_interval of ping.c; onlineGap: the minute
  // after which online targets are pinged too.
  datatype PingConfig = PingConfig(interval: nat, maxInterval: nat, onlineGap: nat)

  datatype Target = Target(remote: Endpoint, online: bool, lastUpdated: int, info: string)

  // targets is _target_hosts from its head on; curr and last are main's locals.
  datatype Ping = Ping(targets: seq<Target>, lastPingForOnline: int, curr: int, last: int)

  // What select reports: a timeout, or datagrams on the unicast and the multicast socket.
  datatype Input = Timeout | Ready(uni: Option<(Endpoint, string)>, multi: Option<(nat, string)>)

  function ToOnline(c: PingConfig, p: Ping, now: int): bool {
    now - p.lastPingForOnline > c.onlineGap
  }

  // Endpoints pinged, in list order.
  function Pinged(ts: seq<Target>, toOnline: bool): seq<Endpoint> {
    if ts == [] then []
    else (if !ts[0].online || toOnline then [ts[0].remote] else []) + Pinged(ts[1..], toOnline)
  }

  function Expire(c: PingConfig, t: Target, now: int): Target {
    if t.online && now - t.lastUpdated > c.maxInterval then t.(online := false) else t
  }

  function ExpireAll(c: PingConfig, ts: seq<Target>, now: int): (r: seq<Target>)
    ensures |r| == |ts| && forall i | 0 <= i < |ts| :: r[i] == Expire(c, ts[i], now)
  {
    seq(|ts|, i requires 0 <= i < |ts| => Expire(c, ts[i], now))
  }

  // The first target at e has been heard from.
  function Heard(ts: seq<Target>, e: Endpoint, now: int): (r: seq<Target>)
    ensures |r| == |ts|
  {
    if ts == [] then []
    else if ts[0].remote == e then [ts[0].(lastUpdated := now, online := true)] + ts[1..]
    else [ts[0]] + Heard(ts[1..], e, now)
  }

  // Position of the first target with this address, or the list length.
  function FindTarget(ts: seq<Target>, addr: nat): (r: nat)
    ensures r <= |ts| && (r < |ts| ==> ts[r].remote.addr == addr)
    ensures forall i | 0 <= i < r :: ts[i].remote.addr != addr
  {
    if ts == [] || ts[0].remote.addr == addr then 0 else 1 + FindTarget(ts[1..], addr)
  }

  // A multicast from addr: a new target at the head of the list, whose time field is
  // whatever the allocator left there, or fresh private data for the known one.
  function Announced(ts: seq<Target>, addr: nat, info: string, garbage: int): seq<Target> {
    var i := FindTarget(ts, addr);
    if i == |ts| then [Target(Endpoint(addr, PP_PORT), false, garbage, info)] + ts
    else ts[i := ts[i].(info := info, online := false)]
  }

  predicate IsPong(data: string) {
    data == "pong"
  }

  predicate IsAnnouncement(data: string) {
    |data| > 5 && data[..5] == "pong\n"
  }

  function Deliver(ts: seq<Target>, now: int, input: Input, garbage: int): seq<Target> {
    match input
    case Timeout => ts
    case Ready(uni, multi) =>
      var ts1 := if uni.Some? && IsPong(uni.value.1) then Heard(ts, uni.value.0, now) else ts;
      if multi.Some? && IsAnnouncement(multi.value.1)
      then Announced(ts1, multi.value.0, multi.value.1[5..], garbage)
      else ts1
  }

  predicate Checks(c: PingConfig, p: Ping, input: Input) {
    input.Timeout? || p.curr - p.last >= c.interval
  }

  // One iteration of the main loop from select's return to the next reading of the clock.
  function Wake(c: PingConfig, p: Ping, now: int, input: Input, garbage: int): (Ping, seq<Endpoint>) {
    var ts := Deliver(p.targets, now, input, garbage);
    if Checks(c, p, input) then
      var all := ToOnline(c, p, now);
      (Ping(ExpireAll(c, ts, now), if all then now else p.lastPingForOnline, now, p.curr), Pinged(ts, all))
    else (p.(targets := ts, curr := now), [])
  }

  // ---------- pong ----------

  // interval: pong.c's _interval; patience: _ping_interval * _ping_wait_cnt.
  datatype PongConfig = PongConfig(interval: nat, patience: nat, announceGap: nat)

  datatype Pong = Pong(remote: Option<Endpoint>, lastPingStamp: int, lastMc: int)

  datatype Output = Silent | SendPong(to: Endpoint) | Announce

  predicate IsPing(data: string) {
    |data| >= 4 && data[..4] == "ping"
  }

  // The announcement at the end of an iteration, while no remote is known.
  function AnnounceIfDue(c: PongConfig, p: Pong, now: int): (Pong, Output) {
    if p.remote.None? && now - p.lastMc > c.announceGap then (p.(lastMc := now), Announce) else (p, Silent)
  }

  function PongTimeout(c: PongConfig, p: Pong, now: int): (Pong, Output) {
    if p.remote.Some? && now - p.lastPingStamp <= c.patience then (p, SendPong(p.remote.value))
    else AnnounceIfDue(c, p.(remote := None), now)
  }

  function PongReceive(c: PongConfig, p: Pong, now: int, from: Endpoint, data: string): (Pong, Output) {
    if IsPing(data) then (p.(remote := Some(from), lastPingStamp := now), Silent)
    else AnnounceIfDue(c, p, now)
  }
}

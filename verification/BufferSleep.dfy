/** Which threads of a bounded buffer can be asleep together, for any producers and consumers: the
    monitor takes the steps of the counts, and the counts those of the monitor. */
module BufferSleep {
  import opened BufferCounts
  import opened BufferMonitor
  import opened FixedBuffer

  // ---------- The monitor ----------

  // Threads in ps only post, threads in cs only wait.
  ghost predicate Roles<T>(s: State<T>, ps: set<Thread>, cs: set<Thread>) {
    Sound(s.ring) && RolesOf(s.threads, ps, cs)
  }

  ghost predicate RoleStep<T>(s: State<T>, s': State<T>, ps: set<Thread>, cs: set<Thread>, t: Thread, op: Op<T>) {
    Step(s, s', t, op) && (t in ps ==> op.PutOp?) && (t in cs ==> op.TakeOp?)
  }

  ghost predicate RoleNext<T(!new)>(s: State<T>, s': State<T>, ps: set<Thread>, cs: set<Thread>) {
    exists t, op :: RoleStep(s, s', ps, cs, t, op)
  }

  ghost predicate IsRoleRun<T(!new)>(run: seq<State<T>>, size: nat, ps: set<Thread>, cs: set<Thread>) {
    && run != [] && Init(run[0]) && Roles(run[0], ps, cs) && Size(run[0]) == size
    && forall i | 0 <= i < |run| - 1 :: RoleNext(run[i], run[i + 1], ps, cs)
  }

  ghost function Up<T>(th: map<Thread, Pc<T>>, g: set<Thread>): set<Thread> {
    set t | t in g && t in th && !th[t].Asleep?
  }

  ghost function TallyOf<T>(s: State<T>, ps: set<Thread>, cs: set<Thread>): Tally {
    Tally(s.ring.used, |Up(s.threads, cs)|, |Up(s.threads, ps)|)
  }

  ghost function CrewOf(size: nat, ps: set<Thread>, cs: set<Thread>): Crew {
    Crew(size, |cs|, |ps|)
  }

  lemma UpBound<T>(th: map<Thread, Pc<T>>, g: set<Thread>)
    requires g <= th.Keys
    ensures Up(th, g) <= g && |Up(th, g)| <= |g|
    ensures |Up(th, g)| < |g| <==> exists t :: t in g && th[t].Asleep?
  {
    Subset(Up(th, g), g);
    if |Up(th, g)| < |g| {
      assert Up(th, g) != g;
    }
    if t :| t in g && th[t].Asleep? {
      assert t !in Up(th, g);
    }
  }

  lemma Subset<U>(a: set<U>, b: set<U>)
    requires a <= b
    ensures |a| <= |b| && (|a| == |b| <==> a == b)
  {
    assert b == a + (b - a);
  }

  // One thread changes place.
  lemma UpMoves<T>(th: map<Thread, Pc<T>>, g: set<Thread>, t: Thread, pc: Pc<T>)
    requires g <= th.Keys && t in th
    ensures |Up(th[t := pc], g)| == |Up(th, g)| +
      if t !in g || th[t].Asleep? == pc.Asleep? then 0 else if pc.Asleep? then -1 else 1
  {
    var a, b := Up(th, g), Up(th[t := pc], g);
    if t in g && pc.Asleep? {
      assert b == a - {t};
    } else if t in g {
      assert b == a + {t};
    } else {
      assert a == b;
    }
  }

  ghost predicate RolesOf<T>(th: map<Thread, Pc<T>>, ps: set<Thread>, cs: set<Thread>) {
    && ps !! cs && th.Keys == ps + cs
    && (forall t | t in ps :: th[t].Out? || th[t].op.PutOp?)
    && (forall t | t in cs :: th[t].Out? || th[t].op.TakeOp?)
  }

  lemma RolesMove<T>(th: map<Thread, Pc<T>>, ps: set<Thread>, cs: set<Thread>, t: Thread, pc: Pc<T>)
    requires RolesOf(th, ps, cs) && t in th && (pc.Out? || if t in ps then pc.op.PutOp? else pc.op.TakeOp?)
    ensures RolesOf(th[t := pc], ps, cs)
  {
  }

  lemma RoleOf<T>(th: map<Thread, Pc<T>>, ps: set<Thread>, cs: set<Thread>, t: Thread)
    requires RolesOf(th, ps, cs) && t in th
    ensures (t in ps <==> t !in cs) && ps <= th.Keys && cs <= th.Keys
    ensures th[t].Out? || if t in ps then th[t].op.PutOp? else th[t].op.TakeOp?
  {
  }

  // A signal on the threads is a signal on the counts.
  lemma SignalCounts<T>(th: map<Thread, Pc<T>>, th': map<Thread, Pc<T>>, size: nat, used: nat, ps: set<Thread>,
                        cs: set<Thread>)
    requires RolesOf(th, ps, cs) && Signalled(th, th')
    ensures RolesOf(th', ps, cs)
    ensures Woken(CrewOf(size, ps, cs),
                  Tally(used, |Up(th, cs)|, |Up(th, ps)|), Tally(used, |Up(th', cs)|, |Up(th', ps)|))
  {
    hide Up;
    UpBound(th, cs);
    UpBound(th, ps);
    if exists u :: SomeoneAsleep(th, u) {
      var u :| SomeoneAsleep(th, u) && th' == th[u := Awake(th[u].op)];
      UpMoves(th, cs, u, Awake(th[u].op));
      UpMoves(th, ps, u, Awake(th[u].op));
    } else {
      assert forall u | u in th :: !SomeoneAsleep(th, u);
    }
  }

  // A signal on the counts can be had from the threads.
  lemma SignalFound<T>(th: map<Thread, Pc<T>>, size: nat, used: nat, ps: set<Thread>, cs: set<Thread>, y: Tally)
    returns (th': map<Thread, Pc<T>>)
    requires RolesOf(th, ps, cs)
    requires Woken(CrewOf(size, ps, cs), Tally(used, |Up(th, cs)|, |Up(th, ps)|), y)
    ensures Signalled(th, th') && y == Tally(used, |Up(th', cs)|, |Up(th', ps)|)
  {
    hide Up;
    UpBound(th, cs);
    UpBound(th, ps);
    if y.consumers > |Up(th, cs)| || y.producers > |Up(th, ps)| {
      var g := if y.consumers > |Up(th, cs)| then cs else ps;
      var u :| u in g && th[u].Asleep?;
      assert SomeoneAsleep(th, u);
      th' := th[u := Awake(th[u].op)];
      UpMoves(th, cs, u, Awake(th[u].op));
      UpMoves(th, ps, u, Awake(th[u].op));
    } else {
      assert forall u :: !SomeoneAsleep(th, u);
      th' := th;
    }
  }

  lemma SectionCounts<T>(s: State<T>, s': State<T>, ps: set<Thread>, cs: set<Thread>, t: Thread, op: Op<T>)
    requires Roles(s, ps, cs) && t in s.threads && !s.threads[t].Asleep? && Section(s, s', t, op)
    requires if t in ps then op.PutOp? else op.TakeOp?
    ensures Roles(s', ps, cs) && Size(s') == Size(s)
    ensures TallyNext(CrewOf(Size(s), ps, cs), TallyOf(s, ps, cs), TallyOf(s', ps, cs))
  {
    hide Up, Signalled, Woken, RolesOf;
    RoleOf(s.threads, ps, cs, t);
    UpBound(s.threads, cs);
    UpBound(s.threads, ps);
    var pc := if Blocked(s, op) then Asleep(op) else Out;
    RolesMove(s.threads, ps, cs, t, pc);
    UpMoves(s.threads, cs, t, pc);
    UpMoves(s.threads, ps, t, pc);
    UpHas(s.threads, if t in ps then ps else cs, t);
    if !Blocked(s, op) {
      var th := s.threads[t := Out];
      SignalCounts(th, s'.threads, Size(s), s'.ring.used, ps, cs);
    }
  }

  lemma UpHas<T>(th: map<Thread, Pc<T>>, g: set<Thread>, t: Thread)
    requires t in g && t in th && !th[t].Asleep?
    ensures |Up(th, g)| > 0
  {
    assert t in Up(th, g);
  }

  // Every step of the monitor is one on the counts.
  lemma StepCounts<T>(s: State<T>, s': State<T>, ps: set<Thread>, cs: set<Thread>, t: Thread, op: Op<T>)
    requires Roles(s, ps, cs) && RoleStep(s, s', ps, cs, t, op)
    ensures Roles(s', ps, cs) && Size(s') == Size(s)
    ensures TallyNext(CrewOf(Size(s), ps, cs), TallyOf(s, ps, cs), TallyOf(s', ps, cs))
  {
    hide Up, Section, TallyNext;
    if Enter(s, s', t, op) {
      SectionCounts(s, s', ps, cs, t, op);
    } else if Resume(s, s', t) {
      SectionCounts(s, s', ps, cs, t, s.threads[t].op);
    } else {
      StirCounts(s, s', ps, cs, t);
    }
  }

  lemma StirCounts<T>(s: State<T>, s': State<T>, ps: set<Thread>, cs: set<Thread>, t: Thread)
    requires Roles(s, ps, cs) && (TimesOut(s, s', t) || WakesUp(s, s', t))
    ensures Roles(s', ps, cs) && Size(s') == Size(s)
    ensures TallyNext(CrewOf(Size(s), ps, cs), TallyOf(s, ps, cs), TallyOf(s', ps, cs))
  {
    hide Up, RolesOf;
    RoleOf(s.threads, ps, cs, t);
    UpBound(s.threads, cs);
    UpBound(s.threads, ps);
    var pc := if TimesOut(s, s', t) then Out else Awake(s.threads[t].op);
    RolesMove(s.threads, ps, cs, t, pc);
    UpMoves(s.threads, cs, t, pc);
    UpMoves(s.threads, ps, t, pc);
    UpBound(s'.threads, cs);
    UpBound(s'.threads, ps);
  }

  // Every step on the counts is one of the monitor; x is an object to post.
  lemma StepFound<T(!new)>(s: State<T>, ps: set<Thread>, cs: set<Thread>, y: Tally, x: T) returns (s': State<T>)
    requires Roles(s, ps, cs) && TallyNext(CrewOf(Size(s), ps, cs), TallyOf(s, ps, cs), y)
    ensures RoleNext(s, s', ps, cs) && TallyOf(s', ps, cs) == y
  {
    hide Up, Woken, RolesOf, RoleStep;
    var w, z := CrewOf(Size(s), ps, cs), TallyOf(s, ps, cs);
    if Stirs(w, z, y) {
      s' := StirFound(s, ps, cs, y);
    } else {
      var consumer := ConsumerSleeps(w, z, y) || Takes(w, z, y);
      var t := SomeUp(s.threads, if consumer then cs else ps);
      RoleMember(s.threads, ps, cs, if consumer then cs else ps);
      var op := if s.threads[t].Awake? then s.threads[t].op else if consumer then TakeOp else PutOp(x);
      if Blocked(s, op) {
        s' := SleepFound(s, ps, cs, t, op);
      } else {
        s' := ChangeFound(s, ps, cs, t, op, y);
      }
      Sectioned(s, s', ps, cs, t, op);
    }
  }

  lemma RoleMember<T>(th: map<Thread, Pc<T>>, ps: set<Thread>, cs: set<Thread>, g: set<Thread>)
    requires RolesOf(th, ps, cs) && (g == ps || g == cs)
    ensures forall t | t in g :: t in th && (t in ps <==> t !in cs)
    ensures forall t | t in g :: th[t].Out? || if t in ps then th[t].op.PutOp? else th[t].op.TakeOp?
  {
  }

  lemma StirFound<T(!new)>(s: State<T>, ps: set<Thread>, cs: set<Thread>, y: Tally) returns (s': State<T>)
    requires Roles(s, ps, cs) && Stirs(CrewOf(Size(s), ps, cs), TallyOf(s, ps, cs), y)
    ensures RoleNext(s, s', ps, cs) && TallyOf(s', ps, cs) == y
  {
    hide Up;
    var th := s.threads;
    UpBound(th, cs);
    UpBound(th, ps);
    var g := if y.consumers > |Up(th, cs)| then cs else ps;
    var t :| t in g && th[t].Asleep?;
    s' := s.(threads := th[t := Out]);
    UpMoves(th, cs, t, Out);
    UpMoves(th, ps, t, Out);
    assert RoleStep(s, s', ps, cs, t, th[t].op);
  }

  // The thread finds its condition false.
  lemma SleepFound<T>(s: State<T>, ps: set<Thread>, cs: set<Thread>, t: Thread, op: Op<T>) returns (s': State<T>)
    requires Roles(s, ps, cs) && t in s.threads && !s.threads[t].Asleep? && Blocked(s, op)
    ensures Section(s, s', t, op)
    ensures var z, z' := TallyOf(s, ps, cs), TallyOf(s', ps, cs);
      && z'.used == z.used && z'.consumers == z.consumers - (if t in cs then 1 else 0)
      && z'.producers == z.producers - (if t in cs then 0 else 1)
  {
    hide Up, RolesOf;
    RoleOf(s.threads, ps, cs, t);
    s' := s.(threads := s.threads[t := Asleep(op)]);
    UpMoves(s.threads, cs, t, Asleep(op));
    UpMoves(s.threads, ps, t, Asleep(op));
    UpHas(s.threads, if t in ps then ps else cs, t);
  }

  // The thread changes the buffer, and the signal goes where y wants it.
  lemma ChangeFound<T>(s: State<T>, ps: set<Thread>, cs: set<Thread>, t: Thread, op: Op<T>, y: Tally)
    returns (s': State<T>)
    requires Roles(s, ps, cs) && t in s.threads && !s.threads[t].Asleep? && !Blocked(s, op)
    requires var z := TallyOf(s, ps, cs);
      Woken(CrewOf(Size(s), ps, cs), Tally(if op.TakeOp? then z.used - 1 else z.used + 1, z.consumers, z.producers), y)
    ensures Section(s, s', t, op) && TallyOf(s', ps, cs) == y
  {
    hide Up, RolesOf, Signalled;
    var th := s.threads;
    RoleOf(th, ps, cs, t);
    UpMoves(th, cs, t, Out);
    UpMoves(th, ps, t, Out);
    RolesMove(th, ps, cs, t, Out);
    var th' := SignalFound(th[t := Out], Size(s), y.used, ps, cs, y);
    s' := match op
      case TakeOp => s.(ring := Popped(s.ring), taken := s.taken + [s.ring.slots[s.ring.head]], threads := th')
      case PutOp(v) => s.(ring := Pushed(s.ring, v), posted := s.posted + [v], threads := th');
  }

  lemma Sectioned<T(!new)>(s: State<T>, s': State<T>, ps: set<Thread>, cs: set<Thread>, t: Thread, op: Op<T>)
    requires t in s.threads && Section(s, s', t, op) && (t in ps ==> op.PutOp?) && (t in cs ==> op.TakeOp?)
    requires s.threads[t].Out? || (s.threads[t].Awake? && op == s.threads[t].op)
    ensures RoleNext(s, s', ps, cs)
  {
    hide Section;
    assert RoleStep(s, s', ps, cs, t, op);
  }

  lemma SomeUp<T>(th: map<Thread, Pc<T>>, g: set<Thread>) returns (t: Thread)
    requires |Up(th, g)| > 0
    ensures t in g && t in th && !th[t].Asleep?
  {
    assert Up(th, g) != {};
    t :| t in Up(th, g);
  }

  lemma {:induction false} RunCounts<T(!new)>(run: seq<State<T>>, size: nat, ps: set<Thread>, cs: set<Thread>, k: nat)
    requires IsRoleRun(run, size, ps, cs) && k < |run|
    ensures Roles(run[k], ps, cs) && Size(run[k]) == size
    ensures Reaches(CrewOf(size, ps, cs), Fresh(CrewOf(size, ps, cs)), TallyOf(run[k], ps, cs))
  {
    hide Roles, TallyOf, Reaches, TallyNext;
    var w := CrewOf(size, ps, cs);
    if k == 0 {
      FreshCounts(run[0], ps, cs);
      ReachStay(w, Fresh(w));
    } else {
      RunCounts(run, size, ps, cs, k - 1);
      assert RoleNext(run[k - 1], run[k - 1 + 1], ps, cs);
      var t, op :| RoleStep(run[k - 1], run[k], ps, cs, t, op);
      StepCounts(run[k - 1], run[k], ps, cs, t, op);
      ReachThen(w, Fresh(w), TallyOf(run[k - 1], ps, cs), TallyOf(run[k], ps, cs));
    }
  }

  lemma FreshCounts<T>(s: State<T>, ps: set<Thread>, cs: set<Thread>)
    requires Init(s) && Roles(s, ps, cs)
    ensures TallyOf(s, ps, cs) == Fresh(CrewOf(Size(s), ps, cs))
  {
    assert Up(s.threads, cs) == cs && Up(s.threads, ps) == ps;
  }

  // Any path of the counts is that of a run.
  lemma {:induction false} RunFound<T(!new)>(path: seq<Tally>, y: Tally, size: nat, ps: set<Thread>, cs: set<Thread>,
                                             x: T)
    returns (run: seq<State<T>>)
    requires ps !! cs && TallyPath(CrewOf(size, ps, cs), path, Fresh(CrewOf(size, ps, cs)), y)
    ensures IsRoleRun(run, size, ps, cs) && TallyOf(run[|run| - 1], ps, cs) == y
    decreases |path|
  {
    hide Roles, TallyOf, TallyNext, Fresh;
    var w := CrewOf(size, ps, cs);
    if |path| == 1 {
      run := [Start(size, ps, cs, x)];
    } else {
      var n := |path| - 2;
      assert TallyNext(w, path[n], path[n + 1]);
      assert TallyPath(w, path[..n + 1], Fresh(w), path[n]) by {
        assert forall i | 0 <= i < n :: path[..n + 1][i] == path[i] && TallyNext(w, path[i], path[i + 1]);
      }
      var before := RunFound(path[..n + 1], path[n], size, ps, cs, x);
      var m := |before| - 1;
      RunCounts(before, size, ps, cs, m);
      var s' := StepFound(before[m], ps, cs, y, x);
      run := before + [s'];
      forall i | 0 <= i < m + 1 ensures RoleNext(run[i], run[i + 1], ps, cs) {
        if i < m {
          assert RoleNext(before[i], before[i + 1], ps, cs);
        }
      }
    }
  }

  ghost function Start<T>(size: nat, ps: set<Thread>, cs: set<Thread>, x: T): (s: State<T>)
    requires ps !! cs
    ensures Init(s) && Roles(s, ps, cs) && Size(s) == size && TallyOf(s, ps, cs) == Fresh(CrewOf(size, ps, cs))
  {
    var th: map<Thread, Pc<T>> := map t | t in ps + cs :: Out;
    assert th.Keys == ps + cs;
    assert Up(th, cs) == cs && Up(th, ps) == ps;
    State(Blocks(seq(size, _ => x), 0, 0), th, [], [])
  }

  // A sleeping producer and a sleeping consumer in one state.
  ghost predicate BothKindsAsleep<T>(s: State<T>, ps: set<Thread>, cs: set<Thread>) {
    && (exists p :: p in ps && SomeoneAsleep(s.threads, p))
    && (exists c :: c in cs && SomeoneAsleep(s.threads, c))
  }

  ghost predicate EveryoneAsleep<T>(s: State<T>) {
    forall t | t in s.threads :: s.threads[t].Asleep?
  }

  lemma KindsCounted<T>(s: State<T>, ps: set<Thread>, cs: set<Thread>)
    requires Roles(s, ps, cs)
    ensures Mixed(CrewOf(Size(s), ps, cs), TallyOf(s, ps, cs)) <==> BothKindsAsleep(s, ps, cs)
    ensures AllAsleep(TallyOf(s, ps, cs)) <==> EveryoneAsleep(s)
  {
    UpBound(s.threads, ps);
    UpBound(s.threads, cs);
    assert forall t | t in ps && s.threads[t].Asleep? :: SomeoneAsleep(s.threads, t);
    assert forall t | t in cs && s.threads[t].Asleep? :: SomeoneAsleep(s.threads, t);
    if !EveryoneAsleep(s) {
      var t :| t in s.threads && !s.threads[t].Asleep?;
      UpHas(s.threads, if t in ps then ps else cs, t);
    } else {
      assert Up(s.threads, ps) == {} && Up(s.threads, cs) == {};
    }
  }

  // Main result, for any producers and consumers: some run has a producer and a consumer
  // asleep at once if and only if there are more of either kind than objects fit.
  lemma BothKindsSleepIff<T(!new)>(size: nat, ps: set<Thread>, cs: set<Thread>, x: T)
    requires ps != {} && cs != {} && ps !! cs
    ensures (exists run: seq<State<T>> :: IsRoleRun(run, size, ps, cs) && BothKindsAsleep(run[|run| - 1], ps, cs))
      <==> |ps| > size || |cs| > size
  {
    hide TallyOf, Roles, BothKindsAsleep, Reaches, TallyPath, Mixed;
    var w := CrewOf(size, ps, cs);
    MixedIff(w);
    if CanMix(w) {
      var y :| Reaches(w, Fresh(w), y) && Mixed(w, y);
      var run := RunReaching(y, size, ps, cs, x);
      KindsCounted(run[|run| - 1], ps, cs);
    }
    forall run: seq<State<T>> | IsRoleRun(run, size, ps, cs) && BothKindsAsleep(run[|run| - 1], ps, cs)
      ensures CanMix(w) {
      RunCounts(run, size, ps, cs, |run| - 1);
      KindsCounted(run[|run| - 1], ps, cs);
    }
  }

  lemma RunReaching<T(!new)>(y: Tally, size: nat, ps: set<Thread>, cs: set<Thread>, x: T) returns (run: seq<State<T>>)
    requires ps !! cs && Reaches(CrewOf(size, ps, cs), Fresh(CrewOf(size, ps, cs)), y)
    ensures IsRoleRun(run, size, ps, cs) && TallyOf(run[|run| - 1], ps, cs) == y
    ensures Roles(run[|run| - 1], ps, cs) && Size(run[|run| - 1]) == size
  {
    var path :| TallyPath(CrewOf(size, ps, cs), path, Fresh(CrewOf(size, ps, cs)), y);
    run := RunFound(path, y, size, ps, cs, x);
    RunCounts(run, size, ps, cs, |run| - 1);
  }

  // Main result: some run puts every thread to sleep at once if and only if there are more
  // than twice as many threads as objects fit.
  lemma EveryoneSleepsIff<T(!new)>(size: nat, ps: set<Thread>, cs: set<Thread>, x: T)
    requires ps != {} && cs != {} && ps !! cs
    ensures (exists run: seq<State<T>> :: IsRoleRun(run, size, ps, cs) && EveryoneAsleep(run[|run| - 1]))
      <==> |ps| + |cs| > 2 * size
  {
    hide TallyOf, Roles, EveryoneAsleep, Reaches, TallyPath;
    var w := CrewOf(size, ps, cs);
    StopIff(w);
    if CanStop(w) {
      var y :| Reaches(w, Fresh(w), y) && AllAsleep(y);
      var run := RunReaching(y, size, ps, cs, x);
      KindsCounted(run[|run| - 1], ps, cs);
    }
    forall run: seq<State<T>> | IsRoleRun(run, size, ps, cs) && EveryoneAsleep(run[|run| - 1]) ensures CanStop(w) {
      RunCounts(run, size, ps, cs, |run| - 1);
      KindsCounted(run[|run| - 1], ps, cs);
    }
  }

  // With room for all threads of either kind, in every state of every run: one kind sleeps at
  // most, and the objects, or the holes, are no more than the threads awake to use them.
  lemma RoomKeepsOneKindAwake<T(!new)>(run: seq<State<T>>, size: nat, ps: set<Thread>, cs: set<Thread>, k: nat)
    requires IsRoleRun(run, size, ps, cs) && k < |run| && ps != {} && cs != {}
    requires |ps| <= size && |cs| <= size
    ensures !BothKindsAsleep(run[k], ps, cs)
    ensures forall c | c in cs && SomeoneAsleep(run[k].threads, c) ::
      run[k].ring.used <= |Up(run[k].threads, cs)| < |cs|
    ensures forall p | p in ps && SomeoneAsleep(run[k].threads, p) ::
      size - run[k].ring.used <= |Up(run[k].threads, ps)| < |ps|
  {
    hide Up, Reaches, TallyPath, TallyNext, BothKindsAsleep;
    var w, s := CrewOf(size, ps, cs), run[k];
    RunCounts(run, size, ps, cs, k);
    ReachedApart(w, TallyOf(s, ps, cs));
    KindsCounted(s, ps, cs);
    UpBound(s.threads, cs);
    UpBound(s.threads, ps);
  }

  lemma ReachedApart(w: Crew, y: Tally)
    requires Reaches(w, Fresh(w), y) && w.consumers > 0 && w.producers > 0
    requires w.consumers <= w.size && w.producers <= w.size
    ensures Apart(w, y)
  {
    var path :| TallyPath(w, path, Fresh(w), y);
    PathKeeps(w, path, y);
  }

  // One producer, one consumer and room for one object: never both asleep, and whoever sleeps
  // does so over a buffer that is really empty, or really full.
  lemma NeverBothAsleep<T(!new)>(run: seq<State<T>>, size: nat, p: Thread, c: Thread, k: nat)
    requires p != c && IsRoleRun(run, size, {p}, {c}) && k < |run| && size >= 1
    ensures Roles(run[k], {p}, {c})
    ensures !(run[k].threads[p].Asleep? && run[k].threads[c].Asleep?)
    ensures run[k].threads[c].Asleep? ==> run[k].ring.used == 0
    ensures run[k].threads[p].Asleep? ==> run[k].ring.used == size
  {
    hide Up;
    RunCounts(run, size, {p}, {c}, k);
    RoomKeepsOneKindAwake(run, size, {p}, {c}, k);
    var th := run[k].threads;
    assert SomeoneAsleep(th, c) <==> th[c].Asleep?;
    assert SomeoneAsleep(th, p) <==> th[p].Asleep?;
    assert |{p}| == |{c}| == 1;
  }

  // ---------- The smallest crew that can get stuck ----------

  function Threads(p: Pc<int>, c: Pc<int>, d: Pc<int>): map<Thread, Pc<int>> {
    map[0 := p, 1 := c, 2 := d]
  }

  // Both consumers find the buffer empty; an object is posted, waking the first; the next
  // post finds the buffer full; the first consumer takes the object and its signal goes to
  // the second one, which finds the buffer empty again, as does the first when it is back.
  function Stage(i: nat): State<int> {
    var sleeper, waker := Asleep(TakeOp), Awake(TakeOp);
    var none, one := Blocks([7], 0, 0), Blocks([7], 0, 1);
    if i == 0 then State(none, Threads(Out, Out, Out), [], [])
    else if i == 1 then State(none, Threads(Out, sleeper, Out), [], [])
    else if i == 2 then State(none, Threads(Out, sleeper, sleeper), [], [])
    else if i == 3 then State(one, Threads(Out, waker, sleeper), [7], [])
    else if i == 4 then State(one, Threads(Asleep(PutOp(8)), waker, sleeper), [7], [])
    else if i == 5 then State(none, Threads(Asleep(PutOp(8)), Out, waker), [7], [7])
    else if i == 6 then State(none, Threads(Asleep(PutOp(8)), Out, sleeper), [7], [7])
    else State(none, Threads(Asleep(PutOp(8)), sleeper, sleeper), [7], [7])
  }

  lemma BothSleep()
    ensures RoleStep(Stage(0), Stage(1), {0}, {1, 2}, 1, TakeOp) && RoleStep(Stage(1), Stage(2), {0}, {1, 2}, 2, TakeOp)
  {
    assert Stage(1).threads == Stage(0).threads[1 := Asleep(TakeOp)];
    assert Stage(2).threads == Stage(1).threads[2 := Asleep(TakeOp)];
  }

  lemma PostWakesFirst()
    ensures RoleStep(Stage(2), Stage(3), {0}, {1, 2}, 0, PutOp(7)) &&
      RoleStep(Stage(3), Stage(4), {0}, {1, 2}, 0, PutOp(8))
  {
    assert SomeoneAsleep(Stage(2).threads[0 := Out], 1);
    assert Stage(3).threads == Stage(2).threads[0 := Out][1 := Awake(TakeOp)];
    assert Stage(4).threads == Stage(3).threads[0 := Asleep(PutOp(8))];
  }

  lemma TakeWakesSecond()
    ensures RoleStep(Stage(4), Stage(5), {0}, {1, 2}, 1, TakeOp) && RoleStep(Stage(5), Stage(6), {0}, {1, 2}, 2, TakeOp)
    ensures RoleStep(Stage(6), Stage(7), {0}, {1, 2}, 1, TakeOp)
  {
    assert SomeoneAsleep(Stage(4).threads[1 := Out], 2);
    assert Stage(5).threads == Stage(4).threads[1 := Out][2 := Awake(TakeOp)];
    assert Stage(6).threads == Stage(5).threads[2 := Asleep(TakeOp)];
    assert Stage(7).threads == Stage(6).threads[1 := Asleep(TakeOp)];
  }

  // Three threads and room for one object: everybody sleeps, the producer over an empty buffer.
  lemma TwoConsumersCanStrandProducer() returns (run: seq<State<int>>)
    ensures IsRoleRun(run, 1, {0}, {1, 2})
    ensures var s := run[|run| - 1];
      EveryoneAsleep(s) && s.ring.used == 0 && 0 in s.threads && s.threads[0] == Asleep(PutOp(8))
  {
    hide RoleStep;
    run := [Stage(0), Stage(1), Stage(2), Stage(3), Stage(4), Stage(5), Stage(6), Stage(7)];
    BothSleep();
    PostWakesFirst();
    TakeWakesSecond();
    forall i | 0 <= i < 7 ensures RoleNext(run[i], run[i + 1], {0}, {1, 2}) {
    }
  }
}

/** The worker queue: posters append under a mutex and then raise a semaphore, a single
    worker thread drains, and the interleaving of their steps is arbitrary. */
module ThreadQueue {

  // ---------- The linked list behind `first` and `last` ----------

  class DataNode<T> {
    const data: T
    var next: DataNode?<T>

    constructor (data: T)
      ensures this.data == data && next == null
    {
      this.data := data;
      next := null;
    }
  }

  function Following<T>(nodes: seq<DataNode<T>>, i: nat): DataNode?<T> {
    if i + 1 < |nodes| then nodes[i + 1] else null
  }

  class DataList<T> {
    var first: DataNode?<T>
    var last: DataNode?<T>
    ghost var nodes: seq<DataNode<T>>

    // nodes is the chain from first, which ends in last.
    ghost predicate Valid()
      reads this, nodes
    {
      && (forall i, j | 0 <= i < j < |nodes| :: nodes[i] != nodes[j])
      && first == (if nodes == [] then null else nodes[0])
      && last == (if nodes == [] then null else nodes[|nodes| - 1])
      && forall i | 0 <= i < |nodes| :: nodes[i].next == Following(nodes, i)
    }

    ghost function Contents(): (s: seq<T>)
      reads this
      ensures |s| == |nodes|
    {
      seq(|nodes|, i requires 0 <= i < |nodes| reads this => nodes[i].data)
    }

    constructor ()
      ensures Valid() && Contents() == []
    {
      first, last := null, null;
      nodes := [];
    }

    // The critical section of post.
    method Append(dp: T)
      requires Valid()
      modifies this, nodes
      ensures Valid() && Contents() == old(Contents()) + [dp]
      ensures fresh(nodes[|old(nodes)|..]) && old(nodes) <= nodes
    {
      var data := new DataNode(dp);
      if first == null {
        first := data;
      }
      if last != null {
        last.next := data;
      }
      last := data;
      nodes := nodes + [data];
    }

    // The critical section of the worker's loop.
    method RemoveFirst()
      requires Valid() && first != null
      modifies this
      ensures Valid() && Contents() == old(Contents())[1..]
    {
      assert first == nodes[0] && nodes[1..] != [] ==> first.next == nodes[1];
      first := first.next;
      nodes := nodes[1..];
      assert forall i | 0 <= i < |nodes| :: nodes[i] == old(nodes)[i + 1];
      if first == null {
        last := null;
      }
    }
  }

  // ---------- The steps of posters, setters and worker ----------

  // Where the worker stands in run(). `held` is the number of semaphore units it has taken
  // for the element at the head of the queue.
  datatype Worker =
    | NotStarted
    | Top                             // about to wait for the semaphore
    | Asleep(timed: bool)             // inside that wait
    | Returned(posted: bool, held: nat)
    | LoopHead(held: nat)             // at while(first)
    | Running(held: nat)              // in runQueue, on the head
    | Popped                          // head removed, at if(first)
    | AsleepInLoop                    // inside the wait at the loop's end

  // What the worker does that its class can observe: each return of the outer wait, and the calls
  // of onTimer, startQueue, runQueue and stopQueue.
  datatype Call<T> = Woke(posted: bool) | OnTimer | StartQueue | RunQueue(x: T) | StopQueue

  // queue is what first points to; posting and setting count calls between their critical
  // section and the rest. posted, timers and log are histories: what was posted, the timeouts
  // set, and the worker's calls.
  datatype State<T> = State(queue: seq<T>, tokens: nat, worker: Worker, timeout: nat,
                            posting: nat, setting: nat, raising: nat,
                            posted: seq<T>, timers: seq<nat>, log: seq<Call<T>>)

  ghost predicate Init<T>(s: State<T>) {
    s == State([], 0, NotStarted, 0, 0, 0, 0, [], [], [])
  }

  function Start(w: Worker): Worker {
    if w.NotStarted? then Top else w
  }

  // post: the critical section, then the semaphore.
  ghost predicate Post<T>(s: State<T>, s': State<T>, x: T) {
    s' == s.(queue := s.queue + [x], posted := s.posted + [x], worker := Start(s.worker), posting := s.posting + 1)
  }

  ghost predicate PostRaise<T>(s: State<T>, s': State<T>) {
    s.posting > 0 && s' == s.(posting := s.posting - 1, tokens := s.tokens + 1)
  }

  // setTimer: the critical section; the unlocked look at started and first; the semaphore.
  ghost predicate SetTimer<T>(s: State<T>, s': State<T>, timed: nat) {
    s' == s.(timeout := timed, timers := s.timers + [timed], setting := s.setting + 1)
  }

  ghost predicate SetTimerLook<T>(s: State<T>, s': State<T>) {
    && s.setting > 0
    && s' == s.(setting := s.setting - 1, worker := Start(s.worker),
                raising := if !s.worker.NotStarted? && s.queue == [] then s.raising + 1 else s.raising)
  }

  ghost predicate SetTimerRaise<T>(s: State<T>, s': State<T>) {
    s.raising > 0 && s' == s.(raising := s.raising - 1, tokens := s.tokens + 1)
  }

  // The semaphore's wait returns: with a unit, or, if timed, on expiry or a stray wakeup;
  // an expired wait still takes a unit that is there.
  ghost predicate WaitReturns<T>(s: State<T>, s': State<T>, timed: bool, posted: bool, took: nat) {
    && took <= 1 && took <= s.tokens && s'.tokens == s.tokens - took
    && (posted ==> took == 1)
    && (!timed ==> posted)
    && (took == 0 ==> s.tokens == 0)
  }

  // The calls after the outer wait: onTimer if no unit came, and the loop unless there is then
  // nothing to do.
  function Called<T>(posted: bool, idle: bool): seq<Call<T>> {
    (if posted then [] else [OnTimer]) + (if !posted && idle then [] else [StartQueue])
  }

  ghost predicate WorkerStep<T>(s: State<T>, s': State<T>) {
    match s.worker
    case NotStarted => false
    case Top => s' == s.(worker := Asleep(s.timeout != 0))
    case Asleep(timed) =>
      exists posted, took: nat ::
        && WaitReturns(s, s', timed, posted, took)
        && s' == s.(worker := Returned(posted, took), tokens := s'.tokens, log := s.log + [Woke(posted)])
    case Returned(posted, held) =>
      s' == s.(worker := if !posted && s.queue == [] then Top else LoopHead(held),
               log := s.log + Called(posted, s.queue == []))
    case LoopHead(held) =>
      if s.queue == [] then s' == s.(worker := Top, log := s.log + [StopQueue])
      else s' == s.(worker := Running(held), log := s.log + [RunQueue(s.queue[0])])
    case Running(held) =>
      s.queue != [] && s' == s.(worker := Popped, queue := s.queue[1..])
    case Popped =>
      s' == s.(worker := if s.queue == [] then LoopHead(0) else AsleepInLoop)
    case AsleepInLoop =>
      s.tokens > 0 && s' == s.(worker := LoopHead(1), tokens := s.tokens - 1)
  }

  ghost predicate Next<T(!new)>(s: State<T>, s': State<T>) {
    || (exists x :: Post(s, s', x)) || PostRaise(s, s')
    || (exists timed :: SetTimer(s, s', timed)) || SetTimerLook(s, s') || SetTimerRaise(s, s')
    || WorkerStep(s, s')
  }

  function Held(w: Worker): nat {
    match w
    case Returned(_, h) => h
    case LoopHead(h) => h
    case Running(h) => h
    case _ => 0
  }

  // What has been handed to runQueue, in order.
  function Ran<T>(log: seq<Call<T>>): seq<T> {
    if log == [] then []
    else Ran(log[..|log| - 1]) + if log[|log| - 1].RunQueue? then [log[|log| - 1].x] else []
  }

  // What has not.
  function Waiting<T>(s: State<T>): seq<T> {
    if s.worker.Running? && s.queue != [] then s.queue[1..] else s.queue
  }

  // The order in which a class derived from the queue sees its hooks called: onTimer once after
  // each wait that brought no unit and never otherwise; then, or at once after a unit, startQueue,
  // any number of runQueue, and stopQueue.
  datatype Stage = Idle | Posted | Expired | Timed | Working | Disorder

  function StageOf<T>(log: seq<Call<T>>): Stage {
    if log == [] then Idle
    else
      var before := StageOf(log[..|log| - 1]);
      match log[|log| - 1]
      case Woke(posted) => if before in {Idle, Timed} then (if posted then Posted else Expired) else Disorder
      case OnTimer => if before == Expired then Timed else Disorder
      case StartQueue => if before in {Posted, Timed} then Working else Disorder
      case RunQueue(_) => if before == Working then Working else Disorder
      case StopQueue => if before == Working then Idle else Disorder
  }

  // Where the worker stands is where its calls have led.
  ghost predicate InOrder<T>(s: State<T>) {
    match s.worker
    case NotStarted => s.log == []
    case Top => StageOf(s.log) in {Idle, Timed}
    case Asleep(_) => StageOf(s.log) in {Idle, Timed}
    case Returned(posted, _) => StageOf(s.log) == if posted then Posted else Expired
    case _ => StageOf(s.log) == Working
  }

  // Steps under way that will wake the worker.
  function UnderWay<T>(s: State<T>): nat {
    s.setting + s.raising + s.tokens + s.posting
  }

  // Elements the worker has not finished are covered by semaphore units, raised, about to
  // be raised or held.
  ghost predicate Covered<T>(s: State<T>) {
    && s.tokens + s.posting + Held(s.worker) >= |s.queue| && Held(s.worker) <= 1
    && (s.worker.AsleepInLoop? ==> s.queue != [])
    && (s.worker.Returned? && s.worker.posted ==> s.worker.held == 1)
    && (s.worker.NotStarted? ==> s.queue == [] && |s.timers| == s.setting)
  }

  // Everything posted has been run or is queued, in order, once.
  ghost predicate Accounted<T>(s: State<T>) {
    && s.posted == Ran(s.log) + Waiting(s)
    && (s.worker.Running? ==> s.queue != [] && s.log != [] && s.log[|s.log| - 1] == RunQueue(s.queue[0]))
  }

  // A sleeper that does not wait as the timeout set last says will be woken.
  ghost predicate Timely<T>(s: State<T>) {
    && s.timeout == (if s.timers == [] then 0 else s.timers[|s.timers| - 1])
    && (s.worker.Asleep? && s.worker.timed != (s.timeout != 0) ==> UnderWay(s) > 0)
  }

  ghost predicate Inv<T>(s: State<T>) {
    Covered(s) && Accounted(s) && InOrder(s) && Timely(s)
  }

  lemma InitInv<T>(s: State<T>)
    requires Init(s)
    ensures Inv(s)
  {
  }

  lemma Logged<T>(log: seq<Call<T>>, c: Call<T>)
    ensures Ran(log + [c]) == Ran(log) + (if c.RunQueue? then [c.x] else [])
    ensures StageOf(log + [c]) == StageOf((log + [c])[..|log|] + [c]) && (log + [c])[..|log|] == log
  {
    assert (log + [c])[..|log|] == log;
  }

  lemma ReturnedCalls<T>(log: seq<Call<T>>, posted: bool, idle: bool)
    requires StageOf(log) == if posted then Posted else Expired
    ensures Ran(log + Called(posted, idle)) == Ran(log)
    ensures StageOf(log + Called(posted, idle)) == if !posted && idle then Timed else Working
  {
    if posted {
      Logged(log, StartQueue);
      assert log + Called(posted, idle) == log + [StartQueue];
    } else {
      Logged(log, OnTimer);
      Logged(log + [OnTimer], StartQueue);
      assert log + Called(posted, idle) == if idle then log + [OnTimer] else log + [OnTimer] + [StartQueue];
    }
  }

  // The calls of one step of the worker.
  lemma WorkerLogs<T>(s: State<T>, s': State<T>)
    requires Inv(s) && WorkerStep(s, s')
    ensures Accounted(s') && InOrder(s')
  {
    hide StageOf, Ran, Called;
    match s.worker {
      case Asleep(_) =>
        Logged(s.log, Woke(s'.worker.posted));
        WakeStage(s.log, s'.worker.posted);
      case Returned(posted, _) =>
        ReturnedCalls(s.log, posted, s.queue == []);
      case LoopHead(_) =>
        LoopStage(s.log, if s.queue == [] then StopQueue else RunQueue(s.queue[0]));
        if s.queue != [] {
          assert Ran(s.log) + s.queue == Ran(s'.log) + s.queue[1..];
        }
      case _ =>
    }
  }

  lemma WakeStage<T>(log: seq<Call<T>>, posted: bool)
    requires StageOf(log) in {Idle, Timed}
    ensures StageOf(log + [Woke(posted)]) == if posted then Posted else Expired
  {
    Logged(log, Woke(posted));
  }

  lemma LoopStage<T>(log: seq<Call<T>>, c: Call<T>)
    requires StageOf(log) == Working && (c.StopQueue? || c.RunQueue?)
    ensures StageOf(log + [c]) == if c.StopQueue? then Idle else Working
    ensures Ran(log + [c]) == Ran(log) + if c.RunQueue? then [c.x] else []
  {
    Logged(log, c);
  }

  lemma NothingLogged<T>()
    ensures StageOf<T>([]) == Idle && Ran<T>([]) == []
  {
  }

  lemma PostInv<T>(s: State<T>, s': State<T>, x: T)
    requires Inv(s) && Post(s, s', x)
    ensures Inv(s')
  {
    hide StageOf, Ran;
    NothingLogged<T>();
    assert Ran(s.log) + (Waiting(s) + [x]) == s.posted + [x];
  }

  lemma CallerInv<T>(s: State<T>, s': State<T>, timed: nat)
    requires Inv(s)
    requires PostRaise(s, s') || SetTimer(s, s', timed) || SetTimerLook(s, s') || SetTimerRaise(s, s')
    ensures Inv(s')
  {
    hide StageOf, Ran;
    NothingLogged<T>();
  }

  lemma WorkerInv<T>(s: State<T>, s': State<T>)
    requires Inv(s) && WorkerStep(s, s')
    ensures Inv(s')
  {
    hide Accounted, InOrder, Called;
    WorkerLogs(s, s');
    RunningQueue(s);
  }

  lemma RunningQueue<T>(s: State<T>)
    requires Accounted(s)
    ensures s.worker.Running? ==> s.queue != []
  {
  }

  lemma NextInv<T(!new)>(s: State<T>, s': State<T>)
    requires Inv(s) && Next(s, s')
    ensures Inv(s')
  {
    hide Inv, WorkerStep, PostRaise, SetTimerLook, SetTimerRaise;
    if WorkerStep(s, s') {
      WorkerInv(s, s');
    } else if exists x :: Post(s, s', x) {
      var x :| Post(s, s', x);
      PostInv(s, s', x);
    } else {
      CallerInv(s, s', s'.timeout);
    }
  }

  ghost predicate IsRun<T(!new)>(run: seq<State<T>>) {
    run != [] && Init(run[0]) && forall i | 0 <= i < |run| - 1 :: Next(run[i], run[i + 1])
  }

  lemma {:induction false} RunInv<T(!new)>(run: seq<State<T>>, k: nat)
    requires IsRun(run) && k < |run|
    ensures Inv(run[k])
  {
    hide Inv, Next;
    if k == 0 {
      InitInv(run[0]);
    } else {
      RunInv(run, k - 1);
      assert Next(run[k - 1], run[k - 1 + 1]);
      NextInv(run[k - 1], run[k]);
    }
  }

  // Main result, for every interleaving: whoever sleeps without a unit to take, while no
  // post is between its critical section and the semaphore, sleeps over an empty queue;
  // the loop's inner wait never sleeps so; and what has run followed by what waits is what
  // was posted (the head being run counts as run).
  lemma NeverStranded<T(!new)>(run: seq<State<T>>, k: nat)
    requires IsRun(run) && k < |run|
    ensures var s := run[k];
      && (s.tokens == 0 && s.posting == 0 && s.worker.Asleep? ==> s.queue == [])
      && (s.worker.AsleepInLoop? ==> s.tokens > 0 || s.posting > 0)
      && s.posted == Ran(s.log) + Waiting(s)
  {
    RunInv(run, k);
  }

  // For every interleaving: when nothing is under way, a sleeping worker waits as long as the
  // timeout set last says, for ever if that is 0 or none was set; and once a timeout has been
  // set and looked at, the worker is started.
  lemma TimerTakesEffect<T(!new)>(run: seq<State<T>>, k: nat)
    requires IsRun(run) && k < |run| && UnderWay(run[k]) == 0
    ensures var s := run[k];
      && (s.worker.Asleep? ==> (s.worker.timed <==> s.timers != [] && s.timers[|s.timers| - 1] != 0))
      && (s.timers != [] ==> !s.worker.NotStarted?)
  {
    RunInv(run, k);
  }

  // For every interleaving: the hooks are called in order, onTimer once for each wait that
  // brought no unit (one may still be due).
  lemma HooksInOrder<T(!new)>(run: seq<State<T>>, k: nat)
    requires IsRun(run) && k < |run|
    ensures var s := run[k];
      && StageOf(s.log) != Disorder
      && Count(s.log, Woke(false)) == Count(s.log, OnTimer) + if StageOf(s.log) == Expired then 1 else 0
  {
    RunInv(run, k);
    TimersMatch(run[k].log);
  }

  ghost function Count<T>(log: seq<Call<T>>, c: Call<T>): nat {
    if log == [] then 0 else Count(log[..|log| - 1], c) + if log[|log| - 1] == c then 1 else 0
  }

  lemma {:induction false} TimersMatch<T>(log: seq<Call<T>>)
    ensures StageOf(log) != Disorder ==>
      Count(log, Woke(false)) == Count(log, OnTimer) + if StageOf(log) == Expired then 1 else 0
  {
    if log != [] {
      TimersMatch(log[..|log| - 1]);
    }
  }

  // ---------- Everything posted gets run ----------

  // A timed wait expiring over an empty queue with nothing to take.
  ghost predicate IdleExpiry<T>(s: State<T>, s': State<T>) {
    s.queue == [] && s.worker.Asleep? && s'.worker == Returned(false, 0)
  }

  // Steps that work off what is there: neither new calls nor the idle timer.
  ghost predicate WorksOff<T>(s: State<T>, s': State<T>) {
    PostRaise(s, s') || SetTimerLook(s, s') || SetTimerRaise(s, s') || (WorkerStep(s, s') && !IdleExpiry(s, s'))
  }

  function Units<T>(s: State<T>): nat {
    s.tokens + 2 * s.posting + 2 * s.raising + 3 * s.setting
  }

  // Distance of the worker from its next pop or its next wait.
  function Distance<T>(s: State<T>): nat {
    match s.worker
    case NotStarted => 9
    case Popped => 8
    case AsleepInLoop => 7
    case Returned(_, _) => 4
    case LoopHead(_) => 3
    case Running(_) => 2
    case Top => if s.queue == [] then 2 else 6
    case Asleep(_) => if s.queue == [] then 1 else 5
  }

  // Such steps shorten the queue, or keep it and use up units, or keep both and bring the
  // worker nearer: there are finitely many of them between new calls.
  lemma WorkDecreases<T>(s: State<T>, s': State<T>)
    requires Inv(s) && WorksOff(s, s')
    ensures |s'.queue| <= |s.queue|
    ensures |s'.queue| == |s.queue| ==> Units(s') <= Units(s)
    ensures |s'.queue| == |s.queue| && Units(s') == Units(s) ==> Distance(s') < Distance(s)
  {
  }

  lemma RunningWorks<T>(s: State<T>)
    requires s.worker.Running? && s.queue != []
    ensures WorksOff(s, s.(worker := Popped, queue := s.queue[1..]))
  {
  }

  // When none is left to take, everything posted has been run.
  lemma QuiescentIsDone<T(!new)>(s: State<T>)
    requires Inv(s) && forall s' :: !WorksOff(s, s')
    ensures s.queue == [] && Ran(s.log) == s.posted
  {
    if s.posting > 0 {
      assert WorksOff(s, s.(posting := s.posting - 1, tokens := s.tokens + 1));
    }
    if s.worker.AsleepInLoop? && s.tokens > 0 {
      assert WorksOff(s, s.(worker := LoopHead(1), tokens := s.tokens - 1));
    }
    if s.worker.Asleep? && s.tokens > 0 {
      var s' := s.(worker := Returned(true, 1), tokens := s.tokens - 1, log := s.log + [Woke(true)]);
      assert WaitReturns(s, s', s.worker.timed, true, 1);
      assert WorksOff(s, s');
    }
    if s.worker.Running? {
      RunningWorks(s);
    }
    match s.worker
    case Top =>
      assert WorksOff(s, s.(worker := Asleep(s.timeout != 0)));
    case Returned(posted, held) =>
      assert WorksOff(s, s.(worker := if !posted && s.queue == [] then Top else LoopHead(held),
                            log := s.log + Called(posted, s.queue == [])));
    case LoopHead(held) =>
      assert WorksOff(s, if s.queue == [] then s.(worker := Top, log := s.log + [StopQueue])
                         else s.(worker := Running(held), log := s.log + [RunQueue(s.queue[0])]));
    case Popped =>
      assert WorksOff(s, s.(worker := if s.queue == [] then LoopHead(0) else AsleepInLoop));
    case _ =>
  }
}

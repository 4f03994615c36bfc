/** Any number of threads on one bounded buffer: a mutex, one condition variable for both
    conditions, and a single signal after every change. */
module BufferMonitor {
  import opened FixedBuffer
  import opened Wrappers

  datatype Op<T> = TakeOp | PutOp(item: T)

  // A thread is outside, asleep on the condition variable, or woken and about to test its
  // condition again.
  datatype Pc<T> = Out | Asleep(op: Op<T>) | Awake(op: Op<T>)

  type Thread = nat

  // ring is the buffer with its head and its used count; posted and taken are histories.
  datatype State<T> = State(ring: Blocks<T>, threads: map<Thread, Pc<T>>, posted: seq<T>, taken: seq<T>)

  function Size<T>(s: State<T>): nat {
    |s.ring.slots|
  }

  ghost predicate Init<T>(s: State<T>) {
    && s.ring.used == s.ring.head == 0 && s.posted == [] && s.taken == []
    && forall t | t in s.threads :: s.threads[t] == Out
  }

  ghost predicate SomeoneAsleep<T>(th: map<Thread, Pc<T>>, u: Thread) {
    u in th && th[u].Asleep?
  }

  // signal(false): one sleeper, if there is any, wakes.
  ghost predicate Signalled<T>(th: map<Thread, Pc<T>>, th': map<Thread, Pc<T>>) {
    if exists u :: SomeoneAsleep(th, u) then exists u :: SomeoneAsleep(th, u) && th' == th[u := Awake(th[u].op)]
    else th' == th
  }

  predicate Blocked<T>(s: State<T>, op: Op<T>) {
    match op
    case TakeOp => s.ring.used == 0
    case PutOp(_) => s.ring.used == Size(s)
  }

  // From a test of the condition to the release of the mutex.
  ghost predicate Section<T>(s: State<T>, s': State<T>, t: Thread, op: Op<T>) {
    && Sound(s.ring)
    && if Blocked(s, op) then s' == s.(threads := s.threads[t := Asleep(op)])
       else
         && Signalled(s.threads[t := Out], s'.threads)
         && match op
            case TakeOp =>
              s' == s.(ring := Popped(s.ring), taken := s.taken + [s.ring.slots[s.ring.head]], threads := s'.threads)
            case PutOp(x) => s' == s.(ring := Pushed(s.ring, x), posted := s.posted + [x], threads := s'.threads)
  }

  // A thread calls wait or post; a woken one goes on; a sleeper times out or wakes unasked.
  ghost predicate Enter<T>(s: State<T>, s': State<T>, t: Thread, op: Op<T>) {
    t in s.threads && s.threads[t] == Out && Section(s, s', t, op)
  }

  ghost predicate Resume<T>(s: State<T>, s': State<T>, t: Thread) {
    t in s.threads && s.threads[t].Awake? && Section(s, s', t, s.threads[t].op)
  }

  ghost predicate TimesOut<T>(s: State<T>, s': State<T>, t: Thread) {
    t in s.threads && s.threads[t].Asleep? && s' == s.(threads := s.threads[t := Out])
  }

  ghost predicate WakesUp<T>(s: State<T>, s': State<T>, t: Thread) {
    t in s.threads && s.threads[t].Asleep? && s' == s.(threads := s.threads[t := Awake(s.threads[t].op)])
  }

  ghost predicate Step<T>(s: State<T>, s': State<T>, t: Thread, op: Op<T>) {
    Enter(s, s', t, op) || Resume(s, s', t) || TimesOut(s, s', t) || WakesUp(s, s', t)
  }

  ghost predicate Next<T(!new)>(s: State<T>, s': State<T>) {
    exists t, op :: Step(s, s', t, op)
  }

  ghost predicate IsRun<T(!new)>(run: seq<State<T>>) {
    run != [] && Init(run[0]) && forall i | 0 <= i < |run| - 1 :: Next(run[i], run[i + 1])
  }

  // The ring from its head on is the first-in first-out queue of what was posted and not yet
  // taken.
  ghost predicate Fifo<T>(s: State<T>) {
    Sound(s.ring) && s.posted == s.taken + Queue(s.ring)
  }

  lemma StepFifo<T>(s: State<T>, s': State<T>, t: Thread, op: Op<T>)
    requires Fifo(s) && Step(s, s', t, op)
    ensures Fifo(s') && Size(s') == Size(s) && s'.threads.Keys == s.threads.Keys
    ensures TimesOut(s, s', t) ==> s'.ring == s.ring && s'.posted == s.posted && s'.taken == s.taken
  {
    hide Queue, Popped, Pushed, Signalled;
    var done := if Resume(s, s', t) then s.threads[t].op else op;
    match done {
      case TakeOp =>
        if s.ring.used > 0 {
          RingIsQueue(s.ring, s.ring.slots[s.ring.head]);
          Regroup(s.taken, [s.ring.slots[s.ring.head]], Queue(Popped(s.ring)));
        }
      case PutOp(x) =>
        RingIsQueue(s.ring, x);
        Regroup(s.taken, Queue(s.ring), [x]);
    }
    SignalKeepsKeys(s, s');
  }

  lemma Regroup<T>(a: seq<T>, b: seq<T>, c: seq<T>)
    ensures a + (b + c) == (a + b) + c
  {
  }

  lemma SignalKeepsKeys<T>(s: State<T>, s': State<T>)
    ensures forall t | t in s.threads && Signalled(s.threads[t := Out], s'.threads) :: s'.threads.Keys == s.threads.Keys
  {
  }

  // Main result for any number of threads.
  lemma {:induction false} RunFifo<T(!new)>(run: seq<State<T>>, k: nat)
    requires IsRun(run) && k < |run|
    ensures Fifo(run[k]) && Size(run[k]) == Size(run[0]) && run[k].threads.Keys == run[0].threads.Keys
  {
    if k > 0 {
      RunFifo(run, k - 1);
      assert Next(run[k - 1], run[k - 1 + 1]);
      var t, op :| Step(run[k - 1], run[k], t, op);
      StepFifo(run[k - 1], run[k], t, op);
    }
  }

  // ---------- The ring in memory takes these steps ----------

  // Some sleeper, if there is any, is woken.
  ghost function AfterSignal<T>(th: map<Thread, Pc<T>>): (th': map<Thread, Pc<T>>)
    ensures Signalled(th, th')
  {
    if exists u :: SomeoneAsleep(th, u) then
      var u :| SomeoneAsleep(th, u);
      th[u := Awake(th[u].op)]
    else th
  }

  // wait, from a test of the condition to the release of the mutex, on the bytes of the ring.
  method WaitSection(ring: Ring, ghost s: State<bytes>, ghost t: Thread)
    returns (data: Option<bytes>, ghost s': State<bytes>)
    requires ring.Valid() && s.ring == ring.View() && t in s.threads
    modifies ring`head, ring`h, ring`used
    ensures ring.Valid() && s'.ring == ring.View() && Section(s, s', t, TakeOp)
    ensures data.Some? <==> !Blocked(s, TakeOp)
    ensures s'.taken == if data.Some? then s.taken + [data.value] else s.taken
  {
    RingIsQueue(ring.View(), []);
    data := ring.Take();
    if data.None? {
      s' := s.(threads := s.threads[t := Asleep(TakeOp)]);
    } else {
      s' := s.(ring := Popped(s.ring), taken := s.taken + [s.ring.slots[s.ring.head]],
               threads := AfterSignal(s.threads[t := Out]));
    }
  }

  method PostSection(ring: Ring, data: bytes, ghost s: State<bytes>, ghost t: Thread)
    returns (ok: bool, ghost s': State<bytes>)
    requires ring.Valid() && s.ring == ring.View() && t in s.threads && |data| == ring.objsize
    modifies ring`tail, ring`used, ring.buf
    ensures ring.Valid() && s'.ring == ring.View() && Section(s, s', t, PutOp(data))
    ensures ok <==> !Blocked(s, PutOp(data))
    ensures s'.posted == if ok then s.posted + [data] else s.posted
  {
    ok := ring.Put(data);
    if !ok {
      s' := s.(threads := s.threads[t := Asleep(PutOp(data))]);
    } else {
      s' := s.(ring := Pushed(s.ring, data), posted := s.posted + [data], threads := AfterSignal(s.threads[t := Out]));
    }
  }
}

/** Producers and consumers of a bounded buffer as counts: which sleepers they can end up with. */
module BufferCounts {
  import opened Wrappers

  datatype Crew = Crew(size: nat, consumers: nat, producers: nat)

  // Objects in the buffer, and threads of each kind that are not asleep.
  datatype Tally = Tally(used: nat, consumers: nat, producers: nat)

  ghost predicate Fits(w: Crew, x: Tally) {
    x.used <= w.size && x.consumers <= w.consumers && x.producers <= w.producers
  }

  // One sleeper, if there is any, wakes.
  ghost predicate Woken(w: Crew, x: Tally, y: Tally) {
    if x.consumers == w.consumers && x.producers == w.producers then y == x
    else
      || (x.consumers < w.consumers && y == x.(consumers := x.consumers + 1))
      || (x.producers < w.producers && y == x.(producers := x.producers + 1))
  }

  ghost predicate ConsumerSleeps(w: Crew, x: Tally, y: Tally) {
    x.used == 0 && x.consumers > 0 && y == x.(consumers := x.consumers - 1)
  }

  ghost predicate ProducerSleeps(w: Crew, x: Tally, y: Tally) {
    x.used == w.size && x.producers > 0 && y == x.(producers := x.producers - 1)
  }

  ghost predicate Takes(w: Crew, x: Tally, y: Tally) {
    x.used > 0 && x.consumers > 0 && Woken(w, x.(used := x.used - 1), y)
  }

  ghost predicate Puts(w: Crew, x: Tally, y: Tally) {
    x.used < w.size && x.producers > 0 && Woken(w, x.(used := x.used + 1), y)
  }

  // A timeout or a stray wakeup.
  ghost predicate Stirs(w: Crew, x: Tally, y: Tally) {
    || (x.consumers < w.consumers && y == x.(consumers := x.consumers + 1))
    || (x.producers < w.producers && y == x.(producers := x.producers + 1))
  }

  ghost predicate TallyNext(w: Crew, x: Tally, y: Tally) {
    && Fits(w, x)
    && (ConsumerSleeps(w, x, y) || ProducerSleeps(w, x, y) || Takes(w, x, y) || Puts(w, x, y) || Stirs(w, x, y))
  }

  // ---------- What the counts never do ----------

  ghost predicate Mixed(w: Crew, x: Tally) {
    x.consumers < w.consumers && x.producers < w.producers
  }

  ghost predicate AllAsleep(x: Tally) {
    x.consumers == x.producers == 0
  }

  // With room for all threads of either kind, only one kind sleeps, and no more of it than
  // the buffer warrants.
  ghost predicate Apart(w: Crew, x: Tally) {
    && Fits(w, x) && !Mixed(w, x)
    && (x.consumers < w.consumers ==> x.used <= x.consumers)
    && (x.producers < w.producers ==> w.size - x.used <= x.producers)
  }

  lemma ApartKept(w: Crew, x: Tally, y: Tally)
    requires w.consumers <= w.size && w.producers <= w.size && Apart(w, x) && TallyNext(w, x, y)
    ensures Apart(w, y)
  {
  }

  // The consumers that must be awake over a full buffer, and the producers over an empty one.
  function NeedC(w: Crew): int {
    if w.consumers > w.size then w.consumers + 1 - w.size else 1
  }

  function NeedP(w: Crew): int {
    if w.producers > w.size then w.producers + 1 - w.size else 1
  }

  // Whoever the signals go to on the way to a full or an empty buffer, enough threads of the
  // kind that is needed there are awake by then.
  ghost predicate Alive(w: Crew, x: Tally) {
    && Fits(w, x) && !AllAsleep(x)
    && (x.consumers >= NeedC(w) || x.consumers + (w.size - x.used) - (w.producers - x.producers) >= NeedC(w))
    && (x.producers >= NeedP(w) || x.producers + x.used - (w.consumers - x.consumers) >= NeedP(w))
  }

  lemma AliveKept(w: Crew, x: Tally, y: Tally)
    requires w.consumers > 0 && w.producers > 0 && w.consumers + w.producers <= 2 * w.size
    requires Alive(w, x) && TallyNext(w, x, y)
    ensures Alive(w, y)
  {
    hide NeedC, NeedP;
    Needs(w);
    if Takes(w, x, y) || Puts(w, x, y) {
      AliveOnSignal(w, x, y);
    }
  }

  lemma AliveOnSignal(w: Crew, x: Tally, y: Tally)
    requires w.consumers > 0 && w.producers > 0 && w.size > 0
    requires Alive(w, x) && (Takes(w, x, y) || Puts(w, x, y))
    ensures Alive(w, y)
  {
    hide NeedC, NeedP;
    Needs(w);
  }

  lemma Needs(w: Crew)
    ensures NeedC(w) >= 1 && NeedC(w) >= w.consumers + 1 - w.size
    ensures NeedP(w) >= 1 && NeedP(w) >= w.producers + 1 - w.size
    ensures w.consumers + w.producers <= 2 * w.size ==>
      w.size - w.consumers + NeedC(w) >= NeedP(w) && w.size - w.producers + NeedP(w) >= NeedC(w)
    ensures w.consumers > 0 && w.size > 0 ==> NeedC(w) <= w.consumers
    ensures w.producers > 0 && w.size > 0 ==> NeedP(w) <= w.producers
  {
  }

  // ---------- What they can do ----------

  ghost predicate TallyPath(w: Crew, path: seq<Tally>, x: Tally, y: Tally) {
    && path != [] && path[0] == x && path[|path| - 1] == y
    && forall i | 0 <= i < |path| - 1 :: TallyNext(w, path[i], path[i + 1])
  }

  ghost predicate Reaches(w: Crew, x: Tally, y: Tally) {
    exists path :: TallyPath(w, path, x, y)
  }

  lemma ReachStay(w: Crew, x: Tally)
    ensures Reaches(w, x, x)
  {
    assert TallyPath(w, [x], x, x);
  }

  lemma ReachThen(w: Crew, x: Tally, y: Tally, z: Tally)
    requires Reaches(w, x, y) && TallyNext(w, y, z)
    ensures Reaches(w, x, z)
  {
    var path :| TallyPath(w, path, x, y);
    var longer := path + [z];
    forall i | 0 <= i < |longer| - 1 ensures TallyNext(w, longer[i], longer[i + 1]) {
      if i < |path| - 1 {
        assert TallyNext(w, path[i], path[i + 1]);
      }
    }
    assert TallyPath(w, longer, x, z);
  }

  lemma {:induction false} ConsumersSleep(w: Crew, x: Tally, y: Tally)
    requires Fits(w, y) && Reaches(w, x, y) && y.used == 0
    ensures Reaches(w, x, y.(consumers := 0))
    decreases y.consumers
  {
    if y.consumers > 0 {
      var z := y.(consumers := y.consumers - 1);
      ReachThen(w, x, y, z);
      ConsumersSleep(w, x, z);
    }
  }

  lemma {:induction false} ProducersSleep(w: Crew, x: Tally, y: Tally)
    requires Fits(w, y) && Reaches(w, x, y) && y.used == w.size
    ensures Reaches(w, x, y.(producers := 0))
    decreases y.producers
  {
    if y.producers > 0 {
      var z := y.(producers := y.producers - 1);
      ReachThen(w, x, y, z);
      ProducersSleep(w, x, z);
    }
  }

  // n objects posted, with the signals going to producers as long as any sleep.
  function AfterPuts(w: Crew, x: Tally, n: nat): Tally
    requires Fits(w, x)
  {
    Tally(x.used + n,
          Min(w.consumers, x.consumers + Max(0, n - (w.producers - x.producers))),
          Min(w.producers, x.producers + n))
  }

  lemma {:induction false} ManyPuts(w: Crew, x: Tally, y: Tally, n: nat)
    requires Fits(w, y) && Reaches(w, x, y) && y.producers > 0 && y.used + n <= w.size
    ensures Reaches(w, x, AfterPuts(w, y, n))
    decreases n
  {
    if n > 0 {
      ManyPuts(w, x, y, n - 1);
      ReachThen(w, x, AfterPuts(w, y, n - 1), AfterPuts(w, y, n));
    }
  }

  // n objects taken, with the signals going to consumers as long as any sleep.
  function AfterTakes(w: Crew, x: Tally, n: nat): Tally
    requires Fits(w, x) && n <= x.used
  {
    Tally(x.used - n,
          Min(w.consumers, x.consumers + n),
          Min(w.producers, x.producers + Max(0, n - (w.consumers - x.consumers))))
  }

  lemma {:induction false} ManyTakes(w: Crew, x: Tally, y: Tally, n: nat)
    requires Fits(w, y) && Reaches(w, x, y) && y.consumers > 0 && n <= y.used
    ensures Reaches(w, x, AfterTakes(w, y, n))
    decreases n
  {
    if n > 0 {
      ManyTakes(w, x, y, n - 1);
      ReachThen(w, x, AfterTakes(w, y, n - 1), AfterTakes(w, y, n));
    }
  }

  // With more consumers than objects fit, from a state in which the buffer is empty and only
  // producers are awake, the buffer filled and emptied again leaves fewer of them awake.
  lemma {:induction false} Rounds(w: Crew, x: Tally, b: nat)
    requires w.consumers > w.size && 0 < b <= w.producers && w.consumers + w.producers > 2 * w.size
    requires Reaches(w, x, Tally(0, 0, b))
    ensures exists y :: Reaches(w, x, y) && AllAsleep(y)
    decreases b
  {
    var y0 := Tally(0, 0, b);
    ManyPuts(w, x, y0, w.size);
    var y1 := AfterPuts(w, y0, w.size);
    ProducersSleep(w, x, y1);
    var y2 := y1.(producers := 0);
    if y2.consumers > 0 {
      ManyTakes(w, x, y2, w.size);
      var y3 := AfterTakes(w, y2, w.size);
      ConsumersSleep(w, x, y3);
      var y4 := y3.(consumers := 0);
      if y4.producers > 0 {
        Rounds(w, x, y4.producers);
      }
    }
  }

  // Swapping the kinds of threads, and objects with holes.
  function Mirror(w: Crew): Crew {
    Crew(w.size, w.producers, w.consumers)
  }

  function Mirrored(w: Crew, x: Tally): Tally
    requires Fits(w, x)
  {
    Tally(w.size - x.used, x.producers, x.consumers)
  }

  lemma MirrorNext(w: Crew, x: Tally, y: Tally)
    requires TallyNext(w, x, y)
    ensures Fits(w, y) && TallyNext(Mirror(w), Mirrored(w, x), Mirrored(w, y))
  {
  }

  lemma {:induction false} MirrorPath(w: Crew, path: seq<Tally>, x: Tally, y: Tally)
    requires Fits(w, x) && TallyPath(w, path, x, y)
    ensures Fits(w, y) && Reaches(Mirror(w), Mirrored(w, x), Mirrored(w, y))
    decreases |path|
  {
    if |path| == 1 {
      ReachStay(Mirror(w), Mirrored(w, x));
    } else {
      var n := |path| - 2;
      assert TallyNext(w, path[n], path[n + 1]);
      assert TallyPath(w, path[..n + 1], x, path[n]) by {
        assert forall i | 0 <= i < n :: path[..n + 1][i] == path[i] && TallyNext(w, path[i], path[i + 1]);
      }
      MirrorPath(w, path[..n + 1], x, path[n]);
      MirrorNext(w, path[n], y);
      ReachThen(Mirror(w), Mirrored(w, x), Mirrored(w, path[n]), Mirrored(w, y));
    }
  }

  lemma ReachMirror(w: Crew, x: Tally, y: Tally)
    requires Fits(w, x) && Reaches(w, x, y)
    ensures Fits(w, y) && Reaches(Mirror(w), Mirrored(w, x), Mirrored(w, y))
  {
    var path :| TallyPath(w, path, x, y);
    MirrorPath(w, path, x, y);
  }

  function Fresh(w: Crew): Tally {
    Tally(0, w.consumers, w.producers)
  }

  // With more consumers than objects fit, all of them sleep, the buffer is filled, and a
  // producer sleeps beside the consumer that got no signal.
  lemma MixedByConsumers(w: Crew, x: Tally)
    requires w.consumers > w.size && w.producers > 0 && x == Fresh(w)
    ensures exists y :: Reaches(w, x, y) && Fits(w, y) && Mixed(w, y)
  {
    ReachStay(w, x);
    ConsumersSleep(w, x, x);
    var y0 := x.(consumers := 0);
    ManyPuts(w, x, y0, w.size);
    var y1 := AfterPuts(w, y0, w.size);
    ProducersSleep(w, x, y1);
    assert Mixed(w, y1.(producers := 0));
  }

  // A full buffer mirrors an empty one.
  lemma Filled(w: Crew)
    requires w.producers > 0
    ensures Reaches(w, Fresh(w), Tally(w.size, w.consumers, w.producers))
  {
    ReachStay(w, Fresh(w));
    ManyPuts(w, Fresh(w), Fresh(w), w.size);
  }

  lemma {:induction false} ReachAlong(w: Crew, x: Tally, path: seq<Tally>, y: Tally, z: Tally)
    requires Reaches(w, x, y) && TallyPath(w, path, y, z)
    ensures Reaches(w, x, z)
    decreases |path|
  {
    if |path| > 1 {
      var n := |path| - 2;
      assert TallyNext(w, path[n], path[n + 1]);
      assert TallyPath(w, path[..n + 1], y, path[n]) by {
        assert forall i | 0 <= i < n :: path[..n + 1][i] == path[i] && TallyNext(w, path[i], path[i + 1]);
      }
      ReachAlong(w, x, path[..n + 1], y, path[n]);
      ReachThen(w, x, path[n], z);
    }
  }

  lemma ReachOn(w: Crew, x: Tally, y: Tally, z: Tally)
    requires Reaches(w, x, y) && Reaches(w, y, z)
    ensures Reaches(w, x, z)
  {
    var path :| TallyPath(w, path, y, z);
    ReachAlong(w, x, path, y, z);
  }

  // What the mirrored crew reaches from its start, the crew reaches by way of a full buffer.
  lemma ReachByMirror(w: Crew, y: Tally)
    requires w.producers > 0 && Reaches(Mirror(w), Fresh(Mirror(w)), y)
    ensures Fits(Mirror(w), y) && Reaches(w, Fresh(w), Mirrored(Mirror(w), y))
  {
    Filled(w);
    ReachMirror(Mirror(w), Fresh(Mirror(w)), y);
    ReachOn(w, Fresh(w), Tally(w.size, w.consumers, w.producers), Mirrored(Mirror(w), y));
  }

  lemma {:induction false} PathKeeps(w: Crew, path: seq<Tally>, y: Tally)
    requires TallyPath(w, path, Fresh(w), y) && w.consumers > 0 && w.producers > 0
    ensures w.consumers <= w.size && w.producers <= w.size ==> Apart(w, y)
    ensures w.consumers + w.producers <= 2 * w.size ==> Alive(w, y)
    decreases |path|
  {
    if |path| > 1 {
      var n := |path| - 2;
      assert TallyNext(w, path[n], path[n + 1]);
      assert TallyPath(w, path[..n + 1], Fresh(w), path[n]) by {
        assert forall i | 0 <= i < n :: path[..n + 1][i] == path[i] && TallyNext(w, path[i], path[i + 1]);
      }
      PathKeeps(w, path[..n + 1], path[n]);
      if w.consumers <= w.size && w.producers <= w.size {
        ApartKept(w, path[n], y);
      }
      if w.consumers + w.producers <= 2 * w.size {
        AliveKept(w, path[n], y);
      }
    }
  }

  ghost predicate CanMix(w: Crew) {
    exists y :: Reaches(w, Fresh(w), y) && Mixed(w, y)
  }

  ghost predicate CanStop(w: Crew) {
    exists y :: Reaches(w, Fresh(w), y) && AllAsleep(y)
  }

  lemma MixedIff(w: Crew)
    requires w.consumers > 0 && w.producers > 0
    ensures CanMix(w) <==> w.consumers > w.size || w.producers > w.size
  {
    if w.consumers > w.size {
      MixedByConsumers(w, Fresh(w));
    } else if w.producers > w.size {
      MixedByConsumers(Mirror(w), Fresh(Mirror(w)));
      var y :| Reaches(Mirror(w), Fresh(Mirror(w)), y) && Fits(Mirror(w), y) && Mixed(Mirror(w), y);
      ReachByMirror(w, y);
      assert Mixed(w, Mirrored(Mirror(w), y));
    } else {
      forall y | Reaches(w, Fresh(w), y) ensures !Mixed(w, y) {
        var path :| TallyPath(w, path, Fresh(w), y);
        PathKeeps(w, path, y);
      }
    }
  }

  lemma StopByConsumers(w: Crew)
    requires w.producers > 0 && w.consumers > w.size && w.consumers + w.producers > 2 * w.size
    ensures CanStop(w)
  {
    ReachStay(w, Fresh(w));
    ConsumersSleep(w, Fresh(w), Fresh(w));
    Rounds(w, Fresh(w), w.producers);
  }

  lemma StopIff(w: Crew)
    requires w.consumers > 0 && w.producers > 0
    ensures CanStop(w) <==> w.consumers + w.producers > 2 * w.size
  {
    if w.consumers + w.producers <= 2 * w.size {
      forall y | Reaches(w, Fresh(w), y) ensures !AllAsleep(y) {
        var path :| TallyPath(w, path, Fresh(w), y);
        PathKeeps(w, path, y);
      }
    } else if w.consumers > w.size {
      StopByConsumers(w);
    } else {
      StopByConsumers(Mirror(w));
      var y :| Reaches(Mirror(w), Fresh(Mirror(w)), y) && AllAsleep(y);
      ReachByMirror(w, y);
      assert AllAsleep(Mirrored(Mirror(w), y));
    }
  }
}

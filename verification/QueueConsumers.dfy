/** lib/ThreadsafeQueue.h with several consumers, each of which always waits for the same number of
    elements: when a wake-up can be lost. */
module QueueConsumers {

  import opened QueueCore
  import opened QueueProtocol
  import opened QueueWakeups

  /** Nobody is under way, and a consumer sleeps although it could go on. */
  predicate Stuck<T>(s: State<T>) {
    && (forall t | 0 <= t < |s.threads| :: s.threads[t].Idle? || s.threads[t].Sleeping?)
    && exists t | 0 <= t < |s.threads| :: SleepsNeedlessly(s, t) && s.threads[t].op.WaitAndPop?
  }

  predicate Alike(needs: seq<nat>) {
    forall i, j | 0 <= i < j < |needs| :: needs[i] == needs[j]
  }

  // ----------------------------------------------------------------- equal needs are safe

  /** Threads that are about to notify a consumer, and consumers that are awake. */
  function Weight<T>(pc: Pc<T>): nat {
    if NotifiesSoon(pc, Rx) || ((pc.Locking? || pc.Holding?) && pc.op.WaitAndPop?) then 1 else 0
  }

  function Helpers<T>(threads: seq<Pc<T>>): nat {
    if threads == [] then 0 else Weight(threads[0]) + Helpers(threads[1..])
  }

  /** How many consumers could pass one after the other. */
  function Load<T>(s: Shared<T>, need: nat): nat {
    (if |s.queue| >= need then |s.queue| - need + 1 else 0) + if s.wakeup then 1 else 0
  }

  predicate SomeConsumerSleeps<T>(threads: seq<Pc<T>>) {
    exists t | 0 <= t < |threads| :: SleepsFor(threads[t], Rx)
  }

  predicate AllNeed<T>(s: State<T>, need: nat) {
    forall t | 0 <= t < |s.threads| ::
      var pc := s.threads[t];
      (pc.Locking? || pc.Holding? || pc.Sleeping?) && pc.op.WaitAndPop? ==> pc.op.prebuffering == need
  }

  /** While a consumer sleeps, enough threads are under way to use up what there is. */
  predicate Served<T>(s: State<T>, need: nat) {
    SomeConsumerSleeps(s.threads) ==> Load(s.shared, need) <= Helpers(s.threads)
  }

  lemma {:induction false} HelpersAfter<T>(threads: seq<Pc<T>>, t: nat, pc: Pc<T>)
    requires t < |threads|
    ensures Helpers(threads[t := pc]) == Helpers(threads) - Weight(threads[t]) + Weight(pc)
  {
    hide Weight;
    if t == 0 {
      assert threads[t := pc][1..] == threads[1..];
    } else {
      assert threads[t := pc][1..] == threads[1..][t - 1 := pc];
      HelpersAfter(threads[1..], t - 1, pc);
    }
  }

  lemma {:induction false} NoHelpers<T>(threads: seq<Pc<T>>)
    requires forall t | 0 <= t < |threads| :: threads[t].Idle? || threads[t].Sleeping?
    ensures Helpers(threads) == 0
  {
    if threads != [] {
      forall t | 0 <= t < |threads[1..]| ensures threads[1..][t].Idle? || threads[1..][t].Sleeping? {
        assert threads[1..][t] == threads[t + 1];
      }
      NoHelpers(threads[1..]);
    }
  }

  /** One thread moves: a new sleeper only shows up with a wait that found nothing. */
  lemma OneMoves<T>(threads: seq<Pc<T>>, t: nat, pc: Pc<T>)
    requires t < |threads| && !SleepsFor(pc, Rx)
    ensures SomeConsumerSleeps(threads[t := pc]) ==> SomeConsumerSleeps(threads)
  {
    if SomeConsumerSleeps(threads[t := pc]) {
      var u :| 0 <= u < |threads| && SleepsFor(threads[t := pc][u], Rx);
      assert SleepsFor(threads[u], Rx);
    }
  }

  /** What a pass adds to the load it announces, and what a consumer takes off it is its own. */
  lemma PassLoad<T>(op: Op<T>, s: Shared<T>, need: nat)
    requires IsCall(op) && UnderLock(op, s).Leave? && need >= 1 && (op.WaitAndPop? ==> op.prebuffering == need)
    ensures
      var p := UnderLock(op, s);
      Load(p.after, need) + (if op.WaitAndPop? then 1 else 0) <= Load(s, need) + if p.notify == Rx then 1 else 0
  {}

  lemma ServedRun<T>(s: State<T>, t: nat, need: nat)
    requires Served(s, need) && AllNeed(s, need) && Enabled(s, Run(t)) && need >= 1
    ensures Served(RunPass(s, t), need)
  {
    var op, s' := s.threads[t].op, RunPass(s, t);
    HelpersAfter(s.threads, t, s'.threads[t]);
    if UnderLock(op, s.shared).Leave? {
      PassLoad(op, s.shared, need);
      OneMoves(s.threads, t, s'.threads[t]);
    } else if op.WaitAndPop? {
      assert Load(s'.shared, need) == 0;
    } else {
      OneMoves(s.threads, t, s'.threads[t]);
    }
  }

  lemma ServedNotify<T>(s: State<T>, t: nat, w: nat, need: nat)
    requires Served(s, need) && Enabled(s, Notify(t, w))
    ensures Served(Step(s, Notify(t, w)), need)
  {
    hide Helpers, Load;
    var mid := s.threads[w := Locking(s.threads[w].op)];
    HelpersAfter(s.threads, w, mid[w]);
    HelpersAfter(mid, t, Idle);
    OneMoves(s.threads, w, mid[w]);
    OneMoves(mid, t, Idle);
  }

  lemma ServedStep<T>(s: State<T>, a: Action<T>, need: nat)
    requires Served(s, need) && AllNeed(s, need) && SoundOps(s) && Enabled(s, a) && need >= 1
    ensures Served(Step(s, a), need)
  {
    if a.Run? {
      ServedRun(s, a.t, need);
    } else if a.Notify? {
      ServedNotify(s, a.t, a.waiter, need);
    } else {
      var pc := Step(s, a).threads[a.t];
      HelpersAfter(s.threads, a.t, pc);
      OneMoves(s.threads, a.t, pc);
    }
  }

  lemma NeedKept<T>(s: State<T>, a: Action<T>, needs: seq<nat>, need: nat)
    requires AllNeed(s, need) && Enabled(s, a) && ByRole(a, Consumers(needs))
    requires forall i | 0 <= i < |needs| :: needs[i] == need
    ensures AllNeed(Step(s, a), need)
  {}

  lemma {:induction false} ServedAlways<T>(s: State<T>, run: seq<Action<T>>, needs: seq<nat>, need: nat)
    requires Served(s, need) && AllNeed(s, need) && SoundOps(s) && IsRun(s, run) && need >= 1
    requires forall i | 0 <= i < |needs| :: needs[i] == need
    requires forall i | 0 <= i < |run| :: ByRole(run[i], Consumers(needs))
    ensures Served(After(s, run), need) && AllNeed(After(s, run), need)
    decreases |run|
  {
    hide Served, AllNeed, SoundOps, Step, Enabled, ByRole;
    if run != [] {
      ServedStep(s, run[0], need);
      NeedKept(s, run[0], needs, need);
      OpsKept(s, run[0]);
      ServedAlways(Step(s, run[0]), run[1..], needs, need);
    }
  }

  /** With consumers that all wait for the same number of elements, however many there are, nobody is
      left sleeping needlessly. */
  lemma AlikeNeverStuck<T>(n: nat, run: seq<Action<T>>, needs: seq<nat>)
    requires Alike(needs) && IsRun(Init(n), run)
    requires forall i | 0 <= i < |needs| :: needs[i] >= 1
    requires forall i | 0 <= i < |run| :: ByRole(run[i], Consumers(needs))
    ensures !Stuck(After(Init(n), run))
  {
    var need := if needs == [] then 1 else needs[0];
    InitServed<T>(n, need);
    ServedAlways(Init(n), run, needs, need);
    ServedIsNotStuck(After(Init(n), run), need);
  }

  lemma ServedIsNotStuck<T>(s: State<T>, need: nat)
    requires Served(s, need) && AllNeed(s, need)
    ensures !Stuck(s)
  {
    if forall t | 0 <= t < |s.threads| :: s.threads[t].Idle? || s.threads[t].Sleeping? {
      NoHelpers(s.threads);
      forall t | 0 <= t < |s.threads| && s.threads[t].Sleeping? && s.threads[t].op.WaitAndPop?
        ensures MustWait(s.threads[t].op, s.shared)
      {
        assert SleepsFor(s.threads[t], Rx);
      }
    }
  }

  lemma InitServed<T>(n: nat, need: nat)
    ensures Served(Init<T>(n), need) && AllNeed(Init<T>(n), need) && SoundOps(Init<T>(n))
  {}

  // -------------------------------------------------------------- different needs are not

  /** Two consumers sleep with different needs, and nobody else does anything. */
  predicate BothSleep<T>(s: State<T>, i: nat, j: nat, needs: seq<nat>, size: nat) {
    && i < |needs| && j < |needs| && i != j && |needs| < |s.threads|
    && s.threads[i] == Sleeping(WaitAndPop(needs[i])) && s.threads[j] == Sleeping(WaitAndPop(needs[j]))
    && (forall t | 0 <= t < |s.threads| && t != i && t != j :: s.threads[t] == Idle)
    && |s.shared.queue| == size && !s.shared.wakeup
  }

  lemma BothFallAsleep<T(!new)>(n: nat, i: nat, j: nat, needs: seq<nat>) returns (s: State<T>)
    requires i < |needs| && j < |needs| && i != j && |needs| < n && needs[i] >= 1 && needs[j] >= 1
    ensures Reaches(Init(n), Consumers(needs), s) && BothSleep(s, i, j, needs, 0)
  {
    hide Reaches;
    var s0 := Init<T>(n);
    NowhereYet(s0, Consumers(needs));
    var s1 := CallAndRun(s0, Consumers(needs), s0, i, WaitAndPop(needs[i]));
    s := CallAndRun(s0, Consumers(needs), s1, j, WaitAndPop(needs[j]));
  }

  /** One more element, and the notification goes to the consumer that needs more than there is. */
  lemma WrongOneWakes<T(!new)>(s0: State<T>, s: State<T>, i: nat, j: nat, needs: seq<nat>, size: nat, val: T)
    returns (s': State<T>)
    requires Reaches(s0, Consumers(needs), s) && BothSleep(s, i, j, needs, size) && size + 1 < needs[j]
    ensures Reaches(s0, Consumers(needs), s') && BothSleep(s', i, j, needs, size + 1)
  {
    hide Reaches;
    var r, m := Consumers(needs), |needs|;
    var s1 := CallAndRun(s0, r, s, m, Push(val, 0));
    OneMore(s0, r, s1, Unlock(m));
    var s2 := Step(s1, Unlock(m));
    OneMore(s0, r, s2, Notify(m, j));
    var s3 := Step(s2, Notify(m, j));
    s' := LockAndRun(s0, r, s3, j, WaitAndPop(needs[j]));
  }

  lemma {:induction false} FillForOne<T(!new)>(s0: State<T>, s: State<T>, i: nat, j: nat, needs: seq<nat>, size: nat, val: T)
    returns (s': State<T>)
    requires Reaches(s0, Consumers(needs), s) && BothSleep(s, i, j, needs, size) && size <= needs[i] < needs[j]
    ensures Reaches(s0, Consumers(needs), s') && BothSleep(s', i, j, needs, needs[i])
    decreases needs[i] - size
  {
    hide Reaches;
    if size == needs[i] {
      s' := s;
    } else {
      var s1 := WrongOneWakes(s0, s, i, j, needs, size, val);
      s' := FillForOne(s0, s1, i, j, needs, size + 1, val);
    }
  }

  lemma DifferentGetStuck<T(!new)>(n: nat, i: nat, j: nat, needs: seq<nat>, val: T) returns (s: State<T>)
    requires i < |needs| && j < |needs| && |needs| < n && 1 <= needs[i] < needs[j]
    ensures Reaches(Init(n), Consumers(needs), s) && Stuck(s)
  {
    hide Reaches;
    var s1 := BothFallAsleep<T>(n, i, j, needs);
    s := FillForOne(Init(n), s1, i, j, needs, 0, val);
    assert SleepsNeedlessly(s, i);
  }

  /** A wake-up can be lost among consumers exactly when two of them wait for different numbers of
      elements.  In particular any number of consumers with the default prebuffering is safe. */
  lemma StuckIffNeedsDiffer<T(!new)>(n: nat, needs: seq<nat>, val: T)
    requires |needs| < n && forall i | 0 <= i < |needs| :: needs[i] >= 1
    ensures (exists s: State<T> :: Reaches(Init(n), Consumers(needs), s) && Stuck(s)) <==> !Alike(needs)
  {
    if !Alike(needs) {
      var i, j :| 0 <= i < j < |needs| && needs[i] != needs[j];
      var less, more := if needs[i] < needs[j] then i else j, if needs[i] < needs[j] then j else i;
      var s := DifferentGetStuck(n, less, more, needs, val);
    } else {
      forall s: State<T> | Reaches(Init(n), Consumers(needs), s) ensures !Stuck(s) {
        var run :| RunsTo(Init(n), run, Consumers(needs), s);
        AlikeNeverStuck(n, run, needs);
      }
    }
  }
}

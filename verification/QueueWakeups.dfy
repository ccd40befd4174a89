/** lib/ThreadsafeQueue.h: no wake-up is lost when one thread waits for elements and one for
    room, and when such a pair gets stuck for good. */
module QueueWakeups {

  import opened QueueCore
  import opened QueueProtocol

  /** Who may wait: one consumer and one producer; or several consumers, thread t always for
      needs[t] elements.  Anybody may push, pop without waiting or wake. */
  datatype Roles = Roles(consumer: nat, producer: nat) | Consumers(needs: seq<nat>)

  predicate OpByRole<T>(op: Op<T>, t: nat, r: Roles) {
    match r
    case Roles(consumer, producer) => (op.WaitAndPop? ==> t == consumer) && (op.PushWaitIfFull? ==> t == producer)
    case Consumers(needs) => op.WaitAndPop? ==> t < |needs| && op.prebuffering == needs[t]
  }

  predicate ByRole<T>(a: Action<T>, r: Roles) {
    a.Call? ==> OpByRole(a.op, a.t, r)
  }

  predicate InRoles<T>(s: State<T>, r: Roles) {
    forall t | 0 <= t < |s.threads| ::
      s.threads[t].Locking? || s.threads[t].Holding? || s.threads[t].Sleeping? ==> OpByRole(s.threads[t].op, t, r)
  }

  /** Some thread is on its way to notify `cv`. */
  predicate Pending<T>(s: State<T>, cv: Notification) {
    exists t | 0 <= t < |s.threads| :: NotifiesSoon(s.threads[t], cv)
  }

  predicate NotifiesSoon<T>(pc: Pc<T>, cv: Notification) {
    (pc.Leaving? || pc.Notifying?) && pc.notify == cv
  }

  /** The thread sleeps although it could go on. */
  predicate SleepsNeedlessly<T>(s: State<T>, t: nat) {
    t < |s.threads| && s.threads[t].Sleeping? && !MustWait(s.threads[t].op, s.shared)
  }

  /** Whoever sleeps needlessly is about to be notified. */
  ghost predicate NoLostWakeups<T>(s: State<T>) {
    forall t: nat | SleepsNeedlessly(s, t) :: Pending(s, SleepsOn(s.threads[t].op))
  }

  ghost predicate Safe<T>(s: State<T>, r: Roles) {
    r.Roles? && SoundOps(s) && InRoles(s, r) && NoLostWakeups(s)
  }

  lemma RolesKept<T>(s: State<T>, a: Action<T>, r: Roles)
    requires InRoles(s, r) && Enabled(s, a) && ByRole(a, r)
    ensures InRoles(Step(s, a), r)
  {}

  /** Only a thread between unlock and notify can stop being about to notify, and only by doing
      so. */
  lemma PendingKept<T>(s: State<T>, a: Action<T>, cv: Notification)
    requires Enabled(s, a) && Pending(s, cv)
    requires a.Notify? || a.NotifyNobody? ==> s.threads[a.t].notify != cv
    ensures Pending(Step(s, a), cv)
  {
    var t :| 0 <= t < |s.threads| && NotifiesSoon(s.threads[t], cv);
    assert NotifiesSoon(Step(s, a).threads[t], cv);
  }

  /** A pass that makes a sleeper's condition true notifies what the sleeper sleeps on. */
  lemma PassNotifies<T>(op: Op<T>, s: Shared<T>, sleeper: Op<T>)
    requires IsCall(op) && UnderLock(op, s).Leave? && SleepsOn(sleeper) != Nobody
    requires MustWait(sleeper, s) && !MustWait(sleeper, UnderLock(op, s).after)
    ensures UnderLock(op, s).notify == SleepsOn(sleeper)
  {}

  lemma WakeupsStep<T>(s: State<T>, a: Action<T>, r: Roles)
    requires Safe(s, r) && Enabled(s, a)
    ensures NoLostWakeups(Step(s, a))
  {
    var s' := Step(s, a);
    forall t: nat | SleepsNeedlessly(s', t) ensures Pending(s', SleepsOn(s'.threads[t].op)) {
      SleeperStep(s, a, r, t);
    }
  }

  lemma SleeperStep<T>(s: State<T>, a: Action<T>, r: Roles, t: nat)
    requires Safe(s, r) && Enabled(s, a) && SleepsNeedlessly(Step(s, a), t)
    ensures Pending(Step(s, a), SleepsOn(Step(s, a).threads[t].op))
  {
    var s' := Step(s, a);
    var op := s'.threads[t].op;
    assert s.threads[t] == s'.threads[t];
    if MustWait(op, s.shared) {
      PassNotifies(s.threads[a.t].op, s.shared, op);
      assert NotifiesSoon(s'.threads[a.t], SleepsOn(op));
    } else {
      assert SleepsNeedlessly(s, t);
      PendingKept(s, a, SleepsOn(op));
    }
  }

  /** In every interleaving that respects the roles, no wake-up is lost. */
  lemma {:induction false} NoWakeupIsLost<T>(s: State<T>, run: seq<Action<T>>, r: Roles)
    requires Safe(s, r) && IsRun(s, run)
    requires forall i | 0 <= i < |run| :: ByRole(run[i], r)
    ensures Safe(After(s, run), r)
    decreases |run|
  {
    hide NoLostWakeups, InRoles, SoundOps, Step, Enabled, ByRole;
    if run != [] {
      OpsKept(s, run[0]);
      RolesKept(s, run[0], r);
      WakeupsStep(s, run[0], r);
      NoWakeupIsLost(Step(s, run[0]), run[1..], r);
    }
  }

  lemma InitIsSafe<T>(n: nat, r: Roles)
    requires r.Roles?
    ensures Safe(Init<T>(n), r)
  {}

  /** So no wake-up is lost in any state that threads starting idle can reach. */
  lemma NoWakeupIsEverLost<T>(n: nat, run: seq<Action<T>>, r: Roles)
    requires r.Roles? && IsRun(Init(n), run)
    requires forall i | 0 <= i < |run| :: ByRole(run[i], r)
    ensures NoLostWakeups(After(Init(n), run))
  {
    hide InRoles, SoundOps, IsRun, After;
    InitIsSafe<T>(n, r);
    NoWakeupIsLost(Init(n), run, r);
  }

  /** The thread that is about to notify needs nobody else to do so, and then the sleeper is
      awake. */
  lemma HelperWakes<T>(s: State<T>, u: nat, w: nat, cv: Notification) returns (run: seq<Action<T>>)
    requires u < |s.threads| && NotifiesSoon(s.threads[u], cv) && cv != Nobody
    requires w < |s.threads| && SleepsFor(s.threads[w], cv)
    ensures IsRun(s, run) && |run| <= 2 && forall i | 0 <= i < |run| :: run[i].t == u
    ensures |After(s, run).threads| == |s.threads| && After(s, run).threads[w] == Locking(s.threads[w].op)
    ensures After(s, run).shared == s.shared
  {
    if s.threads[u].Notifying? {
      run := [Notify(u, w)];
      assert run[1..] == [];
      var last := Step(s, Notify(u, w));
      assert IsRun(last, []) && After(last, []) == last;
    } else {
      var s' := Step(s, Unlock(u));
      run := [Unlock(u), Notify(u, w)];
      assert run[1..] == [Notify(u, w)] && run[1..][1..] == [];
      var last := Step(s', Notify(u, w));
      assert IsRun(last, []) && After(last, []) == last;
      assert IsRun(s', run[1..]) && After(s', run[1..]) == last;
    }
  }

  /** One of the two can go on: then a third thread wakes it in at most two steps of its own, and its
      condition still holds when it is awake. */
  lemma ThirdThreadWakesOne<T>(s: State<T>, r: Roles, prebuffering: nat, threshold: nat)
    returns (u: nat, w: nat, run: seq<Action<T>>)
    requires Safe(s, r) && Asleep(s, r, prebuffering, threshold) && prebuffering <= threshold
    ensures u != r.consumer && u != r.producer && (w == r.consumer || w == r.producer)
    ensures IsRun(s, run) && |run| <= 2 && forall i | 0 <= i < |run| :: run[i].t == u
    ensures
      var s' := After(s, run);
      w < |s'.threads| && s'.threads[w] == Locking(s.threads[w].op) && !MustWait(s.threads[w].op, s'.shared)
  {
    w := if SleepsNeedlessly(s, r.consumer) then r.consumer else r.producer;
    assert SleepsNeedlessly(s, w);
    var cv := SleepsOn(s.threads[w].op);
    u :| 0 <= u < |s.threads| && NotifiesSoon(s.threads[u], cv);
    run := HelperWakes(s, u, w, cv);
  }

  /** Awake with its condition true, a thread needs the lock and two steps to be through. */
  lemma AwakeGoesThrough<T>(s: State<T>, w: nat)
    requires w < |s.threads| && s.threads[w].Locking? && IsCall(s.threads[w].op)
    requires !MustWait(s.threads[w].op, s.shared)
    requires forall u | 0 <= u < |s.threads| :: !HasLock(s.threads[u])
    ensures IsRun(s, [Lock(w), Run(w)])
    ensures After(s, [Lock(w), Run(w)]).threads == s.threads[w := Leaving(UnderLock(s.threads[w].op, s.shared).notify)]
  {
    var s1 := Step(s, Lock(w));
    var s2 := Step(s1, Run(w));
    var run: seq<Action<T>> := [Lock(w), Run(w)];
    assert run[1..] == [Run(w)] && run[1..][1..] == [];
    assert IsRun(s2, []) && After(s2, []) == s2;
    assert IsRun(s1, run[1..]) && After(s1, run[1..]) == s2;
    assert s2.threads == s.threads[w := Leaving(UnderLock(s.threads[w].op, s.shared).notify)];
  }

  // ------------------------------------------------------------------ when the pair is stuck

  predicate Asleep<T>(s: State<T>, r: Roles, prebuffering: nat, threshold: nat) {
    && r.Roles? && r.consumer < |s.threads| && r.producer < |s.threads|
    && s.threads[r.consumer] == Sleeping(WaitAndPop(prebuffering))
    && s.threads[r.producer].Sleeping?
    && s.threads[r.producer].op.PushWaitIfFull? && s.threads[r.producer].op.threshold == threshold
  }

  /** If both sleep, somebody is about to wake one of them, unless the consumer waits for more
      than the producer may put in. */
  lemma NeverBothAsleepForGood<T>(s: State<T>, r: Roles, prebuffering: nat, threshold: nat)
    requires Safe(s, r) && Asleep(s, r, prebuffering, threshold) && prebuffering <= threshold
    ensures Pending(s, Rx) || Pending(s, Tx)
  {
    assert SleepsNeedlessly(s, r.consumer) || SleepsNeedlessly(s, r.producer);
  }

  ghost predicate Reaches<T(!new)>(s: State<T>, r: Roles, s': State<T>) {
    exists run: seq<Action<T>> :: RunsTo(s, run, r, s')
  }

  ghost predicate RunsTo<T>(s: State<T>, run: seq<Action<T>>, r: Roles, s': State<T>) {
    IsRun(s, run) && After(s, run) == s' && forall i | 0 <= i < |run| :: ByRole(run[i], r)
  }

  lemma {:induction false} RunExtends<T>(s: State<T>, run: seq<Action<T>>, a: Action<T>)
    requires IsRun(s, run) && Enabled(After(s, run), a)
    ensures IsRun(s, run + [a]) && After(s, run + [a]) == Step(After(s, run), a)
    decreases |run|
  {
    hide Step, Enabled;
    if run == [] {
      var s' := Step(s, a);
      assert run + [a] == [a] && [a][1..] == [];
      assert IsRun(s', []) && After(s', []) == s';
    } else {
      assert (run + [a])[1..] == run[1..] + [a];
      RunExtends(Step(s, run[0]), run[1..], a);
    }
  }

  lemma OneMore<T(!new)>(s: State<T>, r: Roles, s': State<T>, a: Action<T>)
    requires Reaches(s, r, s') && Enabled(s', a) && ByRole(a, r)
    ensures Reaches(s, r, Step(s', a))
  {
    hide IsRun, After, Step, Enabled, ByRole;
    var run :| RunsTo(s, run, r, s');
    RunExtends(s, run, a);
    assert RunsTo(s, run + [a], r, Step(s', a));
  }

  /** The consumer sleeps for more elements than there are, and nobody else does anything. */
  predicate Waiting<T>(s: State<T>, r: Roles, prebuffering: nat, size: nat) {
    && r.Roles? && r.consumer != r.producer && r.consumer < |s.threads| && r.producer < |s.threads|
    && s.threads[r.consumer] == Sleeping(WaitAndPop(prebuffering))
    && (forall t | 0 <= t < |s.threads| && t != r.consumer :: s.threads[t] == Idle)
    && |s.shared.queue| == size < prebuffering && !s.shared.wakeup
  }

  predicate Dead<T>(s: State<T>, r: Roles, prebuffering: nat, threshold: nat) {
    && Asleep(s, r, prebuffering, threshold)
    && forall t | 0 <= t < |s.threads| && t != r.consumer && t != r.producer :: s.threads[t] == Idle
  }

  /** A pass of a thread while all others are idle or asleep. */
  lemma CallAndRun<T(!new)>(s0: State<T>, r: Roles, s: State<T>, t: nat, op: Op<T>) returns (s': State<T>)
    requires Reaches(s0, r, s) && t < |s.threads| && s.threads[t] == Idle
    requires IsCall(op) && OpByRole(op, t, r)
    requires forall u | 0 <= u < |s.threads| :: s.threads[u].Idle? || s.threads[u].Sleeping?
    ensures Reaches(s0, r, s') && s' == RunPass(To(s, t, Holding(op)), t)
  {
    hide Reaches;
    var s1 := Step(s, Call(t, op));
    OneMore(s0, r, s, Call(t, op));
    s' := LockAndRun(s0, r, s1, t, op);
    assert s1.threads[t := Holding(op)] == s.threads[t := Holding(op)];
  }

  lemma LockAndRun<T(!new)>(s0: State<T>, r: Roles, s: State<T>, t: nat, op: Op<T>) returns (s': State<T>)
    requires Reaches(s0, r, s) && t < |s.threads| && s.threads[t] == Locking(op) && IsCall(op)
    requires forall u | 0 <= u < |s.threads| && u != t :: s.threads[u].Idle? || s.threads[u].Sleeping?
    ensures Reaches(s0, r, s') && s' == RunPass(To(s, t, Holding(op)), t)
  {
    hide Reaches;
    var s1 := Step(s, Lock(t));
    OneMore(s0, r, s, Lock(t));
    s' := Step(s1, Run(t));
    OneMore(s0, r, s1, Run(t));
  }

  /** The producer puts one element in, the consumer wakes, finds too few and sleeps again. */
  lemma FillOne<T(!new)>(s0: State<T>, r: Roles, s: State<T>, prebuffering: nat, threshold: nat, size: nat, val: T)
    returns (s': State<T>)
    requires Reaches(s0, r, s) && Waiting(s, r, prebuffering, size) && size < threshold < prebuffering
    ensures Reaches(s0, r, s') && Waiting(s', r, prebuffering, size + 1) && |s'.threads| == |s.threads|
  {
    hide Reaches;
    var c, p := r.consumer, r.producer;
    var s1 := CallAndRun(s0, r, s, p, PushWaitIfFull(val, threshold));
    OneMore(s0, r, s1, Unlock(p));
    var s2 := Step(s1, Unlock(p));
    OneMore(s0, r, s2, Notify(p, c));
    var s3 := Step(s2, Notify(p, c));
    s' := LockAndRun(s0, r, s3, c, WaitAndPop(prebuffering));
  }

  lemma {:induction false} FillUp<T(!new)>(s0: State<T>, r: Roles, s: State<T>, prebuffering: nat, threshold: nat, size: nat, val: T)
    returns (s': State<T>)
    requires Reaches(s0, r, s) && Waiting(s, r, prebuffering, size) && size <= threshold < prebuffering
    ensures Reaches(s0, r, s') && Waiting(s', r, prebuffering, threshold) && |s'.threads| == |s.threads|
    decreases threshold - size
  {
    hide Reaches, Waiting;
    if size == threshold {
      s' := s;
    } else {
      var s1 := FillOne(s0, r, s, prebuffering, threshold, size, val);
      s' := FillUp(s0, r, s1, prebuffering, threshold, size + 1, val);
    }
  }

  lemma NowhereYet<T(!new)>(s: State<T>, r: Roles)
    ensures Reaches(s, r, s)
  {
    assert RunsTo(s, [], r, s);
  }

  /** A consumer waiting for more elements than the producer's threshold ends in a deadlock. */
  lemma DeadlockReached<T(!new)>(n: nat, r: Roles, prebuffering: nat, threshold: nat, val: T) returns (s: State<T>)
    requires r.Roles? && r.consumer != r.producer && r.consumer < n && r.producer < n && threshold < prebuffering
    ensures Reaches(Init(n), r, s) && Dead(s, r, prebuffering, threshold)
  {
    hide Reaches;
    var s0 := Init<T>(n);
    NowhereYet(s0, r);
    var s1 := CallAndRun(s0, r, s0, r.consumer, WaitAndPop(prebuffering));
    var s2 := FillUp(s0, r, s1, prebuffering, threshold, 0, val);
    s := CallAndRun(s0, r, s2, r.producer, PushWaitIfFull(val, threshold));
  }

  /** Producer and consumer can get stuck, everybody else being idle, exactly when the consumer
      waits for more elements than the producer may put in. */
  lemma DeadlockIffThresholdTooLow<T(!new)>(n: nat, r: Roles, prebuffering: nat, threshold: nat, val: T)
    requires r.Roles? && r.consumer != r.producer && r.consumer < n && r.producer < n
    ensures (exists s: State<T> :: Reaches(Init(n), r, s) && Dead(s, r, prebuffering, threshold)) <==> threshold < prebuffering
  {
    if threshold < prebuffering {
      var s := DeadlockReached(n, r, prebuffering, threshold, val);
    } else {
      forall s: State<T> | Reaches(Init(n), r, s) && Dead(s, r, prebuffering, threshold) ensures false {
        var run :| RunsTo(Init(n), run, r, s);
        InitIsSafe<T>(n, r);
        NoWakeupIsLost(Init(n), run, r);
        NeverBothAsleepForGood(s, r, prebuffering, threshold);
      }
    }
  }

  // ------------------------------------------------------------------------ stuck stays stuck

  predicate Trapped<T>(s: State<T>, r: Roles, prebuffering: nat, threshold: nat) {
    && r.Roles? && r.consumer != r.producer && r.consumer < |s.threads| && r.producer < |s.threads|
    && Tries(s.threads[r.consumer]) && s.threads[r.consumer].op == WaitAndPop(prebuffering)
    && Tries(s.threads[r.producer]) && s.threads[r.producer].op.PushWaitIfFull?
    && s.threads[r.producer].op.threshold == threshold
    && threshold <= |s.shared.queue| < prebuffering && !s.shared.wakeup
  }

  predicate Tries<T>(pc: Pc<T>) {
    pc.Sleeping? || pc.Locking? || pc.Holding?
  }

  lemma TrappedStep<T>(s: State<T>, a: Action<T>, r: Roles, prebuffering: nat, threshold: nat)
    requires Trapped(s, r, prebuffering, threshold) && Enabled(s, a) && (a.t == r.consumer || a.t == r.producer)
    ensures Trapped(Step(s, a), r, prebuffering, threshold) && Step(s, a).shared == s.shared
  {}

  /** Out of such a state the two never get by themselves, however often they wake for no
      reason. */
  lemma {:induction false} TrappedForGood<T>(s: State<T>, run: seq<Action<T>>, r: Roles, prebuffering: nat, threshold: nat)
    requires Trapped(s, r, prebuffering, threshold) && IsRun(s, run)
    requires forall i | 0 <= i < |run| :: run[i].t == r.consumer || run[i].t == r.producer
    ensures Trapped(After(s, run), r, prebuffering, threshold) && After(s, run).shared == s.shared
    decreases |run|
  {
    hide Trapped, Step, Enabled;
    if run != [] {
      TrappedStep(s, run[0], r, prebuffering, threshold);
      TrappedForGood(Step(s, run[0]), run[1..], r, prebuffering, threshold);
    }
  }
}

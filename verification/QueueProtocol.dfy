/** lib/ThreadsafeQueue.h under every interleaving.  Threads lock the mutex, pass once under it,
    unlock, and only then notify; waiting unlocks and sleeps in one step, and a sleeper may wake
    for no reason.  A run is a list of steps chosen by an arbitrary scheduler. */
module QueueProtocol {

  import opened QueueCore

  /** Where a thread is. */
  datatype Pc<T> =
    | Idle
    | Locking(op: Op<T>)
    | Holding(op: Op<T>)
    | Sleeping(op: Op<T>)
    | Leaving(notify: Notification)
    | Notifying(notify: Notification)

  /** `taken`, `given`, `triggers` and `thrown` record the run: elements accepted and popped in
      the order in which the mutex was held, wakeups requested and wakeup exceptions thrown. */
  datatype State<T> = State(
    shared: Shared<T>, threads: seq<Pc<T>>,
    taken: seq<T>, given: seq<T>, triggers: nat, thrown: nat)

  datatype Action<T> =
    | Call(t: nat, op: Op<T>)
    | CallNotify(t: nat)
    | Lock(t: nat)
    | Run(t: nat)
    | Unlock(t: nat)
    | Notify(t: nat, waiter: nat)
    | NotifyNobody(t: nat)
    | SpuriousWake(t: nat)

  function Init<T>(n: nat): State<T> {
    State(Shared([], false), seq(n, _ => Idle), [], [], 0, 0)
  }

  predicate HasLock<T>(pc: Pc<T>) {
    pc.Holding? || pc.Leaving?
  }

  predicate SleepsFor<T>(pc: Pc<T>, cv: Notification) {
    pc.Sleeping? && SleepsOn(pc.op) == cv
  }

  predicate Enabled<T>(s: State<T>, a: Action<T>) {
    && a.t < |s.threads|
    && var pc := s.threads[a.t];
       match a
       case Call(_, op) => pc.Idle? && IsCall(op)
       case CallNotify(_) => pc.Idle?
       case Lock(_) => pc.Locking? && forall u | 0 <= u < |s.threads| :: !HasLock(s.threads[u])
       case Run(_) => pc.Holding? && IsCall(pc.op)
       case Unlock(_) => pc.Leaving?
       case Notify(_, waiter) =>
         pc.Notifying? && pc.notify != Nobody && waiter < |s.threads| && SleepsFor(s.threads[waiter], pc.notify)
       case NotifyNobody(_) =>
         pc.Notifying? && forall u | 0 <= u < |s.threads| :: !(pc.notify != Nobody && SleepsFor(s.threads[u], pc.notify))
       case SpuriousWake(_) => pc.Sleeping?
  }

  function To<T>(s: State<T>, t: nat, pc: Pc<T>): State<T>
    requires t < |s.threads|
  {
    s.(threads := s.threads[t := pc])
  }

  /** The pass under the lock. */
  function RunPass<T>(s: State<T>, t: nat): State<T>
    requires t < |s.threads| && s.threads[t].Holding? && IsCall(s.threads[t].op)
  {
    var op := s.threads[t].op;
    match UnderLock(op, s.shared)
    case Sleep => To(s, t, Sleeping(op))
    case Leave(after, notify, took, gave, threw) =>
      State(after, s.threads[t := Leaving(notify)], s.taken + took, s.given + gave,
            s.triggers + (if op.TriggerWakeup? then 1 else 0), s.thrown + (if threw then 1 else 0))
  }

  function Step<T>(s: State<T>, a: Action<T>): State<T>
    requires Enabled(s, a)
  {
    match a
    case Call(t, op) => To(s, t, Locking(op))
    case CallNotify(t) => To(s, t, Notifying(Rx))
    case Lock(t) => To(s, t, Holding(s.threads[t].op))
    case Run(t) => RunPass(s, t)
    case Unlock(t) => To(s, t, Notifying(s.threads[t].notify))
    case Notify(t, waiter) => To(To(s, waiter, Locking(s.threads[waiter].op)), t, Idle)
    case NotifyNobody(t) => To(s, t, Idle)
    case SpuriousWake(t) => To(s, t, Locking(s.threads[t].op))
  }

  /** Every action of the list is enabled when its turn comes. */
  predicate IsRun<T>(s: State<T>, run: seq<Action<T>>)
    decreases |run|
  {
    run == [] || (Enabled(s, run[0]) && IsRun(Step(s, run[0]), run[1..]))
  }

  function After<T>(s: State<T>, run: seq<Action<T>>): State<T>
    requires IsRun(s, run)
    decreases |run|
  {
    if run == [] then s else After(Step(s, run[0]), run[1..])
  }

  // ------------------------------------------------------------------------- the invariants

  ghost predicate MutualExclusion<T>(s: State<T>) {
    forall t, u | 0 <= t < u < |s.threads| :: !(HasLock(s.threads[t]) && HasLock(s.threads[u]))
  }

  ghost predicate SoundOps<T>(s: State<T>) {
    forall t | 0 <= t < |s.threads| ::
      var pc := s.threads[t];
      && (pc.Locking? || pc.Holding? || pc.Sleeping? ==> IsCall(pc.op))
      && (pc.Sleeping? ==> SleepsOn(pc.op) != Nobody)
  }

  /** First in, first out, and nothing lost or made up. */
  ghost predicate Conserved<T>(s: State<T>) {
    s.taken == s.given + s.shared.queue
  }

  /** No wakeup exception without a request of its own. */
  predicate WakeupsCovered<T>(s: State<T>) {
    s.thrown + (if s.shared.wakeup then 1 else 0) <= s.triggers
  }

  ghost predicate Invariant<T>(s: State<T>) {
    MutualExclusion(s) && SoundOps(s) && Conserved(s) && WakeupsCovered(s)
  }

  lemma LockKept<T>(s: State<T>, a: Action<T>)
    requires MutualExclusion(s) && Enabled(s, a)
    ensures MutualExclusion(Step(s, a))
  {}

  lemma OpsKept<T>(s: State<T>, a: Action<T>)
    requires SoundOps(s) && Enabled(s, a)
    ensures SoundOps(Step(s, a))
  {}

  lemma InvariantStep<T>(s: State<T>, a: Action<T>)
    requires Invariant(s) && Enabled(s, a)
    ensures Invariant(Step(s, a))
  {
    LockKept(s, a);
    OpsKept(s, a);
    if a.Run? && UnderLock(s.threads[a.t].op, s.shared).Leave? {
      PassKeepsBooks(s, a.t);
    }
    hide MutualExclusion, SoundOps;
  }

  lemma PassKeepsBooks<T>(s: State<T>, t: nat)
    requires Invariant(s) && Enabled(s, Run(t)) && UnderLock(s.threads[t].op, s.shared).Leave?
    ensures Conserved(RunPass(s, t)) && WakeupsCovered(RunPass(s, t))
  {
    hide MutualExclusion, SoundOps, MustWait;
    var p := UnderLock(s.threads[t].op, s.shared);
    PassConserves(s.threads[t].op, s.shared);
    hide UnderLock;
    BooksBalance(s.given, s.shared.queue, p.took, p.gave, p.after.queue);
  }

  lemma BooksBalance<T>(given: seq<T>, queue: seq<T>, took: seq<T>, gave: seq<T>, after: seq<T>)
    requires gave + after == queue + took
    ensures (given + queue) + took == (given + gave) + after
  {
    assert (given + queue) + took == given + (queue + took);
  }

  /** Mutual exclusion, first-in-first-out conservation and the wakeup count hold in every
      reachable state, for any number of threads calling anything. */
  lemma {:induction false} InvariantHolds<T>(s: State<T>, run: seq<Action<T>>)
    requires Invariant(s) && IsRun(s, run)
    ensures Invariant(After(s, run)) && |After(s, run).threads| == |s.threads|
    decreases |run|
  {
    hide Invariant, Step, Enabled;
    if run != [] {
      InvariantStep(s, run[0]);
      StepKeepsThreads(s, run[0]);
      InvariantHolds(Step(s, run[0]), run[1..]);
    }
  }

  lemma StepKeepsThreads<T>(s: State<T>, a: Action<T>)
    requires Enabled(s, a)
    ensures |Step(s, a).threads| == |s.threads|
  {}

  lemma InitInvariant<T>(n: nat)
    ensures Invariant(Init<T>(n))
  {}

  /** So in every state that threads starting idle can reach. */
  lemma ReachableStates<T>(n: nat, run: seq<Action<T>>)
    requires IsRun(Init(n), run)
    ensures var s := After(Init(n), run); MutualExclusion(s) && Conserved(s) && WakeupsCovered(s) && |s.threads| == n
  {
    hide MutualExclusion, SoundOps, Conserved, WakeupsCovered, IsRun, After;
    InitInvariant<T>(n);
    InvariantHolds(Init(n), run);
  }

  /** What was taken in or given out stays so. */
  lemma {:induction false} HistoriesGrow<T>(s: State<T>, run: seq<Action<T>>)
    requires IsRun(s, run)
    ensures s.taken <= After(s, run).taken && s.given <= After(s, run).given
    ensures s.triggers <= After(s, run).triggers && s.thrown <= After(s, run).thrown
    decreases |run|
  {
    if run != [] {
      HistoryStep(s, run[0]);
      hide Step, Enabled;
      HistoriesGrow(Step(s, run[0]), run[1..]);
    }
  }

  lemma HistoryStep<T>(s: State<T>, a: Action<T>)
    requires Enabled(s, a)
    ensures
      var s' := Step(s, a);
      s.taken <= s'.taken && s.given <= s'.given && s.triggers <= s'.triggers && s.thrown <= s'.thrown
  {}

  /** A wakeup request stays until a consumer has got its exception, whatever is queued. */
  lemma {:induction false} RequestUntilThrown<T>(s: State<T>, run: seq<Action<T>>)
    requires IsRun(s, run) && s.shared.wakeup
    ensures After(s, run).shared.wakeup || After(s, run).thrown > s.thrown
    decreases |run|
  {
    if run != [] {
      var s' := Step(s, run[0]);
      RequestStep(s, run[0]);
      hide Step, Enabled;
      if s'.shared.wakeup {
        RequestUntilThrown(s', run[1..]);
      } else {
        HistoriesGrow(s', run[1..]);
      }
    }
  }

  lemma RequestStep<T>(s: State<T>, a: Action<T>)
    requires Enabled(s, a) && s.shared.wakeup
    ensures Step(s, a).shared.wakeup ==> Step(s, a).thrown == s.thrown
    ensures !Step(s, a).shared.wakeup ==> Step(s, a).thrown == s.thrown + 1 && Step(s, a).shared.queue == s.shared.queue
  {}

  // ------------------------------------------------------------------------- bounded queues

  /** Every push is limited to `bound` elements. */
  predicate IsBoundedOp<T>(op: Op<T>, bound: nat) {
    && (op.Push? ==> 1 <= op.maxSize <= bound)
    && (op.PushWaitIfFull? ==> op.threshold <= bound)
  }

  predicate Bounded<T>(s: State<T>, bound: nat) {
    && |s.shared.queue| <= bound
    && forall t | 0 <= t < |s.threads| ::
         s.threads[t].Locking? || s.threads[t].Holding? || s.threads[t].Sleeping? ==> IsBoundedOp(s.threads[t].op, bound)
  }

  lemma BoundedStep<T>(s: State<T>, a: Action<T>, bound: nat)
    requires Bounded(s, bound) && Enabled(s, a) && (a.Call? ==> IsBoundedOp(a.op, bound))
    ensures Bounded(Step(s, a), bound)
  {}

  /** The size never exceeds the bound that all pushes respect. */
  lemma {:induction false} SizeStaysBounded<T>(s: State<T>, run: seq<Action<T>>, bound: nat)
    requires Bounded(s, bound) && IsRun(s, run)
    requires forall i | 0 <= i < |run| :: run[i].Call? ==> IsBoundedOp(run[i].op, bound)
    ensures Bounded(After(s, run), bound)
    decreases |run|
  {
    hide Bounded, Step, Enabled, IsBoundedOp;
    if run != [] {
      BoundedStep(s, run[0], bound);
      SizeStaysBounded(Step(s, run[0]), run[1..], bound);
    }
  }
}

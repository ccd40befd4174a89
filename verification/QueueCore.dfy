/** lib/ThreadsafeQueue.h: what each operation does while it holds the mutex. */
module QueueCore {

  /** The two condition variables. */
  datatype Notification = Rx | Tx | Nobody

  /** What the mutex protects. */
  datatype Shared<T> = Shared(queue: seq<T>, wakeup: bool)

  datatype Op<T> =
    | Push(val: T, maxSize: nat)
    | PushWaitIfFull(val: T, threshold: nat)
    | TriggerWakeup
    | TryPop
    | WaitAndPop(prebuffering: nat)

  /** One pass of an operation under the lock: it goes to sleep, or it leaves with a new state,
      somebody to notify after unlocking, and what it took in, gave out or threw. */
  datatype Pass<T> =
    | Sleep
    | Leave(after: Shared<T>, notify: Notification, took: seq<T>, gave: seq<T>, threw: bool)

  /** Where a sleeping operation sleeps. */
  function SleepsOn<T>(op: Op<T>): Notification {
    match op
    case PushWaitIfFull(_, _) => Tx
    case WaitAndPop(_) => Rx
    case _ => Nobody
  }

  /** The condition of the wait loop. */
  predicate MustWait<T>(op: Op<T>, s: Shared<T>) {
    match op
    case PushWaitIfFull(_, threshold) => |s.queue| >= threshold
    case WaitAndPop(prebuffering) => |s.queue| < prebuffering && !s.wakeup
    case _ => false
  }

  /** Popping for a prebuffering of zero would read the front of an empty queue: callers ask for
      one element at least. */
  predicate IsCall<T>(op: Op<T>) {
    op.WaitAndPop? ==> op.prebuffering >= 1
  }

  function UnderLock<T>(op: Op<T>, s: Shared<T>): Pass<T>
    requires IsCall(op)
  {
    if MustWait(op, s) then Sleep else
      match op
      case Push(val, maxSize) =>
        if maxSize == 0 || |s.queue| < maxSize
        then Leave(s.(queue := s.queue + [val]), Rx, [val], [], false)
        else Leave(s, Rx, [], [], false)
      case PushWaitIfFull(val, _) => Leave(s.(queue := s.queue + [val]), Rx, [val], [], false)
      case TriggerWakeup => Leave(s.(wakeup := true), Rx, [], [], false)
      case TryPop =>
        if s.queue == [] then Leave(s, Nobody, [], [], false)
        else Leave(s.(queue := s.queue[1..]), Tx, [], [s.queue[0]], false)
      case WaitAndPop(_) =>
        if s.wakeup then Leave(s.(wakeup := false), Nobody, [], [], true)
        else Leave(s.(queue := s.queue[1..]), Tx, [], [s.queue[0]], false)
  }

  /** A pass leaves the queue with what was in it and what it took in, less what it gave out in
      front.  A consumer is notified by every push, also one that discards its element, and by every
      wakeup request; a producer by every pass that gave something out.  Nothing is given out with
      an exception. */
  lemma PassConserves<T>(op: Op<T>, s: Shared<T>)
    requires IsCall(op) && UnderLock(op, s).Leave?
    ensures
      var p := UnderLock(op, s);
      && p.gave + p.after.queue == s.queue + p.took
      && (p.notify == Rx <==> op.Push? || op.PushWaitIfFull? || op.TriggerWakeup?)
      && (p.notify == Tx <==> p.gave != [])
      && (p.took != [] ==> p.notify == Rx)
      && (p.after.wakeup && !s.wakeup ==> p.notify == Rx)
      && (p.threw <==> op.WaitAndPop? && s.wakeup)
      && (p.threw ==> p.after == s.(wakeup := false))
  {
    var p := UnderLock(op, s);
    if s.queue != [] {
      assert s.queue == [s.queue[0]] + s.queue[1..];
    }
    assert p.gave + p.after.queue == s.queue + p.took;
  }
}

/** lib/ThreadsafeQueue.h: the operations as they run in one thread.  Waiting gives up the mutex,
    so each wait is answered by the state in which the other threads leave the queue; the list
    `wakes` holds those answers. */
module ThreadsafeQueue {

  import opened QueueCore

  datatype Popped<T> = Value(value: T) | Wakeup | Nothing

  datatype Pushed = Size(size: nat) | StillFull

  /** The first state in which the operation need not wait, |states| if there is none. */
  function FirstPass<T>(op: Op<T>, states: seq<Shared<T>>): (i: nat)
    ensures i <= |states|
    ensures forall k | 0 <= k < i :: MustWait(op, states[k])
    ensures i < |states| ==> !MustWait(op, states[i])
  {
    if states == [] || !MustWait(op, states[0]) then 0 else 1 + FirstPass(op, states[1..])
  }

  lemma {:induction false} FirstPassIs<T>(op: Op<T>, states: seq<Shared<T>>, i: nat)
    requires i <= |states| && forall k | 0 <= k < i :: MustWait(op, states[k])
    requires i < |states| ==> !MustWait(op, states[i])
    ensures FirstPass(op, states) == i
  {
    if i > 0 {
      forall k | 0 <= k < i - 1 ensures MustWait(op, states[1..][k]) {
        assert states[1..][k] == states[k + 1];
      }
      FirstPassIs(op, states[1..], i - 1);
    }
  }

  class ThreadsafeQueue<T> {

    var theQueue: seq<T>
    var wakeupRequested: bool

    function State(): Shared<T>
      reads this
    {
      Shared(theQueue, wakeupRequested)
    }

    constructor ()
      ensures State() == Shared([], false)
    {
      theQueue, wakeupRequested := [], false;
    }

    /** Takes the element unless the queue already holds `maxSize` elements, zero being no limit;
        returns the new size either way. */
    method Push(val: T, maxSize: nat) returns (queueSize: nat)
      modifies this
      ensures UnderLock(Op.Push(val, maxSize), old(State())).after == State()
      ensures theQueue == if maxSize > 0 && old(|theQueue|) >= maxSize then old(theQueue) else old(theQueue) + [val]
      ensures queueSize == |theQueue| && wakeupRequested == old(wakeupRequested)
    {
      var queueSizeBefore := |theQueue|;
      if maxSize == 0 {
        theQueue := theQueue + [val];
      } else if queueSizeBefore < maxSize {
        theQueue := theQueue + [val];
      }
      queueSize := |theQueue|;
    }

    /** Waits for a size below `threshold`, then appends. */
    method PushWaitIfFull(val: T, threshold: nat, wakes: seq<Shared<T>>) returns (r: Pushed)
      modifies this
      ensures
        var op, states := Op.PushWaitIfFull(val, threshold), [old(State())] + wakes;
        var i := FirstPass(op, states);
        if i == |states| then r == StillFull && State() == states[i - 1]
        else
          && State() == UnderLock(op, states[i]).after
          && theQueue == states[i].queue + [val] && |theQueue| <= threshold
          && r == Size(|theQueue|) && wakeupRequested == states[i].wakeup
    {
      ghost var states := [State()] + wakes;
      var i := 0;
      while |theQueue| >= threshold
        invariant 0 <= i <= |wakes|
        invariant State() == states[i]
        invariant forall k | 0 <= k < i :: MustWait(Op.PushWaitIfFull(val, threshold), states[k])
        decreases |wakes| - i
      {
        if i == |wakes| {
          FirstPassIs(Op.PushWaitIfFull(val, threshold), states, i + 1);
          return StillFull;
        }
        theQueue, wakeupRequested := wakes[i].queue, wakes[i].wakeup;
        i := i + 1;
      }
      FirstPassIs(Op.PushWaitIfFull(val, threshold), states, i);
      theQueue := theQueue + [val];
      r := Size(|theQueue|);
    }

    method TriggerWakeup()
      modifies this
      ensures State() == UnderLock(Op<T>.TriggerWakeup, old(State())).after
      ensures wakeupRequested && theQueue == old(theQueue)
    {
      wakeupRequested := true;
    }

    /** The front element, if there is one. */
    method TryPop() returns (r: Popped<T>)
      modifies this
      ensures State() == UnderLock(Op<T>.TryPop, old(State())).after
      ensures old(theQueue) == [] ==> r == Nothing && theQueue == []
      ensures old(theQueue) != [] ==> r.Value? && old(theQueue) == [r.value] + theQueue
      ensures wakeupRequested == old(wakeupRequested)
    {
      if theQueue == [] {
        return Nothing;
      }
      r := Value(theQueue[0]);
      theQueue := theQueue[1..];
    }

    /** Waits for `prebuffering` elements or a wakeup request; the request comes first, and is
        used up without touching the elements. */
    method WaitAndPop(prebuffering: nat, wakes: seq<Shared<T>>) returns (r: Popped<T>)
      requires prebuffering >= 1
      modifies this
      ensures
        var op, states := Op<T>.WaitAndPop(prebuffering), [old(State())] + wakes;
        var i := FirstPass(op, states);
        if i == |states| then r == Nothing && State() == states[i - 1]
        else
          && State() == UnderLock(op, states[i]).after
          && (if states[i].wakeup then r == Wakeup && theQueue == states[i].queue && !wakeupRequested
              else r.Value? && states[i].queue == [r.value] + theQueue && |theQueue| >= prebuffering - 1)
    {
      ghost var states := [State()] + wakes;
      var i := 0;
      while |theQueue| < prebuffering && !wakeupRequested
        invariant 0 <= i <= |wakes|
        invariant State() == states[i]
        invariant forall k | 0 <= k < i :: MustWait(Op<T>.WaitAndPop(prebuffering), states[k])
        decreases |wakes| - i
      {
        if i == |wakes| {
          FirstPassIs(Op<T>.WaitAndPop(prebuffering), states, i + 1);
          return Nothing;
        }
        theQueue, wakeupRequested := wakes[i].queue, wakes[i].wakeup;
        i := i + 1;
      }
      FirstPassIs(Op<T>.WaitAndPop(prebuffering), states, i);
      if wakeupRequested {
        wakeupRequested := false;
        r := Wakeup;
      } else {
        r := Value(theQueue[0]);
        theQueue := theQueue[1..];
      }
    }
  }
}

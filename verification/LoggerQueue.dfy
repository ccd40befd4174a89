/** lib/Log.cpp on lib/ThreadsafeQueue.h: the interleavings of the queue that the logger allows are
    runs of LogProtocol.dfy, and the io thread never sleeps while there is something to take. */
module LoggerQueue {

  import opened QueueCore
  import Q = QueueProtocol
  import W = QueueWakeups
  import L = LogProtocol

  type QState = Q.State<L.Message>
  type QAction = Q.Action<L.Message>

  /** What threads other than the io thread ask of the queue: log a line, or request the end. */
  predicate IsClientOp(op: Op<L.Message>) {
    op.TriggerWakeup? || (op.Push? && op.maxSize == 0 && op.val.level != L.Discard)
  }

  /** The io thread only waits for messages, one at a time; it comes back for the next one when it has
      handed out the last one, and not after the exception. */
  predicate ByLogger(q: QState, a: QAction, io: nat) {
    a.Call? ==>
      if a.t == io then
        a.op == WaitAndPop(1) && q.thrown == 0 && (q.given == [] || q.given[|q.given| - 1].text != "")
      else IsClientOp(a.op)
  }

  predicate IsLoggerRun(q: QState, run: seq<QAction>, io: nat)
    decreases |run|
  {
    || run == []
    || (Q.Enabled(q, run[0]) && ByLogger(q, run[0], io) && IsLoggerRun(Q.Step(q, run[0]), run[1..], io))
  }

  predicate HasOp(pc: Q.Pc<L.Message>) {
    pc.Locking? || pc.Holding? || pc.Sleeping?
  }

  /** The two states agree: same queue, same messages accepted; what was popped is what was handed
      out and what is in hand; and the io thread is where the logger says it is. */
  predicate Agree(q: QState, l: L.State, io: nat) {
    && q.shared == l.shared && q.taken == l.accepted && q.given == l.delivered + L.InFlight(l.io)
    && (l.io.Stopped? <==> q.thrown > 0)
    && (forall t | 0 <= t < |q.threads| && HasOp(q.threads[t]) ::
         if t == io then q.threads[t].op == WaitAndPop(1) && l.io.Waiting? else IsClientOp(q.threads[t].op))
  }

  /** What a step of the queue is to the logger: one step, or none. */
  function LogSteps(q: QState, l: L.State, a: QAction, io: nat): seq<L.Action>
    requires Q.Enabled(q, a)
  {
    if a.Call? && a.t == io && l.io.Handling? then [L.Deliver]
    else if a.Run? && UnderLock(q.threads[a.t].op, q.shared).Leave? then
      match q.threads[a.t].op
      case WaitAndPop(_) => [L.Take]
      case TriggerWakeup => [L.Shutdown]
      case Push(val, _) => [L.Log(val.level, val.text)]
      case _ => []
    else []
  }

  lemma OneLogStep(l: L.State, b: L.Action)
    requires L.Enabled(l, b)
    ensures L.IsRun(l, [b]) && L.After(l, [b]) == L.Step(l, b)
  {
    var l' := L.Step(l, b);
    assert [b][1..] == [];
    assert L.IsRun(l', []) && L.After(l', []) == l';
  }

  lemma PassAgrees(q: QState, l: L.State, t: nat, io: nat)
    requires Agree(q, l, io) && Q.Enabled(q, Q.Run(t))
    ensures
      var bs := LogSteps(q, l, Q.Run(t), io);
      L.IsRun(l, bs) && Agree(Q.Step(q, Q.Run(t)), L.After(l, bs), io)
  {
    assert HasOp(q.threads[t]);
    var op := q.threads[t].op;
    if UnderLock(op, q.shared).Leave? {
      match op
      case WaitAndPop(_) => OneLogStep(l, L.Take);
      case TriggerWakeup => OneLogStep(l, L.Shutdown);
      case Push(val, _) =>
        OneLogStep(l, L.Log(val.level, val.text));
        assert L.Message(val.level, val.text) == val;
      case _ =>
    }
  }

  /** Every step of the queue is the matching steps of the logger. */
  lemma StepAgrees(q: QState, l: L.State, a: QAction, io: nat)
    requires Agree(q, l, io) && Q.Enabled(q, a) && ByLogger(q, a, io)
    ensures
      var bs := LogSteps(q, l, a, io);
      L.IsRun(l, bs) && Agree(Q.Step(q, a), L.After(l, bs), io)
  {
    if a.Run? {
      PassAgrees(q, l, a.t, io);
    } else if a.Call? && a.t == io && l.io.Handling? {
      assert q.given[|q.given| - 1] == l.io.message;
      OneLogStep(l, L.Deliver);
    }
  }

  lemma {:induction false} RunAgrees(q: QState, l: L.State, run: seq<QAction>, io: nat) returns (bs: seq<L.Action>)
    requires Agree(q, l, io) && IsLoggerRun(q, run, io)
    ensures Q.IsRun(q, run)
    ensures L.IsRun(l, bs) && Agree(Q.After(q, run), L.After(l, bs), io)
    decreases |run|
  {
    hide Agree, ByLogger, LogSteps, Q.Step, Q.Enabled, L.Step, L.Enabled;
    if run == [] {
      bs := [];
    } else {
      var first := LogSteps(q, l, run[0], io);
      StepAgrees(q, l, run[0], io);
      var rest := RunAgrees(Q.Step(q, run[0]), L.After(l, first), run[1..], io);
      bs := first + rest;
      L.RunsJoin(l, first, rest);
    }
  }

  /** Whatever the scheduler does, the queue and the logger stay in step: there is a run of the logger
      with the same accepted, delivered and queued messages. */
  lemma QueueRunsAreLoggerRuns(n: nat, run: seq<QAction>, io: nat) returns (bs: seq<L.Action>)
    requires IsLoggerRun(Q.Init(n), run, io)
    ensures Q.IsRun(Q.Init(n), run)
    ensures L.IsRun(L.INIT, bs) && Agree(Q.After(Q.Init(n), run), L.After(L.INIT, bs), io)
  {
    bs := RunAgrees(Q.Init(n), L.INIT, run, io);
  }

  lemma {:induction false} LoggerKeepsRoles(q: QState, run: seq<QAction>, io: nat)
    requires IsLoggerRun(q, run, io)
    ensures Q.IsRun(q, run) && forall i | 0 <= i < |run| :: W.ByRole(run[i], W.Roles(io, io + 1))
    decreases |run|
  {
    hide Q.Step, Q.Enabled;
    if run != [] {
      LoggerKeepsRoles(Q.Step(q, run[0]), run[1..], io);
      forall i | 0 <= i < |run| ensures W.ByRole(run[i], W.Roles(io, io + 1)) {
        if i > 0 {
          assert run[i] == run[1..][i - 1];
        }
      }
    }
  }

  /** While there is a message or a request to take, a sleeping io thread is about to be woken: some
      other thread does it in at most two steps of its own, and there still is something then. */
  lemma IoThreadIsWoken(n: nat, run: seq<QAction>, io: nat) returns (u: nat, wake: seq<QAction>)
    requires IsLoggerRun(Q.Init(n), run, io) && Q.IsRun(Q.Init(n), run)
    requires
      var q := Q.After(Q.Init(n), run);
      io < |q.threads| && q.threads[io] == Q.Sleeping(WaitAndPop(1)) && (q.shared.queue != [] || q.shared.wakeup)
    ensures u != io && |wake| <= 2 && forall i | 0 <= i < |wake| :: wake[i].t == u
    ensures
      var q := Q.After(Q.Init(n), run);
      && Q.IsRun(q, wake)
      && var q' := Q.After(q, wake);
         io < |q'.threads| && q'.threads[io] == Q.Locking(WaitAndPop(1)) && !MustWait(WaitAndPop(1), q'.shared)
  {
    var q := Q.After(Q.Init(n), run);
    LoggerKeepsRoles(Q.Init(n), run, io);
    W.NoWakeupIsEverLost(n, run, W.Roles(io, io + 1));
    assert W.SleepsNeedlessly(q, io);
    u :| 0 <= u < |q.threads| && W.NotifiesSoon(q.threads[u], Rx);
    wake := W.HelperWakes(q, u, io, Rx);
  }
}

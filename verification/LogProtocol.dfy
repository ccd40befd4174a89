/** lib/Log.cpp under every interleaving of threads that log, register backends and shut the
    logger down, with the thread that hands the lines to the backends.  Queue operations are the
    passes of QueueCore.dfy; a backend is the list of lines it received. */
module LogProtocol {

  import opened QueueCore

  datatype Level = Debug | Info | Warn | Error | Alert | Emerg | Trace | Discard

  datatype Message = Message(level: Level, text: string)

  datatype Io = Waiting | Handling(message: Message) | Stopped

  /** `accepted` and `delivered` record the run. */
  datatype State = State(
    shared: Shared<Message>, io: Io, backends: seq<seq<Message>>, accepted: seq<Message>, delivered: seq<Message>)

  datatype Action = Log(level: Level, text: string) | Register | Shutdown | Take | Deliver

  const INIT := State(Shared([], false), Waiting, [], [], [])

  predicate NoneEmpty(ms: seq<Message>) {
    forall m | m in ms :: m.text != ""
  }

  /** The line as the backends get it: without its newline, if it ends in one. */
  function Rendered(m: Message): (line: Message)
    requires m.text != ""
    ensures line.level == m.level
    ensures m.text == if m.text[|m.text| - 1] == '\n' then line.text + "\n" else line.text
  {
    var last := |m.text| - 1;
    if m.text[last] == '\n' then m.(text := m.text[..last]) else m
  }

  function RenderedAll(ms: seq<Message>): seq<Message>
    requires NoneEmpty(ms)
  {
    seq(|ms|, i requires 0 <= i < |ms| => Rendered(ms[i]))
  }

  /** The io thread reads the last character of a message: handing out an empty one, which has
      none, is undefined. */
  predicate Enabled(s: State, a: Action) {
    match a
    case Log(_, _) => true
    case Register => true
    case Shutdown => true
    case Take => s.io.Waiting? && !MustWait(WaitAndPop(1), s.shared)
    case Deliver => s.io.Handling? && s.io.message.text != ""
  }

  function Step(s: State, a: Action): State
    requires Enabled(s, a)
  {
    match a
    case Log(level, text) =>
      if level == Discard then s else
        var p := UnderLock(Push(Message(level, text), 0), s.shared);
        s.(shared := p.after, accepted := s.accepted + p.took)
    case Register => s.(backends := s.backends + [[]])
    case Shutdown => s.(shared := UnderLock(TriggerWakeup, s.shared).after)
    case Take =>
      var p := UnderLock(WaitAndPop(1), s.shared);
      s.(shared := p.after, io := if p.threw then Stopped else Handling(p.gave[0]))
    case Deliver =>
      var m := s.io.message;
      s.(io := Waiting, delivered := s.delivered + [m],
         backends := seq(|s.backends|, i requires 0 <= i < |s.backends| => s.backends[i] + [Rendered(m)]))
  }

  predicate IsRun(s: State, run: seq<Action>)
    decreases |run|
  {
    run == [] || (Enabled(s, run[0]) && IsRun(Step(s, run[0]), run[1..]))
  }

  function After(s: State, run: seq<Action>): State
    requires IsRun(s, run)
    decreases |run|
  {
    if run == [] then s else After(Step(s, run[0]), run[1..])
  }

  function InFlight(io: Io): seq<Message> {
    if io.Handling? then [io.message] else []
  }

  /** What has been accepted and not yet handed out. */
  function Pending(s: State): seq<Message> {
    InFlight(s.io) + s.shared.queue
  }

  predicate Conserved(s: State) {
    s.accepted == s.delivered + Pending(s)
  }

  predicate NoneDiscarded(s: State) {
    forall m | m in s.accepted :: m.level != Discard
  }

  predicate Invariant(s: State) {
    NoneDiscarded(s) && Conserved(s) && NoneEmpty(s.delivered)
  }

  lemma InvariantStep(s: State, a: Action)
    requires Invariant(s) && Enabled(s, a)
    ensures Invariant(Step(s, a))
  {
    match a
    case Log(level, text) =>
      if level != Discard {
        var m := Message(level, text);
        assert s.accepted + [m] == s.delivered + (InFlight(s.io) + (s.shared.queue + [m]));
      }
    case Take =>
      var p := UnderLock(WaitAndPop(1), s.shared);
      PassConserves(WaitAndPop(1), s.shared);
      if !p.threw {
        assert s.shared.queue == [s.shared.queue[0]] + p.after.queue;
      }
    case Deliver =>
      assert s.accepted == (s.delivered + [s.io.message]) + s.shared.queue;
    case _ =>
  }

  lemma {:induction false} InvariantHolds(s: State, run: seq<Action>)
    requires Invariant(s) && IsRun(s, run)
    ensures Invariant(After(s, run))
    decreases |run|
  {
    if run != [] {
      InvariantStep(s, run[0]);
      hide Invariant, Step, Enabled;
      InvariantHolds(Step(s, run[0]), run[1..]);
    }
  }

  /** The messages a run logs, in order. */
  function Logged(run: seq<Action>): seq<Message> {
    if run == [] then []
    else
      var rest := Logged(run[1..]);
      if run[0].Log? && run[0].level != Discard then [Message(run[0].level, run[0].text)] + rest else rest
  }

  /** Those are accepted, all of them and nothing else. */
  lemma {:induction false} AcceptedAreLogged(s: State, run: seq<Action>)
    requires IsRun(s, run)
    ensures After(s, run).accepted == s.accepted + Logged(run)
    decreases |run|
  {
    if run != [] {
      AcceptedAreLogged(Step(s, run[0]), run[1..]);
    }
  }

  /** Backend `i` holds the lines handed out behind the first `k`. */
  predicate HoldsFrom(s: State, i: nat, k: nat) {
    && i < |s.backends| && k <= |s.delivered| && NoneEmpty(s.delivered)
    && s.backends[i] == RenderedAll(s.delivered[k..])
  }

  lemma HoldsStep(s: State, a: Action, i: nat, k: nat)
    requires Enabled(s, a) && HoldsFrom(s, i, k)
    ensures HoldsFrom(Step(s, a), i, k)
  {
    if a.Deliver? {
      assert (s.delivered + [s.io.message])[k..] == s.delivered[k..] + [s.io.message];
    }
  }

  lemma {:induction false} HoldsOn(s: State, run: seq<Action>, i: nat, k: nat)
    requires IsRun(s, run) && HoldsFrom(s, i, k)
    ensures HoldsFrom(After(s, run), i, k)
    decreases |run|
  {
    if run != [] {
      HoldsStep(s, run[0], i, k);
      hide HoldsFrom, Step, Enabled;
      HoldsOn(Step(s, run[0]), run[1..], i, k);
    }
  }

  /** A run cut before its action `n`. */
  lemma {:induction false} RunSplits(s: State, run: seq<Action>, n: nat)
    requires IsRun(s, run) && n < |run|
    ensures IsRun(s, run[..n])
    ensures
      var before := After(s, run[..n]);
      && Enabled(before, run[n]) && IsRun(Step(before, run[n]), run[n + 1..])
      && After(s, run) == After(Step(before, run[n]), run[n + 1..])
    decreases n
  {
    hide Step, Enabled;
    if n > 0 {
      RunSplits(Step(s, run[0]), run[1..], n - 1);
      assert run[..n][1..] == run[1..][..n - 1] && run[1..][n..] == run[n + 1..];
    }
  }

  /** Whoever registers as action `n` of a run ends with the accepted messages from the first one
      not handed out then to the last one handed out, in order and each without its newline. */
  lemma RegisteredGetsTheRest(run: seq<Action>, n: nat)
    requires IsRun(INIT, run) && n < |run| && run[n] == Register
    ensures IsRun(INIT, run[..n])
    ensures
      var before, s := After(INIT, run[..n]), After(INIT, run);
      var i, k := |before.backends|, |before.delivered|;
      && i < |s.backends| && k <= |s.delivered| <= |s.accepted| && |s.backends[i]| == |s.delivered| - k
      && forall j | 0 <= j < |s.delivered| - k ::
           var m, line := s.accepted[k + j], s.backends[i][j];
           && m.text != "" && line.level == m.level
           && m.text == if m.text[|m.text| - 1] == '\n' then line.text + "\n" else line.text
  {
    hide Step, Enabled, IsRun, After, HoldsFrom, NoneDiscarded, Conserved, NoneEmpty;
    InitInvariant();
    RunSplits(INIT, run, n);
    var before, s := After(INIT, run[..n]), After(INIT, run);
    InvariantHolds(INIT, run[..n]);
    JoinsEmpty(before);
    HoldsOn(Step(before, Register), run[n + 1..], |before.backends|, |before.delivered|);
    InvariantHolds(INIT, run);
    TheRest(s, |before.backends|, |before.delivered|);
  }

  lemma InitInvariant()
    ensures Invariant(INIT)
  {}

  lemma JoinsEmpty(s: State)
    requires Invariant(s)
    ensures HoldsFrom(Step(s, Register), |s.backends|, |s.delivered|)
  {}

  lemma TheRest(s: State, i: nat, k: nat)
    requires Invariant(s) && HoldsFrom(s, i, k)
    ensures i < |s.backends| && k <= |s.delivered| <= |s.accepted| && |s.backends[i]| == |s.delivered| - k
    ensures
      forall j | 0 <= j < |s.delivered| - k ::
        var m, line := s.accepted[k + j], s.backends[i][j];
        && m.text != "" && line.level == m.level
        && m.text == if m.text[|m.text| - 1] == '\n' then line.text + "\n" else line.text
  {
    forall j | 0 <= j < |s.delivered| - k
      ensures s.accepted[k + j].text != "" && s.backends[i][j] == Rendered(s.accepted[k + j])
    {
      assert s.accepted[k + j] == s.delivered[k + j] == s.delivered[k..][j];
    }
    hide Rendered;
  }

  /** And every backend is the one some action registered. */
  lemma {:induction false} EveryBackendRegistered(s: State, run: seq<Action>, i: nat) returns (n: nat)
    requires IsRun(s, run) && |s.backends| <= i < |After(s, run).backends|
    ensures n < |run| && run[n] == Register && IsRun(s, run[..n]) && |After(s, run[..n]).backends| == i
    decreases |run|
  {
    var s' := Step(s, run[0]);
    if i < |s'.backends| {
      n := 0;
    } else {
      var later := EveryBackendRegistered(s', run[1..], i);
      n := later + 1;
      assert run[..n][1..] == run[1..][..later];
    }
  }

  lemma LastTurnStep(s: State, a: Action)
    requires Enabled(s, a) && (s.shared.wakeup || s.io.Stopped?)
    ensures Step(s, a).shared.wakeup || Step(s, a).io.Stopped?
    ensures Step(s, a).delivered + InFlight(Step(s, a).io) == s.delivered + InFlight(s.io)
  {}

  /** Once shutdown is requested only the line already in hand is still delivered: whatever is
      queued then, or logged later, never is. */
  lemma {:induction false} NothingAfterShutdown(s: State, run: seq<Action>)
    requires IsRun(s, run) && (s.shared.wakeup || s.io.Stopped?)
    ensures After(s, run).delivered + InFlight(After(s, run).io) == s.delivered + InFlight(s.io)
    decreases |run|
  {
    if run != [] {
      LastTurnStep(s, run[0]);
      hide Step, Enabled;
      NothingAfterShutdown(Step(s, run[0]), run[1..]);
    }
  }

  lemma {:induction false} RunsJoin(s: State, a: seq<Action>, b: seq<Action>)
    requires IsRun(s, a) && IsRun(After(s, a), b)
    ensures IsRun(s, a + b) && After(s, a + b) == After(After(s, a), b)
    decreases |a|
  {
    hide Step, Enabled;
    if a == [] {
      assert a + b == b;
    } else {
      assert (a + b)[1..] == a[1..] + b;
      RunsJoin(Step(s, a[0]), a[1..], b);
    }
  }

  /** Until then the io thread, left alone, hands out everything accepted. */
  lemma {:induction false} EverythingDeliveredOtherwise(s: State) returns (run: seq<Action>)
    requires Invariant(s) && !s.shared.wakeup && !s.io.Stopped? && NoneEmpty(Pending(s))
    ensures IsRun(s, run) && forall a | a in run :: a.Take? || a.Deliver?
    ensures After(s, run).delivered == s.accepted == After(s, run).accepted
    decreases |s.shared.queue|, if s.io.Handling? then 1 else 0
  {
    if s.io.Handling? {
      assert Pending(s)[0] == s.io.message;
      run := OneFirst(s, Deliver);
    } else if s.shared.queue != [] {
      run := OneFirst(s, Take);
    } else {
      run := [];
    }
  }

  lemma {:induction false} OneFirst(s: State, a: Action) returns (run: seq<Action>)
    requires Invariant(s) && !s.shared.wakeup && !s.io.Stopped? && NoneEmpty(Pending(s)) && Enabled(s, a)
    requires a.Deliver? || (a.Take? && s.shared.queue != [])
    ensures IsRun(s, run) && forall b | b in run :: b.Take? || b.Deliver?
    ensures After(s, run).delivered == s.accepted == After(s, run).accepted
    decreases |s.shared.queue|, if s.io.Handling? then 1 else 0, 0
  {
    InvariantStep(s, a);
    var s' := Step(s, a);
    assert forall m | m in Pending(s') :: m in Pending(s);
    var rest := EverythingDeliveredOtherwise(s');
    run := [a] + rest;
    assert run[1..] == rest;
  }

  /** The io thread can hand out everything accepted so far exactly when no pending message is
      empty, and nobody has asked the thread to stop or nothing is queued behind that request. */
  lemma DeliversAllIff(s: State)
    requires Invariant(s)
    ensures (exists run: seq<Action> :: DeliversAll(s, run))
      <==> NoneEmpty(Pending(s)) && ((!s.shared.wakeup && !s.io.Stopped?) || s.shared.queue == [])
  {
    hide Step, Enabled;
    if NoneEmpty(Pending(s)) && !s.shared.wakeup && !s.io.Stopped? {
      var run := EverythingDeliveredOtherwise(s);
      assert DeliversAll(s, run);
    } else if NoneEmpty(Pending(s)) && s.shared.queue == [] {
      LastLine(s);
    }
    forall run | DeliversAll(s, run)
      ensures NoneEmpty(Pending(s)) && ((!s.shared.wakeup && !s.io.Stopped?) || s.shared.queue == [])
    {
      InvariantHolds(s, run);
      assert Pending(s) == s.accepted[|s.delivered|..];
      if s.shared.wakeup || s.io.Stopped? {
        NothingAfterShutdown(s, run);
        assert |s.delivered| + |InFlight(s.io)| >= |After(s, run).delivered|;
      }
    }
  }

  predicate DeliversAll(s: State, run: seq<Action>) {
    IsRun(s, run) && (forall a | a in run :: a.Take? || a.Deliver?) && After(s, run).delivered == s.accepted
  }

  lemma LastLine(s: State)
    requires Invariant(s) && s.shared.queue == [] && NoneEmpty(Pending(s))
    ensures exists run: seq<Action> :: DeliversAll(s, run)
  {
    if s.io.Handling? {
      assert Pending(s)[0] == s.io.message;
      var s' := Step(s, Deliver);
      assert IsRun(s', []) && After(s', []) == s';
      assert [Deliver][1..] == [];
      assert DeliversAll(s, [Deliver]);
    } else {
      assert DeliversAll(s, []);
    }
  }

  /** So a line logged before the shutdown may never arrive. */
  lemma LineLostAtShutdown(text: string)
    ensures
      var run := [Register, Log(Info, text), Shutdown, Take];
      && IsRun(INIT, run) && After(INIT, run).io.Stopped?
      && After(INIT, run).accepted == [Message(Info, text)]
      && After(INIT, run).backends == [[]]
  {
    var run := [Register, Log(Info, text), Shutdown, Take];
    var s1 := Step(INIT, Register);
    var s2 := Step(s1, Log(Info, text));
    var s3 := Step(s2, Shutdown);
    var s4 := Step(s3, Take);
    assert run[1..] == [Log(Info, text), Shutdown, Take] && run[2..] == [Shutdown, Take] && run[3..] == [Take];
    assert run[1..][1..] == run[2..] && run[2..][1..] == run[3..] && run[3..][1..] == [];
    assert IsRun(s4, []) && After(s4, []) == s4;
    assert IsRun(s3, run[3..]) && After(s3, run[3..]) == s4;
    assert IsRun(s2, run[2..]) && After(s2, run[2..]) == s4;
    assert IsRun(s1, run[1..]) && After(s1, run[1..]) == s4;
  }
}

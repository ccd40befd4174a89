/** lib/Log.cpp as it runs: the logger with its list of shared backends, and one turn of the io
    thread's loop. */
module Logger {

  import opened QueueCore
  import opened LogProtocol
  import ThreadsafeQueue

  /** A backend reduced to the lines it received. */
  class LogBackend {

    var lines: seq<Message>

    constructor ()
      ensures lines == []
    {
      lines := [];
    }

    method Log(m: Message)
      modifies this
      ensures lines == old(lines) + [m]
    {
      lines := lines + [m];
    }
  }

  function Copies(m: Message, n: nat): (r: seq<Message>)
    ensures |r| == n && forall k | 0 <= k < n :: r[k] == m
  {
    seq(n, _ => m)
  }

  lemma OneMoreTime(backends: seq<LogBackend>, i: nat)
    requires i < |backends|
    ensures multiset(backends[..i + 1]) == multiset(backends[..i]) + multiset{backends[i]}
  {
    assert backends[..i + 1] == backends[..i] + [backends[i]];
  }

  lemma OneMoreCopy(m: Message, n: nat)
    ensures Copies(m, n + 1) == Copies(m, n) + [m]
  {}

  class Logger {

    const queue: ThreadsafeQueue.ThreadsafeQueue<Message>
    var backends: seq<LogBackend>

    constructor ()
      ensures fresh(queue) && queue.State() == Shared([], false) && backends == []
    {
      queue := new ThreadsafeQueue.ThreadsafeQueue<Message>();
      backends := [];
    }

    method RegisterBackend(backend: LogBackend)
      modifies this
      ensures backends == old(backends) + [backend]
    {
      backends := backends + [backend];
    }

    method Logstr(level: Level, message: string)
      modifies queue
      ensures queue.theQueue == if level == Discard then old(queue.theQueue) else old(queue.theQueue) + [Message(level, message)]
      ensures queue.wakeupRequested == old(queue.wakeupRequested)
    {
      if level == Discard {
        return;
      }
      var _ := queue.Push(Message(level, message), 0);
    }

    /** One turn of the io thread's loop, the queue being left as `wakes` say while it waits.  Only
        for an empty message at the front, whose last character it would read, is it undefined.
        Either the thread stops for a wakeup request and the queue stays as it is, or the front
        message goes to every backend as often as that is registered: with its level, and with its
        text less the newline, if it ends in one. */
    method IoTurn(wakes: seq<Shared<Message>>) returns (stop: bool)
      requires
        var states := [queue.State()] + wakes;
        var i := ThreadsafeQueue.FirstPass(WaitAndPop(1), states);
        i < |states| && !states[i].wakeup ==> states[i].queue[0].text != ""
      modifies queue, backends
      ensures
        var states := [old(queue.State())] + wakes;
        var i := ThreadsafeQueue.FirstPass(WaitAndPop(1), states);
        if i == |states| then !stop && queue.State() == states[i - 1] && forall b | b in backends :: b.lines == old(b.lines)
        else if states[i].wakeup then
          stop && queue.State() == Shared(states[i].queue, false) && forall b | b in backends :: b.lines == old(b.lines)
        else
          && !stop && states[i].queue != [] && queue.State() == Shared(states[i].queue[1..], false)
          && states[i].queue[0].text != ""
          && exists line: Message ::
               var m := states[i].queue[0];
               && line.level == m.level
               && m.text == (if m.text[|m.text| - 1] == '\n' then line.text + "\n" else line.text)
               && forall b | b in backends :: b.lines == old(b.lines) + Copies(line, multiset(backends)[b])
    {
      ghost var states := [queue.State()] + wakes;
      ghost var i := ThreadsafeQueue.FirstPass(WaitAndPop(1), states);
      var r := queue.WaitAndPop(1, wakes);
      if !r.Value? {
        return r.Wakeup?;
      }
      var m := r.value;
      var message := m.text;
      if message[|message| - 1] == '\n' {
        message := message[..|message| - 1];
      }
      DeliverAll(m.(text := message));
      stop := false;
    }

    method DeliverAll(m: Message)
      modifies backends
      ensures forall b | b in backends :: b.lines == old(b.lines) + Copies(m, multiset(backends)[b])
    {
      var i := 0;
      while i < |backends|
        invariant 0 <= i <= |backends|
        invariant forall b | b in backends :: b.lines == old(b.lines) + Copies(m, multiset(backends[..i])[b])
      {
        OneMoreTime(backends, i);
        OneMoreCopy(m, multiset(backends[..i])[backends[i]]);
        backends[i].Log(m);
        i := i + 1;
      }
      assert backends[..i] == backends;
    }

    /** The destructor: the io thread is asked to stop and joined before the list is emptied.  Its
        last pass finds the request, so whatever is queued stays there. */
    method Shutdown()
      modifies this, queue
      ensures queue.State() == Shared(old(queue.theQueue), false) && backends == []
    {
      queue.TriggerWakeup();
      var last := queue.WaitAndPop(1, []);
      assert last == ThreadsafeQueue.Wakeup;
      backends := [];
    }
  }
}

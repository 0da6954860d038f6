/**
 The exporter as the program runs it: the channel, the three batches, the join set, the
 semaphore and the drop counter are updated in place. Every operation is proved to be
 one step of the state machine in Exporter: the object's state is always the end of a
 run, so what holds in every run holds here.
 */
module ExporterLoop {
  import opened Bytes
  import opened Exporter

  /** The phase of a task after a number of answered attempts. */
  function PhaseAfter(answers: seq<bool>, phase: Phase): Phase {
    if answers == [] || !phase.Posting? then phase
    else PhaseAfter(answers[1..], AfterAttempt(phase.failures, answers[0]))
  }

  /** Posts until an attempt succeeds or the attempts are used up. */
  method PostWithRetry(answers: seq<bool>) returns (outcome: Outcome, attempts: nat)
    requires |answers| == 3
    ensures 1 <= attempts <= 3
    ensures forall k | 0 <= k < attempts - 1 :: !answers[k]
    ensures outcome == if answers[attempts - 1] then Delivered else GaveUp
    ensures outcome == GaveUp ==> attempts == 3
    ensures PhaseAfter(answers, Posting(0)) == Finished(outcome)
  {
    attempts := 0;
    while attempts < MAX_ATTEMPTS
      invariant attempts <= MAX_ATTEMPTS
      invariant forall k | 0 <= k < attempts :: !answers[k]
      invariant PhaseAfter(answers, Posting(0))
        == PhaseAfter(answers[attempts..], if attempts < MAX_ATTEMPTS then Posting(attempts) else Finished(GaveUp))
    {
      var ok := answers[attempts];
      assert answers[attempts..][1..] == answers[attempts + 1..];
      attempts := attempts + 1;
      if ok {
        return Delivered, attempts;
      }
    }
    outcome := GaveUp;
  }

  function DropSum(d: PerSignal<nat>): nat {
    d.traces + d.logs + d.metrics
  }

  /** One drop more, of whatever signal, is one more in the wrapping sum. */
  lemma OneDropMore(d: PerSignal<nat>, sig: Signal)
    ensures (DropSum(d) % TWO_64 + 1) % TWO_64 == DropSum(d.Set(sig, d.Get(sig) + 1)) % TWO_64
  {
    assert DropSum(d.Set(sig, d.Get(sig) + 1)) == DropSum(d) + 1 by {
      match sig
      case Traces =>
      case Logs =>
      case Metrics =>
    }
  }

  class ExporterTask {
    const cfg: Config
    var channel: seq<Msg>
    var received: nat  // identifies the Flush that is being answered
    var connected: bool
    var traceBatch: seq<seq<byte>>
    var logBatch: seq<seq<byte>>
    var metricsBatch: seq<seq<byte>>
    var tasks: seq<Task>
    var available: nat
    var control: Control
    var droppedTotal: u64

    ghost var accepted: seq<Msg>
    ghost var discarded: PerSignal<seq<seq<byte>>>
    ghost var attempted: PerSignal<nat>
    ghost var dropped: PerSignal<nat>
    ghost var replies: seq<nat>
    ghost var history: seq<Event>

    ghost function View(): State
      reads this
    {
      State(accepted, received, connected, Held(), control, attempted, dropped, replies)
    }

    ghost function Held(): Work
      reads this
    {
      Work(PerSignal(traceBatch, logBatch, metricsBatch), tasks, discarded)
    }

    /** The channel holds what was accepted and not yet received. */
    ghost predicate ChannelOk()
      reads this`channel, this`accepted, this`received
    {
      received <= |accepted| && channel == accepted[received..]
    }

    /** Permits are either available or held by posting tasks. */
    ghost predicate PermitsOk()
      reads this`available, this`tasks
    {
      available + Sum(tasks, Holds) == cfg.permits
    }

    /** The counter of all signals wraps. */
    ghost predicate DropsOk()
      reads this`droppedTotal, this`dropped
    {
      droppedTotal == DropSum(dropped) % TWO_64
    }

    ghost predicate Valid()
      reads this
    {
      ChannelOk() && PermitsOk() && DropsOk()
    }

    constructor (cfg: Config)
      ensures Recorded() && this.cfg == cfg && View() == INIT && history == []
    {
      this.cfg := cfg;
      channel, received, connected, control, droppedTotal := [], 0, true, Idle, 0;
      traceBatch, logBatch, metricsBatch := [], [], [];
      tasks, available := [], cfg.permits;
      accepted, discarded, replies := [], NO_BATCH, [];
      attempted, dropped := PerSignal(0, 0, 0), PerSignal(0, 0, 0);
      history := [];
    }

    /** The calls so far are a run of the state machine that ends where the object is. */
    ghost predicate Recorded()
      reads this
    {
      Valid() && Run(cfg, INIT, history) == Some(View())
    }

    // --- Producers ---

    /** A message is put into the channel if the loop is there and has room. */
    method TrySend(m: Msg) returns (ok: bool)
      requires ChannelOk()
      modifies this`channel, this`accepted
      ensures ChannelOk() && ok == Room(cfg, old(View()))
      ensures ok == (!control.Exited? && old(|channel|) < cfg.capacity)
      ensures channel == if ok then old(channel) + [m] else old(channel)
      ensures View() == if ok then old(View()).(accepted := old(accepted) + [m]) else old(View())
    {
      ok := !control.Exited? && |channel| < cfg.capacity;
      if ok {
        channel := channel + [m];
        accepted := accepted + [m];
      }
    }

    method CountDrop(sig: Signal)
      requires DropsOk()
      modifies this`dropped, this`droppedTotal
      ensures DropsOk() && View() == old(View()).(dropped := old(dropped).Set(sig, old(dropped).Get(sig) + 1))
      ensures droppedTotal == (old(droppedTotal) + 1) % TWO_64
    {
      OneDropMore(dropped, sig);
      hide DropSum;
      dropped := dropped.Set(sig, dropped.Get(sig) + 1);
      droppedTotal := (droppedTotal + 1) % TWO_64;
    }

    /** A refused data message only bumps the counter. */
    method Send(sig: Signal, data: seq<byte>)
      requires Valid() && connected
      modifies this
      ensures history == old(history)
      ensures Valid() && View() == SendStep(cfg, old(View()), sig, data)
      ensures channel ==
        if !control.Exited? && old(|channel|) < cfg.capacity then old(channel) + [Data(sig, data)] else old(channel)
      ensures droppedTotal == (old(droppedTotal) + if channel == old(channel) then 1 else 0) % TWO_64
    {
      hide ChannelOk, PermitsOk, DropsOk;
      attempted := attempted.Set(sig, attempted.Get(sig) + 1);
      var ok := TrySend(Data(sig, data));
      if !ok {
        CountDrop(sig);
      }
    }

    /** A control message waits for room; on a closed channel it is given up. */
    method SendControl(m: Msg) returns (ok: bool)
      requires Valid() && connected && !m.Data? && (control.Exited? || |channel| < cfg.capacity)
      modifies this`channel, this`accepted
      ensures Valid() && ok == !control.Exited?
      ensures View() == if ok then old(View()).(accepted := old(accepted) + [m]) else old(View())
    {
      hide PermitsOk, DropsOk;
      ok := TrySend(m);
    }

    method DropSenders()
      requires Valid() && connected
      modifies this
      ensures history == old(history)
      ensures Valid() && View() == old(View()).(connected := false)
    {
      connected := false;
    }

    // --- The loop ---

    /** Drains a batch into one payload and spawns its task, or clears it for want of a URL. */
    method FlushOne(sig: Signal)
      modifies this`traceBatch, this`logBatch, this`metricsBatch, this`tasks, this`discarded
      ensures Held() == FlushBatch(cfg, old(Held()), sig)
      ensures Sum(tasks, Holds) == old(Sum(tasks, Holds))
    {
      var batch := match sig case Traces => traceBatch case Logs => logBatch case Metrics => metricsBatch;
      if batch == [] {
        return;
      }
      ClearBatch(sig);
      if !cfg.url.Get(sig) {
        discarded := discarded.Set(sig, discarded.Get(sig) + batch);
        return;
      }
      var payload := JoinItems(batch);
      SumSnoc(tasks, Task(sig, batch, payload, Waiting, false), Holds);
      tasks := tasks + [Task(sig, batch, payload, Waiting, false)];
    }

    method ClearBatch(sig: Signal)
      modifies this`traceBatch, this`logBatch, this`metricsBatch
      ensures Held() == old(Held()).(batch := old(Held()).batch.Set(sig, []))
    {
      match sig
      case Traces => traceBatch := [];
      case Logs => logBatch := [];
      case Metrics => metricsBatch := [];
    }

    static method JoinItems(items: seq<seq<byte>>) returns (payload: seq<byte>)
      ensures payload == Concat(items)
    {
      payload := [];
      var i := 0;
      while i < |items|
        invariant i <= |items|
        invariant payload + Concat(items[i..]) == Concat(items)
      {
        assert items[i..][1..] == items[i + 1..];
        Assoc3(payload, items[i], Concat(items[i + 1..]));
        payload := payload + items[i];
        i := i + 1;
      }
    }

    method FlushThree()
      modifies this`traceBatch, this`logBatch, this`metricsBatch, this`tasks, this`discarded
      ensures Held() == FlushAll(cfg, old(Held()))
      ensures Sum(tasks, Holds) == old(Sum(tasks, Holds))
    {
      FlushOne(Traces);
      FlushOne(Logs);
      FlushOne(Metrics);
    }

    /** `try_join_next` until it yields nothing: every finished task leaves the join set. */
    method ReapFinished()
      modifies this`tasks
      ensures Held() == Reap(old(Held()))
      ensures Sum(tasks, Holds) == old(Sum(tasks, Holds))
    {
      ghost var was := tasks;
      var i := 0;
      while i < |tasks|
        invariant i <= |tasks| == |was|
        invariant forall j | 0 <= j < i :: tasks[j] == ReapTask(was[j])
        invariant forall j | i <= j < |was| :: tasks[j] == was[j]
      {
        if tasks[i].phase.Finished? {
          tasks := tasks[i := tasks[i].(joined := true)];
        }
        i := i + 1;
      }
      SumSame(was, tasks, Holds);
      assert tasks == Reap(old(Held())).tasks;
    }

    method PushData(sig: Signal, data: seq<byte>)
      modifies this`traceBatch, this`logBatch, this`metricsBatch, this`tasks, this`discarded
      ensures Held() == Push(cfg, old(Held()), sig, data)
      ensures Sum(tasks, Holds) == old(Sum(tasks, Holds))
    {
      var size: nat;
      match sig {
        case Traces => traceBatch := traceBatch + [data]; size := |traceBatch|;
        case Logs => logBatch := logBatch + [data]; size := |logBatch|;
        case Metrics => metricsBatch := metricsBatch + [data]; size := |metricsBatch|;
      }
      if size >= cfg.batchSize {
        FlushOne(sig);
      }
    }

    /** Takes the next message out of the channel. */
    method Take() returns (m: Msg)
      requires Valid() && channel != []
      modifies this`channel, this`received
      ensures Valid() && old(received) < |accepted| && m == accepted[old(received)] && received == old(received) + 1
    {
      m := channel[0];
      channel := channel[1..];
      received := received + 1;
    }

    /** A data message, and the reaping at the end of the iteration. */
    method ReceiveData(sig: Signal, data: seq<byte>)
      requires PermitsOk()
      modifies this`traceBatch, this`logBatch, this`metricsBatch, this`tasks, this`discarded
      ensures PermitsOk() && Held() == Reap(Push(cfg, old(Held()), sig, data))
    {
      hide Push, Reap, Sum;
      PushData(sig, data);
      ReapFinished();
    }

    /** The message arm of the select, up to the wait for the tasks if it has one. */
    method Receive()
      requires Valid() && control.Idle? && channel != []
      modifies this
      ensures history == old(history)
      ensures Valid() && View() == ReceiveStep(cfg, old(View()))
    {
      hide Push, FlushAll, Reap, PermitsOk, DropsOk;
      var m := Take();
      match m
      case Data(sig, data) => ReceiveData(sig, data);
      case Flush => BeginDrain(Reply(received - 1));
      case Shutdown => BeginDrain(Exit(ByShutdown));
    }

    /** Flushes all batches and starts to wait for the join set. */
    method BeginDrain(next: AfterDrain)
      requires Valid()
      modifies this`traceBatch, this`logBatch, this`metricsBatch, this`tasks, this`discarded, this`control
      ensures Valid() && View() == old(View()).(work := FlushAll(cfg, old(Held())), control := Draining(next))
    {
      hide FlushAll;
      FlushThree();
      control := Draining(next);
    }

    /** `recv` yields nothing any more: no message and no sender is left. */
    method ReceiveNone()
      requires Valid() && control.Idle? && channel == [] && !connected
      modifies this
      ensures history == old(history)
      ensures Valid()
      ensures View() == old(View()).(work := FlushAll(cfg, old(Held())), control := Draining(Exit(ByDisconnect)))
    {
      BeginDrain(Exit(ByDisconnect));
    }

    method Tick()
      requires Valid() && control.Idle?
      modifies this
      ensures history == old(history)
      ensures Valid() && View() == old(View()).(work := Reap(FlushAll(cfg, old(Held()))))
    {
      hide FlushAll, Reap, Room;
      FlushThree();
      ReapFinished();
    }

    method SetTask(i: nat, t: Task)
      requires i < |tasks|
      modifies this`tasks
      ensures tasks == old(tasks)[i := t]
      ensures Sum(tasks, Holds) + Holds(old(tasks[i])) == Sum(old(tasks), Holds) + Holds(t)
    {
      SumUpdate(tasks, i, t, Holds);
      tasks := tasks[i := t];
    }

    /** One turn of the wait for the join set. */
    method JoinNext(i: nat)
      requires Valid() && control.Draining? && i < |tasks| && tasks[i].phase.Finished? && !tasks[i].joined
      modifies this`tasks
      ensures Valid() && View() == TaskStep(old(View()), Event.JoinNext(i))
    {
      hide Sum, ChannelOk, DropsOk;
      SetTask(i, tasks[i].(joined := true));
    }

    /** The join set is empty: reply and go on, or leave. */
    method FinishDrain()
      requires Valid() && control.Draining? && AllJoined(tasks)
      modifies this
      ensures history == old(history)
      ensures Valid() && View() == DrainStep(old(View()))
    {
      match control.next
      case Reply(at) =>
        replies := replies + [at];
        control := Idle;
        ReapFinished();
      case Exit(cause) =>
        control := Exited(cause);
    }

    // --- Tasks ---

    method Acquire(i: nat)
      requires Valid() && i < |tasks| && tasks[i].phase.Waiting? && available > 0
      modifies this`tasks, this`available
      ensures Valid() && View() == TaskStep(old(View()), Event.Acquire(i))
    {
      hide Sum, ChannelOk, DropsOk;
      available := available - 1;
      SetTask(i, tasks[i].(phase := Posting(0)));
    }

    /** One POST attempt; a task that ends gives its permit back. */
    method Attempt(i: nat, ok: bool)
      requires Valid() && i < |tasks| && tasks[i].phase.Posting?
      modifies this`tasks, this`available
      ensures Valid() && View() == TaskStep(old(View()), Event.Attempt(i, ok))
    {
      hide Sum, ChannelOk, DropsOk;
      var t := tasks[i].(phase := AfterAttempt(tasks[i].phase.failures, ok));
      SetTask(i, t);
      if t.phase.Finished? {
        available := available + 1;
      }
    }

    method Panic(i: nat)
      requires Valid() && i < |tasks| && tasks[i].phase.Posting?
      modifies this`tasks, this`available
      ensures Valid() && View() == TaskStep(old(View()), Event.Panic(i))
    {
      hide Sum, ChannelOk, DropsOk;
      SetTask(i, tasks[i].(phase := Finished(Panicked)));
      available := available + 1;
    }

    // --- Any run ---

    /** Whatever happens next, the object stays on a run of the state machine. */
    method Perform(e: Event)
      requires Recorded() && Enabled(cfg, View(), e)
      modifies this
      ensures Recorded() && history == old(history) + [e]
      ensures View() == Apply(cfg, old(View()), e)
    {
      hide Apply, Enabled, Run;
      RunSnoc(cfg, INIT, history, View(), e);
      if IsTaskEvent(e) {
        StepTask(e);
      } else {
        StepLoop(e);
      }
      history := history + [e];
    }

    method StepTask(e: Event)
      requires Valid() && Enabled(cfg, View(), e) && IsTaskEvent(e)
      modifies this
      ensures history == old(history)
      ensures Valid() && View() == Apply(cfg, old(View()), e)
    {
      match e
      case JoinNext(i) => JoinNext(i);
      case Acquire(i) => Acquire(i);
      case Attempt(i, ok) => Attempt(i, ok);
      case Panic(i) => Panic(i);
    }

    method StepLoop(e: Event)
      requires Valid() && Enabled(cfg, View(), e) && !IsTaskEvent(e)
      modifies this
      ensures history == old(history)
      ensures Valid() && View() == Apply(cfg, old(View()), e)
    {
      match e
      case Send(sig, data) => Send(sig, data);
      case SendFlush => var ok := SendControl(Flush);
      case SendShutdown => var ok := SendControl(Shutdown);
      case Disconnect => DropSenders();
      case Receive => Receive();
      case ReceiveNone => ReceiveNone();
      case Tick => Tick();
      case DrainDone => FinishDrain();
    }
  }
}

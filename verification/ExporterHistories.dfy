/**
 What the events of a run say about single tasks, sends and steps, without the exporter's own
 functions: retries by counting attempts, admission by counting messages, permits by counting tasks.
 */
module ExporterHistories {
  import opened Bytes
  import opened Exporter
  import opened ExporterProperties

  // --- Retries ---

  function Fails(i: nat): Event -> bool {
    (e: Event) => e == Attempt(i, false)
  }

  function Succeeds(i: nat): Event -> bool {
    (e: Event) => e == Attempt(i, true)
  }

  function Starts(i: nat): Event -> bool {
    (e: Event) => e == Acquire(i)
  }

  function Breaks(i: nat): Event -> bool {
    (e: Event) => e == Panic(i)
  }

  lemma {:induction false} CountSnoc(es: seq<Event>, e: Event, p: Event -> bool)
    ensures Count(es + [e], p) == Count(es, p) + if p(e) then 1 else 0
  {
    if es == [] {
      assert [] + [e] == [e] && [e][1..] == [];
    } else {
      assert (es + [e])[0] == es[0] && (es + [e])[1..] == es[1..] + [e];
      CountSnoc(es[1..], e, p);
    }
  }

  /** What the numbers of failed and successful attempts, starts and panics of a task make of it. */
  ghost predicate PhaseSays(phase: Phase, failed: nat, succeeded: nat, started: nat, broken: nat) {
    match phase
    case Waiting => failed == 0 && succeeded == 0 && started == 0 && broken == 0
    case Posting(k) => failed == k <= 2 && succeeded == 0 && started == 1 && broken == 0
    case Finished(Delivered) => failed <= 2 && succeeded == 1 && started == 1 && broken == 0
    case Finished(GaveUp) => failed == 3 && succeeded == 0 && started == 1 && broken == 0
    case Finished(Panicked) => failed <= 2 && succeeded == 0 && started == 1 && broken == 1
  }

  /** A task that was not spawned yet counts as waiting. */
  function PhaseOf(ts: seq<Task>, i: nat): Phase {
    if i < |ts| then ts[i].phase else Waiting
  }

  ghost predicate HistorySays(es: seq<Event>, ts: seq<Task>, i: nat) {
    PhaseSays(PhaseOf(ts, i), Count(es, Fails(i)), Count(es, Succeeds(i)), Count(es, Starts(i)), Count(es, Breaks(i)))
  }

  /** Only a task's own events change its phase; new tasks wait. */
  lemma StepPhases(cfg: Config, s: State, e: Event, i: nat)
    requires Enabled(cfg, s, e)
    ensures PhaseOf(Apply(cfg, s, e).work.tasks, i)
      == if IsTaskEvent(e) && e.i == i then TaskAfter(s.work.tasks[i], e).phase else PhaseOf(s.work.tasks, i)
  {
    if IsTaskEvent(e) {
      hide Sum, FlushAll, Reap, ReceiveStep, DrainStep;
    } else {
      hide Push, FlushAll, Reap, Sum;
      FlushAllPhases(cfg, s.work, i);
      ReapPhases(s.work, i);
      ReapPhases(FlushAll(cfg, s.work), i);
      if e.Receive? && s.accepted[s.received].Data? {
        var m := s.accepted[s.received];
        PushPhases(cfg, s.work, m.sig, m.data, i);
        ReapPhases(Push(cfg, s.work, m.sig, m.data), i);
      }
    }
  }

  lemma FlushBatchPhases(cfg: Config, w: Work, sig: Signal, i: nat)
    ensures PhaseOf(FlushBatch(cfg, w, sig).tasks, i) == PhaseOf(w.tasks, i)
  {
  }

  lemma FlushAllPhases(cfg: Config, w: Work, i: nat)
    ensures PhaseOf(FlushAll(cfg, w).tasks, i) == PhaseOf(w.tasks, i)
  {
    hide FlushBatch, PhaseOf;
    var w1 := FlushBatch(cfg, w, Traces);
    FlushBatchPhases(cfg, w, Traces, i);
    FlushBatchPhases(cfg, w1, Logs, i);
    FlushBatchPhases(cfg, FlushBatch(cfg, w1, Logs), Metrics, i);
  }

  lemma PushPhases(cfg: Config, w: Work, sig: Signal, data: seq<byte>, i: nat)
    ensures PhaseOf(Push(cfg, w, sig, data).tasks, i) == PhaseOf(w.tasks, i)
  {
    FlushBatchPhases(cfg, w.(batch := w.batch.Set(sig, w.batch.Get(sig) + [data])), sig, i);
  }

  lemma ReapPhases(w: Work, i: nat)
    ensures PhaseOf(Reap(w).tasks, i) == PhaseOf(w.tasks, i)
  {
  }

  /** The phase a task is in when one of its events can happen. */
  lemma PhaseBefore(cfg: Config, s: State, e: Event)
    requires Enabled(cfg, s, e) && IsTaskEvent(e)
    ensures e.i < |s.work.tasks|
    ensures match e
      case JoinNext(i) => s.work.tasks[i].phase.Finished?
      case Acquire(i) => s.work.tasks[i].phase.Waiting?
      case Attempt(i, _) => s.work.tasks[i].phase.Posting?
      case Panic(i) => s.work.tasks[i].phase.Posting?
      case _ => true
  {
    hide Sum;
  }

  lemma OwnEvent(t: Task, e: Event, failed: nat, succeeded: nat, started: nat, broken: nat)
    requires IsTaskEvent(e) && PhaseSays(t.phase, failed, succeeded, started, broken)
    requires match e
      case JoinNext(_) => t.phase.Finished?
      case Acquire(_) => t.phase.Waiting?
      case _ => t.phase.Posting?
    ensures PhaseSays(TaskAfter(t, e).phase, failed + if Fails(e.i)(e) then 1 else 0,
              succeeded + if Succeeds(e.i)(e) then 1 else 0, started + if Starts(e.i)(e) then 1 else 0,
              broken + if Breaks(e.i)(e) then 1 else 0)
  {
  }

  lemma StepHistory(cfg: Config, es: seq<Event>, s: State, e: Event, i: nat)
    requires Inv(cfg, s) && Enabled(cfg, s, e) && HistorySays(es, s.work.tasks, i)
    ensures HistorySays(es + [e], Apply(cfg, s, e).work.tasks, i)
  {
    hide Apply, Enabled, Count, Inv, TaskAfter, PhaseSays;
    StepPhases(cfg, s, e, i);
    CountSnoc(es, e, Fails(i));
    CountSnoc(es, e, Succeeds(i));
    CountSnoc(es, e, Starts(i));
    CountSnoc(es, e, Breaks(i));
    if IsTaskEvent(e) {
      PhaseBefore(cfg, s, e);
      if e.i == i {
        OwnEvent(s.work.tasks[i], e, Count(es, Fails(i)), Count(es, Succeeds(i)), Count(es, Starts(i)),
          Count(es, Breaks(i)));
      }
    }
  }

  /**
   In every reachable state the phase of a task is what its events say: it is given up after exactly three
   failed attempts, and delivered by one successful attempt after at most two failed ones.
   */
  lemma {:induction false} TaskHistory(cfg: Config, es: seq<Event>, s: State, i: nat)
    requires Reachable(cfg, es, s)
    ensures HistorySays(es, s.work.tasks, i)
    decreases |es|
  {
    if es == [] {
    } else {
      var n := |es| - 1;
      assert es == es[..n] + [es[n]];
      RunSplit(cfg, INIT, es[..n], es[n]);
      var p := Run(cfg, INIT, es[..n]).value;
      hide Run, Apply, Enabled, HistorySays;
      TaskHistory(cfg, es[..n], p, i);
      ReachableInv(cfg, es[..n], p);
      StepHistory(cfg, es[..n], p, es[n], i);
    }
  }

  /** In every run, the outcome of a task is decided by its attempts, and there are at most three. */
  lemma OutcomeIff(cfg: Config, es: seq<Event>, s: State, i: nat)
    requires Reachable(cfg, es, s) && i < |s.work.tasks|
    ensures s.work.tasks[i].phase == Finished(GaveUp) <==> Count(es, Fails(i)) == 3
    ensures s.work.tasks[i].phase == Finished(Delivered) <==> Count(es, Succeeds(i)) == 1
    ensures s.work.tasks[i].phase == Finished(Panicked) <==> Count(es, Breaks(i)) == 1
    ensures s.work.tasks[i].phase.Waiting? <==> Count(es, Starts(i)) == 0
    ensures Count(es, Fails(i)) + Count(es, Succeeds(i)) + Count(es, Breaks(i)) <= 3
  {
    TaskHistory(cfg, es, s, i);
    hide Run, Count;
    match s.work.tasks[i].phase
    case Finished(Delivered) =>
    case Finished(GaveUp) =>
    case Finished(Panicked) =>
    case _ =>
  }

  /** A task that posts can end in every way: an answer or a panic may come at any time. */
  lemma PostingSteps(cfg: Config, es: seq<Event>, s: State, i: nat)
    requires Reachable(cfg, es, s) && i < |s.work.tasks| && s.work.tasks[i].phase.Posting?
    ensures Enabled(cfg, s, Attempt(i, true)) && Enabled(cfg, s, Attempt(i, false)) && Enabled(cfg, s, Panic(i))
    ensures PhaseOf(Apply(cfg, s, Attempt(i, true)).work.tasks, i) == Finished(Delivered)
    ensures PhaseOf(Apply(cfg, s, Attempt(i, false)).work.tasks, i)
      == if Count(es, Fails(i)) == 2 then Finished(GaveUp) else Posting(Count(es, Fails(i)) + 1)
    ensures PhaseOf(Apply(cfg, s, Panic(i)).work.tasks, i) == Finished(Panicked)
  {
    hide Run, Count, Apply, Sum;
    TaskHistory(cfg, es, s, i);
    StepPhases(cfg, s, Attempt(i, true), i);
    StepPhases(cfg, s, Attempt(i, false), i);
    StepPhases(cfg, s, Panic(i), i);
  }

  /** One message in one payload, whether the batch size or the tick flushes it. */
  lemma OneTaskRun(cfg: Config, d: seq<byte>) returns (es: seq<Event>, s: State)
    requires cfg.capacity >= 1 && cfg.url.traces
    ensures es == [Send(Traces, d), Receive, Tick] && Reachable(cfg, es, s)
    ensures s.work.tasks == [Task(Traces, [d], d, Waiting, false)]
  {
    es := [Send(Traces, d), Receive, Tick];
    var s1 := Apply(cfg, INIT, es[0]);
    var s2 := Apply(cfg, s1, es[1]);
    s := Apply(cfg, s2, es[2]);
    ConcatSnoc([], d);
    assert s1.accepted == [Data(Traces, d)] && [] + [d] == [d] && Concat([d]) == d;
    var w := Work(PerSignal([d], [], []), [], NO_BATCH);
    assert FlushBatch(cfg, w, Traces) == Work(NO_BATCH, [Task(Traces, [d], d, Waiting, false)], NO_BATCH);
    assert s2.work == if cfg.batchSize <= 1 then FlushBatch(cfg, w, Traces) else w by {
      assert Push(cfg, INIT.work, Traces, d) == if cfg.batchSize <= 1 then FlushBatch(cfg, w, Traces) else w;
    }
    RunSnoc(cfg, INIT, [], INIT, es[0]);
    RunSnoc(cfg, INIT, [] + [es[0]], s1, es[1]);
    RunSnoc(cfg, INIT, [] + [es[0]] + [es[1]], s2, es[2]);
    assert [] + [es[0]] + [es[1]] + [es[2]] == es;
  }

  lemma TaskRun(cfg: Config, es: seq<Event>, s: State, e: Event, phase: Phase) returns (s': State)
    requires Reachable(cfg, es, s) && Enabled(cfg, s, e) && IsTaskEvent(e) && !e.JoinNext?
    requires phase == TaskAfter(s.work.tasks[e.i], e).phase
    ensures Reachable(cfg, es + [e], s')
    ensures s'.work.tasks == s.work.tasks[e.i := s.work.tasks[e.i].(phase := phase)]
  {
    s' := Apply(cfg, s, e);
    RunSnoc(cfg, INIT, es, s, e);
    hide Run, Sum;
  }

  /** The run in which a collector fails twice and then takes the payload. */
  lemma ThirdAttemptDelivers(cfg: Config, d: seq<byte>) returns (es: seq<Event>, s: State)
    requires cfg.capacity >= 1 && cfg.permits >= 1 && cfg.url.traces
    ensures es == [Send(Traces, d), Receive, Tick, Acquire(0), Attempt(0, false), Attempt(0, false), Attempt(0, true)]
    ensures Reachable(cfg, es, s) && |s.work.tasks| == 1
    ensures s.work.tasks[0].payload == d && s.work.tasks[0].phase == Finished(Delivered)
  {
    var front, s3 := OneTaskRun(cfg, d);
    assert Sum(s3.work.tasks, Holds) == 0 by {
      assert s3.work.tasks[..0] == [];
    }
    hide Run, Sum;
    var s4 := TaskRun(cfg, front, s3, Acquire(0), Posting(0));
    var s5 := TaskRun(cfg, front + [Acquire(0)], s4, Attempt(0, false), Posting(1));
    var s6 := TaskRun(cfg, front + [Acquire(0)] + [Attempt(0, false)], s5, Attempt(0, false), Posting(2));
    s := TaskRun(cfg, front + [Acquire(0)] + [Attempt(0, false)] + [Attempt(0, false)], s6, Attempt(0, true),
      Finished(Delivered));
    es := [Send(Traces, d), Receive, Tick, Acquire(0), Attempt(0, false), Attempt(0, false), Attempt(0, true)];
    assert es == front + [Acquire(0)] + [Attempt(0, false)] + [Attempt(0, false)] + [Attempt(0, true)];
  }

  // --- Admission ---

  /**
   A send drops its data exactly if the loop is gone or the channel holds as many messages as its capacity, and
   appends it to what was accepted otherwise; nothing else changes but the count of the call.
   */
  lemma SendDropsIff(cfg: Config, es: seq<Event>, s: State, sig: Signal, d: seq<byte>)
    requires Reachable(cfg, es, s)
    ensures Enabled(cfg, s, Send(sig, d)) <==> s.connected
    ensures s.connected ==>
      var s' := Apply(cfg, s, Send(sig, d));
      && s' == s.(accepted := s'.accepted, attempted := s'.attempted, dropped := s'.dropped)
      && (forall g :: s'.attempted.Get(g) == s.attempted.Get(g) + if g == sig then 1 else 0)
      && if s.control.Exited? || |s.accepted| - s.received == cfg.capacity then
           s'.accepted == s.accepted
           && forall g :: s'.dropped.Get(g) == s.dropped.Get(g) + if g == sig then 1 else 0
         else
           s'.accepted == s.accepted + [Data(sig, d)] && s'.dropped == s.dropped
  {
    ReachableInv(cfg, es, s);
    hide Run, Inv;
  }

  /** A Flush or a Shutdown enters exactly if a sender and the loop are there and the channel is not full. */
  lemma ControlEntersIff(cfg: Config, es: seq<Event>, s: State)
    requires Reachable(cfg, es, s)
    ensures var enters := s.connected && !s.control.Exited? && |s.accepted| - s.received < cfg.capacity;
      && (Enabled(cfg, s, SendFlush) <==> enters) && (Enabled(cfg, s, SendShutdown) <==> enters)
      && (enters ==> Apply(cfg, s, SendFlush) == s.(accepted := s.accepted + [Flush]))
      && (enters ==> Apply(cfg, s, SendShutdown) == s.(accepted := s.accepted + [Shutdown]))
  {
    ReachableInv(cfg, es, s);
    hide Run, Inv;
  }

  ghost predicate AllSends(es: seq<Event>) {
    forall i | 0 <= i < |es| :: es[i].Send?
  }

  /** The messages of a list of sends. */
  function MessagesOf(es: seq<Event>): (ms: seq<Msg>)
    requires AllSends(es)
    ensures |ms| == |es|
  {
    if es == [] then [] else MessagesOf(es[..|es| - 1]) + [Data(es[|es| - 1].sig, es[|es| - 1].data)]
  }

  lemma SumOfSignals(d: PerSignal<nat>)
    ensures d.traces + d.logs + d.metrics == d.Get(Traces) + d.Get(Logs) + d.Get(Metrics)
  {
  }

  /** Without a receive, exactly the first sends up to the capacity are accepted, in order, and the others dropped. */
  lemma {:induction false} SendsFillTheChannel(cfg: Config, es: seq<Event>)
    requires AllSends(es)
    ensures Run(cfg, INIT, es).Some?
    ensures var s, n := Run(cfg, INIT, es).value, if |es| <= cfg.capacity then |es| else cfg.capacity;
      && s.accepted == MessagesOf(es)[..n] && s.received == 0 && s.connected && s.control == Idle
      && s.dropped.traces + s.dropped.logs + s.dropped.metrics == |es| - n
  {
    if es == [] {
    } else {
      var n := |es| - 1;
      var e := es[n];
      assert es == es[..n] + [e];
      SendsFillTheChannel(cfg, es[..n]);
      var p := Run(cfg, INIT, es[..n]).value;
      SendDropsIff(cfg, es[..n], p, e.sig, e.data);
      RunSnoc(cfg, INIT, es[..n], p, e);
      hide Run, Apply, Enabled;
      SumOfSignals(p.dropped);
      SumOfSignals(Apply(cfg, p, e).dropped);
    }
  }

  // --- Permits ---

  /** The tasks that are posting. */
  function PostingTasks(ts: seq<Task>): set<nat> {
    set i: nat | i < |ts| && ts[i].phase.Posting?
  }

  lemma {:induction false} HoldsCountsPosting(ts: seq<Task>)
    ensures Sum(ts, Holds) == |PostingTasks(ts)|
  {
    if ts == [] {
      assert PostingTasks(ts) == {};
    } else {
      var n := |ts| - 1;
      HoldsCountsPosting(ts[..n]);
      assert PostingTasks(ts) == PostingTasks(ts[..n]) + if ts[n].phase.Posting? then {n} else {};
    }
  }

  /** A waiting task can start exactly if fewer tasks are posting than there are permits, and no more ever post. */
  lemma AcquireIff(cfg: Config, es: seq<Event>, s: State, i: nat)
    requires Reachable(cfg, es, s) && i < |s.work.tasks| && s.work.tasks[i].phase.Waiting?
    ensures Enabled(cfg, s, Acquire(i)) <==> |PostingTasks(s.work.tasks)| < cfg.permits
    ensures |PostingTasks(s.work.tasks)| <= cfg.permits
  {
    BoundsHold(cfg, es, s);
    HoldsCountsPosting(s.work.tasks);
    hide Run, Sum;
  }

  // --- Ticks and reaping ---

  /** The join set holds no finished task. */
  ghost predicate Reaped(ts: seq<Task>) {
    forall i | 0 <= i < |ts| :: ts[i].joined <==> ts[i].phase.Finished?
  }

  lemma ReapReaps(cfg: Config, w: Work)
    requires TasksOk(cfg, w.tasks)
    ensures Reaped(Reap(w).tasks)
  {
    hide Sum;
    forall i | 0 <= i < |w.tasks| ensures ReapTask(w.tasks[i]).joined <==> ReapTask(w.tasks[i]).phase.Finished? {
      assert TaskOk(cfg, w.tasks[i]);
    }
  }

  lemma ReapKeepsBatch(w: Work)
    ensures Reap(w).batch == w.batch
  {
  }

  /** Everything received of a signal has been spawned, or discarded for want of a URL. */
  ghost predicate AllHandedOver(cfg: Config, s: State, sig: Signal)
    requires s.received <= |s.accepted|
  {
    DataOf(s.accepted[..s.received], sig)
    == if cfg.url.Get(sig) then Spawned(s.work.tasks, sig) else s.work.discarded.Get(sig)
  }

  /** Whenever the loop selects a tick may come, and it leaves no batch behind and no finished task unreaped. */
  lemma TickHandsOver(cfg: Config, es: seq<Event>, s: State)
    requires Reachable(cfg, es, s) && s.control.Idle?
    ensures s.received <= |s.accepted| && Enabled(cfg, s, Tick)
    ensures var s' := Apply(cfg, s, Tick);
      && s'.work.batch == PerSignal([], [], []) && Reaped(s'.work.tasks)
      && s' == s.(work := s'.work) && forall sig :: AllHandedOver(cfg, s', sig)
  {
    hide FlushAll, Run, Sum, DataOf, Spawned, ControlOk, Reap, TaskOk, Reaped;
    ReachableInv(cfg, es, s);
    TickKeepsInv(cfg, s);
    FlushAllOk(cfg, s.accepted[..s.received], s.work);
    ReapReaps(cfg, FlushAll(cfg, s.work));
    ReapKeepsBatch(FlushAll(cfg, s.work));
    var s' := Apply(cfg, s, Tick);
    forall sig ensures AllHandedOver(cfg, s', sig) {
      assert Partition(cfg, DataOf(s.accepted[..s.received], sig), s'.work, sig);
    }
  }

  /** Each data message the loop takes ends with a reaping, and so does the reply to a Flush. */
  lemma ReceiveReaps(cfg: Config, es: seq<Event>, s: State)
    requires Reachable(cfg, es, s) && s.control.Idle? && s.received < |s.accepted|
    ensures Enabled(cfg, s, Receive) && Apply(cfg, s, Receive).received == s.received + 1
    ensures s.accepted[s.received].Data? ==> Reaped(Apply(cfg, s, Receive).work.tasks)
  {
    ReachableInv(cfg, es, s);
    var m := s.accepted[s.received];
    if m.Data? {
      PushOk(cfg, s.accepted[..s.received], s.work, m.sig, m.data);
      ReapReaps(cfg, Push(cfg, s.work, m.sig, m.data));
    }
    hide Run, Sum, Push, Reap, FlushAll;
  }

  /**
   Nothing but its own state holds the loop up: selecting, it takes a message, a tick or the end of the channel as they
   are there; draining, it takes out any finished task, and goes on exactly when none is left. The last sender may go
   at any time, which the loop finds out only by an empty channel.
   */
  lemma LoopMayStep(cfg: Config, es: seq<Event>, s: State)
    requires Reachable(cfg, es, s)
    ensures s.control.Idle? ==>
      && Enabled(cfg, s, Tick) && (Enabled(cfg, s, Receive) <==> |s.accepted| > s.received)
      && (Enabled(cfg, s, ReceiveNone) <==> |s.accepted| == s.received && !s.connected)
    ensures s.control.Draining? ==>
      && (Enabled(cfg, s, DrainDone) <==> forall t | t in s.work.tasks :: t.joined)
      && forall i | 0 <= i < |s.work.tasks| && s.work.tasks[i].phase.Finished? ::
           s.work.tasks[i].joined || Enabled(cfg, s, JoinNext(i))
    ensures s.connected ==>
      Enabled(cfg, s, Disconnect) && Apply(cfg, s, Disconnect) == s.(connected := false)
  {
    ReachableInv(cfg, es, s);
    hide Run, Inv;
  }

  // --- When the loop leaves ---

  /** Steps of the loop and its tasks only. */
  ghost predicate Own(es: seq<Event>) {
    forall e | e in es :: !e.Send? && !e.SendFlush? && !e.SendShutdown? && !e.Disconnect?
  }

  lemma {:induction false} OwnStepsKeepChannel(cfg: Config, s: State, es: seq<Event>)
    requires Own(es) && Run(cfg, s, es).Some?
    ensures var t := Run(cfg, s, es).value; t.accepted == s.accepted && t.connected == s.connected
    decreases |es|
  {
    if es == [] {
    } else {
      hide FlushAll, Push, Reap, Sum;
      assert es[0] in es;
      OwnStepsKeepChannel(cfg, Apply(cfg, s, es[0]), es[1..]);
    }
  }

  /** Nothing that was received, short of the Shutdown that ends the loop, had to be posted. */
  ghost predicate Unhindered(cfg: Config, s: State) {
    cfg.permits >= 1 || NothingToPost(cfg, s.accepted, FirstShutdown(s.accepted))
  }

  lemma UnhinderedDrains(cfg: Config, es: seq<Event>, s: State)
    requires Reachable(cfg, es, s) && Unhindered(cfg, s)
    ensures cfg.permits >= 1 || s.work.tasks == []
  {
    ReachableInv(cfg, es, s);
    LeavesAtFirstShutdown(cfg, es, s);
    if cfg.permits == 0 {
      assert NothingToPost(cfg, s.accepted, s.received);
      NothingSpawned(cfg, s);
    }
  }

  /** What makes the loop leave: a Shutdown it has yet to act on, or no sender. */
  ghost predicate Called(s: State) {
    !s.connected || Shutdown in s.accepted
  }

  /** The loop's next stretch on its way out: the end of a drain, a message, or the end of the channel. */
  lemma LeavingAdvances(cfg: Config, es: seq<Event>, s: State) returns (first: seq<Event>)
    requires Reachable(cfg, es, s) && Called(s) && Unhindered(cfg, s) && !s.control.Exited?
    ensures Own(first) && Run(cfg, s, first).Some? && s.received <= |s.accepted|
    ensures var t := Run(cfg, s, first).value;
      && t.accepted == s.accepted && t.connected == s.connected && s.received <= t.received <= |t.accepted|
      && (s.received < t.received || Rank(t) < Rank(s))
  {
    ReachableInv(cfg, es, s);
    if s.control.Draining? {
      UnhinderedDrains(cfg, es, s);
      first := DrainCanEnd(cfg, s);
      OwnStepsKeepChannel(cfg, s, first);
    } else {
      hide Run, Inv;
      LeavesAtFirstShutdown(cfg, es, s);
      first := SelectingAdvances(cfg, s);
    }
  }

  lemma SelectingAdvances(cfg: Config, s: State) returns (first: seq<Event>)
    requires s.control.Idle? && s.received <= |s.accepted| && (s.received == |s.accepted| ==> !s.connected)
    ensures Own(first) && Run(cfg, s, first).Some?
    ensures var t := Run(cfg, s, first).value;
      && t.accepted == s.accepted && t.connected == s.connected && s.received <= t.received <= |t.accepted|
      && (s.received < t.received || Rank(t) < Rank(s))
  {
    hide FlushAll, Push, Reap;
    var e := if s.received < |s.accepted| then Receive else ReceiveNone;
    RunSnoc(cfg, s, [], s, e);
    first := [] + [e];
  }

  /** How far from gone the loop is while the channel stays as it is. */
  function Rank(s: State): nat {
    match s.control
    case Exited(_) => 0
    case Draining(Exit(_)) => 1
    case Idle => 2
    case Draining(Reply(_)) => 3
  }

  lemma {:induction false} LoopCanLeave(cfg: Config, es: seq<Event>, s: State) returns (more: seq<Event>)
    requires Reachable(cfg, es, s) && Called(s) && Unhindered(cfg, s)
    ensures Leaves(cfg, s, more)
    decreases |s.accepted| - s.received, Rank(s)
  {
    hide Apply, Enabled, FirstShutdown, NothingToPost;
    if s.control.Exited? {
      more := [];
    } else {
      var first := LeavingAdvances(cfg, es, s);
      hide Run;
      RunConcat(cfg, INIT, es, first);
      more := LoopCanLeave(cfg, es + first, Run(cfg, s, first).value);
      RunConcat(cfg, s, first, more);
      more := first + more;
    }
  }

  ghost predicate Leaves(cfg: Config, s: State, more: seq<Event>) {
    Own(more) && Run(cfg, s, more).Some? && Run(cfg, s, more).value.control.Exited?
  }

  lemma LeftUnhindered(cfg: Config, es: seq<Event>, s: State)
    requires Reachable(cfg, es, s) && s.control.Exited?
    ensures Called(s) && Unhindered(cfg, s)
  {
    ReachableInv(cfg, es, s);
    ExitIsClean(cfg, es, s);
    LeavesAtFirstShutdown(cfg, es, s);
    if cfg.permits == 0 {
      InitInv(cfg);
      WithoutPermitsAllWait(cfg, INIT, es);
      var n := FirstShutdown(s.accepted);
      hide Run, FirstShutdown;
      SettledWithoutTasks(cfg, s, n, |s.work.tasks|);
    }
  }

  /**
   From any state, the loop and its tasks can come to the exit by themselves exactly if a Shutdown was accepted or
   the last sender is gone, and there is a permit to give or nothing to post ahead of the first Shutdown.
   */
  lemma LoopLeavesIff(cfg: Config, es: seq<Event>, s: State)
    requires Reachable(cfg, es, s)
    ensures (exists more :: Leaves(cfg, s, more)) <==> Called(s) && Unhindered(cfg, s)
  {
    if Called(s) && Unhindered(cfg, s) {
      var more := LoopCanLeave(cfg, es, s);
    }
    if more :| Leaves(cfg, s, more) {
      OwnStepsKeepChannel(cfg, s, more);
      RunConcat(cfg, INIT, es, more);
      LeftUnhindered(cfg, es + more, Run(cfg, s, more).value);
    }
  }
}

/**
 The exporter as a state machine: producers put messages into a bounded channel, one loop
 takes them out, batches them by signal and spawns tasks that post a batch under a
 semaphore. An event is one atomic step of a producer, of the loop, or of a task.
 */
module Exporter {
  import opened Bytes

  datatype Signal = Traces | Logs | Metrics

  datatype PerSignal<T> = PerSignal(traces: T, logs: T, metrics: T) {
    function Get(sig: Signal): T {
      match sig
      case Traces => traces
      case Logs => logs
      case Metrics => metrics
    }

    function Set(sig: Signal, v: T): (r: PerSignal<T>)
      ensures r.Get(sig) == v
    {
      match sig
      case Traces => this.(traces := v)
      case Logs => this.(logs := v)
      case Metrics => this.(metrics := v)
    }
  }

  datatype Msg = Data(sig: Signal, data: seq<byte>) | Flush | Shutdown

  datatype Config = Config(capacity: nat, batchSize: nat, permits: nat, url: PerSignal<bool>) {
    /** A batch size of zero acts as one: a batch is only looked at after a push. */
    function Full(): nat {
      if batchSize == 0 then 1 else batchSize
    }
  }

  const MAX_ATTEMPTS := 3

  datatype Outcome = Delivered | GaveUp | Panicked

  /** Waiting for a permit; holding one after some failed attempts; done. */
  datatype Phase = Waiting | Posting(failures: nat) | Finished(outcome: Outcome)

  /**
   A spawned task: the payload it posts, the messages the payload was joined from, and
   whether the loop has taken the finished task out of its join set.
   */
  datatype Task = Task(sig: Signal, items: seq<seq<byte>>, payload: seq<byte>, phase: Phase, joined: bool)

  /** Why the loop leaves. */
  datatype Cause = ByShutdown | ByDisconnect

  /** What follows the wait: the reply to the Flush at a position of the channel's history, or the exit. */
  datatype AfterDrain = Reply(at: nat) | Exit(cause: Cause)

  /** Where the loop stands: selecting, waiting for its tasks inside an arm, or gone. */
  datatype Control = Idle | Draining(next: AfterDrain) | Exited(cause: Cause)

  /** What the loop holds: batches, every task ever spawned in order, and messages dropped for want of a URL. */
  datatype Work = Work(
    batch: PerSignal<seq<seq<byte>>>,
    tasks: seq<Task>,
    discarded: PerSignal<seq<seq<byte>>>)

  datatype State = State(
    accepted: seq<Msg>,         // every message the channel took, in order
    received: nat,              // how many of them the loop took out
    connected: bool,            // some sender is left
    work: Work,
    control: Control,
    attempted: PerSignal<nat>,  // calls of the send operations
    dropped: PerSignal<nat>,    // those that found the channel full or closed
    replies: seq<nat>)          // positions of the Flush messages answered

  const NO_BATCH: PerSignal<seq<seq<byte>>> := PerSignal([], [], [])
  const INIT := State([], 0, true, Work(NO_BATCH, [], NO_BATCH), Idle, PerSignal(0, 0, 0), PerSignal(0, 0, 0), [])

  // --- Sums and selections over tasks and messages ---

  function Sum(ts: seq<Task>, w: Task -> nat): nat {
    if ts == [] then 0 else Sum(ts[..|ts| - 1], w) + w(ts[|ts| - 1])
  }

  function Holds(t: Task): nat {
    if t.phase.Posting? then 1 else 0
  }

  /** The data messages of one signal, in order. */
  function DataOf(ms: seq<Msg>, sig: Signal): seq<seq<byte>> {
    if ms == [] then []
    else
      var m := ms[|ms| - 1];
      DataOf(ms[..|ms| - 1], sig) + if m.Data? && m.sig == sig then [m.data] else []
  }

  /** The messages of one signal in the payloads spawned so far, in spawn order. */
  function Spawned(ts: seq<Task>, sig: Signal): seq<seq<byte>> {
    if ts == [] then []
    else
      var t := ts[|ts| - 1];
      Spawned(ts[..|ts| - 1], sig) + if t.sig == sig then t.items else []
  }

  // --- Steps ---

  datatype Event =
    | Send(sig: Signal, data: seq<byte>)
    | SendFlush
    | SendShutdown
    | Disconnect
    | Receive
    | ReceiveNone
    | Tick
    | JoinNext(i: nat)
    | DrainDone
    | Acquire(i: nat)
    | Attempt(i: nat, ok: bool)
    | Panic(i: nat)

  predicate Room(cfg: Config, s: State) {
    !s.control.Exited? && s.received <= |s.accepted| < cfg.capacity + s.received
  }

  predicate Enabled(cfg: Config, s: State, e: Event) {
    var ts := s.work.tasks;
    match e
    case Send(_, _) => s.connected
    case SendFlush => s.connected && Room(cfg, s)
    case SendShutdown => s.connected && Room(cfg, s)
    case Disconnect => s.connected
    case Receive => s.control.Idle? && s.received < |s.accepted|
    case ReceiveNone => s.control.Idle? && s.received == |s.accepted| && !s.connected
    case Tick => s.control.Idle?
    case JoinNext(i) => s.control.Draining? && i < |ts| && ts[i].phase.Finished? && !ts[i].joined
    case DrainDone => s.control.Draining? && AllJoined(ts)
    case Acquire(i) => i < |ts| && ts[i].phase.Waiting? && Sum(ts, Holds) < cfg.permits
    case Attempt(i, _) => i < |ts| && ts[i].phase.Posting?
    case Panic(i) => i < |ts| && ts[i].phase.Posting?
  }

  predicate AllJoined(ts: seq<Task>) {
    forall i | 0 <= i < |ts| :: ts[i].joined
  }

  /** A non-blocking send: a full or closed channel counts a drop. */
  function SendStep(cfg: Config, s: State, sig: Signal, data: seq<byte>): State {
    var attempted := s.attempted.Set(sig, s.attempted.Get(sig) + 1);
    if Room(cfg, s) then s.(attempted := attempted, accepted := s.accepted + [Data(sig, data)])
    else s.(attempted := attempted, dropped := s.dropped.Set(sig, s.dropped.Get(sig) + 1))
  }

  /** Joins a batch into one task, or discards it when the signal has no URL. */
  function FlushBatch(cfg: Config, w: Work, sig: Signal): Work {
    var b := w.batch.Get(sig);
    if b == [] then w
    else if !cfg.url.Get(sig) then
      Work(w.batch.Set(sig, []), w.tasks, w.discarded.Set(sig, w.discarded.Get(sig) + b))
    else
      Work(w.batch.Set(sig, []), w.tasks + [Task(sig, b, Concat(b), Waiting, false)], w.discarded)
  }

  function FlushAll(cfg: Config, w: Work): Work {
    FlushBatch(cfg, FlushBatch(cfg, FlushBatch(cfg, w, Traces), Logs), Metrics)
  }

  /** A data message joins its batch, which is flushed when it has become full. */
  function Push(cfg: Config, w: Work, sig: Signal, data: seq<byte>): Work {
    var w := w.(batch := w.batch.Set(sig, w.batch.Get(sig) + [data]));
    if |w.batch.Get(sig)| >= cfg.batchSize then FlushBatch(cfg, w, sig) else w
  }

  function ReapTask(t: Task): Task {
    if t.phase.Finished? then t.(joined := true) else t
  }

  /** After each iteration the finished tasks leave the join set. */
  function Reap(w: Work): Work {
    w.(tasks := seq(|w.tasks|, i requires 0 <= i < |w.tasks| => ReapTask(w.tasks[i])))
  }

  function ReceiveStep(cfg: Config, s: State): State
    requires s.received < |s.accepted|
  {
    var next := s.(received := s.received + 1);
    match s.accepted[s.received]
    case Data(sig, data) => next.(work := Reap(Push(cfg, s.work, sig, data)))
    case Flush => next.(work := FlushAll(cfg, s.work), control := Draining(Reply(s.received)))
    case Shutdown => next.(work := FlushAll(cfg, s.work), control := Draining(Exit(ByShutdown)))
  }

  /** The reply to a flush, or the end of the loop. */
  function DrainStep(s: State): State
    requires s.control.Draining?
  {
    match s.control.next
    case Reply(at) => s.(control := Idle, replies := s.replies + [at], work := Reap(s.work))
    case Exit(cause) => s.(control := Exited(cause))
  }

  /** One POST attempt: success ends the task, and so does the last failure. */
  function AfterAttempt(failures: nat, ok: bool): Phase {
    if ok then Finished(Delivered)
    else if failures + 1 >= MAX_ATTEMPTS then Finished(GaveUp)
    else Posting(failures + 1)
  }

  /** The task an event is about, after the event. */
  function TaskAfter(t: Task, e: Event): Task
    requires e.Attempt? ==> t.phase.Posting?
  {
    match e
    case JoinNext(_) => t.(joined := true)
    case Acquire(_) => t.(phase := Posting(0))
    case Attempt(_, ok) => t.(phase := AfterAttempt(t.phase.failures, ok))
    case Panic(_) => t.(phase := Finished(Panicked))
    case _ => t
  }

  predicate IsTaskEvent(e: Event) {
    e.JoinNext? || e.Acquire? || e.Attempt? || e.Panic?
  }

  /** A step of one task. */
  function TaskStep(s: State, e: Event): State
    requires IsTaskEvent(e) && e.i < |s.work.tasks|
    requires e.Attempt? ==> s.work.tasks[e.i].phase.Posting?
  {
    s.(work := s.work.(tasks := s.work.tasks[e.i := TaskAfter(s.work.tasks[e.i], e)]))
  }

  function Apply(cfg: Config, s: State, e: Event): State
    requires Enabled(cfg, s, e)
  {
    match e
    case Send(sig, data) => SendStep(cfg, s, sig, data)
    case SendFlush => s.(accepted := s.accepted + [Flush])
    case SendShutdown => s.(accepted := s.accepted + [Shutdown])
    case Disconnect => s.(connected := false)
    case Receive => ReceiveStep(cfg, s)
    case ReceiveNone => s.(work := FlushAll(cfg, s.work), control := Draining(Exit(ByDisconnect)))
    case Tick => s.(work := Reap(FlushAll(cfg, s.work)))
    case DrainDone => DrainStep(s)
    case _ => TaskStep(s, e)
  }

  // --- The invariant ---

  /** Every received message of a signal is in a payload, discarded, or still batched, in this order. */
  ghost predicate Partition(cfg: Config, d: seq<seq<byte>>, w: Work, sig: Signal) {
    && d == Spawned(w.tasks, sig) + w.discarded.Get(sig) + w.batch.Get(sig)
    && (if cfg.url.Get(sig) then w.discarded.Get(sig) == [] else Spawned(w.tasks, sig) == [])
  }

  ghost predicate TaskOk(cfg: Config, t: Task) {
    && 1 <= |t.items| <= cfg.Full()
    && t.payload == Concat(t.items)
    && (t.phase.Posting? ==> t.phase.failures < MAX_ATTEMPTS)
    && (t.joined ==> t.phase.Finished?)
    && cfg.url.Get(t.sig)
  }

  ghost predicate TasksOk(cfg: Config, ts: seq<Task>) {
    && (forall i | 0 <= i < |ts| :: TaskOk(cfg, ts[i]))
    && Sum(ts, Holds) <= cfg.permits
  }

  /** The invariant of the loop's work after receiving the messages `ms`. */
  ghost predicate WorkOk(cfg: Config, ms: seq<Msg>, w: Work) {
    && (forall sig :: Partition(cfg, DataOf(ms, sig), w, sig) && |w.batch.Get(sig)| < cfg.Full())
    && TasksOk(cfg, w.tasks)
  }

  ghost predicate Accounted(s: State, sig: Signal) {
    s.attempted.Get(sig) == s.dropped.Get(sig) + |DataOf(s.accepted, sig)|
  }

  ghost predicate LeavesBy(s: State, cause: Cause)
    requires s.received <= |s.accepted|
  {
    match cause
    case ByShutdown => 1 <= s.received && s.accepted[s.received - 1] == Shutdown
    case ByDisconnect => s.received == |s.accepted| && !s.connected
  }

  ghost predicate ControlOk(s: State)
    requires s.received <= |s.accepted|
  {
    && (!s.control.Idle? ==> s.work.batch == NO_BATCH)
    && match s.control
       case Idle => true
       case Draining(Reply(at)) => at + 1 == s.received && s.accepted[at] == Flush
       case Draining(Exit(cause)) => LeavesBy(s, cause)
       case Exited(cause) => LeavesBy(s, cause) && AllJoined(s.work.tasks)
  }

  ghost predicate Inv(cfg: Config, s: State) {
    && s.received <= |s.accepted| <= cfg.capacity + s.received
    && WorkOk(cfg, s.accepted[..s.received], s.work)
    && (forall sig :: Accounted(s, sig))
    && ControlOk(s)
    && (forall j | 0 <= j < |s.replies| :: s.replies[j] < s.received && s.accepted[s.replies[j]] == Flush)
  }

  // --- Lemmas on sums and selections ---

  lemma SumSnoc(ts: seq<Task>, t: Task, w: Task -> nat)
    ensures Sum(ts + [t], w) == Sum(ts, w) + w(t)
  {
    assert (ts + [t])[..|ts|] == ts;
  }

  lemma {:induction false} SumSame(ts: seq<Task>, us: seq<Task>, w: Task -> nat)
    requires |ts| == |us| && forall i | 0 <= i < |ts| :: w(ts[i]) == w(us[i])
    ensures Sum(ts, w) == Sum(us, w)
  {
    if ts == [] {
    } else {
      SumSame(ts[..|ts| - 1], us[..|us| - 1], w);
    }
  }

  lemma {:induction false} SumUpdate(ts: seq<Task>, i: nat, t: Task, w: Task -> nat)
    requires i < |ts|
    ensures Sum(ts[i := t], w) + w(ts[i]) == Sum(ts, w) + w(t)
  {
    var n := |ts| - 1;
    if i == n {
      assert ts[i := t][..n] == ts[..n];
    } else {
      SumUpdate(ts[..n], i, t, w);
      assert ts[i := t][..n] == ts[..n][i := t];
    }
  }

  lemma DataSnoc(ms: seq<Msg>, m: Msg, sig: Signal)
    ensures DataOf(ms + [m], sig) == DataOf(ms, sig) + if m.Data? && m.sig == sig then [m.data] else []
  {
    assert (ms + [m])[..|ms|] == ms;
  }

  lemma {:induction false} DataAppend(a: seq<Msg>, b: seq<Msg>, sig: Signal)
    ensures DataOf(a + b, sig) == DataOf(a, sig) + DataOf(b, sig)
  {
    if b == [] {
      assert a + b == a;
    } else {
      var n := |b| - 1;
      assert (a + b)[..|a + b| - 1] == a + b[..n];
      DataAppend(a, b[..n], sig);
      Assoc3(DataOf(a, sig), DataOf(b[..n], sig), if b[n].Data? && b[n].sig == sig then [b[n].data] else []);
    }
  }

  lemma SpawnedSnoc(ts: seq<Task>, t: Task, sig: Signal)
    ensures Spawned(ts + [t], sig) == Spawned(ts, sig) + if t.sig == sig then t.items else []
  {
    assert (ts + [t])[..|ts|] == ts;
  }

  /** The second list carries the work of the first, whatever the phases. */
  ghost predicate SameWork(ts: seq<Task>, us: seq<Task>) {
    |ts| == |us| && forall i | 0 <= i < |ts| ::
      us[i].sig == ts[i].sig && us[i].items == ts[i].items && us[i].payload == ts[i].payload
  }

  lemma {:induction false} SpawnedSame(ts: seq<Task>, us: seq<Task>, sig: Signal)
    requires SameWork(ts, us)
    ensures Spawned(ts, sig) == Spawned(us, sig)
  {
    if ts == [] {
    } else {
      SpawnedSame(ts[..|ts| - 1], us[..|us| - 1], sig);
    }
  }

  // --- Every step keeps the invariant ---

  lemma FlushBatchPartition(cfg: Config, d: seq<seq<byte>>, w: Work, sig: Signal, other: Signal)
    requires Partition(cfg, d, w, other)
    ensures Partition(cfg, d, FlushBatch(cfg, w, sig), other)
  {
    var b := w.batch.Get(sig);
    if b != [] && cfg.url.Get(sig) {
      SpawnedSnoc(w.tasks, Task(sig, b, Concat(b), Waiting, false), other);
    }
  }

  lemma FlushBatchTasks(cfg: Config, w: Work, sig: Signal)
    requires TasksOk(cfg, w.tasks) && |w.batch.Get(sig)| <= cfg.Full()
    ensures TasksOk(cfg, FlushBatch(cfg, w, sig).tasks)
    ensures FlushBatch(cfg, w, sig).batch == w.batch.Set(sig, [])
  {
    var b := w.batch.Get(sig);
    var t := Task(sig, b, Concat(b), Waiting, false);
    SumSnoc(w.tasks, t, Holds);
    assert b == [] ==> w.batch.Set(sig, []) == w.batch;
    if b != [] && cfg.url.Get(sig) {
      assert TaskOk(cfg, t);
      assert TasksOk(cfg, w.tasks + [t]);
    }
  }

  /** Flushing a batch that may have become full. */
  lemma FlushBatchOk(cfg: Config, ms: seq<Msg>, w: Work, sig: Signal)
    requires forall other :: Partition(cfg, DataOf(ms, other), w, other)
    requires forall other :: |w.batch.Get(other)| <= cfg.Full() && (other != sig ==> |w.batch.Get(other)| < cfg.Full())
    requires TasksOk(cfg, w.tasks)
    ensures WorkOk(cfg, ms, FlushBatch(cfg, w, sig))
  {
    forall other ensures Partition(cfg, DataOf(ms, other), FlushBatch(cfg, w, sig), other) {
      FlushBatchPartition(cfg, DataOf(ms, other), w, sig, other);
    }
    FlushBatchTasks(cfg, w, sig);
  }

  lemma FlushAllOk(cfg: Config, ms: seq<Msg>, w: Work)
    requires WorkOk(cfg, ms, w)
    ensures WorkOk(cfg, ms, FlushAll(cfg, w))
    ensures FlushAll(cfg, w).batch == NO_BATCH
  {
    var w1 := FlushBatch(cfg, w, Traces);
    FlushBatchOk(cfg, ms, w, Traces);
    FlushBatchTasks(cfg, w, Traces);
    var w2 := FlushBatch(cfg, w1, Logs);
    FlushBatchOk(cfg, ms, w1, Logs);
    FlushBatchTasks(cfg, w1, Logs);
    FlushBatchOk(cfg, ms, w2, Metrics);
    FlushBatchTasks(cfg, w2, Metrics);
  }

  lemma PushOk(cfg: Config, ms: seq<Msg>, w: Work, sig: Signal, data: seq<byte>)
    requires WorkOk(cfg, ms, w)
    ensures WorkOk(cfg, ms + [Data(sig, data)], Push(cfg, w, sig, data))
  {
    var m, w1 := Data(sig, data), w.(batch := w.batch.Set(sig, w.batch.Get(sig) + [data]));
    forall other ensures Partition(cfg, DataOf(ms + [m], other), w1, other) {
      assert Partition(cfg, DataOf(ms, other), w, other);
      DataSnoc(ms, m, other);
      Assoc3(Spawned(w.tasks, other) + w.discarded.Get(other), w.batch.Get(other), [data]);
    }
    forall other
      ensures |w.batch.Get(other)| < cfg.Full() && (other != sig ==> w1.batch.Get(other) == w.batch.Get(other))
    {
    }
    if |w1.batch.Get(sig)| >= cfg.batchSize {
      FlushBatchOk(cfg, ms + [m], w1, sig);
    }
  }

  /** Changing phases and join marks keeps the partition. */
  lemma SameWorkOk(cfg: Config, ms: seq<Msg>, w: Work, ts: seq<Task>)
    requires WorkOk(cfg, ms, w) && SameWork(w.tasks, ts) && TasksOk(cfg, ts)
    ensures WorkOk(cfg, ms, w.(tasks := ts))
  {
    forall sig ensures Partition(cfg, DataOf(ms, sig), w.(tasks := ts), sig) {
      assert Partition(cfg, DataOf(ms, sig), w, sig);
      SpawnedSame(w.tasks, ts, sig);
    }
  }

  lemma ReapOk(cfg: Config, ms: seq<Msg>, w: Work)
    requires WorkOk(cfg, ms, w)
    ensures WorkOk(cfg, ms, Reap(w))
  {
    SumSame(w.tasks, Reap(w).tasks, Holds);
    SameWorkOk(cfg, ms, w, Reap(w).tasks);
  }

  /** A control message carries no data. */
  lemma ControlMessageOk(cfg: Config, ms: seq<Msg>, m: Msg, w: Work)
    requires WorkOk(cfg, ms, w) && !m.Data?
    ensures WorkOk(cfg, ms + [m], w)
  {
    forall sig ensures DataOf(ms + [m], sig) == DataOf(ms, sig) {
      DataSnoc(ms, m, sig);
    }
  }

  lemma InitInv(cfg: Config)
    ensures Inv(cfg, INIT)
  {
    assert INIT.accepted[..0] == [];
  }

  /** A message put into the channel leaves what was received alone. */
  lemma AcceptKeepsInv(cfg: Config, s: State, m: Msg, attempted: PerSignal<nat>)
    requires Inv(cfg, s) && Room(cfg, s) && s.connected
    requires attempted == if m.Data? then s.attempted.Set(m.sig, s.attempted.Get(m.sig) + 1) else s.attempted
    ensures Inv(cfg, s.(attempted := attempted, accepted := s.accepted + [m]))
  {
    var s' := s.(attempted := attempted, accepted := s.accepted + [m]);
    assert s'.accepted[..s.received] == s.accepted[..s.received];
    forall sig ensures Accounted(s', sig) {
      assert Accounted(s, sig);
      DataSnoc(s.accepted, m, sig);
    }
  }

  lemma ProducerKeepsInv(cfg: Config, s: State, e: Event)
    requires Inv(cfg, s) && Enabled(cfg, s, e)
    requires e.Send? || e.SendFlush? || e.SendShutdown? || e.Disconnect?
    ensures Inv(cfg, Apply(cfg, s, e))
  {
    var s' := Apply(cfg, s, e);
    match e
    case Send(sig, data) =>
      if Room(cfg, s) {
        AcceptKeepsInv(cfg, s, Data(sig, data), s'.attempted);
      } else {
        assert forall other :: Accounted(s, other) ==> Accounted(s', other);
      }
    case SendFlush => AcceptKeepsInv(cfg, s, Flush, s.attempted);
    case SendShutdown => AcceptKeepsInv(cfg, s, Shutdown, s.attempted);
    case Disconnect => assert forall other :: Accounted(s, other) ==> Accounted(s', other);
  }

  lemma ReceiveWorkOk(cfg: Config, ms: seq<Msg>, m: Msg, w: Work)
    requires WorkOk(cfg, ms, w)
    ensures match m
      case Data(sig, data) => WorkOk(cfg, ms + [m], Reap(Push(cfg, w, sig, data)))
      case _ => WorkOk(cfg, ms + [m], FlushAll(cfg, w)) && FlushAll(cfg, w).batch == NO_BATCH
  {
    if m.Data? {
      PushOk(cfg, ms, w, m.sig, m.data);
      ReapOk(cfg, ms + [m], Push(cfg, w, m.sig, m.data));
    } else {
      ControlMessageOk(cfg, ms, m, w);
      FlushAllOk(cfg, ms + [m], w);
    }
  }

  /** The invariant from its parts, when the messages and the counts stay. */
  lemma InvFromParts(cfg: Config, s: State, s': State)
    requires Inv(cfg, s)
    requires s'.accepted == s.accepted && s'.attempted == s.attempted
    requires s'.dropped == s.dropped && s'.connected == s.connected
    requires s.received <= s'.received <= |s.accepted|
    requires WorkOk(cfg, s.accepted[..s'.received], s'.work) && ControlOk(s') && s'.replies == s.replies
    ensures Inv(cfg, s')
  {
    assert forall sig :: Accounted(s, sig) ==> Accounted(s', sig);
  }

  lemma ReceiveKeepsInv(cfg: Config, s: State)
    requires Inv(cfg, s) && Enabled(cfg, s, Receive)
    ensures Inv(cfg, ReceiveStep(cfg, s))
  {
    var ms, m := s.accepted[..s.received], s.accepted[s.received];
    assert s.accepted[..s.received + 1] == ms + [m];
    ReceiveWorkOk(cfg, ms, m, s.work);
    InvFromParts(cfg, s, ReceiveStep(cfg, s));
  }

  lemma TickKeepsInv(cfg: Config, s: State)
    requires Inv(cfg, s) && s.control.Idle?
    ensures Inv(cfg, Apply(cfg, s, Tick))
  {
    FlushAllOk(cfg, s.accepted[..s.received], s.work);
    ReapOk(cfg, s.accepted[..s.received], FlushAll(cfg, s.work));
    InvFromParts(cfg, s, Apply(cfg, s, Tick));
  }

  lemma ReceiveNoneKeepsInv(cfg: Config, s: State)
    requires Inv(cfg, s) && Enabled(cfg, s, ReceiveNone)
    ensures Inv(cfg, Apply(cfg, s, ReceiveNone))
  {
    FlushAllOk(cfg, s.accepted[..s.received], s.work);
    InvFromParts(cfg, s, Apply(cfg, s, ReceiveNone));
  }

  lemma DrainDoneKeepsInv(cfg: Config, s: State)
    requires Inv(cfg, s) && Enabled(cfg, s, DrainDone)
    ensures Inv(cfg, Apply(cfg, s, DrainDone))
  {
    var s' := Apply(cfg, s, DrainDone);
    hide Reap;
    var s1 := s'.(replies := s.replies);
    ReapOk(cfg, s.accepted[..s.received], s.work);
    InvFromParts(cfg, s, s1);
    assert forall sig :: Accounted(s1, sig) ==> Accounted(s', sig);
  }

  lemma TaskAfterOk(cfg: Config, ts: seq<Task>, e: Event)
    requires TasksOk(cfg, ts) && IsTaskEvent(e) && e.i < |ts|
    requires e.JoinNext? ==> ts[e.i].phase.Finished?
    requires e.Acquire? ==> ts[e.i].phase.Waiting? && Sum(ts, Holds) < cfg.permits
    requires e.Attempt? || e.Panic? ==> ts[e.i].phase.Posting?
    ensures TasksOk(cfg, ts[e.i := TaskAfter(ts[e.i], e)])
  {
    assert TaskOk(cfg, ts[e.i]);
    SumUpdate(ts, e.i, TaskAfter(ts[e.i], e), Holds);
  }

  /** Once the loop is gone no task is left to step. */
  lemma NoTaskAfterExit(cfg: Config, s: State, e: Event)
    requires Inv(cfg, s) && s.control.Exited? && IsTaskEvent(e)
    ensures !Enabled(cfg, s, e)
  {
    var ts := s.work.tasks;
    if e.i < |ts| {
      assert ts[e.i].joined && TaskOk(cfg, ts[e.i]);
    }
  }

  lemma TaskEventWork(cfg: Config, ms: seq<Msg>, s: State, e: Event)
    requires WorkOk(cfg, ms, s.work) && Enabled(cfg, s, e) && IsTaskEvent(e)
    ensures WorkOk(cfg, ms, Apply(cfg, s, e).work)
    ensures Apply(cfg, s, e) == s.(work := Apply(cfg, s, e).work)
    ensures Apply(cfg, s, e).work.batch == s.work.batch
  {
    var ts := s.work.tasks;
    TaskAfterOk(cfg, ts, e);
    SameWorkOk(cfg, ms, s.work, ts[e.i := TaskAfter(ts[e.i], e)]);
  }

  lemma TaskKeepsInv(cfg: Config, s: State, e: Event)
    requires Inv(cfg, s) && Enabled(cfg, s, e) && IsTaskEvent(e)
    ensures Inv(cfg, Apply(cfg, s, e))
  {
    if s.control.Exited? {
      NoTaskAfterExit(cfg, s, e);
      assert false;
    }
    TaskEventWork(cfg, s.accepted[..s.received], s, e);
    InvFromParts(cfg, s, s.(work := Apply(cfg, s, e).work));
  }

  lemma StepKeepsInv(cfg: Config, s: State, e: Event)
    requires Inv(cfg, s) && Enabled(cfg, s, e)
    ensures Inv(cfg, Apply(cfg, s, e))
  {
    if IsTaskEvent(e) {
      TaskKeepsInv(cfg, s, e);
    } else if e.Receive? {
      ReceiveKeepsInv(cfg, s);
    } else if e.ReceiveNone? {
      ReceiveNoneKeepsInv(cfg, s);
    } else if e.Tick? {
      TickKeepsInv(cfg, s);
    } else if e.DrainDone? {
      DrainDoneKeepsInv(cfg, s);
    } else {
      ProducerKeepsInv(cfg, s, e);
    }
  }

  // --- Runs ---

  /** The state after a run from `s`, if every event was enabled when it happened. */
  function Run(cfg: Config, s: State, es: seq<Event>): Option<State>
    decreases |es|
  {
    if es == [] then Some(s)
    else if Enabled(cfg, s, es[0]) then Run(cfg, Apply(cfg, s, es[0]), es[1..])
    else None
  }

  lemma {:induction false} RunSnoc(cfg: Config, s: State, es: seq<Event>, m: State, e: Event)
    requires Run(cfg, s, es) == Some(m) && Enabled(cfg, m, e)
    ensures Run(cfg, s, es + [e]) == Some(Apply(cfg, m, e))
    decreases |es|
  {
    if es == [] {
      assert es + [e] == [e] && [e][1..] == [];
      assert Run(cfg, s, [e]) == Run(cfg, Apply(cfg, s, e), [e][1..]);
    } else {
      assert (es + [e])[0] == es[0] && (es + [e])[1..] == es[1..] + [e];
      RunSnoc(cfg, Apply(cfg, s, es[0]), es[1..], m, e);
    }
  }

  /** The invariant holds in every reachable state. */
  lemma {:induction false} RunKeepsInv(cfg: Config, s: State, es: seq<Event>)
    requires Inv(cfg, s) && Run(cfg, s, es).Some?
    ensures Inv(cfg, Run(cfg, s, es).value)
    decreases |es|
  {
    if es == [] {
    } else {
      StepKeepsInv(cfg, s, es[0]);
      RunKeepsInv(cfg, Apply(cfg, s, es[0]), es[1..]);
    }
  }
}

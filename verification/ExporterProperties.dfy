/** What the exporter guarantees in every run, for any capacity, batch size, permits and URLs. */
module ExporterProperties {
  import opened Bytes
  import opened Exporter

  ghost predicate Reachable(cfg: Config, es: seq<Event>, s: State) {
    Run(cfg, INIT, es) == Some(s)
  }

  lemma ReachableInv(cfg: Config, es: seq<Event>, s: State)
    requires Reachable(cfg, es, s)
    ensures Inv(cfg, s)
  {
    InitInv(cfg);
    RunKeepsInv(cfg, INIT, es);
  }

  /**
   In every reachable state the channel stays within its capacity, every batch below the batch
   size, every payload joins one to a batch of messages, and no more tasks post than there are permits.
   */
  lemma BoundsHold(cfg: Config, es: seq<Event>, s: State)
    requires Reachable(cfg, es, s)
    ensures s.received <= |s.accepted| <= s.received + cfg.capacity
    ensures forall sig :: |s.work.batch.Get(sig)| < if cfg.batchSize == 0 then 1 else cfg.batchSize
    ensures forall t | t in s.work.tasks ::
      1 <= |t.items| <= (if cfg.batchSize == 0 then 1 else cfg.batchSize) && t.payload == Concat(t.items)
    ensures Sum(s.work.tasks, Holds) <= cfg.permits
  {
    ReachableInv(cfg, es, s);
    hide Run, Sum, Concat;
    forall t | t in s.work.tasks ensures TaskOk(cfg, t) {
      var i :| 0 <= i < |s.work.tasks| && s.work.tasks[i] == t;
    }
  }

  // --- Conservation ---

  function ItemsUnfinished(sig: Signal): Task -> nat {
    (t: Task) => if t.sig == sig && !t.phase.Finished? then |t.items| else 0
  }

  function ItemsEnded(sig: Signal, o: Outcome): Task -> nat {
    (t: Task) => if t.sig == sig && t.phase == Finished(o) then |t.items| else 0
  }

  lemma {:induction false} EveryItemHasOneFate(ts: seq<Task>, sig: Signal)
    ensures |Spawned(ts, sig)| == Sum(ts, ItemsUnfinished(sig)) + Sum(ts, ItemsEnded(sig, Delivered))
      + Sum(ts, ItemsEnded(sig, GaveUp)) + Sum(ts, ItemsEnded(sig, Panicked))
  {
    if ts == [] {
    } else {
      var t := ts[|ts| - 1];
      EveryItemHasOneFate(ts[..|ts| - 1], sig);
      match t.phase {
        case Finished(Delivered) =>
        case Finished(GaveUp) =>
        case Finished(Panicked) =>
        case _ =>
      }
      assert |Spawned(ts, sig)| == |Spawned(ts[..|ts| - 1], sig)| + if t.sig == sig then |t.items| else 0;
    }
  }

  /**
   Every send is accounted for exactly once. Messages still in the channel are waiting,
   or stranded once the loop is gone.
   */
  lemma Conservation(cfg: Config, es: seq<Event>, s: State, sig: Signal)
    requires Reachable(cfg, es, s)
    ensures s.received <= |s.accepted|
    ensures var ts := s.work.tasks;
      s.attempted.Get(sig) == s.dropped.Get(sig) + |DataOf(s.accepted[s.received..], sig)| + |s.work.batch.Get(sig)|
        + Sum(ts, ItemsUnfinished(sig)) + Sum(ts, ItemsEnded(sig, Delivered)) + Sum(ts, ItemsEnded(sig, GaveUp))
        + Sum(ts, ItemsEnded(sig, Panicked)) + |s.work.discarded.Get(sig)|
  {
    ReachableInv(cfg, es, s);
    var ms := s.accepted[..s.received];
    assert Accounted(s, sig) && Partition(cfg, DataOf(ms, sig), s.work, sig);
    assert s.accepted == ms + s.accepted[s.received..];
    DataAppend(ms, s.accepted[s.received..], sig);
    EveryItemHasOneFate(s.work.tasks, sig);
  }

  // --- Payloads ---

  /** The bytes posted for one signal, in spawn order. */
  function Posted(ts: seq<Task>, sig: Signal): seq<seq<byte>> {
    if ts == [] then []
    else
      var t := ts[|ts| - 1];
      Posted(ts[..|ts| - 1], sig) + if t.sig == sig then [t.payload] else []
  }

  lemma {:induction false} SpawnedPrefix(ts: seq<Task>, k: nat, sig: Signal)
    requires k <= |ts|
    ensures Spawned(ts[..k], sig) <= Spawned(ts, sig)
  {
    if k == |ts| {
      assert ts[..k] == ts;
    } else {
      SpawnedPrefix(ts[..|ts| - 1], k, sig);
      assert ts[..|ts| - 1][..k] == ts[..k];
    }
  }

  /** The messages of a task stand behind those of the tasks spawned earlier. */
  lemma SpawnedAround(ts: seq<Task>, i: nat) returns (rest: seq<seq<byte>>)
    requires i < |ts|
    ensures Spawned(ts, ts[i].sig) == Spawned(ts[..i], ts[i].sig) + ts[i].items + rest
  {
    SpawnedPrefix(ts, i + 1, ts[i].sig);
    assert ts[..i + 1] == ts[..i] + [ts[i]];
    SpawnedSnoc(ts[..i], ts[i], ts[i].sig);
    hide Spawned;
    var front := Spawned(ts[..i + 1], ts[i].sig);
    rest := Spawned(ts, ts[i].sig)[|front|..];
  }

  lemma {:induction false} PostedBytes(cfg: Config, ts: seq<Task>, sig: Signal)
    requires forall i | 0 <= i < |ts| :: TaskOk(cfg, ts[i])
    ensures Concat(Posted(ts, sig)) == Concat(Spawned(ts, sig))
  {
    if ts == [] {
    } else {
      var n := |ts| - 1;
      var t := ts[n];
      PostedBytes(cfg, ts[..n], sig);
      assert TaskOk(cfg, t);
      if t.sig == sig {
        ConcatSnoc(Posted(ts[..n], sig), t.payload);
        ConcatAppend(Spawned(ts[..n], sig), t.items);
      } else {
        assert Posted(ts, sig) == Posted(ts[..n], sig) && Spawned(ts, sig) == Spawned(ts[..n], sig);
      }
    }
  }

  /**
   The payloads of a signal with a URL cut the received messages, in order, into
   consecutive runs of at most a batch; only the current batch is still missing.
   */
  lemma PayloadsPartition(cfg: Config, es: seq<Event>, s: State, sig: Signal)
    requires Reachable(cfg, es, s) && cfg.url.Get(sig)
    ensures s.received <= |s.accepted|
    ensures DataOf(s.accepted[..s.received], sig) == Spawned(s.work.tasks, sig) + s.work.batch.Get(sig)
    ensures Concat(Posted(s.work.tasks, sig)) == Concat(Spawned(s.work.tasks, sig))
    ensures forall i | 0 <= i < |s.work.tasks| :: TaskOk(cfg, s.work.tasks[i])
    ensures |s.work.batch.Get(sig)| < if cfg.batchSize == 0 then 1 else cfg.batchSize
  {
    hide Run, Sum, Concat, Spawned, Posted;
    ReachableInv(cfg, es, s);
    assert Partition(cfg, DataOf(s.accepted[..s.received], sig), s.work, sig);
    PostedBytes(cfg, s.work.tasks, sig);
  }

  /** A payload spawned because a message arrived joins exactly a full batch, ending with that message. */
  lemma ArrivalFillsBatch(cfg: Config, es: seq<Event>, s: State, sig: Signal, data: seq<byte>)
    requires Reachable(cfg, es, s) && Enabled(cfg, s, Receive) && s.accepted[s.received] == Data(sig, data)
    ensures var before, after := s.work.tasks, Apply(cfg, s, Receive).work.tasks;
      || |after| == |before|
      || (|after| == |before| + 1 && after[|before|].sig == sig
          && |after[|before|].items| == (if cfg.batchSize == 0 then 1 else cfg.batchSize)
          && after[|before|].items == s.work.batch.Get(sig) + [data])
  {
    ReachableInv(cfg, es, s);
    assert |s.work.batch.Get(sig)| < cfg.Full();
  }

  // --- Which messages the channel takes ---

  /** The data handed to the send operation of a signal, in order. */
  function Sends(es: seq<Event>, sig: Signal): seq<seq<byte>> {
    if es == [] then []
    else (if es[0].Send? && es[0].sig == sig then [es[0].data] else []) + Sends(es[1..], sig)
  }

  /** The loop is there, and fewer messages wait than the channel holds. */
  predicate HasRoom(cfg: Config, s: State) {
    !s.control.Exited? && s.received <= |s.accepted| < s.received + cfg.capacity
  }

  /** For each of these calls, whether the channel had room. */
  function Kept(cfg: Config, s: State, es: seq<Event>, sig: Signal): (keep: seq<bool>)
    requires Run(cfg, s, es).Some?
    ensures |keep| == |Sends(es, sig)|
    decreases |es|
  {
    if es == [] then []
    else
      var first := if es[0].Send? && es[0].sig == sig then [HasRoom(cfg, s)] else [];
      first + Kept(cfg, Apply(cfg, s, es[0]), es[1..], sig)
  }

  function Select<A>(xs: seq<A>, keep: seq<bool>): seq<A>
    requires |xs| == |keep|
  {
    if xs == [] then [] else (if keep[0] then [xs[0]] else []) + Select(xs[1..], keep[1..])
  }

  lemma SelectFirst<A>(x: A, xs: seq<A>, k: bool, keep: seq<bool>)
    requires |xs| == |keep|
    ensures Select([x] + xs, [k] + keep) == (if k then [x] else []) + Select(xs, keep)
  {
    assert ([x] + xs)[1..] == xs && ([k] + keep)[1..] == keep;
  }

  lemma {:induction false} SelectAppend<A>(xs: seq<A>, ys: seq<A>, keep: seq<bool>, more: seq<bool>)
    requires |xs| == |keep| && |ys| == |more|
    ensures Select(xs + ys, keep + more) == Select(xs, keep) + Select(ys, more)
  {
    if xs == [] {
      assert xs + ys == ys && keep + more == more;
    } else {
      assert (xs + ys)[0] == xs[0] && (xs + ys)[1..] == xs[1..] + ys;
      assert (keep + more)[0] == keep[0] && (keep + more)[1..] == keep[1..] + more;
      SelectAppend(xs[1..], ys, keep[1..], more);
      Assoc3(if keep[0] then [xs[0]] else [], Select(xs[1..], keep[1..]), Select(ys, more));
    }
  }

  lemma {:induction false} SelectSame<A>(xs: seq<A>, keep: seq<bool>, k: bool)
    requires |xs| == |keep| && forall i | 0 <= i < |keep| :: keep[i] == k
    ensures Select(xs, keep) == if k then xs else []
  {
    if xs == [] {
    } else {
      SelectSame(xs[1..], keep[1..], k);
      assert xs == [xs[0]] + xs[1..];
    }
  }

  /** The payloads for which the collector reported success, in spawn order. */
  function DeliveredPayloads(ts: seq<Task>, sig: Signal): seq<seq<byte>> {
    if ts == [] then []
    else
      var t := ts[|ts| - 1];
      DeliveredPayloads(ts[..|ts| - 1], sig)
      + if t.sig == sig && t.phase == Finished(Delivered) then [t.payload] else []
  }

  /** For each spawned message of a signal, whether its payload was delivered. */
  function WasDelivered(ts: seq<Task>, sig: Signal): (keep: seq<bool>)
    ensures |keep| == |Spawned(ts, sig)|
  {
    if ts == [] then []
    else
      var t := ts[|ts| - 1];
      WasDelivered(ts[..|ts| - 1], sig)
      + if t.sig == sig then seq(|t.items|, _ => t.phase == Finished(Delivered)) else []
  }

  /** One step puts at most the data it sends into the channel. */
  lemma StepAccepts(cfg: Config, s: State, e: Event, sig: Signal)
    requires Enabled(cfg, s, e)
    ensures DataOf(Apply(cfg, s, e).accepted, sig)
      == DataOf(s.accepted, sig) + if e.Send? && e.sig == sig && HasRoom(cfg, s) then [e.data] else []
    ensures Apply(cfg, s, e).dropped.Get(sig)
      == s.dropped.Get(sig) + if e.Send? && e.sig == sig && !HasRoom(cfg, s) then 1 else 0
  {
    hide DataOf, FlushAll, Push, Reap, Sum;
    assert DataOf(s.accepted, sig) + [] == DataOf(s.accepted, sig);
    match e {
      case Send(g, d) => DataSnoc(s.accepted, Data(g, d), sig);
      case SendFlush => DataSnoc(s.accepted, Flush, sig);
      case SendShutdown => DataSnoc(s.accepted, Shutdown, sig);
      case _ =>
    }
  }

  /** What the channel took is what was sent and found room, in order; the rest is what was dropped. */
  lemma {:induction false} AcceptedIsSelected(cfg: Config, s: State, es: seq<Event>, sig: Signal)
    requires Run(cfg, s, es).Some?
    ensures var t, sent, keep := Run(cfg, s, es).value, Sends(es, sig), Kept(cfg, s, es, sig);
      && DataOf(t.accepted, sig) == DataOf(s.accepted, sig) + Select(sent, keep)
      && |sent| == |Select(sent, keep)| + t.dropped.Get(sig) - s.dropped.Get(sig)
    decreases |es|
  {
    hide DataOf, Apply, Enabled, HasRoom, Select;
    if es == [] {
      SelectNone<seq<byte>>();
      assert DataOf(s.accepted, sig) + [] == DataOf(s.accepted, sig);
    } else {
      var e, s1, rest := es[0], Apply(cfg, s, es[0]), es[1..];
      AcceptedIsSelected(cfg, s1, rest, sig);
      StepAccepts(cfg, s, e, sig);
      var sent, keep := Sends(rest, sig), Kept(cfg, s1, rest, sig);
      if e.Send? && e.sig == sig {
        assert Sends(es, sig) == [e.data] + sent && Kept(cfg, s, es, sig) == [HasRoom(cfg, s)] + keep;
        SelectFirst(e.data, sent, HasRoom(cfg, s), keep);
        Assoc3(DataOf(s.accepted, sig), if HasRoom(cfg, s) then [e.data] else [], Select(sent, keep));
      } else {
        assert Sends(es, sig) == [] + sent == sent && Kept(cfg, s, es, sig) == [] + keep == keep;
        assert DataOf(s.accepted, sig) + [] == DataOf(s.accepted, sig);
      }
    }
  }

  lemma SelectNone<A>()
    ensures Select<A>([], []) == []
  {
  }

  // --- Settled work stays settled ---

  /** Nothing already spawned changes its work, and nothing finished changes its outcome. */
  ghost predicate Grows(ts: seq<Task>, us: seq<Task>) {
    && |ts| <= |us|
    && forall i | 0 <= i < |ts| ::
         && us[i].sig == ts[i].sig && us[i].items == ts[i].items && us[i].payload == ts[i].payload
         && (ts[i].phase.Finished? ==> us[i].phase == ts[i].phase)
  }

  ghost predicate WorkGrows(w: Work, w': Work) {
    Grows(w.tasks, w'.tasks) && forall sig :: w.discarded.Get(sig) <= w'.discarded.Get(sig)
  }

  lemma FlushBatchGrows(cfg: Config, w: Work, sig: Signal)
    ensures WorkGrows(w, FlushBatch(cfg, w, sig))
  {
  }

  lemma GrowsTransitive(w: Work, w1: Work, w2: Work)
    requires WorkGrows(w, w1) && WorkGrows(w1, w2)
    ensures WorkGrows(w, w2)
  {
    forall sig ensures w.discarded.Get(sig) <= w2.discarded.Get(sig) {
      assert w.discarded.Get(sig) <= w1.discarded.Get(sig) <= w2.discarded.Get(sig);
    }
  }

  lemma FlushAllGrows(cfg: Config, w: Work)
    ensures WorkGrows(w, FlushAll(cfg, w))
  {
    hide FlushBatch, WorkGrows;
    var w1 := FlushBatch(cfg, w, Traces);
    var w2 := FlushBatch(cfg, w1, Logs);
    FlushBatchGrows(cfg, w, Traces);
    FlushBatchGrows(cfg, w1, Logs);
    FlushBatchGrows(cfg, w2, Metrics);
    GrowsTransitive(w, w1, w2);
    GrowsTransitive(w, w2, FlushAll(cfg, w));
  }

  lemma ReapGrows(w: Work)
    ensures WorkGrows(w, Reap(w))
  {
  }

  lemma PushGrows(cfg: Config, w: Work, sig: Signal, data: seq<byte>)
    ensures WorkGrows(w, Push(cfg, w, sig, data))
  {
    FlushBatchGrows(cfg, w.(batch := w.batch.Set(sig, w.batch.Get(sig) + [data])), sig);
  }

  lemma StepGrows(cfg: Config, s: State, e: Event)
    requires Enabled(cfg, s, e)
    ensures WorkGrows(s.work, Apply(cfg, s, e).work)
    ensures s.accepted <= Apply(cfg, s, e).accepted
  {
    if IsTaskEvent(e) {
      hide Sum, FlushAll, Reap, ReceiveStep, DrainStep;
    } else {
      hide Push, FlushAll, Reap, Sum;
      FlushAllGrows(cfg, s.work);
      ReapGrows(s.work);
      ReapGrows(FlushAll(cfg, s.work));
      GrowsTransitive(s.work, FlushAll(cfg, s.work), Reap(FlushAll(cfg, s.work)));
      if e.Receive? && s.accepted[s.received].Data? {
        var m := s.accepted[s.received];
        var w := Push(cfg, s.work, m.sig, m.data);
        PushGrows(cfg, s.work, m.sig, m.data);
        ReapGrows(w);
        GrowsTransitive(s.work, w, Reap(w));
      }
    }
  }

  ghost predicate AllFinished(ts: seq<Task>) {
    forall i | 0 <= i < |ts| :: ts[i].phase.Finished?
  }

  /**
   The data messages among the first `at` that entered the channel are all settled: those of
   a signal with a URL are, in order, the messages of finished tasks, the others are discarded.
   */
  ghost predicate SettledBy(cfg: Config, s: State, at: nat, k: nat) {
    && at <= |s.accepted| && k <= |s.work.tasks| && AllFinished(s.work.tasks[..k])
    && forall sig :: SettledSignal(cfg, s, at, k, sig)
  }

  ghost predicate SettledSignal(cfg: Config, s: State, at: nat, k: nat, sig: Signal)
    requires at <= |s.accepted| && k <= |s.work.tasks|
  {
    if cfg.url.Get(sig) then DataOf(s.accepted[..at], sig) == Spawned(s.work.tasks[..k], sig)
    else DataOf(s.accepted[..at], sig) <= s.work.discarded.Get(sig)
  }

  lemma SettledStays(cfg: Config, s: State, s': State, at: nat, k: nat)
    requires SettledBy(cfg, s, at, k) && WorkGrows(s.work, s'.work) && s.accepted <= s'.accepted
    ensures SettledBy(cfg, s', at, k)
  {
    assert s'.accepted[..at] == s.accepted[..at];
    forall sig ensures SettledSignal(cfg, s', at, k, sig) {
      assert SettledSignal(cfg, s, at, k, sig);
      SpawnedSame(s.work.tasks[..k], s'.work.tasks[..k], sig);
      assert s.work.discarded.Get(sig) <= s'.work.discarded.Get(sig);
    }
  }

  /** With no batch and no unfinished task, everything received is settled. */
  lemma DrainedIsSettled(cfg: Config, s: State, at: nat)
    requires Inv(cfg, s) && s.work.batch == NO_BATCH && AllJoined(s.work.tasks)
    requires at == s.received || (at + 1 == s.received && !s.accepted[at].Data?)
    ensures SettledBy(cfg, s, at, |s.work.tasks|)
  {
    hide Sum, Accounted, ControlOk;
    var ts := s.work.tasks;
    assert ts[..|ts|] == ts;
    assert forall i | 0 <= i < |ts| :: TaskOk(cfg, ts[i]);
    forall sig ensures SettledSignal(cfg, s, at, |ts|, sig) {
      DrainedSignal(cfg, s, at, sig);
    }
  }

  lemma DrainedSignal(cfg: Config, s: State, at: nat, sig: Signal)
    requires Inv(cfg, s) && s.work.batch == NO_BATCH
    requires at == s.received || (at + 1 == s.received && !s.accepted[at].Data?)
    ensures SettledSignal(cfg, s, at, |s.work.tasks|, sig)
  {
    hide Spawned, Sum, TasksOk, ControlOk, Accounted;
    var d := DataOf(s.accepted[..s.received], sig);
    assert Partition(cfg, d, s.work, sig) && s.work.batch.Get(sig) == [];
    assert s.work.tasks[..|s.work.tasks|] == s.work.tasks;
    assert d == if cfg.url.Get(sig) then Spawned(s.work.tasks, sig) else s.work.discarded.Get(sig);
    if at + 1 == s.received {
      assert s.accepted[..s.received] == s.accepted[..at] + [s.accepted[at]];
      DataSnoc(s.accepted[..at], s.accepted[at], sig);
    }
  }

  // --- The flush barrier ---

  /**
   When the reply to a Flush is sent, all batches are empty, no task is left, every data
   message that entered the channel before the Flush is settled, and none behind it was taken.
   */
  lemma FlushBarrier(cfg: Config, es: seq<Event>, s: State, at: nat)
    requires Reachable(cfg, es, s) && s.control == Draining(Reply(at)) && Enabled(cfg, s, DrainDone)
    ensures var s' := Apply(cfg, s, DrainDone);
      && s'.replies == s.replies + [at] && s'.control == Idle
      && at < |s.accepted| && s.accepted[at] == Flush && s'.received == at + 1
      && s'.work.batch == NO_BATCH && AllFinished(s'.work.tasks) && AllJoined(s'.work.tasks)
      && SettledBy(cfg, s', at, |s'.work.tasks|)
  {
    ReachableInv(cfg, es, s);
    DrainedIsSettled(cfg, s, at);
    StepGrows(cfg, s, DrainDone);
    SettledStays(cfg, s, Apply(cfg, s, DrainDone), at, |s.work.tasks|);
  }

  lemma {:induction false} RunSplit(cfg: Config, s: State, es: seq<Event>, e: Event)
    requires Run(cfg, s, es + [e]).Some?
    ensures Run(cfg, s, es).Some? && Enabled(cfg, Run(cfg, s, es).value, e)
    ensures Run(cfg, s, es + [e]) == Some(Apply(cfg, Run(cfg, s, es).value, e))
    decreases |es|
  {
    if es == [] {
      assert ([e] + [])[1..] == [] && es + [e] == [e];
      assert Run(cfg, s, [e]) == Run(cfg, Apply(cfg, s, e), [e][1..]);
    } else {
      assert (es + [e])[0] == es[0] && (es + [e])[1..] == es[1..] + [e];
      RunSplit(cfg, Apply(cfg, s, es[0]), es[1..], e);
    }
  }

  /** In every run, each Flush that was answered had, and keeps, everything before it settled. */
  lemma {:induction false} RepliesAreBarriers(cfg: Config, es: seq<Event>, s: State, j: nat)
    requires Reachable(cfg, es, s) && j < |s.replies|
    ensures exists k :: SettledBy(cfg, s, s.replies[j], k)
    decreases |es|
  {
    if es == [] {
    } else {
      var n := |es| - 1;
      var e := es[n];
      assert es == es[..n] + [e];
      RunSplit(cfg, INIT, es[..n], e);
      var p := Run(cfg, INIT, es[..n]).value;
      StepGrows(cfg, p, e);
      if j < |p.replies| {
        RepliesAreBarriers(cfg, es[..n], p, j);
        var k :| SettledBy(cfg, p, p.replies[j], k);
        SettledStays(cfg, p, s, p.replies[j], k);
        assert p.replies[j] == s.replies[j] && SettledBy(cfg, s, s.replies[j], k);
      } else {
        assert e == DrainDone && p.control.Draining? && p.control.next == Reply(s.replies[j]);
        FlushBarrier(cfg, es[..n], p, s.replies[j]);
        assert SettledBy(cfg, s, s.replies[j], |s.work.tasks|);
      }
    }
  }

  /** Every received Flush has been answered or is being answered. */
  ghost predicate FlushesAnswered(s: State) {
    forall i | 0 <= i < s.received && i < |s.accepted| && s.accepted[i] == Flush ::
      i in s.replies || s.control == Draining(Reply(i))
  }

  lemma StepAnswersFlushes(cfg: Config, s: State, e: Event)
    requires Inv(cfg, s) && FlushesAnswered(s) && Enabled(cfg, s, e)
    ensures FlushesAnswered(Apply(cfg, s, e))
  {
    hide FlushAll, Push, Reap, Sum, WorkOk;
  }

  /**
   A Flush the loop has received has been answered, or its tasks are being awaited. One that stays in the channel
   is not answered.
   */
  lemma ReceivedFlushIsAnswered(cfg: Config, es: seq<Event>, s: State, at: nat)
    requires Reachable(cfg, es, s) && at < |s.accepted| && s.accepted[at] == Flush
    ensures at < s.received <==> at in s.replies || s.control == Draining(Reply(at))
  {
    FlushesAreAnswered(cfg, es, s);
    ReachableInv(cfg, es, s);
  }

  lemma {:induction false} FlushesAreAnswered(cfg: Config, es: seq<Event>, s: State)
    requires Reachable(cfg, es, s)
    ensures FlushesAnswered(s)
    decreases |es|
  {
    if es == [] {
    } else {
      var n := |es| - 1;
      assert es == es[..n] + [es[n]];
      RunSplit(cfg, INIT, es[..n], es[n]);
      var p := Run(cfg, INIT, es[..n]).value;
      hide Run, Apply, Enabled, FlushesAnswered;
      FlushesAreAnswered(cfg, es[..n], p);
      ReachableInv(cfg, es[..n], p);
      StepAnswersFlushes(cfg, p, es[n]);
    }
  }

  // --- Shutdown ---

  /** Where the first Shutdown is, or the length if there is none. */
  function FirstShutdown(ms: seq<Msg>): (r: nat)
    ensures r <= |ms|
    ensures r < |ms| ==> ms[r] == Shutdown
    ensures forall i | 0 <= i < r :: ms[i] != Shutdown
  {
    if ms == [] || ms[0] == Shutdown then 0 else 1 + FirstShutdown(ms[1..])
  }

  lemma FirstShutdownAt(ms: seq<Msg>, at: nat)
    requires at < |ms| && ms[at] == Shutdown && forall i | 0 <= i < at :: ms[i] != Shutdown
    ensures FirstShutdown(ms) == at
  {
  }

  /** The loop has received a Shutdown and is leaving or gone. */
  predicate Leaving(c: Control) {
    c == Draining(Exit(ByShutdown)) || c == Exited(ByShutdown)
  }

  /** The messages received, but for the Shutdown that makes the loop leave, are no Shutdown. */
  ghost predicate NoShutdownYet(s: State) {
    forall i | 0 <= i < |s.accepted| && i < s.received - (if Leaving(s.control) then 1 else 0) ::
      s.accepted[i] != Shutdown
  }

  lemma StepKeepsNoShutdown(cfg: Config, s: State, e: Event)
    requires Inv(cfg, s) && NoShutdownYet(s) && Enabled(cfg, s, e)
    ensures NoShutdownYet(Apply(cfg, s, e))
  {
    hide FlushAll, Push, Reap, Sum, WorkOk;
  }

  lemma {:induction false} LeavesAtFirstShutdown(cfg: Config, es: seq<Event>, s: State)
    requires Reachable(cfg, es, s)
    ensures NoShutdownYet(s)
    decreases |es|
  {
    if es == [] {
    } else {
      var n := |es| - 1;
      assert es == es[..n] + [es[n]];
      RunSplit(cfg, INIT, es[..n], es[n]);
      var p := Run(cfg, INIT, es[..n]).value;
      hide Run, Apply, Enabled, NoShutdownYet;
      LeavesAtFirstShutdown(cfg, es[..n], p);
      ReachableInv(cfg, es[..n], p);
      StepKeepsNoShutdown(cfg, p, es[n]);
    }
  }

  /** The sends of a signal: dropped, received, or left in the channel. */
  ghost predicate AttemptsSplit(s: State, sig: Signal)
    requires s.received <= |s.accepted|
  {
    s.attempted.Get(sig)
    == s.dropped.Get(sig) + |DataOf(s.accepted[..s.received], sig)| + |DataOf(s.accepted[s.received..], sig)|
  }

  /**
   The loop leaves with nothing in hand. It leaves at the first Shutdown accepted: everything ahead
   of that is settled, and what is behind it stays in the channel, neither posted nor counted as dropped; after
   the last sender went, the channel is empty.
   */
  lemma ExitIsClean(cfg: Config, es: seq<Event>, s: State)
    requires Reachable(cfg, es, s) && s.control.Exited?
    ensures s.received <= |s.accepted| && s.work.batch == NO_BATCH && AllFinished(s.work.tasks)
    ensures match s.control.cause
      case ByShutdown =>
        && FirstShutdown(s.accepted) == s.received - 1 < |s.accepted|
        && SettledBy(cfg, s, s.received - 1, |s.work.tasks|)
        && forall sig :: AttemptsSplit(s, sig)
      case ByDisconnect =>
        s.received == |s.accepted| && SettledBy(cfg, s, s.received, |s.work.tasks|)
  {
    ReachableInv(cfg, es, s);
    assert forall i | 0 <= i < |s.work.tasks| :: TaskOk(cfg, s.work.tasks[i]);
    match s.control.cause {
      case ByShutdown =>
        LeavesAtFirstShutdown(cfg, es, s);
        FirstShutdownAt(s.accepted, s.received - 1);
        DrainedIsSettled(cfg, s, s.received - 1);
        forall sig
          ensures AttemptsSplit(s, sig)
        {
          assert Accounted(s, sig);
          assert s.accepted == s.accepted[..s.received] + s.accepted[s.received..];
          DataAppend(s.accepted[..s.received], s.accepted[s.received..], sig);
        }
      case ByDisconnect =>
        DrainedIsSettled(cfg, s, s.received);
    }
  }

  ghost predicate HasNoData(ms: seq<Msg>) {
    forall i | 0 <= i < |ms| :: !ms[i].Data?
  }

  ghost predicate NoneOf(ms: seq<Msg>, sig: Signal) {
    DataOf(ms, sig) == []
  }

  lemma {:induction false} NoDataIff(ms: seq<Msg>)
    ensures HasNoData(ms) <==> forall sig :: NoneOf(ms, sig)
  {
    if ms == [] {
      assert forall sig :: NoneOf(ms, sig);
    } else {
      var n := |ms| - 1;
      NoDataIff(ms[..n]);
      assert HasNoData(ms) <==> HasNoData(ms[..n]) && !ms[n].Data?;
      forall sig ensures NoneOf(ms, sig) <==> NoneOf(ms[..n], sig) && !(ms[n].Data? && ms[n].sig == sig) {
      }
      assert ms[n].Data? ==> !NoneOf(ms, ms[n].sig);
    }
  }

  /**
   A Shutdown drains the remaining messages exactly when none are sent behind it: in every state the loop
   has left in, all accepted data is settled if and only if no data was accepted
   behind the first Shutdown.
   */
  lemma ShutdownSettlesIff(cfg: Config, es: seq<Event>, s: State)
    requires Reachable(cfg, es, s) && s.control == Exited(ByShutdown)
    ensures SettledBy(cfg, s, |s.accepted|, |s.work.tasks|)
       <==> forall i | FirstShutdown(s.accepted) < i < |s.accepted| :: !s.accepted[i].Data?
  {
    hide Run, FirstShutdown, SettledBy;
    ReachableInv(cfg, es, s);
    SettledUpToIff(cfg, es, s, |s.accepted|);
  }

  /** All data among the first `at` messages is settled, by some of the tasks spawned. */
  ghost predicate Settled(cfg: Config, s: State, at: nat) {
    exists k :: SettledBy(cfg, s, at, k)
  }

  /** Once the loop left by a Shutdown, what is settled of the messages behind it. */
  lemma SettledUpToIff(cfg: Config, es: seq<Event>, s: State, at: nat)
    requires Reachable(cfg, es, s) && s.control == Exited(ByShutdown) && s.received <= at <= |s.accepted|
    ensures SettledBy(cfg, s, at, |s.work.tasks|)
       <==> forall i | FirstShutdown(s.accepted) < i < at :: !s.accepted[i].Data?
    ensures SettledBy(cfg, s, at, |s.work.tasks|) <==> Settled(cfg, s, at)
  {
    hide Run, FirstShutdown, Sum, NoneOf, SettledSignal, Partition;
    ExitIsClean(cfg, es, s);
    ReachableInv(cfg, es, s);
    var behind, n := s.accepted[s.received..at], |s.work.tasks|;
    assert s.work.tasks[..n] == s.work.tasks;
    forall sig ensures SettledSignal(cfg, s, at, n, sig) <==> NoneOf(behind, sig) {
      SignalSettlesIff(cfg, s, at, n, sig);
    }
    NoDataIff(behind);
    assert forall i | 0 <= i < |behind| :: behind[i] == s.accepted[s.received + i];
    assert forall i | s.received <= i < at :: s.accepted[i] == behind[i - s.received];
    if Settled(cfg, s, at) {
      var k: nat :| SettledBy(cfg, s, at, k);
      forall sig ensures NoneOf(behind, sig) {
        assert SettledSignal(cfg, s, at, k, sig);
        SignalSettlesIff(cfg, s, at, k, sig);
      }
    }
  }

  /** With nothing in hand, data of a signal is settled exactly if none of it was left in the channel. */
  lemma SignalSettlesIff(cfg: Config, s: State, at: nat, k: nat, sig: Signal)
    requires Inv(cfg, s) && s.work.batch == NO_BATCH && s.received <= at <= |s.accepted| && k <= |s.work.tasks|
    ensures SettledSignal(cfg, s, at, k, sig) ==> NoneOf(s.accepted[s.received..at], sig)
    ensures SettledSignal(cfg, s, at, |s.work.tasks|, sig) <==> NoneOf(s.accepted[s.received..at], sig)
  {
    hide DataOf, Spawned, Sum, TasksOk, ControlOk, Accounted;
    var ms, behind, ts := s.accepted[..s.received], s.accepted[s.received..at], s.work.tasks;
    assert s.accepted[..at] == ms + behind && ts[..|ts|] == ts;
    DataAppend(ms, behind, sig);
    SpawnedPrefix(ts, k, sig);
    assert Partition(cfg, DataOf(ms, sig), s.work, sig) && s.work.batch.Get(sig) == [];
    var d := if cfg.url.Get(sig) then Spawned(ts, sig) else s.work.discarded.Get(sig);
    assert DataOf(ms, sig) == d;
    assert |d + DataOf(behind, sig)| == |d| + |DataOf(behind, sig)|;
    assert d + [] == d;
  }

  // --- What a flush waits for ---

  /** The call returns with the reply, or because the loop is gone and its end of the reply was dropped. */
  predicate FlushReturned(s: State, at: nat) {
    at in s.replies || s.control.Exited?
  }

  lemma AnsweredFlushIsSettled(cfg: Config, es: seq<Event>, s: State, at: nat)
    requires Reachable(cfg, es, s) && at in s.replies
    ensures Settled(cfg, s, at) && at < FirstShutdown(s.accepted)
  {
    hide Run;
    var j :| 0 <= j < |s.replies| && s.replies[j] == at;
    RepliesAreBarriers(cfg, es, s, j);
    ReachableInv(cfg, es, s);
    LeavesAtFirstShutdown(cfg, es, s);
  }

  /**
   What a flush that returns has achieved, for every Flush accepted and every way to return: it was answered
   exactly if it was accepted ahead of the first Shutdown, and all data ahead of it is settled exactly
   if none of that was accepted behind the first Shutdown.
   */
  lemma FlushSettlesIff(cfg: Config, es: seq<Event>, s: State, at: nat)
    requires Reachable(cfg, es, s) && at < |s.accepted| && s.accepted[at] == Flush && FlushReturned(s, at)
    ensures at in s.replies <==> at < FirstShutdown(s.accepted)
    ensures Settled(cfg, s, at) <==> forall i | FirstShutdown(s.accepted) < i < at :: !s.accepted[i].Data?
  {
    hide Run, FirstShutdown, SettledBy, Settled;
    ReceivedFlushIsAnswered(cfg, es, s, at);
    if at in s.replies {
      AnsweredFlushIsSettled(cfg, es, s, at);
    } else {
      ExitIsClean(cfg, es, s);
      SettledUpToIff(cfg, es, s, at);
    }
  }

  /** An instance of the other side: a flush behind a Shutdown returns unanswered, the data ahead of it unsettled. */
  lemma FlushMayReturnUnsettled(cfg: Config, d: seq<byte>) returns (es: seq<Event>, s: State)
    requires cfg.capacity >= 3
    ensures es == [SendShutdown, Send(Traces, d), SendFlush, Receive, DrainDone]
    ensures Reachable(cfg, es, s) && |s.accepted| == 3 && s.accepted[2] == Flush
    ensures FlushReturned(s, 2) && 2 !in s.replies && !Settled(cfg, s, 2)
    ensures s.work.tasks == [] && s.dropped == PerSignal(0, 0, 0)
  {
    hide Run, Apply, Enabled;
    es, s := StrandedFlushRun(cfg, d);
    FirstShutdownAt(s.accepted, 0);
    FlushSettlesIff(cfg, es, s, 2);
    assert s.accepted[1].Data?;
  }

  lemma StrandedFlushRun(cfg: Config, d: seq<byte>) returns (es: seq<Event>, s: State)
    requires cfg.capacity >= 3
    ensures es == [SendShutdown, Send(Traces, d), SendFlush, Receive, DrainDone] && Reachable(cfg, es, s)
    ensures s.accepted == [Shutdown, Data(Traces, d), Flush] && s.control == Exited(ByShutdown)
    ensures s.replies == [] && s.work == INIT.work && s.dropped == PerSignal(0, 0, 0)
  {
    es := [SendShutdown, Send(Traces, d), SendFlush, Receive, DrainDone];
    var s1 := INIT.(accepted := [Shutdown]);
    var s2 := s1.(accepted := [Shutdown, Data(Traces, d)], attempted := PerSignal(1, 0, 0));
    var s3 := s2.(accepted := [Shutdown, Data(Traces, d), Flush]);
    var s4 := s3.(received := 1, control := Draining(Exit(ByShutdown)));
    s := s4.(control := Exited(ByShutdown));
    NothingToFlush(cfg);
    hide FlushAll;
    assert s1.accepted + [Data(Traces, d)] == s2.accepted && s2.accepted + [Flush] == s3.accepted;
    RunOfFour(cfg, es[..4], s1, s2, s3, s4);
    RunSnoc(cfg, INIT, es[..4], s4, DrainDone);
    assert es == es[..4] + [DrainDone];
  }

  /** An instance of the other side: a message sent behind a Shutdown is neither posted nor dropped. */
  lemma ShutdownMayStrand(cfg: Config, d: seq<byte>) returns (es: seq<Event>, s: State)
    requires cfg.capacity >= 2
    ensures es == [SendShutdown, Send(Traces, d), Receive, DrainDone]
    ensures Reachable(cfg, es, s) && s.control == Exited(ByShutdown)
    ensures s.received == 1 <= |s.accepted| && DataOf(s.accepted[1..], Traces) == [d]
    ensures s.work.tasks == [] && s.dropped == PerSignal(0, 0, 0)
    ensures !SettledBy(cfg, s, |s.accepted|, |s.work.tasks|)
  {
    hide Run, Apply, Enabled;
    es, s := StrandingRun(cfg, d);
    assert s.accepted[1..] == [] + [Data(Traces, d)];
    DataSnoc([], Data(Traces, d), Traces);
    ShutdownSettlesIff(cfg, es, s);
    FirstShutdownAt(s.accepted, 0);
    assert s.accepted[1].Data?;
  }

  lemma StrandingRun(cfg: Config, d: seq<byte>) returns (es: seq<Event>, s: State)
    requires cfg.capacity >= 2
    ensures es == [SendShutdown, Send(Traces, d), Receive, DrainDone] && Reachable(cfg, es, s)
    ensures s.accepted == [Shutdown, Data(Traces, d)] && s.received == 1 && s.control == Exited(ByShutdown)
    ensures s.work == INIT.work && s.dropped == PerSignal(0, 0, 0)
  {
    es := [SendShutdown, Send(Traces, d), Receive, DrainDone];
    var s1 := INIT.(accepted := [Shutdown]);
    var s2 := s1.(accepted := [Shutdown, Data(Traces, d)], attempted := PerSignal(1, 0, 0));
    var s3 := s2.(received := 1, control := Draining(Exit(ByShutdown)));
    s := s3.(control := Exited(ByShutdown));
    NothingToFlush(cfg);
    hide FlushAll;
    assert s1.accepted + [Data(Traces, d)] == s2.accepted;
    RunOfFour(cfg, es, s1, s2, s3, s);
  }

  lemma NothingToFlush(cfg: Config)
    ensures FlushAll(cfg, INIT.work) == INIT.work
  {
  }

  lemma RunOfFour(cfg: Config, es: seq<Event>, s1: State, s2: State, s3: State, s4: State)
    requires |es| == 4 && Enabled(cfg, INIT, es[0]) && s1 == Apply(cfg, INIT, es[0])
    requires Enabled(cfg, s1, es[1]) && s2 == Apply(cfg, s1, es[1])
    requires Enabled(cfg, s2, es[2]) && s3 == Apply(cfg, s2, es[2])
    requires Enabled(cfg, s3, es[3]) && s4 == Apply(cfg, s3, es[3])
    ensures Reachable(cfg, es, s4)
  {
    hide Apply, Enabled;
    assert Run(cfg, INIT, []) == Some(INIT);
    hide Run;
    RunSnoc(cfg, INIT, [], INIT, es[0]);
    RunSnoc(cfg, INIT, [] + [es[0]], s1, es[1]);
    RunSnoc(cfg, INIT, [] + [es[0]] + [es[1]], s2, es[2]);
    RunSnoc(cfg, INIT, [] + [es[0]] + [es[1]] + [es[2]], s3, es[3]);
    assert [] + [es[0]] + [es[1]] + [es[2]] + [es[3]] == es;
  }

  /** After the exit nothing happens but sends that count as dropped, and senders going away. */
  lemma AfterExit(cfg: Config, es: seq<Event>, s: State, e: Event)
    requires Reachable(cfg, es, s) && s.control.Exited? && Enabled(cfg, s, e)
    ensures match e
      case Send(sig, _) =>
        && Apply(cfg, s, e).dropped.Get(sig) == s.dropped.Get(sig) + 1
        && Apply(cfg, s, e) == s.(attempted := Apply(cfg, s, e).attempted, dropped := Apply(cfg, s, e).dropped)
      case _ => e == Disconnect && Apply(cfg, s, e) == s.(connected := false)
  {
    ReachableInv(cfg, es, s);
    if IsTaskEvent(e) {
      NoTaskAfterExit(cfg, s, e);
    }
  }

  // --- Draining ends ---

  function AttemptsLeft(t: Task): nat {
    match t.phase
    case Waiting => MAX_ATTEMPTS
    case Posting(k) => if k < MAX_ATTEMPTS then MAX_ATTEMPTS - k else 0
    case Finished(_) => 0
  }

  /** Acquire a permit, post, and be taken out of the join set: the steps a task can still make. */
  function StepsLeft(t: Task): nat {
    match t.phase
    case Waiting => MAX_ATTEMPTS + 2
    case Posting(_) => AttemptsLeft(t) + 1
    case Finished(_) => if t.joined then 0 else 1
  }

  lemma OneTaskDecreases(cfg: Config, s: State, e: Event)
    requires Enabled(cfg, s, e) && IsTaskEvent(e) && TaskOk(cfg, s.work.tasks[e.i])
    ensures var t, u := s.work.tasks[e.i], TaskAfter(s.work.tasks[e.i], e);
      && StepsLeft(u) < StepsLeft(t)
      && AttemptsLeft(u) + (if e.Attempt? then 1 else 0) <= AttemptsLeft(t)
  {
    hide Sum, Concat;
  }

  /** Each step of a task brings it closer to its end, and only attempts use up attempts. */
  lemma TaskEventDecreases(cfg: Config, s: State, e: Event)
    requires Inv(cfg, s) && Enabled(cfg, s, e) && IsTaskEvent(e)
    ensures var ts, us := s.work.tasks, Apply(cfg, s, e).work.tasks;
      && Sum(us, StepsLeft) < Sum(ts, StepsLeft)
      && Sum(us, AttemptsLeft) + (if e.Attempt? then 1 else 0) <= Sum(ts, AttemptsLeft)
  {
    hide StepsLeft, AttemptsLeft, TaskAfter, TaskOk, Sum;
    var ts := s.work.tasks;
    assert TaskOk(cfg, ts[e.i]);
    OneTaskDecreases(cfg, s, e);
    SumUpdate(ts, e.i, TaskAfter(ts[e.i], e), StepsLeft);
    SumUpdate(ts, e.i, TaskAfter(ts[e.i], e), AttemptsLeft);
  }

  lemma {:induction false} SomePositive(ts: seq<Task>, w: Task -> nat) returns (i: nat)
    requires Sum(ts, w) > 0
    ensures i < |ts| && w(ts[i]) > 0
  {
    var n := |ts| - 1;
    if w(ts[n]) > 0 {
      i := n;
    } else {
      i := SomePositive(ts[..n], w);
    }
  }

  /** With a permit to give, a drain that is not over has a task that can step. */
  lemma DrainNeverSticks(cfg: Config, s: State) returns (e: Event)
    requires Inv(cfg, s) && s.control.Draining? && cfg.permits >= 1
    ensures Enabled(cfg, s, e)
    ensures if AllJoined(s.work.tasks) then e == DrainDone else IsTaskEvent(e)
  {
    var ts := s.work.tasks;
    if AllJoined(ts) {
      return DrainDone;
    }
    var i :| 0 <= i < |ts| && !ts[i].joined;
    match ts[i].phase
    case Finished(_) => e := JoinNext(i);
    case Posting(_) => e := Attempt(i, false);
    case Waiting =>
      if Sum(ts, Holds) < cfg.permits {
        e := Acquire(i);
      } else {
        var j := SomePositive(ts, Holds);
        e := Attempt(j, false);
      }
  }

  /** What the end of a drain changes, besides the tasks. */
  predicate Drained(s: State, t: State)
    requires s.control.Draining?
  {
    && t.accepted == s.accepted && t.received == s.received
    && match s.control.next
       case Reply(at) => t.control == Idle && t.replies == s.replies + [at]
       case Exit(cause) => t.control == Exited(cause) && t.replies == s.replies
  }

  /** A drain can be completed: some run of task steps, no longer than the steps left, ends it. */
  lemma {:induction false} DrainCompletes(cfg: Config, s: State) returns (es: seq<Event>)
    requires Inv(cfg, s) && s.control.Draining? && cfg.permits >= 1
    ensures |es| <= Sum(s.work.tasks, StepsLeft) + 1
    ensures Run(cfg, s, es).Some? && Drained(s, Run(cfg, s, es).value)
    ensures forall e | e in es :: IsTaskEvent(e) || e.DrainDone?
    decreases Sum(s.work.tasks, StepsLeft)
  {
    var e := DrainNeverSticks(cfg, s);
    var s' := Apply(cfg, s, e);
    StepKeepsInv(cfg, s, e);
    var rest: seq<Event> := [];
    if e.DrainDone? {
      assert Run(cfg, s', rest) == Some(s');
    } else {
      TaskEventDecreases(cfg, s, e);
      rest := DrainCompletes(cfg, s');
    }
    es := [e] + rest;
    assert es[1..] == rest && Run(cfg, s, es) == Run(cfg, s', rest);
  }

  function Count(es: seq<Event>, p: Event -> bool): nat {
    if es == [] then 0 else (if p(es[0]) then 1 else 0) + Count(es[1..], p)
  }

  /**
   However tasks, producers and failures interleave, a drain makes at most as many task
   steps as were left, and at most as many POST attempts.
   */
  lemma {:induction false} DrainIsBounded(cfg: Config, s: State, es: seq<Event>)
    requires Inv(cfg, s) && s.control.Draining? && Run(cfg, s, es).Some?
    requires DrainDone !in es
    ensures Count(es, (e: Event) => IsTaskEvent(e)) <= Sum(s.work.tasks, StepsLeft)
    ensures Count(es, (e: Event) => e.Attempt?) <= Sum(s.work.tasks, AttemptsLeft)
    ensures Run(cfg, s, es).value.control == s.control
    decreases |es|
  {
    if es == [] {
    } else {
      var s' := Apply(cfg, s, es[0]);
      StepKeepsInv(cfg, s, es[0]);
      if IsTaskEvent(es[0]) {
        TaskEventDecreases(cfg, s, es[0]);
      } else {
        assert s'.work == s.work && s'.control == s.control;
      }
      DrainIsBounded(cfg, s', es[1..]);
    }
  }

  function Unfinished(t: Task): nat {
    if t.phase.Finished? then 0 else 1
  }

  lemma {:induction false} AtMostThreeEach(ts: seq<Task>)
    ensures Sum(ts, AttemptsLeft) <= 3 * Sum(ts, Unfinished)
  {
    if ts == [] {
    } else {
      AtMostThreeEach(ts[..|ts| - 1]);
    }
  }

  /** Draining T unfinished tasks takes at most 3T POST attempts, whatever fails or interleaves. */
  lemma DrainMakesFewAttempts(cfg: Config, s: State, es: seq<Event>)
    requires Inv(cfg, s) && s.control.Draining? && Run(cfg, s, es).Some?
    requires DrainDone !in es
    ensures Count(es, (e: Event) => e.Attempt?) <= 3 * Sum(s.work.tasks, Unfinished)
  {
    hide Run, Sum, Inv, Count;
    DrainIsBounded(cfg, s, es);
    AtMostThreeEach(s.work.tasks);
  }

  ghost predicate AllWaiting(ts: seq<Task>) {
    forall i | 0 <= i < |ts| :: ts[i].phase.Waiting?
  }

  lemma FlushAllWaits(cfg: Config, w: Work)
    requires AllWaiting(w.tasks)
    ensures AllWaiting(FlushAll(cfg, w).tasks)
  {
    var w1 := FlushBatch(cfg, w, Traces);
    var w2 := FlushBatch(cfg, w1, Logs);
    assert AllWaiting(w1.tasks) && AllWaiting(w2.tasks);
  }

  lemma WaitingStaysWaiting(cfg: Config, s: State, e: Event)
    requires cfg.permits == 0 && Enabled(cfg, s, e) && AllWaiting(s.work.tasks)
    requires forall i | 0 <= i < |s.work.tasks| :: !s.work.tasks[i].joined
    ensures AllWaiting(Apply(cfg, s, e).work.tasks)
    ensures s.control.Draining? && s.work.tasks != [] ==>
      Apply(cfg, s, e).control == s.control && Apply(cfg, s, e).work == s.work
  {
    hide FlushAll;
    assert !IsTaskEvent(e);
    FlushAllWaits(cfg, s.work);
    assert s.work.tasks != [] ==> !AllJoined(s.work.tasks) by {
      assert s.work.tasks != [] ==> !s.work.tasks[0].joined;
    }
  }

  /** Without permits no task ever starts. */
  lemma {:induction false} WithoutPermitsAllWait(cfg: Config, s: State, es: seq<Event>)
    requires cfg.permits == 0 && Inv(cfg, s) && Run(cfg, s, es).Some? && AllWaiting(s.work.tasks)
    ensures AllWaiting(Run(cfg, s, es).value.work.tasks)
    ensures s.control.Draining? && s.work.tasks != [] ==> Run(cfg, s, es).value.control == s.control
    decreases |es|
  {
    if es == [] {
    } else {
      assert forall i | 0 <= i < |s.work.tasks| :: TaskOk(cfg, s.work.tasks[i]);
      StepKeepsInv(cfg, s, es[0]);
      WaitingStaysWaiting(cfg, s, es[0]);
      WithoutPermitsAllWait(cfg, Apply(cfg, s, es[0]), es[1..]);
    }
  }

  ghost predicate EndsDrain(cfg: Config, s: State, more: seq<Event>) {
    Run(cfg, s, more).Some? && !Run(cfg, s, more).value.control.Draining?
  }

  /** A drain can end exactly when there is a permit to give or nothing to drain. */
  lemma DrainEndsIff(cfg: Config, es: seq<Event>, s: State)
    requires Reachable(cfg, es, s) && s.control.Draining?
    ensures (exists more :: EndsDrain(cfg, s, more)) <==> cfg.permits >= 1 || s.work.tasks == []
  {
    InitInv(cfg);
    ReachableInv(cfg, es, s);
    if cfg.permits >= 1 {
      var more := DrainCompletes(cfg, s);
      assert EndsDrain(cfg, s, more);
    } else if s.work.tasks == [] {
      var more, s' := [DrainDone], Apply(cfg, s, DrainDone);
      assert more[0] == DrainDone && more[1..] == [] && Run(cfg, s', []) == Some(s');
      assert Run(cfg, s, more) == Run(cfg, s', more[1..]);
      assert EndsDrain(cfg, s, more);
    } else {
      WithoutPermitsAllWait(cfg, INIT, es);
      forall more | Run(cfg, s, more).Some? ensures !EndsDrain(cfg, s, more) {
        WithoutPermitsAllWait(cfg, s, more);
      }
    }
  }

  /**
   An instance of the other side: without permits a Flush behind one message is never answered. A
   configuration that allows no concurrent export is needed for it.
   */
  lemma DrainMayHang(cfg: Config, d: seq<byte>) returns (es: seq<Event>, s: State)
    requires cfg.permits == 0 && cfg.capacity >= 1 && cfg.url.traces
    ensures es == [Send(Traces, d), Receive, SendFlush, Receive]
    ensures Reachable(cfg, es, s) && s.control == Draining(Reply(1))
    ensures |s.work.tasks| == 1 && s.work.tasks[0].phase.Waiting?
    ensures forall more :: !EndsDrain(cfg, s, more)
  {
    es := [Send(Traces, d), Receive, SendFlush, Receive];
    var s1 := Apply(cfg, INIT, es[0]);
    var s2 := Apply(cfg, s1, es[1]);
    var s3 := Apply(cfg, s2, es[2]);
    s := Apply(cfg, s3, es[3]);
    RunOfFour(cfg, es, s1, s2, s3, s);
    DrainEndsIff(cfg, es, s);
  }

  // --- When a flush returns ---

  /** Among the first `n` messages no data has a URL to be posted to. */
  ghost predicate NothingToPost(cfg: Config, ms: seq<Msg>, n: nat) {
    forall i | 0 <= i < |ms| && i < n :: !(ms[i].Data? && cfg.url.Get(ms[i].sig))
  }

  lemma {:induction false} NothingToPostIff(cfg: Config, ms: seq<Msg>)
    ensures NothingToPost(cfg, ms, |ms|) <==> forall sig | cfg.url.Get(sig) :: NoneOf(ms, sig)
  {
    if ms == [] {
      assert forall sig :: NoneOf(ms, sig);
    } else {
      var n := |ms| - 1;
      NothingToPostIff(cfg, ms[..n]);
      assert NothingToPost(cfg, ms, |ms|)
        <==> NothingToPost(cfg, ms[..n], n) && !(ms[n].Data? && cfg.url.Get(ms[n].sig));
      forall sig ensures NoneOf(ms, sig) <==> NoneOf(ms[..n], sig) && !(ms[n].Data? && ms[n].sig == sig) {
      }
      assert ms[n].Data? ==> !NoneOf(ms, ms[n].sig);
    }
  }

  /** Without data to post no task is ever spawned. */
  lemma NothingSpawned(cfg: Config, s: State)
    requires Inv(cfg, s) && NothingToPost(cfg, s.accepted, s.received)
    ensures s.work.tasks == []
  {
    var ms := s.accepted[..s.received];
    LastIsSpawned(cfg, s.work.tasks);
    NothingToPostIff(cfg, ms);
    forall sig | cfg.url.Get(sig) ensures Spawned(s.work.tasks, sig) == [] {
      assert NoneOf(ms, sig) && Partition(cfg, DataOf(ms, sig), s.work, sig);
    }
  }

  lemma LastIsSpawned(cfg: Config, ts: seq<Task>)
    requires TasksOk(cfg, ts)
    ensures ts != [] ==> cfg.url.Get(ts[|ts| - 1].sig) && Spawned(ts, ts[|ts| - 1].sig) != []
  {
    if ts != [] {
      assert TaskOk(cfg, ts[|ts| - 1]);
      assert |Spawned(ts, ts[|ts| - 1].sig)| >= |ts[|ts| - 1].items|;
    }
  }

  /** The messages a flush at `at` depends on: those ahead of it and of the first Shutdown. */
  function Ahead(s: State, at: nat): nat {
    if at < FirstShutdown(s.accepted) then at else FirstShutdown(s.accepted)
  }

  /** Whether tasks can end, or there are none that the flush would wait for. */
  ghost predicate CanReturn(cfg: Config, s: State, at: nat) {
    cfg.permits >= 1 || NothingToPost(cfg, s.accepted, Ahead(s, at))
  }

  lemma {:induction false} RunConcat(cfg: Config, s: State, a: seq<Event>, b: seq<Event>)
    requires Run(cfg, s, a).Some?
    ensures Run(cfg, s, a + b) == Run(cfg, Run(cfg, s, a).value, b)
    decreases |a|
  {
    if a == [] {
      assert a + b == b;
    } else {
      assert (a + b)[0] == a[0] && (a + b)[1..] == a[1..] + b;
      RunConcat(cfg, Apply(cfg, s, a[0]), a[1..], b);
    }
  }

  lemma DrainCanEnd(cfg: Config, s: State) returns (more: seq<Event>)
    requires Inv(cfg, s) && s.control.Draining? && (cfg.permits >= 1 || s.work.tasks == [])
    ensures Run(cfg, s, more).Some? && Drained(s, Run(cfg, s, more).value)
    ensures forall e | e in more :: IsTaskEvent(e) || e.DrainDone?
  {
    if cfg.permits >= 1 {
      more := DrainCompletes(cfg, s);
    } else {
      more := [DrainDone];
      assert more[0] == DrainDone && more[1..] == [];
      assert Run(cfg, Apply(cfg, s, DrainDone), []) == Some(Apply(cfg, s, DrainDone));
      assert Run(cfg, s, more) == Run(cfg, Apply(cfg, s, DrainDone), more[1..]);
    }
  }

  /** While the flush is waiting, nothing beyond what it depends on has been received. */
  lemma WaitingFlush(cfg: Config, es: seq<Event>, s: State, at: nat)
    requires Reachable(cfg, es, s) && at < |s.accepted| && s.accepted[at] == Flush && !FlushReturned(s, at)
    ensures s.received <= at + 1 && s.received <= FirstShutdown(s.accepted) + 1
    ensures s.received <= Ahead(s, at) || (s.control.Draining? && !s.accepted[s.received - 1].Data?)
  {
    ReachableInv(cfg, es, s);
    LeavesAtFirstShutdown(cfg, es, s);
    ReceivedFlushIsAnswered(cfg, es, s, at);
  }

  /** A flush that is waiting gets on: the drain ends, or the next message is received. */
  lemma FlushAdvances(cfg: Config, es: seq<Event>, s: State, at: nat) returns (first: seq<Event>)
    requires Reachable(cfg, es, s) && at < |s.accepted| && s.accepted[at] == Flush
    requires CanReturn(cfg, s, at) && !FlushReturned(s, at)
    ensures Run(cfg, s, first).Some? && s.received <= |s.accepted|
    ensures var t := Run(cfg, s, first).value;
      && t.accepted == s.accepted && s.received <= t.received <= |t.accepted|
      && (s.received < t.received || (s.control.Draining? && !t.control.Draining?))
  {
    ReachableInv(cfg, es, s);
    WaitingFlush(cfg, es, s, at);
    if s.control.Draining? {
      WaitingHasNoTasks(cfg, s, at);
      first := DrainCanEnd(cfg, s);
    } else {
      ReceivedFlushIsAnswered(cfg, es, s, at);
      hide FlushAll, Push, Reap;
      RunSnoc(cfg, s, [], s, Receive);
      first := [] + [Receive];
    }
  }

  lemma {:induction false} FlushCanReturn(cfg: Config, es: seq<Event>, s: State, at: nat) returns (more: seq<Event>)
    requires Reachable(cfg, es, s) && at < |s.accepted| && s.accepted[at] == Flush && CanReturn(cfg, s, at)
    ensures Run(cfg, s, more).Some? && FlushReturned(Run(cfg, s, more).value, at)
    decreases |s.accepted| - s.received, if s.control.Draining? then 1 else 0
  {
    hide Apply, Enabled, FirstShutdown, NothingToPost;
    if FlushReturned(s, at) {
      more := [];
    } else {
      var first := FlushAdvances(cfg, es, s, at);
      hide Run;
      RunConcat(cfg, INIT, es, first);
      more := FlushCanReturn(cfg, es + first, Run(cfg, s, first).value, at);
      RunConcat(cfg, s, first, more);
      more := first + more;
    }
  }

  lemma WaitingHasNoTasks(cfg: Config, s: State, at: nat)
    requires Inv(cfg, s) && CanReturn(cfg, s, at)
    requires s.received <= Ahead(s, at) + 1
    requires s.received <= Ahead(s, at) || !s.accepted[s.received - 1].Data?
    ensures cfg.permits >= 1 || s.work.tasks == []
  {
    if cfg.permits == 0 {
      assert NothingToPost(cfg, s.accepted, s.received);
      NothingSpawned(cfg, s);
    }
  }

  /** Without permits, what a returned flush depended on held nothing to post. */
  lemma ReturnedHadNothingToPost(cfg: Config, es: seq<Event>, s: State, at: nat)
    requires Reachable(cfg, es, s) && at < |s.accepted| && s.accepted[at] == Flush && FlushReturned(s, at)
    requires cfg.permits == 0
    ensures NothingToPost(cfg, s.accepted, Ahead(s, at))
  {
    hide Run, FirstShutdown;
    InitInv(cfg);
    WithoutPermitsAllWait(cfg, INIT, es);
    var n := Ahead(s, at);
    var k: nat := 0;
    if at in s.replies {
      AnsweredFlushIsSettled(cfg, es, s, at);
      k :| SettledBy(cfg, s, at, k);
    } else {
      ReceivedFlushIsAnswered(cfg, es, s, at);
      ExitIsClean(cfg, es, s);
      k := |s.work.tasks|;
    }
    SettledWithoutTasks(cfg, s, n, k);
  }

  lemma NoneFinished(ts: seq<Task>, k: nat)
    requires AllWaiting(ts) && k <= |ts|
    ensures AllFinished(ts[..k]) <==> k == 0
  {
    if k > 0 {
      assert ts[..k][0] == ts[0];
    }
  }

  lemma SettledWithoutTasks(cfg: Config, s: State, n: nat, k: nat)
    requires SettledBy(cfg, s, n, k) && AllWaiting(s.work.tasks)
    ensures NothingToPost(cfg, s.accepted, n)
  {
    var ms := s.accepted[..n];
    NoneFinished(s.work.tasks, k);
    forall sig | cfg.url.Get(sig) ensures NoneOf(ms, sig) {
      assert SettledSignal(cfg, s, n, k, sig);
    }
    NothingToPostIff(cfg, ms);
    forall i | 0 <= i < n ensures !(s.accepted[i].Data? && cfg.url.Get(s.accepted[i].sig)) {
      assert ms[i] == s.accepted[i];
    }
  }

  ghost predicate ReturnsIn(cfg: Config, s: State, more: seq<Event>, at: nat) {
    Run(cfg, s, more).Some? && FlushReturned(Run(cfg, s, more).value, at)
  }

  lemma {:induction false} AcceptedGrows(cfg: Config, s: State, es: seq<Event>)
    requires Run(cfg, s, es).Some?
    ensures s.accepted <= Run(cfg, s, es).value.accepted
    decreases |es|
  {
    if es == [] {
    } else {
      AcceptedGrows(cfg, Apply(cfg, s, es[0]), es[1..]);
    }
  }

  /**
   A flush that was accepted can return exactly if there is a permit to give, or no data ahead of it and of the
   first Shutdown has a URL to be posted to.
   */
  lemma FlushReturnsIff(cfg: Config, es: seq<Event>, s: State, at: nat)
    requires Reachable(cfg, es, s) && at < |s.accepted| && s.accepted[at] == Flush
    ensures (exists more :: ReturnsIn(cfg, s, more, at)) <==> CanReturn(cfg, s, at)
  {
    if CanReturn(cfg, s, at) {
      var more := FlushCanReturn(cfg, es, s, at);
      assert ReturnsIn(cfg, s, more, at);
    }
    if cfg.permits == 0 {
      forall more | ReturnsIn(cfg, s, more, at) ensures NothingToPost(cfg, s.accepted, Ahead(s, at)) {
        var t := Run(cfg, s, more).value;
        RunConcat(cfg, INIT, es, more);
        AcceptedGrows(cfg, s, more);
        assert t.accepted[at] == s.accepted[at];
        ReturnedHadNothingToPost(cfg, es + more, t, at);
        assert forall i | 0 <= i < |s.accepted| :: t.accepted[i] == s.accepted[i];
      }
    }
  }
}

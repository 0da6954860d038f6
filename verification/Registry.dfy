/**
 Get-or-create by name with any number of threads. A call first looks the name up under the
 read lock and, on a miss, takes the write lock later and inserts unless some other thread
 did so in between. Every run of the two halves behaves like a run of one atomic operation.
 */
module Registry {
  import opened Bytes

  type Name = seq<byte>

  /** A name and what a new instrument of that name is created with. */
  datatype Request<S> = Request(name: Name, spec: S)

  /** Instruments are numbered in the order of creation; a handle is such a number. */
  datatype Table<S> = Table(names: map<Name, nat>, objects: seq<Request<S>>)

  // --- The atomic operation ---

  function GetOrCreate<S>(t: Table<S>, q: Request<S>): (Table<S>, nat) {
    if q.name in t.names then (t, t.names[q.name])
    else (Table(t.names[q.name := |t.objects|], t.objects + [q]), |t.objects|)
  }

  /** The table after a sequence of atomic calls. */
  function After<S>(qs: seq<Request<S>>): Table<S> {
    if qs == [] then Table(map[], []) else GetOrCreate(After(qs[..|qs| - 1]), qs[|qs| - 1]).0
  }

  /** The handles they return. */
  function Handles<S>(qs: seq<Request<S>>): (r: seq<nat>)
    ensures |r| == |qs|
  {
    if qs == [] then []
    else Handles(qs[..|qs| - 1]) + [GetOrCreate(After(qs[..|qs| - 1]), qs[|qs| - 1]).1]
  }

  /** The first request of a name. */
  function First<S>(qs: seq<Request<S>>, name: Name): Option<Request<S>> {
    if qs == [] then None
    else
      var earlier := First(qs[..|qs| - 1], name);
      if earlier.Some? then earlier
      else if qs[|qs| - 1].name == name then Some(qs[|qs| - 1])
      else None
  }

  /** A table holds, for exactly the names requested, an object made by the first request. */
  ghost predicate Describes<S>(qs: seq<Request<S>>, t: Table<S>) {
    && (forall n :: n in t.names <==> First(qs, n).Some?)
    && (forall n | n in t.names :: t.names[n] < |t.objects| && t.objects[t.names[n]] == First(qs, n).value)
    && (forall n | First(qs, n).Some? :: First(qs, n).value.name == n)
  }

  lemma Snoc<S>(qs: seq<Request<S>>, q: Request<S>)
    ensures After(qs + [q]) == GetOrCreate(After(qs), q).0
    ensures Handles(qs + [q]) == Handles(qs) + [GetOrCreate(After(qs), q).1]
    ensures forall n ::
      First(qs + [q], n) == if First(qs, n).Some? then First(qs, n) else if q.name == n then Some(q) else None
  {
    assert (qs + [q])[..|qs|] == qs;
  }

  lemma {:induction false} TableDescribes<S>(qs: seq<Request<S>>)
    ensures Describes(qs, After(qs))
  {
    if qs == [] {
    } else {
      var front, q := qs[..|qs| - 1], qs[|qs| - 1];
      assert qs == front + [q];
      TableDescribes(front);
      Snoc(front, q);
    }
  }

  /** Later calls never rebind a name and never change an object. */
  lemma {:induction false} NamesAreNeverRebound<S>(qs: seq<Request<S>>, more: seq<Request<S>>)
    ensures var t, t' := After(qs), After(qs + more);
      t.objects <= t'.objects && forall n | n in t.names :: n in t'.names && t'.names[n] == t.names[n]
  {
    if more == [] {
      assert qs + more == qs;
    } else {
      var front, q := more[..|more| - 1], more[|more| - 1];
      assert qs + more == (qs + front) + [q];
      NamesAreNeverRebound(qs, front);
      Snoc(qs + front, q);
    }
  }

  lemma {:induction false} HandlesAreBindings<S>(qs: seq<Request<S>>)
    ensures forall i | 0 <= i < |qs| :: qs[i].name in After(qs).names && Handles(qs)[i] == After(qs).names[qs[i].name]
  {
    if qs == [] {
    } else {
      var front, q := qs[..|qs| - 1], qs[|qs| - 1];
      assert qs == front + [q];
      HandlesAreBindings(front);
      Snoc(front, q);
      NamesAreNeverRebound(front, [q]);
      forall i | 0 <= i < |front|
        ensures qs[i].name in After(qs).names && Handles(qs)[i] == After(qs).names[qs[i].name]
      {
        assert qs[i] == front[i];
      }
    }
  }

  /** Two calls return the same handle exactly when they ask for the same name. */
  lemma HandlesIdentifyNames<S>(qs: seq<Request<S>>, i: nat, j: nat)
    requires i < |qs| && j < |qs|
    ensures Handles(qs)[i] == Handles(qs)[j] <==> qs[i].name == qs[j].name
    ensures Handles(qs)[i] < |After(qs).objects| && Some(After(qs).objects[Handles(qs)[i]]) == First(qs, qs[i].name)
  {
    HandlesAreBindings(qs);
    TableDescribes(qs);
  }

  // --- Threads ---

  datatype Event<S> = Lookup(thread: nat, request: Request<S>) | Insert(thread: nat)

  /** `pending` holds the calls between their two halves; `done` and `handles` are what returned. */
  datatype State<S> = State(table: Table<S>, pending: map<nat, Request<S>>, done: seq<Request<S>>, handles: seq<nat>)

  function Init<S>(): State<S> {
    State(Table(map[], []), map[], [], [])
  }

  predicate Enabled<S>(s: State<S>, e: Event<S>) {
    match e
    case Lookup(t, _) => t !in s.pending
    case Insert(t) => t in s.pending
  }

  /** The read-locked half. */
  function LookupStep<S>(s: State<S>, t: nat, q: Request<S>): State<S> {
    if q.name in s.table.names then s.(done := s.done + [q], handles := s.handles + [s.table.names[q.name]])
    else s.(pending := s.pending[t := q])
  }

  /** The write-locked half: look again, insert on a miss. */
  function InsertStep<S>(s: State<S>, t: nat): State<S>
    requires t in s.pending
  {
    var q := s.pending[t];
    var table := if q.name in s.table.names then s.table
                 else Table(s.table.names[q.name := |s.table.objects|], s.table.objects + [q]);
    State(table, s.pending - {t}, s.done + [q], s.handles + [table.names[q.name]])
  }

  function Apply<S>(s: State<S>, e: Event<S>): State<S>
    requires Enabled(s, e)
  {
    match e
    case Lookup(t, q) => LookupStep(s, t, q)
    case Insert(t) => InsertStep(s, t)
  }

  /** The state a list of events leads to, if each is enabled in its turn. */
  function Run<S>(es: seq<Event<S>>): Option<State<S>> {
    if es == [] then Some(Init())
    else
      var s :- Run(es[..|es| - 1]);
      if Enabled(s, es[|es| - 1]) then Some(Apply(s, es[|es| - 1])) else None
  }

  lemma OneStep<S>(s: State<S>, e: Event<S>)
    requires Enabled(s, e) && s.table == After(s.done) && s.handles == Handles(s.done)
    ensures var s' := Apply(s, e); s.done <= s'.done && s'.table == After(s'.done) && s'.handles == Handles(s'.done)
  {
    match e
    case Lookup(t, q) => Snoc(s.done, q);
    case Insert(t) => Snoc(s.done, s.pending[t]);
  }

  /**
   Double-checked get-or-create is linearisable: in every run the table and the handles are
   those of the atomic operation, applied to the calls in the order in which they return.
   */
  lemma {:induction false} RunsAreAtomic<S>(es: seq<Event<S>>)
    requires Run(es).Some?
    ensures var s := Run(es).value; s.table == After(s.done) && s.handles == Handles(s.done)
  {
    if es == [] {
    } else {
      RunsAreAtomic(es[..|es| - 1]);
      OneStep(Run(es[..|es| - 1]).value, es[|es| - 1]);
    }
  }

  /**
   In every run, whatever the interleaving: all handles returned for a name are the same object,
   handles of different names are different objects, and the object was made by
   the first of the calls for the name to return.
   */
  lemma HandlesShareOneObject<S>(es: seq<Event<S>>, i: nat, j: nat)
    requires Run(es).Some? && i < |Run(es).value.done| && j < |Run(es).value.done|
    ensures var s := Run(es).value;
      && |s.handles| == |s.done|
      && (s.handles[i] == s.handles[j] <==> s.done[i].name == s.done[j].name)
      && s.handles[i] < |s.table.objects| && Some(s.table.objects[s.handles[i]]) == First(s.done, s.done[i].name)
  {
    RunsAreAtomic(es);
    HandlesIdentifyNames(Run(es).value.done, i, j);
  }

  lemma {:induction false} RunsGrow<S>(es: seq<Event<S>>, more: seq<Event<S>>)
    requires Run(es + more).Some?
    ensures Run(es).Some? && Run(es).value.done <= Run(es + more).value.done
  {
    if more == [] {
      assert es + more == es;
    } else {
      var n := |more| - 1;
      assert (es + more)[..|es + more| - 1] == es + more[..n];
      RunsGrow(es, more[..n]);
      RunsAreAtomic(es + more[..n]);
      OneStep(Run(es + more[..n]).value, more[n]);
    }
  }

  /** Along every run, what is bound stays bound to the same, unchanged object. */
  lemma RunsNeverRebind<S>(es: seq<Event<S>>, more: seq<Event<S>>)
    requires Run(es + more).Some?
    ensures Run(es).Some?
    ensures var t, t' := Run(es).value.table, Run(es + more).value.table;
      t.objects <= t'.objects && forall n | n in t.names :: n in t'.names && t'.names[n] == t.names[n]
  {
    RunsGrow(es, more);
    RunsAreAtomic(es);
    RunsAreAtomic(es + more);
    var a, b := Run(es).value.done, Run(es + more).value.done;
    assert b == a + b[|a|..];
    NamesAreNeverRebound(a, b[|a|..]);
  }

  /**
   In every state a thread without a call can make one for any name, and by itself it returns after one or two steps:
   at once with the bound handle, or else from the second half.
   */
  lemma CallsReturn<S>(es: seq<Event<S>>, thread: nat, q: Request<S>)
    requires Run(es).Some? && thread !in Run(es).value.pending
    ensures Run(es + [Lookup(thread, q)]).Some?
    ensures var s, s' := Run(es).value, Run(es + [Lookup(thread, q)]).value;
      if q.name in s.table.names then
        s' == s.(done := s.done + [q], handles := s.handles + [s.table.names[q.name]])
      else
        && s' == s.(pending := s.pending[thread := q])
        && Run(es + [Lookup(thread, q)] + [Insert(thread)]).Some?
        && var t := Run(es + [Lookup(thread, q)] + [Insert(thread)]).value;
           t.done == s.done + [q] && |t.handles| == |s.handles| + 1 && t.pending.Keys == s.pending.Keys
  {
    assert (es + [Lookup(thread, q)])[..|es|] == es;
    var more := es + [Lookup(thread, q)];
    assert (more + [Insert(thread)])[..|more|] == more;
  }

  /** The instruments of one kind; `objects` stands for the inner objects that handles share. */
  class MetricsRegistry<S> {
    var names: map<Name, nat>
    var objects: seq<Request<S>>
    var pending: map<nat, Request<S>>
    ghost var done: seq<Request<S>>
    ghost var handles: seq<nat>
    ghost var history: seq<Event<S>>

    ghost predicate Valid()
      reads this
    {
      && Run(history) == Some(State(Table(names, objects), pending, done, handles))
      && forall n | n in names :: names[n] < |objects|
    }

    constructor ()
      ensures Valid() && history == []
    {
      names, objects, pending, done, handles, history := map[], [], map[], [], [], [];
    }

    /** The fast path: a handle if the name is known, else the call stays pending. */
    method Lookup(thread: nat, q: Request<S>) returns (handle: Option<nat>)
      requires Valid() && thread !in pending
      modifies this
      ensures Valid() && history == old(history) + [Event.Lookup(thread, q)]
      ensures names == old(names) && objects == old(objects)
      ensures handle == if q.name in names then Some(names[q.name]) else None
      ensures pending == if handle.Some? then old(pending) else old(pending)[thread := q]
    {
      assert (history + [Event.Lookup(thread, q)])[..|history|] == history;
      history := history + [Event.Lookup(thread, q)];
      if q.name in names {
        done, handles := done + [q], handles + [names[q.name]];
        return Some(names[q.name]);
      }
      pending := pending[thread := q];
      return None;
    }

    /** The slow path: insert unless the name has been inserted meanwhile. */
    method GetOrInsert(thread: nat) returns (handle: nat)
      requires Valid() && thread in pending
      modifies this
      ensures Valid() && history == old(history) + [Insert(thread)]
      ensures var q := old(pending[thread]);
        && q.name in names && handle == names[q.name] < |objects|
        && (if q.name in old(names) then names == old(names) && objects == old(objects)
            else names == old(names)[q.name := |old(objects)|] && objects == old(objects) + [q])
      ensures pending == old(pending) - {thread}
    {
      var q := pending[thread];
      assert (history + [Insert(thread)])[..|history|] == history;
      history := history + [Insert(thread)];
      if q.name !in names {
        names, objects := names[q.name := |objects|], objects + [q];
      }
      handle := names[q.name];
      pending := pending - {thread};
      done, handles := done + [q], handles + [handle];
    }
  }
}

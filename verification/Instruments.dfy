/**
 Counters, gauges and histograms: the operations as the program runs them under the
 instrument's lock, each one step of the aggregation, and what a collector sees.
 */
module Instruments {
  import opened Bytes
  import opened Attributes
  import opened Aggregation

  // --- Collecting between updates ---

  /** What happens to one instrument, in the order in which its lock is taken. */
  datatype Event<X, E> = Upd(u: Update<X, E>) | Collect

  /** A collection consumes the exemplars and leaves the values. */
  function Consume<V, E>(m: map<u64, Point<V, E>>): map<u64, Point<V, E>> {
    map k | k in m :: m[k].(exemplar := None)
  }

  /** The map after any interleaving of updates and collections. */
  function After<V, X, E>(ins: Instrument<u64, V, X>, evs: seq<Event<X, E>>): map<u64, Point<V, E>> {
    if evs == [] then map[]
    else
      var m, ev := After(ins, evs[..|evs| - 1]), evs[|evs| - 1];
      if ev.Upd? then Apply(ins, m, ev.u) else Consume(m)
  }

  lemma AfterSnoc<V, X, E>(ins: Instrument<u64, V, X>, evs: seq<Event<X, E>>, ev: Event<X, E>)
    ensures After(ins, evs + [ev]) == if ev.Upd? then Apply(ins, After(ins, evs), ev.u) else Consume(After(ins, evs))
  {
    assert (evs + [ev])[..|evs|] == evs;
  }

  function Updates<X, E>(evs: seq<Event<X, E>>): seq<Update<X, E>> {
    if evs == [] then []
    else Updates(evs[..|evs| - 1]) + if evs[|evs| - 1].Upd? then [evs[|evs| - 1].u] else []
  }

  /** The updates since the last collection. */
  function Since<X, E>(evs: seq<Event<X, E>>): seq<Update<X, E>> {
    if evs == [] || evs[|evs| - 1].Collect? then []
    else Since(evs[..|evs| - 1]) + [evs[|evs| - 1].u]
  }

  lemma HistoriesSnoc<X, E>(evs: seq<Event<X, E>>, ev: Event<X, E>)
    ensures Updates(evs + [ev]) == if ev.Upd? then Updates(evs) + [ev.u] else Updates(evs)
    ensures Since(evs + [ev]) == if ev.Upd? then Since(evs) + [ev.u] else []
  {
    assert (evs + [ev])[..|evs|] == evs;
  }

  /** `m` is the fold of all updates, except that exemplars are those captured in `window`. */
  ghost predicate Sees<V, X, E>(ins: Instrument<u64, V, X>, us: seq<Update<X, E>>, window: seq<Update<X, E>>,
        m: map<u64, Point<V, E>>) {
    && m.Keys == Fold(ins, us).Keys
    && forall k | k in m ::
         m[k] == Point(Fold(ins, us)[k].attrs, Fold(ins, us)[k].value, LastExemplar(Of(ins, window, k)))
  }

  lemma {:induction false} SinceIsSuffix<X, E>(evs: seq<Event<X, E>>)
    ensures |Since(evs)| <= |Updates(evs)| && Since(evs) == Updates(evs)[|Updates(evs)| - |Since(evs)|..]
  {
    if evs == [] {
    } else {
      SinceIsSuffix(evs[..|evs| - 1]);
    }
  }

  lemma {:induction false} OfAppend<V, X, E>(ins: Instrument<u64, V, X>, a: seq<Update<X, E>>, b: seq<Update<X,
        E>>, k: u64)
    ensures Of(ins, a + b, k) == Of(ins, a, k) + Of(ins, b, k)
  {
    if b == [] {
      assert a + b == a;
    } else {
      var n := |b| - 1;
      assert (a + b)[..|a + b| - 1] == a + b[..n];
      OfAppend(ins, a, b[..n], k);
      Assoc3(Of(ins, a, k), Of(ins, b[..n], k), if ins.key(b[n].attrs) == k then [b[n]] else []);
    }
  }

  lemma LastExemplarSnoc<X, E>(us: seq<Update<X, E>>, u: Update<X, E>)
    ensures LastExemplar(us + [u]) == if u.exemplar.Some? then u.exemplar else LastExemplar(us)
  {
    assert (us + [u])[..|us|] == us;
  }

  /** One more update seen through a map whose exemplars were consumed in between. */
  lemma SeesNext<V, X, E>(ins: Instrument<u64, V, X>, us: seq<Update<X, E>>, window: seq<Update<X, E>>, m: map<u64,
        Point<V, E>>, u: Update<X, E>)
    requires Sees(ins, us, window, m)
    requires |window| <= |us| && window == us[|us| - |window|..]
    ensures Sees(ins, us + [u], window + [u], Apply(ins, m, u))
  {
    FoldSnoc(ins, us, u);
    NewKeyIsFresh(ins, us, window, u);
    hide Fold, Of, LastExemplar, Owned, Apply;
    var f, m' := Fold(ins, us), Apply(ins, m, u);
    assert |m| == |m.Keys| == |f.Keys| == |f|;
    EmptyHasNoExemplar<X, E>();
    forall k
      ensures k in m' <==> k in Apply(ins, f, u)
      ensures k in m' ==> m'[k] == Apply(ins, f, u)[k].(exemplar := LastExemplar(Of(ins, window + [u], k)))
    {
      ApplyAt(ins, m, u, k);
      ApplyAt(ins, f, u, k);
      ExemplarOf(ins, window, u, k);
    }
    assert m'.Keys == Apply(ins, f, u).Keys;
  }

  lemma ExemplarOf<V, X, E>(ins: Instrument<u64, V, X>, window: seq<Update<X, E>>, u: Update<X, E>, k: u64)
    ensures LastExemplar(Of(ins, window + [u], k))
      == if ins.key(u.attrs) == k && u.exemplar.Some? then u.exemplar else LastExemplar(Of(ins, window, k))
  {
    hide Of, LastExemplar;
    OfSnoc(ins, window, u, k);
    LastExemplarSnoc(Of(ins, window, k), u);
    assert Of(ins, window, k) + [] == Of(ins, window, k);
  }

  /** A key that is about to be admitted has had no update before, so none in any window. */
  lemma NewKeyIsFresh<V, X, E>(ins: Instrument<u64, V, X>, us: seq<Update<X, E>>, window: seq<Update<X, E>>,
        u: Update<X, E>)
    requires |window| <= |us| && window == us[|us| - |window|..]
    ensures var k := ins.key(u.attrs);
      k !in Fold(ins, us) && |Fold(ins, us)| < ins.limit ==> Of(ins, window, k) == []
  {
    AggregationIsFold(ins, us);
    AdmittedNext(ins, us, u);
    hide Fold, Of, Admitted;
    assert us == us[..|us| - |window|] + window;
    OfAppend(ins, us[..|us| - |window|], window, ins.key(u.attrs));
  }

  lemma EmptyHasNoExemplar<X, E>()
    ensures LastExemplar<X, E>([]) == None
  {
  }

  /**
   Under any interleaving a collection returns the fold of every update so far, and for each
   key the exemplar captured last since the previous collection.
   */
  lemma {:induction false} CollectSees<V, X, E>(ins: Instrument<u64, V, X>, evs: seq<Event<X, E>>)
    ensures Sees(ins, Updates(evs), Since(evs), After(ins, evs))
  {
    hide Sees, Apply, Consume, Updates, Since, After;
    if evs == [] {
      NothingSeen<V, X, E>(ins);
    } else {
      var front, ev := evs[..|evs| - 1], evs[|evs| - 1];
      assert evs == front + [ev];
      AfterSnoc(ins, front, ev);
      HistoriesSnoc(front, ev);
      CollectSees(ins, front);
      if ev.Upd? {
        SinceIsSuffix(front);
        SeesNext(ins, Updates(front), Since(front), After(ins, front), ev.u);
      } else {
        ConsumedSees(ins, Updates(front), Since(front), After(ins, front));
      }
    }
  }

  lemma NothingSeen<V, X, E>(ins: Instrument<u64, V, X>)
    ensures Sees<V, X, E>(ins, Updates([]), Since([]), After(ins, []))
  {
  }

  /** After a collection the window is empty. */
  lemma ConsumedSees<V, X, E>(ins: Instrument<u64, V, X>, us: seq<Update<X, E>>, window: seq<Update<X, E>>,
        m: map<u64, Point<V, E>>)
    requires Sees(ins, us, window, m)
    ensures Sees(ins, us, [], Consume(m))
  {
    hide Fold;
    var none: seq<Update<X, E>> := [];
    assert forall k :: Of(ins, none, k) == none;
    EmptyHasNoExemplar<X, E>();
  }

  lemma {:induction false} UpdatesAppend<X, E>(a: seq<Event<X, E>>, b: seq<Event<X, E>>)
    ensures Updates(a + b) == Updates(a) + Updates(b)
  {
    if b == [] {
      assert a + b == a;
    } else {
      var n := |b| - 1;
      assert (a + b)[..|a + b| - 1] == a + b[..n];
      UpdatesAppend(a, b[..n]);
      Assoc3(Updates(a), Updates(b[..n]), if b[n].Upd? then [b[n].u] else []);
    }
  }

  /** Where in the history the updates stand that a collection after `evs` draws exemplars from. */
  function Window<X, E>(evs: seq<Event<X, E>>): (r: (nat, nat))
    ensures r.0 <= r.1
  {
    SinceIsSuffix(evs);
    (|Updates(evs)| - |Since(evs)|, |Updates(evs)|)
  }

  /** The windows of two collections are stretches of the whole history that do not overlap. */
  lemma WindowsAreDisjoint<X, E>(evs: seq<Event<X, E>>, i: nat, j: nat)
    requires i < j < |evs| && evs[i].Collect?
    ensures var us, v, w := Updates(evs), Window(evs[..i]), Window(evs[..j]);
      && v.1 <= w.0 && w.1 <= |us|
      && Since(evs[..i]) == us[v.0..v.1] && Since(evs[..j]) == us[w.0..w.1]
  {
    WindowStarts(evs, i, j);
    WindowIsSlice(evs, i);
    WindowIsSlice(evs, j);
  }

  lemma WindowIsSlice<X, E>(evs: seq<Event<X, E>>, i: nat)
    requires i <= |evs|
    ensures var us, w := Updates(evs), Window(evs[..i]);
      w.1 <= |us| && Updates(evs[..i]) == us[..w.1] && Since(evs[..i]) == us[w.0..w.1]
  {
    assert evs == evs[..i] + evs[i..];
    UpdatesAppend(evs[..i], evs[i..]);
    SinceIsSuffix(evs[..i]);
  }

  lemma {:induction false} WindowStarts<X, E>(evs: seq<Event<X, E>>, i: nat, j: nat)
    requires i < j <= |evs| && evs[i].Collect?
    ensures Window(evs[..i]).1 <= Window(evs[..j]).0
    decreases j
  {
    assert evs[..j][..j - 1] == evs[..j - 1] && evs[..i + 1][..i] == evs[..i];
    if j > i + 1 && evs[j - 1].Upd? {
      WindowStarts(evs, i, j - 1);
    } else {
      assert evs[..j] == evs[..i] + evs[i..j];
      UpdatesAppend(evs[..i], evs[i..j]);
    }
  }

  /**
   The snapshot of the collection at position `i` shows the exemplar of update `p`: the update is in the
   window, has an exemplar, and no later one in the window has one for the same key.
   */
  ghost predicate Shows<V, X, E>(ins: Instrument<u64, V, X>, evs: seq<Event<X, E>>, i: nat, p: nat)
    requires i < |evs|
  {
    evs[i].Collect? && LastIn(ins, Updates(evs), Window(evs[..i]), p)
  }

  ghost predicate LastIn<V, X, E>(ins: Instrument<u64, V, X>, us: seq<Update<X, E>>, w: (nat, nat), p: nat) {
    && w.0 <= p < w.1 <= |us| && us[p].exemplar.Some?
    && forall q | p < q < w.1 && ins.key(us[q].attrs) == ins.key(us[p].attrs) :: us[q].exemplar.None?
  }

  /** The exemplar of an update is in at most one snapshot. */
  lemma ExemplarShownOnce<V, X, E>(ins: Instrument<u64, V, X>, evs: seq<Event<X, E>>, i: nat, j: nat, p: nat)
    requires i < |evs| && j < |evs| && Shows(ins, evs, i, p) && Shows(ins, evs, j, p)
    ensures i == j
  {
    hide Window, Updates;
    if i < j {
      WindowsAreDisjoint(evs, i, j);
    } else if j < i {
      WindowsAreDisjoint(evs, j, i);
    }
  }

  /** The last exemplar of a key within a stretch of updates, by position. */
  ghost predicate LastAt<V, X, E>(ins: Instrument<u64, V, X>, us: seq<Update<X, E>>, k: u64, q: nat) {
    && q < |us| && ins.key(us[q].attrs) == k && us[q].exemplar.Some?
    && forall r | q < r < |us| && ins.key(us[r].attrs) == k :: us[r].exemplar.None?
  }

  lemma {:induction false} LastExemplarAt<V, X, E>(ins: Instrument<u64, V, X>, us: seq<Update<X, E>>, k: u64)
    ensures forall q: nat | LastAt(ins, us, k, q) :: LastExemplar(Of(ins, us, k)) == us[q].exemplar
    ensures LastExemplar(Of(ins, us, k)).Some? ==> exists q: nat :: LastAt(ins, us, k, q)
  {
    if us == [] {
    } else {
      var n := |us| - 1;
      var front, u := us[..n], us[n];
      assert us == front + [u];
      LastExemplarAt(ins, front, k);
      ExemplarOf(ins, front, u, k);
      hide Of, LastExemplar;
      if ins.key(u.attrs) == k && u.exemplar.Some? {
        assert LastAt(ins, us, k, n);
      } else {
        forall q: nat ensures LastAt(ins, us, k, q) <==> LastAt(ins, front, k, q) {
          assert forall r | 0 <= r < n :: us[r] == front[r];
        }
      }
    }
  }

  /** Positions in a stretch and in the whole history. */
  lemma LastInWindow<V, X, E>(ins: Instrument<u64, V, X>, us: seq<Update<X, E>>, w: (nat, nat), k: u64, p: nat)
    requires w.0 <= p < w.1 <= |us|
    ensures LastIn(ins, us, w, p) && ins.key(us[p].attrs) == k <==> LastAt(ins, us[w.0..w.1], k, p - w.0)
  {
    var window := us[w.0..w.1];
    assert forall r | 0 <= r < |window| :: window[r] == us[w.0 + r];
    assert forall q | w.0 <= q < w.1 :: us[q] == window[q - w.0];
  }

  lemma LastAtBounds<V, X, E>(ins: Instrument<u64, V, X>, us: seq<Update<X, E>>, k: u64, q: nat)
    requires LastAt(ins, us, k, q)
    ensures q < |us|
  {
  }

  lemma ShownExemplar<V, X, E>(ins: Instrument<u64, V, X>, us: seq<Update<X, E>>, w: (nat, nat), k: u64)
    requires w.0 <= w.1 <= |us|
    ensures forall p: nat | LastIn(ins, us, w, p) && ins.key(us[p].attrs) == k ::
      LastExemplar(Of(ins, us[w.0..w.1], k)) == us[p].exemplar
    ensures LastExemplar(Of(ins, us[w.0..w.1], k)).Some? ==>
      exists p: nat :: LastIn(ins, us, w, p) && ins.key(us[p].attrs) == k
  {
    var window := us[w.0..w.1];
    LastExemplarAt(ins, window, k);
    hide Of, LastAt, LastExemplar;
    forall p: nat | LastIn(ins, us, w, p) && ins.key(us[p].attrs) == k
      ensures LastExemplar(Of(ins, window, k)) == us[p].exemplar
    {
      LastInWindow(ins, us, w, k, p);
      assert window[p - w.0] == us[p];
    }
    if LastExemplar(Of(ins, window, k)).Some? {
      var q: nat :| LastAt(ins, window, k, q);
      LastAtBounds(ins, window, k, q);
      LastInWindow(ins, us, w, k, w.0 + q);
    }
  }

  lemma SnapshotExemplar<V, X, E>(ins: Instrument<u64, V, X>, evs: seq<Event<X, E>>, i: nat, k: u64)
    requires i < |evs| && k in After(ins, evs[..i])
    ensures Window(evs[..i]).1 <= |Updates(evs)|
    ensures var w := Window(evs[..i]);
      After(ins, evs[..i])[k].exemplar == LastExemplar(Of(ins, Updates(evs)[w.0..w.1], k))
  {
    hide After, Fold, Of, Updates, Since, Window, LastExemplar;
    CollectSees(ins, evs[..i]);
    WindowIsSlice(evs, i);
  }

  /**
   The exemplars of a snapshot are exactly those it shows: each comes from one update of its
   key, and the update a snapshot shows is the one whose exemplar the point of its key carries.
   */
  lemma SnapshotShows<V, X, E>(ins: Instrument<u64, V, X>, evs: seq<Event<X, E>>, i: nat, k: u64)
    requires i < |evs| && evs[i].Collect? && k in After(ins, evs[..i])
    ensures forall p: nat | Shows(ins, evs, i, p) && ins.key(Updates(evs)[p].attrs) == k ::
      After(ins, evs[..i])[k].exemplar == Updates(evs)[p].exemplar
    ensures After(ins, evs[..i])[k].exemplar.Some? ==>
      exists p: nat :: Shows(ins, evs, i, p) && ins.key(Updates(evs)[p].attrs) == k
  {
    SnapshotExemplar(ins, evs, i, k);
    ShownExemplar(ins, Updates(evs), Window(evs[..i]), k);
    hide After, Of, Updates, Window, LastExemplar, LastIn;
    if After(ins, evs[..i])[k].exemplar.Some? {
      var p: nat :| LastIn(ins, Updates(evs), Window(evs[..i]), p) && ins.key(Updates(evs)[p].attrs) == k;
      assert Shows(ins, evs, i, p);
    }
  }

  // --- Counter ---

  /** `v += x as i64`, wrapping at 64 bits. */
  function AddStep(v: i64, x: u64): i64 {
    ToI64((v + ToI64(x)) % TWO_64)
  }

  function CounterOf(limit: nat): Instrument<u64, i64, u64> {
    ByHash(limit, 0, AddStep)
  }

  function Total<E>(us: seq<Update<u64, E>>): nat {
    if us == [] then 0 else Total(us[..|us| - 1]) + us[|us| - 1].value
  }

  /** A counter value is the sum of its adds, wrapped; it is the sum itself exactly below 2^63. */
  lemma {:induction false} CounterValue<E>(limit: nat, us: seq<Update<u64, E>>)
    ensures Value(CounterOf(limit), us) == ToI64(Total(us) % TWO_64)
    ensures Value(CounterOf(limit), us) == Total(us) <==> Total(us) < TWO_63
  {
    if us == [] {
    } else {
      CounterValue(limit, us[..|us| - 1]);
      WrapAdd(Total(us[..|us| - 1]), us[|us| - 1].value);
    }
  }

  lemma WrapAdd(a: nat, x: u64)
    ensures AddStep(ToI64(a % TWO_64), x) == ToI64((a + x) % TWO_64)
  {
    var r := a % TWO_64;
    assert (r + x) % TWO_64 == (a + x) % TWO_64;
    assert (ToI64(r) + ToI64(x)) % TWO_64 == (r + x) % TWO_64;
  }

  lemma {:induction false} TotalAppend<E>(a: seq<Update<u64, E>>, b: seq<Update<u64, E>>)
    ensures Total(a + b) == Total(a) + Total(b)
  {
    if b == [] {
      assert a + b == a;
    } else {
      assert (a + b)[..|a + b| - 1] == a + b[..|b| - 1];
      TotalAppend(a, b[..|b| - 1]);
    }
  }

  /** Sum of the adds whose key is among `ks`, key by key. */
  function TotalOfKeys<E>(limit: nat, us: seq<Update<u64, E>>, ks: seq<u64>): nat {
    if ks == [] then 0 else TotalOfKeys(limit, us, ks[..|ks| - 1]) + Total(Of(CounterOf(limit), us, ks[|ks| - 1]))
  }

  /** Sum of the adds whose key is not among `ks`. */
  function Refused<E>(us: seq<Update<u64, E>>, ks: seq<u64>): nat {
    if us == [] then 0
    else Refused(us[..|us| - 1], ks) + if Key(us[|us| - 1].attrs) in ks then 0 else us[|us| - 1].value
  }

  lemma TotalOfSnoc<E>(limit: nat, us: seq<Update<u64, E>>, u: Update<u64, E>, k: u64)
    ensures Total(Of(CounterOf(limit), us + [u], k))
      == Total(Of(CounterOf(limit), us, k)) + if Key(u.attrs) == k then u.value else 0
  {
    OfSnoc(CounterOf(limit), us, u, k);
    assert CounterOf(limit).key(u.attrs) == Key(u.attrs);
    hide CounterOf, Of, Key;
    var mine := Of(CounterOf(limit), us, k);
    assert (mine + [u])[..|mine|] == mine && mine + [] == mine;
  }

  /** One more add changes the total of exactly the key it has. */
  lemma {:induction false} TotalOfKeysSnoc<E>(limit: nat, us: seq<Update<u64, E>>, u: Update<u64, E>, ks: seq<u64>)
    requires forall i, j | 0 <= i < j < |ks| :: ks[i] != ks[j]
    ensures TotalOfKeys(limit, us + [u], ks) == TotalOfKeys(limit, us, ks) + if Key(u.attrs) in ks then u.value else 0
  {
    hide CounterOf, Of, Total, Key;
    if ks == [] {
    } else {
      var n := |ks| - 1;
      TotalOfKeysSnoc(limit, us, u, ks[..n]);
      TotalOfSnoc(limit, us, u, ks[n]);
      assert ks == ks[..n] + [ks[n]];
    }
  }

  /** Every add is stored under its key or refused. */
  lemma {:induction false} StoredPlusRefused<E>(limit: nat, us: seq<Update<u64, E>>, ks: seq<u64>)
    requires forall i, j | 0 <= i < j < |ks| :: ks[i] != ks[j]
    ensures TotalOfKeys(limit, us, ks) + Refused(us, ks) == Total(us)
  {
    if us == [] {
      NothingStored<E>(limit, ks);
    } else {
      var front, u := us[..|us| - 1], us[|us| - 1];
      assert us == front + [u];
      StoredPlusRefused(limit, front, ks);
      TotalOfKeysSnoc(limit, front, u, ks);
    }
  }

  lemma {:induction false} NothingStored<E>(limit: nat, ks: seq<u64>)
    ensures TotalOfKeys<E>(limit, [], ks) == 0
  {
    if ks == [] {
    } else {
      NothingStored<E>(limit, ks[..|ks| - 1]);
    }
  }

  /**
   A counter after any history: its keys are the first `limit` distinct keys, each value is the wrapped sum of all
   adds made with its key, the sum itself exactly if that is below 2^63, and what was added under stored
   keys and what was refused make up the total.
   */
  lemma CounterIsFold<E>(limit: nat, us: seq<Update<u64, E>>)
    ensures var ins, m, ks := CounterOf(limit), Fold(CounterOf(limit), us), FirstKeys(limit, us);
      && |m| == |ks| && (forall k :: k in m <==> k in ks)
      && (forall k | k in m :: m[k].value == Wrapped(Total(Of(ins, us, k))))
      && (forall k | k in m :: m[k].value == Total(Of(ins, us, k)) <==> Total(Of(ins, us, k)) < TWO_63)
      && TotalOfKeys(limit, us, ks) + Refused(us, ks) == Total(us)
  {
    var ins := CounterOf(limit);
    AdmittedAreFirst(limit, 0, AddStep, us);
    AggregationIsFold(ins, us);
    KeysAreDistinct(ins, us);
    hide CounterOf, FirstKeys, Fold, Of, TotalOfKeys, Refused, Total, Value, Keys, IsPoint, Wrapped;
    StoredPlusRefused(limit, us, Admitted(ins, us));
    forall k | k in Fold(ins, us)
      ensures Fold(ins, us)[k].value == Wrapped(Total(Of(ins, us, k)))
      ensures Fold(ins, us)[k].value == Total(Of(ins, us, k)) <==> Total(Of(ins, us, k)) < TWO_63
    {
      PointIsWrapped(limit, Of(ins, us, k), Fold(ins, us)[k]);
    }
  }

  /** Between two collections a point of a counter neither disappears nor decreases, if its adds stay below 2^63. */
  lemma CounterNeverDecreases<E>(limit: nat, evs: seq<Event<u64, E>>, more: seq<Event<u64, E>>, k: u64)
    requires k in After(CounterOf(limit), evs)
    requires Total(Of(CounterOf(limit), Updates(evs + more), k)) < TWO_63
    ensures k in After(CounterOf(limit), evs + more)
    ensures After(CounterOf(limit), evs)[k].value <= After(CounterOf(limit), evs + more)[k].value
    ensures After(CounterOf(limit), evs)[k].attrs == After(CounterOf(limit), evs + more)[k].attrs
  {
    var ins, us, vs := CounterOf(limit), Updates(evs), Updates(more);
    UpdatesAppend(evs, more);
    PointAfter(ins, evs, k);
    CollectSees(ins, evs);
    CollectSees(ins, evs + more);
    KeyStays(ins, us, vs, k);
    PointAfter(ins, evs + more, k);
    OfAppend(ins, us, vs, k);
    TotalAppend(Of(ins, us, k), Of(ins, vs, k));
    hide CounterOf, After, Fold, Of, Total, Value, Updates, Wrapped;
    ValueIsWrapped(limit, Of(ins, us, k));
    ValueIsWrapped(limit, Of(ins, us + vs, k));
    SmallIsItself(Total(Of(ins, us, k)));
    SmallIsItself(Total(Of(ins, us + vs, k)));
  }

  /** The point of a key after any interleaving: first attributes, folded value, and the window's last exemplar. */
  lemma PointAfter<V, X, E>(ins: Instrument<u64, V, X>, evs: seq<Event<X, E>>, k: u64)
    requires k in After(ins, evs)
    ensures var mine := Of(ins, Updates(evs), k);
      && mine != []
      && After(ins, evs)[k] == Point(Owned(mine[0].attrs), Value(ins, mine), LastExemplar(Of(ins, Since(evs), k)))
  {
    CollectSees(ins, evs);
    AggregationIsFold(ins, Updates(evs));
    hide After, Fold, Of, Updates, Since, LastExemplar, Value, Owned;
    assert IsPoint(ins, Of(ins, Updates(evs), k), Fold(ins, Updates(evs))[k]);
  }

  // --- When a counter never decreases ---

  function Wrapped(total: nat): i64 {
    ToI64(total % TWO_64)
  }

  /** Crossing 2^63 by one add makes the wrapped value fall. */
  lemma CrossingFalls(total: nat, x: u64)
    requires total < TWO_63
    ensures Wrapped(total) == total
    ensures Wrapped(total) <= Wrapped(total + x) <==> total + x < TWO_63
  {
    if total + x >= TWO_64 {
      assert (total + x) % TWO_64 == total + x - TWO_64;
    }
  }

  /** Totals that grow from zero by one add at a time. */
  ghost predicate GrowsByAdds(ts: seq<nat>) {
    ts != [] && ts[0] == 0 && forall i | 0 <= i < |ts| - 1 :: ts[i] <= ts[i + 1] < ts[i] + TWO_64
  }

  ghost predicate NeverFalls(ts: seq<nat>) {
    forall i, j | 0 <= i <= j < |ts| :: Wrapped(ts[i]) <= Wrapped(ts[j])
  }

  lemma {:induction false} TotalsAscend(ts: seq<nat>, i: nat, j: nat)
    requires GrowsByAdds(ts) && i <= j < |ts|
    ensures ts[i] <= ts[j]
  {
    if i == j {
    } else {
      TotalsAscend(ts, i, j - 1);
    }
  }

  lemma SmallIsItself(total: nat)
    requires total < TWO_63
    ensures Wrapped(total) == total
  {
  }

  lemma {:induction false} NeverFallsBelow(ts: seq<nat>)
    requires GrowsByAdds(ts) && NeverFalls(ts)
    ensures ts[|ts| - 1] < TWO_63
  {
    hide Wrapped;
    var n := |ts| - 1;
    if n == 0 {
    } else {
      var front := ts[..n];
      assert forall i | 0 <= i < n :: front[i] == ts[i];
      NeverFallsBelow(front);
      CrossingFalls(ts[n - 1], ts[n] - ts[n - 1]);
    }
  }

  lemma NeverFallsIff(ts: seq<nat>)
    requires GrowsByAdds(ts)
    ensures ts != [] && (NeverFalls(ts) <==> ts[|ts| - 1] < TWO_63)
  {
    assert ts != [];
    hide Wrapped, GrowsByAdds;
    if ts[|ts| - 1] < TWO_63 {
      forall i, j | 0 <= i <= j < |ts| ensures Wrapped(ts[i]) <= Wrapped(ts[j]) {
        TotalsAscend(ts, i, j);
        TotalsAscend(ts, j, |ts| - 1);
        SmallIsItself(ts[i]);
        SmallIsItself(ts[j]);
      }
    }
    if NeverFalls(ts) {
      NeverFallsBelow(ts);
    }
  }

  /** The totals after each number of adds. */
  lemma RunningTotals<E>(us: seq<Update<u64, E>>) returns (ts: seq<nat>)
    ensures GrowsByAdds(ts) && |ts| == |us| + 1 && forall i | 0 <= i <= |us| :: ts[i] == Total(us[..i])
  {
    ts := seq(|us| + 1, i requires 0 <= i <= |us| => Total(us[..i]));
    assert us[..0] == [];
    forall i | 0 <= i < |us| ensures ts[i] <= ts[i + 1] < ts[i] + TWO_64 {
      assert us[..i + 1][..i] == us[..i];
    }
  }

  /** Over the adds of one key, the value never falls exactly if they sum up to less than 2^63. */
  lemma ValueNeverFallsIff<E>(limit: nat, us: seq<Update<u64, E>>)
    ensures (forall i, j | 0 <= i <= j <= |us| :: Value(CounterOf(limit), us[..i]) <= Value(CounterOf(limit), us[..j]))
       <==> Total(us) < TWO_63
  {
    hide CounterOf, Total, Value, Wrapped, GrowsByAdds;
    var ts := RunningTotals(us);
    NeverFallsIff(ts);
    assert us[..|us|] == us;
    forall i | 0 <= i <= |us| ensures Value(CounterOf(limit), us[..i]) == Wrapped(ts[i]) {
      ValueIsWrapped(limit, us[..i]);
    }
  }

  lemma ValueIsWrapped<E>(limit: nat, us: seq<Update<u64, E>>)
    ensures Value(CounterOf(limit), us) == Wrapped(Total(us))
  {
    CounterValue(limit, us);
  }

  /** The value of a counter point, zero before its key is used. */
  function Shown<E>(m: map<u64, Point<i64, E>>, k: u64): i64 {
    if k in m then m[k].value else 0
  }

  /** A key that was refused stays refused. */
  lemma {:induction false} RefusedStays<V, X, E>(ins: Instrument<u64, V, X>, us: seq<Update<X, E>>,
      vs: seq<Update<X, E>>, k: u64)
    requires k !in Admitted(ins, us) && |Admitted(ins, us)| >= ins.limit
    ensures k !in Admitted(ins, us + vs) && |Admitted(ins, us + vs)| >= ins.limit
  {
    if vs == [] {
      assert us + vs == us;
    } else {
      var n := |vs| - 1;
      RefusedStays(ins, us, vs[..n], k);
      assert us + vs == (us + vs[..n]) + [vs[n]];
      AdmittedNext(ins, us + vs[..n], vs[n]);
    }
  }

  /** What a snapshot shows of a key is the wrapped sum of its adds so far. */
  lemma ShownIsWrapped<E>(limit: nat, evs: seq<Event<u64, E>>, more: seq<Event<u64, E>>, k: u64)
    requires k in After(CounterOf(limit), evs + more)
    ensures Shown(After(CounterOf(limit), evs), k) == Wrapped(Total(Of(CounterOf(limit), Updates(evs), k)))
  {
    var ins, us := CounterOf(limit), Updates(evs);
    CollectSees(ins, evs);
    CollectSees(ins, evs + more);
    UpdatesAppend(evs, more);
    AggregationIsFold(ins, us);
    AggregationIsFold(ins, us + Updates(more));
    KeysAreDistinct(ins, us);
    hide CounterOf, After, Fold, Of, Total, Value, Updates, Since, Keys, IsPoint;
    if k in After(ins, evs) {
      PointIsWrapped(limit, Of(ins, us, k), Fold(ins, us)[k]);
    } else {
      if |Admitted(ins, us)| >= ins.limit {
        RefusedStays(ins, us, Updates(more), k);
        assert false;
      }
      NothingAdded<E>();
    }
  }

  lemma PointIsWrapped<E>(limit: nat, us: seq<Update<u64, E>>, p: Point<i64, E>)
    requires IsPoint(CounterOf(limit), us, p)
    ensures p.value == Wrapped(Total(us))
    ensures p.value == Total(us) <==> Total(us) < TWO_63
  {
    ValueIsWrapped(limit, us);
    CounterValue(limit, us);
  }

  lemma NothingAdded<E>()
    ensures Wrapped(Total<E>([])) == 0
  {
  }

  /** The totals of a key after each event. */
  function Totals<E>(limit: nat, evs: seq<Event<u64, E>>, k: u64): (ts: seq<nat>)
    ensures |ts| == |evs| + 1
  {
    seq(|evs| + 1, i requires 0 <= i <= |evs| => Total(Of(CounterOf(limit), Updates(evs[..i]), k)))
  }

  lemma TotalsGrow<E>(limit: nat, evs: seq<Event<u64, E>>, k: u64)
    ensures GrowsByAdds(Totals(limit, evs, k))
  {
    forall i | 0 <= i < |evs|
      ensures Totals(limit, evs, k)[i] <= Totals(limit, evs, k)[i + 1] < Totals(limit, evs, k)[i] + TWO_64
    {
      assert evs[..i + 1] == evs[..i] + [evs[i]];
      HistoriesSnoc(evs[..i], evs[i]);
      if evs[i].Upd? {
        TotalOfSnoc(limit, Updates(evs[..i]), evs[i].u, k);
      }
    }
    assert Updates(evs[..0]) == [];
  }

  /** What a snapshot shows of a key never falls, from zero on, along a run. */
  ghost predicate NeverDecreases<E>(limit: nat, evs: seq<Event<u64, E>>, k: u64) {
    forall i, j | 0 <= i <= j <= |evs| ::
      Shown(After(CounterOf(limit), evs[..i]), k) <= Shown(After(CounterOf(limit), evs[..j]), k)
  }

  /**
   A counter is monotonic exactly as far as it does not wrap: what is shown of a key, from zero before its first
   add, never decreases along a run if and only if the adds of the key sum up to less than 2^63.
   */
  lemma CounterMonotonicIff<E>(limit: nat, evs: seq<Event<u64, E>>, k: u64)
    requires k in After(CounterOf(limit), evs)
    ensures NeverDecreases(limit, evs, k) <==> Total(Of(CounterOf(limit), Updates(evs), k)) < TWO_63
  {
    hide After, CounterOf, Of, Total, Wrapped, Shown, GrowsByAdds, Totals;
    var ts := Totals(limit, evs, k);
    TotalsGrow(limit, evs, k);
    NeverFallsIff(ts);
    LastTotal(limit, evs, k);
    forall i | 0 <= i <= |evs| ensures Shown(After(CounterOf(limit), evs[..i]), k) == Wrapped(ts[i]) {
      ShownIsTotal(limit, evs, i, k);
    }
  }

  lemma LastTotal<E>(limit: nat, evs: seq<Event<u64, E>>, k: u64)
    ensures Totals(limit, evs, k)[|evs|] == Total(Of(CounterOf(limit), Updates(evs), k))
  {
    assert evs[..|evs|] == evs;
  }

  lemma ShownIsTotal<E>(limit: nat, evs: seq<Event<u64, E>>, i: nat, k: u64)
    requires i <= |evs| && k in After(CounterOf(limit), evs)
    ensures Shown(After(CounterOf(limit), evs[..i]), k) == Wrapped(Totals(limit, evs, k)[i])
  {
    hide After, CounterOf, Of, Total, Wrapped, Shown;
    assert evs == evs[..i] + evs[i..];
    ShownIsWrapped(limit, evs[..i], evs[i..], k);
  }

  /** An instance of the other side: one add of 2^63 shows as the least signed value. */
  lemma CounterMayFall<E>(limit: nat, attrs: Attrs, exemplar: Option<E>)
    requires limit >= 1
    ensures var evs: seq<Event<u64, E>> := [Upd(Update(attrs, TWO_63, exemplar))];
      && Key(attrs) in After(CounterOf(limit), evs)
      && After(CounterOf(limit), evs)[Key(attrs)].value == -TWO_63
      && !NeverDecreases(limit, evs, Key(attrs))
  {
    hide Key, Owned;
    var ins := CounterOf(limit);
    var u: Update<u64, E> := Update(attrs, TWO_63, exemplar);
    var evs: seq<Event<u64, E>> := [Upd(u)];
    assert [] + [Upd(u)] == evs;
    AfterSnoc(ins, [], Upd(u));
    assert evs[..0] == [] && evs[..1] == evs;
    assert Shown(After(ins, evs[..1]), Key(attrs)) < Shown(After(ins, evs[..0]), Key(attrs));
  }

  lemma {:induction false} KeyStays<V, X, E>(ins: Instrument<u64, V, X>, us: seq<Update<X, E>>, vs: seq<Update<X,
        E>>, k: u64)
    requires k in Fold(ins, us)
    ensures k in Fold(ins, us + vs)
  {
    if vs == [] {
      assert us + vs == us;
    } else {
      assert (us + vs)[..|us + vs| - 1] == us + vs[..|vs| - 1];
      KeyStays(ins, us, vs[..|vs| - 1], k);
    }
  }

  class Counter<E> {
    const limit: nat
    var data: map<u64, Point<i64, E>>
    var warned: bool
    ghost var history: seq<Event<u64, E>>

    ghost predicate Valid()
      reads this
    {
      data == After(CounterOf(limit), history)
    }

    constructor (limit: nat)
      ensures Valid() && this.limit == limit && history == [] && !warned
    {
      this.limit := limit;
      data, warned, history := map[], false, [];
    }

    method Add(value: u64, attrs: Attrs, exemplar: Option<E>)
      requires Valid()
      modifies this
      ensures Valid() && history == old(history) + [Upd(Update(attrs, value, exemplar))]
      ensures data == Apply(CounterOf(limit), old(data), Update(attrs, value, exemplar))
      ensures warned == (old(warned) || (Key(attrs) !in old(data) && |old(data)| >= limit))
    {
      hide After, Hash, Owned, AddStep;
      AfterSnoc(CounterOf(limit), history, Upd(Update(attrs, value, exemplar)));
      history := history + [Upd(Update(attrs, value, exemplar))];
      var key: u64 := 0;
      if attrs != [] {
        key := AttrsHashUnordered(attrs);
      }
      if key !in data && |data| >= limit {
        warned := true;
        return;
      }
      var entry := Point(Owned(attrs), 0, None);
      if key in data {
        entry := data[key];
      }
      entry := entry.(value := AddStep(entry.value, value));
      if exemplar.Some? {
        entry := entry.(exemplar := exemplar);
      }
      data := data[key := entry];
    }

    /** The points of a snapshot, or none for an unused counter; exemplars are taken out. */
    method TakeSnapshot() returns (points: Option<map<u64, Point<i64, E>>>)
      requires Valid()
      modifies this
      ensures Valid() && history == old(history) + [Collect] && warned == old(warned)
      ensures points == if old(data) == map[] then None else Some(old(data))
      ensures Sees(CounterOf(limit), Updates(old(history)), Since(old(history)), old(data))
    {
      hide After, Sees;
      CollectSees(CounterOf(limit), history);
      AfterSnoc(CounterOf(limit), history, Collect);
      history := history + [Collect];
      if data == map[] {
        assert Consume(data) == data;
        return None;
      }
      points := Some(data);
      data := map k | k in data :: data[k].(exemplar := None);
    }
  }

  // --- Gauge ---

  /** The last value set, as the bits of a double. */
  function SetStep(v: u64, x: u64): u64 {
    x
  }

  function GaugeOf(limit: nat): Instrument<u64, u64, u64> {
    ByHash(limit, 0, SetStep)
  }

  lemma GaugePoint<E>(limit: nat, us: seq<Update<u64, E>>, p: Point<u64, E>)
    requires IsPoint(GaugeOf(limit), us, p)
    ensures us != [] && p.value == us[|us| - 1].value
  {
  }

  /** A gauge holds, for each admitted key, the value set last with it. */
  lemma GaugeIsLast<E>(limit: nat, us: seq<Update<u64, E>>)
    ensures var ins, m := GaugeOf(limit), Fold(GaugeOf(limit), us);
      && |m| == |FirstKeys(limit, us)| && (forall k :: k in m <==> k in FirstKeys(limit, us))
      && (forall k | k in m :: var mine := Of(ins, us, k); mine != [] && m[k].value == mine[|mine| - 1].value)
  {
    var ins, m := GaugeOf(limit), Fold(GaugeOf(limit), us);
    AdmittedAreFirst(limit, 0, SetStep, us);
    AggregationIsFold(ins, us);
    hide GaugeOf, FirstKeys, Fold, Admitted, Of, IsPoint;
    forall k | k in m ensures var mine := Of(ins, us, k); mine != [] && m[k].value == mine[|mine| - 1].value {
      GaugePoint(limit, Of(ins, us, k), m[k]);
    }
  }

  class Gauge<E> {
    const limit: nat
    var data: map<u64, Point<u64, E>>
    var warned: bool
    ghost var history: seq<Event<u64, E>>

    ghost predicate Valid()
      reads this
    {
      data == After(GaugeOf(limit), history)
    }

    constructor (limit: nat)
      ensures Valid() && this.limit == limit && history == [] && !warned
    {
      this.limit := limit;
      data, warned, history := map[], false, [];
    }

    method Set(value: u64, attrs: Attrs, exemplar: Option<E>)
      requires Valid()
      modifies this
      ensures Valid() && history == old(history) + [Upd(Update(attrs, value, exemplar))]
      ensures data == Apply(GaugeOf(limit), old(data), Update(attrs, value, exemplar))
      ensures warned == (old(warned) || (Key(attrs) !in old(data) && |old(data)| >= limit))
    {
      hide After, Hash, Owned, AddStep;
      AfterSnoc(GaugeOf(limit), history, Upd(Update(attrs, value, exemplar)));
      history := history + [Upd(Update(attrs, value, exemplar))];
      var key: u64 := 0;
      if attrs != [] {
        key := AttrsHashUnordered(attrs);
      }
      if key !in data && |data| >= limit {
        warned := true;
        return;
      }
      var entry := Point(Owned(attrs), 0, None);
      if key in data {
        entry := data[key];
      }
      entry := entry.(value := value);
      if exemplar.Some? {
        entry := entry.(exemplar := exemplar);
      }
      data := data[key := entry];
    }

    method TakeSnapshot() returns (points: Option<map<u64, Point<u64, E>>>)
      requires Valid()
      modifies this
      ensures Valid() && history == old(history) + [Collect] && warned == old(warned)
      ensures points == if old(data) == map[] then None else Some(old(data))
      ensures Sees(GaugeOf(limit), Updates(old(history)), Since(old(history)), old(data))
    {
      hide After, Sees;
      CollectSees(GaugeOf(limit), history);
      AfterSnoc(GaugeOf(limit), history, Collect);
      history := history + [Collect];
      if data == map[] {
        assert Consume(data) == data;
        return None;
      }
      points := Some(data);
      data := map k | k in data :: data[k].(exemplar := None);
    }
  }
}

/**
 The aggregation all three instruments share: a map from keys to data points with a limit
 on the number of keys. A run of updates leaves in it exactly a fold over the history.
 */
module Aggregation {
  import opened Bytes
  import opened Attributes

  datatype Point<V, E> = Point(attrs: Attrs, value: V, exemplar: Option<E>)

  /** One update; the exemplar is whatever the trace context yielded. */
  datatype Update<X, E> = Update(attrs: Attrs, value: X, exemplar: Option<E>)

  /** A cardinality limit, the key of an attribute list, and how a value starts and changes. */
  datatype Instrument<!K, !V, !X> = Instrument(limit: nat, key: Attrs -> K, init: V, step: (V, X) -> V)

  /** The point of an update's key after the update, which may be its first. */
  function Updated<K, V, X, E>(ins: Instrument<K, V, X>, p: Option<Point<V, E>>, u: Update<X, E>): Point<V, E> {
    var p := if p.Some? then p.value else Point(Owned(u.attrs), ins.init, None);
    Point(p.attrs, ins.step(p.value, u.value), if u.exemplar.Some? then u.exemplar else p.exemplar)
  }

  /** An update goes to the point of its key; a new key is refused once the limit is reached. */
  function Apply<K, V, X, E>(ins: Instrument<K, V, X>, m: map<K, Point<V, E>>, u: Update<X, E>): map<K, Point<V, E>> {
    var k := ins.key(u.attrs);
    if k !in m && |m| >= ins.limit then m
    else
      m[k := Updated(ins, if k in m then Some(m[k]) else None, u)]
  }

  /** The map after an update, key by key. */
  lemma ApplyAt<K(!new), V, X, E>(ins: Instrument<K, V, X>, m: map<K, Point<V, E>>, u: Update<X, E>, k: K)
    ensures var m', k0 := Apply(ins, m, u), ins.key(u.attrs);
      && (k in m' <==> k in m || (k == k0 && |m| < ins.limit))
      && (k in m' ==> m'[k] == if k == k0 then Updated(ins, if k in m then Some(m[k]) else None, u) else m[k])
  {
    hide Owned;
  }

  lemma ApplySize<K(!new), V, X, E>(ins: Instrument<K, V, X>, m: map<K, Point<V, E>>, u: Update<X, E>)
    ensures |Apply(ins, m, u)| == if ins.key(u.attrs) !in m && |m| < ins.limit then |m| + 1 else |m|
  {
    hide Owned;
  }

  /** The map after a history of updates. */
  function Fold<K, V, X, E>(ins: Instrument<K, V, X>, us: seq<Update<X, E>>): map<K, Point<V, E>> {
    if us == [] then map[] else Apply(ins, Fold(ins, us[..|us| - 1]), us[|us| - 1])
  }

  // --- The simple description of a history ---

  /** The keys of a history in the order of first use. */
  function Keys<K(==), V, X, E>(ins: Instrument<K, V, X>, us: seq<Update<X, E>>): seq<K> {
    if us == [] then []
    else
      var ks, k := Keys(ins, us[..|us| - 1]), ins.key(us[|us| - 1].attrs);
      if k in ks then ks else ks + [k]
  }

  /** The first `limit` of them. */
  function Admitted<K(==), V, X, E>(ins: Instrument<K, V, X>, us: seq<Update<X, E>>): seq<K> {
    var ks := Keys(ins, us);
    if |ks| <= ins.limit then ks else ks[..ins.limit]
  }

  /** The updates of one key, in order. */
  function Of<K(==), V, X, E>(ins: Instrument<K, V, X>, us: seq<Update<X, E>>, k: K): seq<Update<X, E>> {
    if us == [] then []
    else
      var u := us[|us| - 1];
      Of(ins, us[..|us| - 1], k) + if ins.key(u.attrs) == k then [u] else []
  }

  /** The value a history of updates of one key builds up. */
  function Value<K, V, X, E>(ins: Instrument<K, V, X>, us: seq<Update<X, E>>): V {
    if us == [] then ins.init else ins.step(Value(ins, us[..|us| - 1]), us[|us| - 1].value)
  }

  /** The exemplar captured last. */
  function LastExemplar<X, E>(us: seq<Update<X, E>>): Option<E> {
    if us == [] then None
    else if us[|us| - 1].exemplar.Some? then us[|us| - 1].exemplar
    else LastExemplar(us[..|us| - 1])
  }

  /** The point a history leaves for a key: first attributes, folded value, last exemplar. */
  ghost predicate IsPoint<K, V, X, E>(ins: Instrument<K, V, X>, us: seq<Update<X, E>>, p: Point<V, E>) {
    us != [] && p == Point(Owned(us[0].attrs), Value(ins, us), LastExemplar(us))
  }

  lemma KeysSnoc<K(!new), V, X, E>(ins: Instrument<K, V, X>, us: seq<Update<X, E>>, u: Update<X, E>)
    ensures var ks, k := Keys(ins, us), ins.key(u.attrs); Keys(ins, us + [u]) == if k in ks then ks else ks + [k]
  {
    assert (us + [u])[..|us|] == us;
  }

  lemma OfSnoc<K(!new), V, X, E>(ins: Instrument<K, V, X>, us: seq<Update<X, E>>, u: Update<X, E>, k: K)
    ensures Of(ins, us + [u], k) == Of(ins, us, k) + if ins.key(u.attrs) == k then [u] else []
  {
    assert (us + [u])[..|us|] == us;
  }

  lemma FoldSnoc<K(!new), V, X, E>(ins: Instrument<K, V, X>, us: seq<Update<X, E>>, u: Update<X, E>)
    ensures Fold(ins, us + [u]) == Apply(ins, Fold(ins, us), u)
  {
    assert (us + [u])[..|us|] == us;
  }

  /** No key occurs twice, and a key occurs exactly when the history has updates of it. */
  lemma {:induction false} KeysAreDistinct<K(!new), V, X, E>(ins: Instrument<K, V, X>, us: seq<Update<X, E>>)
    ensures forall i, j | 0 <= i < j < |Keys(ins, us)| :: Keys(ins, us)[i] != Keys(ins, us)[j]
    ensures forall k :: k in Keys(ins, us) <==> Of(ins, us, k) != []
  {
    if us == [] {
    } else {
      var front, u := us[..|us| - 1], us[|us| - 1];
      KeysAreDistinct(ins, front);
      assert us == front + [u];
      KeysSnoc(ins, front, u);
      forall k ensures k in Keys(ins, us) <==> Of(ins, us, k) != [] {
        OfSnoc(ins, front, u, k);
      }
    }
  }

  /** The map holds exactly the admitted keys, each with the point its whole history makes. */
  ghost predicate Describes<K(!new), V, X, E>(ins: Instrument<K, V, X>, us: seq<Update<X, E>>, m: map<K, Point<V, E>>) {
    && |m| == |Admitted(ins, us)|
    && (forall k :: k in m <==> k in Admitted(ins, us))
    && (forall k | k in m :: IsPoint(ins, Of(ins, us, k), m[k]))
  }

  lemma DescribesNext<K(!new), V, X, E>(ins: Instrument<K, V, X>, us: seq<Update<X, E>>, u: Update<X, E>, m: map<K,
        Point<V, E>>)
    requires Describes(ins, us, m)
    ensures Describes(ins, us + [u], Apply(ins, m, u))
  {
    KeysNext(ins, us, u, m);
    PointsNext(ins, us, u, m);
  }

  lemma KeysNext<K(!new), V, X, E>(ins: Instrument<K, V, X>, us: seq<Update<X, E>>, u: Update<X, E>, m: map<K,
        Point<V, E>>)
    requires |m| == |Admitted(ins, us)| && forall k :: k in m <==> k in Admitted(ins, us)
    ensures var m', a := Apply(ins, m, u), Admitted(ins, us + [u]); |m'| == |a| && forall k :: k in m' <==> k in a
  {
    AdmittedNext(ins, us, u);
    hide Admitted, Keys, Of, Owned;
  }

  lemma PointsNext<K(!new), V, X, E>(ins: Instrument<K, V, X>, us: seq<Update<X, E>>, u: Update<X, E>, m: map<K,
        Point<V, E>>)
    requires forall k :: k in m <==> k in Admitted(ins, us)
    requires |m| == |Admitted(ins, us)| && forall k | k in m :: IsPoint(ins, Of(ins, us, k), m[k])
    ensures forall k | k in Apply(ins, m, u) :: IsPoint(ins, Of(ins, us + [u], k), Apply(ins, m, u)[k])
  {
    AdmittedNext(ins, us, u);
    hide Admitted, Keys, Of, Owned, Value, LastExemplar;
    var k0, m' := ins.key(u.attrs), Apply(ins, m, u);
    forall k | k in m' ensures IsPoint(ins, Of(ins, us + [u], k), m'[k]) {
      OfSnoc(ins, us, u, k);
      if k == k0 {
        NextPoint(ins, Of(ins, us, k), u, if k in m then Some(m[k]) else None);
      } else {
        assert Of(ins, us + [u], k) == Of(ins, us, k);
      }
    }
  }

  /** The point of a key after one more update of it, which may be its first. */
  lemma NextPoint<K(!new), V, X, E>(ins: Instrument<K, V, X>, us: seq<Update<X, E>>, u: Update<X, E>,
        earlier: Option<Point<V, E>>)
    requires if earlier.Some? then IsPoint(ins, us, earlier.value) else us == []
    ensures IsPoint(ins, us + [u], Updated(ins, earlier, u))
  {
    assert (us + [u])[..|us|] == us;
  }

  /** A key is admitted at its first use or never. */
  lemma AdmittedNext<K(!new), V, X, E>(ins: Instrument<K, V, X>, us: seq<Update<X, E>>, u: Update<X, E>)
    ensures var a, k := Admitted(ins, us), ins.key(u.attrs);
      && (k in a ==> Admitted(ins, us + [u]) == a)
      && (k !in a && |a| >= ins.limit ==> Admitted(ins, us + [u]) == a)
      && (k !in a && |a| < ins.limit ==> Admitted(ins, us + [u]) == a + [k] && Of(ins, us, k) == [])
  {
    KeysSnoc(ins, us, u);
    KeysAreDistinct(ins, us);
  }

  /**
   Aggregation is a fold over history: the keys of the map are the first `limit` distinct
   keys in order of first use, and each value is built from all updates ever made with its key.
   */
  lemma {:induction false} AggregationIsFold<K(!new), V, X, E>(ins: Instrument<K, V, X>, us: seq<Update<X, E>>)
    ensures Describes(ins, us, Fold(ins, us))
  {
    if us == [] {
    } else {
      var front, u := us[..|us| - 1], us[|us| - 1];
      assert us == front + [u];
      AggregationIsFold(ins, front);
      FoldSnoc(ins, front, u);
      DescribesNext(ins, front, u, Fold(ins, front));
    }
  }

  // --- The hash index against a map keyed by attribute sets ---

  /** Two instruments that differ at most in how they name an attribute list. */
  ghost predicate SameButKeys<K, L, V, X>(a: Instrument<K, V, X>, b: Instrument<L, V, X>) {
    a.limit == b.limit && a.init == b.init && a.step == b.step
  }

  /** On the attribute lists of a history, the two ways of naming tell the same lists apart. */
  ghost predicate NoCollision<K, L, V, X, E>(a: Instrument<K, V, X>, b: Instrument<L, V, X>, us: seq<Update<X, E>>) {
    forall i, j | 0 <= i < |us| && 0 <= j < |us| ::
      a.key(us[i].attrs) == a.key(us[j].attrs) <==> b.key(us[i].attrs) == b.key(us[j].attrs)
  }

  /** For every attribute list used, both maps hold the same point, or neither holds one. */
  ghost predicate Agree<K, L, V, X, E>(a: Instrument<K, V, X>, b: Instrument<L, V, X>, us: seq<Update<X, E>>,
        m: map<K, Point<V, E>>, n: map<L, Point<V, E>>) {
    && |m| == |n|
    && forall i | 0 <= i < |us| ::
         var k, l := a.key(us[i].attrs), b.key(us[i].attrs);
         (k in m <==> l in n) && (k in m ==> m[k] == n[l])
  }

  /** The map's keys all come from the history. */
  lemma MapKeysUsed<K(!new), V, X, E>(ins: Instrument<K, V, X>, us: seq<Update<X, E>>, k: K)
    requires k in Fold(ins, us)
    ensures exists i :: 0 <= i < |us| && ins.key(us[i].attrs) == k
  {
    AggregationIsFold(ins, us);
    KeysAreDistinct(ins, us);
    OfMember(ins, us, k);
  }

  lemma {:induction false} OfMember<K(!new), V, X, E>(ins: Instrument<K, V, X>, us: seq<Update<X, E>>, k: K)
    requires Of(ins, us, k) != []
    ensures exists i :: 0 <= i < |us| && ins.key(us[i].attrs) == k
  {
    var u := us[|us| - 1];
    if ins.key(u.attrs) != k {
      OfMember(ins, us[..|us| - 1], k);
      var i :| 0 <= i < |us[..|us| - 1]| && ins.key(us[..|us| - 1][i].attrs) == k;
      assert us[i] == us[..|us| - 1][i];
    }
  }

  /** Without collisions the index agrees with the map it stands for. */
  lemma {:induction false} IndexRefinesMap<K(!new), L(!new), V, X, E>(a: Instrument<K, V, X>, b: Instrument<L, V,
        X>, us: seq<Update<X, E>>)
    requires SameButKeys(a, b) && NoCollision(a, b, us)
    ensures Agree(a, b, us, Fold(a, us), Fold(b, us))
  {
    if us == [] {
    } else {
      var n := |us| - 1;
      var front, u := us[..n], us[n];
      assert us == front + [u];
      assert forall i | 0 <= i < n :: front[i] == us[i];
      IndexRefinesMap(a, b, front);
      FoldSnoc(a, front, u);
      FoldSnoc(b, front, u);
      AgreeNext(a, b, us, Fold(a, front), Fold(b, front));
    }
  }

  /** What one map holds for the last list the other holds too, because keys come from the history. */
  lemma LastInBoth<K(!new), L(!new), V, X, E>(a: Instrument<K, V, X>, b: Instrument<L, V, X>, us: seq<Update<X,
        E>>, m: map<K, Point<V, E>>, n: map<L, Point<V, E>>)
    requires us != [] && NoCollision(a, b, us)
    requires var front := us[..|us| - 1]; Agree(a, b, front, m, n) && m == Fold(a, front)
    requires a.key(us[|us| - 1].attrs) in m
    ensures var k, l := a.key(us[|us| - 1].attrs), b.key(us[|us| - 1].attrs); l in n && m[k] == n[l]
  {
    hide Fold;
    var e := |us| - 1;
    var front, k := us[..e], a.key(us[e].attrs);
    MapKeysUsed(a, front, k);
    var i :| 0 <= i < |front| && a.key(front[i].attrs) == k;
    assert us[i] == front[i];
  }

  lemma AgreeNext<K(!new), L(!new), V, X, E>(a: Instrument<K, V, X>, b: Instrument<L, V, X>, us: seq<Update<X, E>>,
        m: map<K, Point<V, E>>, n: map<L, Point<V, E>>)
    requires us != [] && SameButKeys(a, b) && NoCollision(a, b, us)
    requires var front := us[..|us| - 1]; Agree(a, b, front, m, n) && m == Fold(a, front) && n == Fold(b, front)
    ensures Agree(a, b, us, Apply(a, m, us[|us| - 1]), Apply(b, n, us[|us| - 1]))
  {
    var e := |us| - 1;
    if a.key(us[e].attrs) in m {
      LastInBoth(a, b, us, m, n);
    } else if b.key(us[e].attrs) in n {
      LastInBoth(b, a, us, n, m);
    }
    hide Fold, Owned, Apply;
    var u, m', n' := us[e], Apply(a, m, us[e]), Apply(b, n, us[e]);
    ApplySize(a, m, u);
    ApplySize(b, n, u);
    forall i | 0 <= i < |us|
      ensures var k, l := a.key(us[i].attrs), b.key(us[i].attrs); (k in m' <==> l in n') && (k in m' ==> m'[k] == n'[l])
    {
      assert a.key(us[i].attrs) == a.key(u.attrs) <==> b.key(us[i].attrs) == b.key(u.attrs);
      assert i < e ==> us[i] == us[..e][i];
      ApplyAt(a, m, u, a.key(us[i].attrs));
      ApplyAt(b, n, u, b.key(us[i].attrs));
    }
  }

  /** The index by hash, and the map by the multiset of pairs it stands for. */
  function ByHash<V, X>(limit: nat, init: V, step: (V, X) -> V): Instrument<u64, V, X> {
    Instrument(limit, Key, init, step)
  }

  /** The keys of the attribute lists used, in the order of first use, up to `limit` of them. */
  function FirstKeys<X, E>(limit: nat, us: seq<Update<X, E>>): (ks: seq<u64>)
    ensures |ks| <= limit
  {
    if us == [] then []
    else
      var ks, k := FirstKeys(limit, us[..|us| - 1]), Key(us[|us| - 1].attrs);
      if k in ks || |ks| == limit then ks else ks + [k]
  }

  lemma {:induction false} AdmittedAreFirst<V, X, E>(limit: nat, init: V, step: (V, X) -> V, us: seq<Update<X, E>>)
    ensures Admitted(ByHash(limit, init, step), us) == FirstKeys(limit, us)
  {
    hide Key, Admitted;
    var ins := ByHash(limit, init, step);
    if us == [] {
      NoneAdmitted<u64, V, X, E>(ins);
    } else {
      var front, u := us[..|us| - 1], us[|us| - 1];
      assert us == front + [u];
      AdmittedAreFirst(limit, init, step, front);
      AdmittedNext(ins, front, u);
    }
  }

  lemma NoneAdmitted<K, V, X, E>(ins: Instrument<K, V, X>)
    ensures Admitted<K, V, X, E>(ins, []) == []
  {
  }

  function ByPairs<V, X>(limit: nat, init: V, step: (V, X) -> V): Instrument<multiset<Pair>, V, X> {
    Instrument(limit, (attrs: Attrs) => multiset(attrs), init, step)
  }

  /** No two different attribute sets of a history have the same key. */
  ghost predicate NoHashCollision<X, E>(us: seq<Update<X, E>>) {
    forall i, j | 0 <= i < |us| && 0 <= j < |us| ::
      Key(us[i].attrs) == Key(us[j].attrs) ==> multiset(us[i].attrs) == multiset(us[j].attrs)
  }

  lemma HashIndexRefinesMap<V, X, E>(limit: nat, init: V, step: (V, X) -> V, us: seq<Update<X, E>>)
    requires NoHashCollision(us)
    ensures var a, b := ByHash(limit, init, step), ByPairs(limit, init, step);
      Agree(a, b, us, Fold(a, us), Fold(b, us))
  {
    var a, b := ByHash(limit, init, step), ByPairs(limit, init, step);
    forall i, j | 0 <= i < |us| && 0 <= j < |us|
      ensures a.key(us[i].attrs) == a.key(us[j].attrs) <==> b.key(us[i].attrs) == b.key(us[j].attrs)
    {
      if multiset(us[i].attrs) == multiset(us[j].attrs) {
        KeyIgnoresOrder(us[i].attrs, us[j].attrs);
      }
    }
    IndexRefinesMap(a, b, us);
  }

  lemma {:induction false} OfKey<K(!new), V, X, E>(ins: Instrument<K, V, X>, us: seq<Update<X, E>>, k: K)
    ensures forall i | 0 <= i < |Of(ins, us, k)| :: ins.key(Of(ins, us, k)[i].attrs) == k
  {
    if us == [] {
    } else {
      OfKey(ins, us[..|us| - 1], k);
    }
  }

  /**
   As long as the limit is not reached the agreement is exact: the hash index agrees with
   the map of attribute sets if and only if no two attribute sets of the history collide.
   */
  lemma IndexAgreesIff<V, X, E>(limit: nat, init: V, step: (V, X) -> V, us: seq<Update<X, E>>)
    requires |Keys(ByPairs<V, X>(limit, init, step), us)| <= limit
    ensures var a, b := ByHash(limit, init, step), ByPairs(limit, init, step);
      Agree(a, b, us, Fold(a, us), Fold(b, us)) <==> NoHashCollision(us)
  {
    var a, b := ByHash(limit, init, step), ByPairs(limit, init, step);
    if NoHashCollision(us) {
      HashIndexRefinesMap(limit, init, step, us);
    }
    if Agree(a, b, us, Fold(a, us), Fold(b, us)) {
      AggregationIsFold(b, us);
      KeysAreDistinct(b, us);
      forall i | 0 <= i < |us|
        ensures multiset(us[i].attrs) in Fold(b, us)
        ensures multiset(Fold(b, us)[multiset(us[i].attrs)].attrs) == multiset(us[i].attrs)
      {
        var l := multiset(us[i].attrs);
        UsedKey(b, us, i);
        OfKey(b, us, l);
        assert IsPoint(b, Of(b, us, l), Fold(b, us)[l]);
        assert b.key(Of(b, us, l)[0].attrs) == l;
      }
    }
  }

  lemma {:induction false} UsedKey<K(!new), V, X, E>(ins: Instrument<K, V, X>, us: seq<Update<X, E>>, i: nat)
    requires i < |us|
    ensures ins.key(us[i].attrs) in Keys(ins, us)
  {
    if i < |us| - 1 {
      UsedKey(ins, us[..|us| - 1], i);
    }
  }
}

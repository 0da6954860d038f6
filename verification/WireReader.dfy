/**
 Reading a parsed message by the protobuf rules: the last occurrence of a singular field
 wins, occurrences of a singular message merge, and repeated fields keep their order.
 */
module WireReader {
  import opened Bytes
  import opened Wire

  /** The fields whose number is in `ns`, in order. */
  function Pick(fs: seq<Field>, ns: set<u32>): seq<Field> {
    if fs == [] then []
    else (if fs[0].num in ns then [fs[0]] else []) + Pick(fs[1..], ns)
  }

  function LastBytes(fs: seq<Field>, n: u32): seq<byte> {
    var p := Pick(fs, {n});
    if p != [] && p[|p| - 1].BytesField? then p[|p| - 1].data else []
  }

  function LastVarint(fs: seq<Field>, n: u32): u64 {
    var p := Pick(fs, {n});
    if p != [] && p[|p| - 1].VarintField? then p[|p| - 1].v else 0
  }

  function LastFixed64(fs: seq<Field>, n: u32): u64 {
    var p := Pick(fs, {n});
    if p != [] && p[|p| - 1].Fixed64Field? then p[|p| - 1].v else 0
  }

  function BodiesOf(p: seq<Field>): seq<seq<Field>> {
    if p == [] then []
    else (if p[0].MessageField? then [p[0].body] else []) + BodiesOf(p[1..])
  }

  /** The bodies of a repeated message field. */
  function Bodies(fs: seq<Field>, n: u32): seq<seq<Field>> {
    BodiesOf(Pick(fs, {n}))
  }

  /** The body of a singular message field: all its occurrences merged. */
  function Merged(fs: seq<Field>, n: u32): seq<Field> {
    Concat(Bodies(fs, n))
  }

  function PackedOf(p: seq<Field>): seq<u64> {
    if p == [] then []
    else (if p[0].PackedField? then p[0].vs else []) + PackedOf(p[1..])
  }

  /** The elements of a packed repeated field. */
  function Elements(fs: seq<Field>, n: u32): seq<u64> {
    PackedOf(Pick(fs, {n}))
  }

  function Map<T, D>(xs: seq<T>, f: T -> D): seq<D> {
    if xs == [] then [] else [f(xs[0])] + Map(xs[1..], f)
  }

  /** The images that are present. */
  function Somes<T, D>(xs: seq<T>, f: T -> Option<D>): seq<D> {
    if xs == [] then []
    else (match f(xs[0]) case None => [] case Some(d) => [d]) + Somes(xs[1..], f)
  }

  /** A repeated message field, one occurrence for each element. */
  function Rep<T>(n: u32, xs: seq<T>, f: T -> seq<Field>): (r: seq<Field>)
    ensures |r| == |xs| && forall i | 0 <= i < |xs| :: r[i] == MessageField(n, f(xs[i]))
  {
    seq(|xs|, i requires 0 <= i < |xs| => MessageField(n, f(xs[i])))
  }

  // --- What reading finds after normalisation ---

  lemma {:induction false} PickAppend(a: seq<Field>, b: seq<Field>, ns: set<u32>)
    ensures Pick(a + b, ns) == Pick(a, ns) + Pick(b, ns)
  {
    if a == [] {
      assert a + b == b;
    } else {
      assert (a + b)[0] == a[0] && (a + b)[1..] == a[1..] + b;
      PickAppend(a[1..], b, ns);
      Assoc3(if a[0].num in ns then [a[0]] else [], Pick(a[1..], ns), Pick(b, ns));
    }
  }

  /** Choosing fields and leaving out defaults commute. */
  lemma {:induction false} PickNorm(fs: seq<Field>, ns: set<u32>)
    ensures Pick(Norm(fs), ns) == Norm(Pick(fs, ns))
  {
    if fs == [] {
    } else {
      var r, rest := NormField(fs[0]), Pick(fs[1..], ns);
      PickNorm(fs[1..], ns);
      PickAppend(r, Norm(fs[1..]), ns);
      if r != [] {
        assert r[1..] == [] && Pick(r, ns) == (if r[0].num in ns then [r[0]] else []) + Pick([], ns);
      }
      if fs[0].num in ns {
        NormAppend([fs[0]], rest);
        NormSingle(fs[0]);
      } else {
        assert [] + rest == rest && [] + Norm(rest) == Norm(rest);
      }
    }
  }

  lemma {:induction false} PickRange(fs: seq<Field>, ns: set<u32>, lo: nat, hi: nat)
    requires lo <= hi <= |fs|
    requires forall j | 0 <= j < |fs| :: fs[j].num in ns <==> lo <= j < hi
    ensures Pick(fs, ns) == fs[lo..hi]
  {
    if fs == [] {
    } else {
      assert forall j | 0 <= j < |fs[1..]| :: fs[1..][j] == fs[j + 1];
      if lo == 0 < hi {
        PickRange(fs[1..], ns, 0, hi - 1);
        assert fs[0..hi] == [fs[0]] + fs[1..][0..hi - 1];
      } else {
        var l, h := if lo == 0 then 0 else lo - 1, if lo == 0 then 0 else hi - 1;
        PickRange(fs[1..], ns, l, h);
        assert fs[lo..hi] == fs[1..][l..h];
      }
    }
  }

  /** `fs[k]` is the only field of the message with a number in `ns`. */
  ghost predicate OnlyAt(fs: seq<Field>, ns: set<u32>, k: nat) {
    k < |fs| && forall j | 0 <= j < |fs| :: fs[j].num in ns <==> j == k
  }

  lemma PickOnly(fs: seq<Field>, ns: set<u32>, k: nat)
    requires OnlyAt(fs, ns, k)
    ensures Pick(Norm(fs), ns) == NormField(fs[k])
  {
    PickRange(fs, ns, k, k + 1);
    PickNorm(fs, ns);
    assert fs[k..k + 1] == [fs[k]];
    NormSingle(fs[k]);
  }

  lemma PickNothing(fs: seq<Field>, ns: set<u32>)
    requires forall j | 0 <= j < |fs| :: fs[j].num !in ns
    ensures Pick(Norm(fs), ns) == []
  {
    PickRange(fs, ns, 0, 0);
    PickNorm(fs, ns);
  }

  /** A scalar that occurs once is read back, whether or not it was left out as a default. */
  lemma ScalarAt(fs: seq<Field>, k: nat)
    requires k < |fs| && OnlyAt(fs, {fs[k].num}, k)
    ensures fs[k].BytesField? ==> LastBytes(Norm(fs), fs[k].num) == fs[k].data
    ensures fs[k].VarintField? ==> LastVarint(Norm(fs), fs[k].num) == fs[k].v
    ensures fs[k].Fixed64Field? ==> LastFixed64(Norm(fs), fs[k].num) == fs[k].v
    ensures fs[k].PackedField? ==> Elements(Norm(fs), fs[k].num) == fs[k].vs
  {
    PickOnly(fs, {fs[k].num}, k);
    if fs[k].PackedField? && fs[k].vs != [] {
      assert [fs[k]][1..] == [] && PackedOf([fs[k]]) == fs[k].vs + PackedOf([]);
    }
  }

  /** A message that occurs once is read back as its normal form. */
  lemma MessageAt(fs: seq<Field>, k: nat)
    requires k < |fs| && fs[k].MessageField? && OnlyAt(fs, {fs[k].num}, k)
    ensures var b := Norm(fs[k].body);
      Bodies(Norm(fs), fs[k].num) == (if b == [] then [] else [b]) && Merged(Norm(fs), fs[k].num) == b
  {
    PickOnly(fs, {fs[k].num}, k);
    var b := Norm(fs[k].body);
    if b != [] {
      var m := MessageField(fs[k].num, b);
      assert [m][1..] == [] && BodiesOf([m]) == [b] + BodiesOf([]);
      assert [b][1..] == [] && Concat([b]) == b + Concat([]);
    }
  }

  /** How one element of a repeated message is written, and what a reader makes of it. */
  ghost predicate ReadsAs<T, D>(x: T, f: T -> seq<Field>, read: seq<Field> -> D, norm: T -> Option<D>) {
    (Norm(f(x)) == [] <==> norm(x).None?) && (norm(x).Some? ==> read(Norm(f(x))) == norm(x).value)
  }

  lemma {:induction false} RepRoundTrip<T, D>(n: u32, xs: seq<T>, f: T -> seq<Field>, read: seq<Field> -> D,
        norm: T -> Option<D>)
    requires forall x | x in xs :: ReadsAs(x, f, read, norm)
    ensures Map(BodiesOf(Norm(Rep(n, xs, f))), read) == Somes(xs, norm)
    ensures Norm(Rep(n, xs, f)) == [] <==> Somes(xs, norm) == []
  {
    if xs == [] {
    } else {
      var m := MessageField(n, f(xs[0]));
      assert Rep(n, xs, f) == [m] + Rep(n, xs[1..], f);
      assert ReadsAs(xs[0], f, read, norm);
      RepRoundTrip(n, xs[1..], f, read, norm);
      var rest := Norm(Rep(n, xs[1..], f));
      assert Norm(Rep(n, xs, f)) == NormField(m) + rest;
      if NormField(m) != [] {
        var b := Norm(f(xs[0]));
        assert (NormField(m) + rest)[1..] == rest;
        assert BodiesOf(NormField(m) + rest) == [b] + BodiesOf(rest);
        assert ([b] + BodiesOf(rest))[1..] == BodiesOf(rest);
      } else {
        assert [] + rest == rest && [] + Somes(xs[1..], norm) == Somes(xs[1..], norm);
      }
    }
  }

  /** A repeated message field is read back element by element, in order. */
  lemma RepeatedAt<T, D>(fs: seq<Field>, n: u32, lo: nat, xs: seq<T>, f: T -> seq<Field>, read: seq<Field> -> D,
        norm: T -> Option<D>)
    requires lo + |xs| <= |fs| && fs[lo..lo + |xs|] == Rep(n, xs, f)
    requires forall j | 0 <= j < |fs| :: fs[j].num == n <==> lo <= j < lo + |xs|
    requires forall x | x in xs :: ReadsAs(x, f, read, norm)
    ensures Map(Bodies(Norm(fs), n), read) == Somes(xs, norm)
  {
    var reps := Rep(n, xs, f);
    PickRange(fs, {n}, lo, lo + |xs|);
    assert Pick(fs, {n}) == reps;
    PickNorm(fs, {n});
    assert Bodies(Norm(fs), n) == BodiesOf(Norm(reps));
    RepRoundTrip(n, xs, f, read, norm);
  }

  /** A repeated field conforms when each element's message does. */
  lemma RepConforms<T>(n: u32, xs: seq<T>, f: T -> seq<Field>, sch: Schema, sub: Schema)
    requires n in sch && sch[n] == KMessage(sub)
    requires forall x | x in xs :: Conforms(f(x), sub)
    ensures Conforms(Rep(n, xs, f), sch)
  {
    forall i | 0 <= i < |xs| ensures FieldConforms(Rep(n, xs, f)[i], sch) {
      assert xs[i] in xs;
    }
  }

  /** A message with something always written is never empty. */
  lemma NeverEmpty(fs: seq<Field>, k: nat)
    requires k < |fs| && NormField(fs[k]) != []
    ensures Norm(fs) != []
  {
    assert fs == fs[..k] + ([fs[k]] + fs[k + 1..]);
    NormAppend(fs[..k], [fs[k]] + fs[k + 1..]);
    NormAppend([fs[k]], fs[k + 1..]);
    NormSingle(fs[k]);
  }
}

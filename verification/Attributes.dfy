/**
 Attribute lists as metric keys: the order-independent hash that indexes a data point, and
 the sorted list that is kept with it. Both depend only on the multiset of pairs.
 */
module Attributes {
  import opened Bytes
  import opened Sorting

  type Pair = (seq<byte>, seq<byte>)
  type Attrs = seq<Pair>

  // --- The hash ---

  const FNV_OFFSET: u64 := 0xcbf2_9ce4_8422_2325
  const FNV_PRIME: u64 := 0x100_0000_01b3
  const SEPARATOR: byte := 0xff

  /** Bitwise exclusive or. */
  function Xor(a: nat, b: nat): nat {
    if a == 0 && b == 0 then 0 else 2 * Xor(a / 2, b / 2) + (a + b) % 2
  }

  /** One FNV-1a round: xor, then a wrapping multiplication. */
  function Round(h: u64, b: byte): u64 {
    (Xor(h, b) * FNV_PRIME) % TWO_64
  }

  function Fnv(h: u64, s: seq<byte>): u64
    decreases s
  {
    if s == [] then h else Fnv(Round(h, s[0]), s[1..])
  }

  /** The bytes hashed for one pair. */
  function Stream(p: Pair): seq<byte> {
    p.0 + [SEPARATOR] + p.1
  }

  function PairHash(p: Pair): u64 {
    Fnv(FNV_OFFSET, Stream(p))
  }

  function HashSum(attrs: Attrs): nat {
    if attrs == [] then 0 else HashSum(attrs[..|attrs| - 1]) + PairHash(attrs[|attrs| - 1])
  }

  /** The sum of the pair hashes, wrapped to 64 bits. */
  function Hash(attrs: Attrs): u64 {
    HashSum(attrs) % TWO_64
  }

  lemma {:induction false} FnvAppend(h: u64, s: seq<byte>, t: seq<byte>)
    ensures Fnv(h, s + t) == Fnv(Fnv(h, s), t)
    decreases s
  {
    if s == [] {
      assert s + t == t;
    } else {
      assert (s + t)[0] == s[0] && (s + t)[1..] == s[1..] + t;
      FnvAppend(Round(h, s[0]), s[1..], t);
    }
  }

  method HashBytes(h0: u64, s: seq<byte>) returns (h: u64)
    ensures h == Fnv(h0, s)
  {
    h := h0;
    var i := 0;
    while i < |s|
      invariant i <= |s|
      invariant Fnv(h, s[i..]) == Fnv(h0, s)
    {
      assert s[i..][0] == s[i] && s[i..][1..] == s[i + 1..];
      h := Round(h, s[i]);
      i := i + 1;
    }
  }

  lemma PairHashParts(p: Pair)
    ensures PairHash(p) == Fnv(Round(Fnv(FNV_OFFSET, p.0), SEPARATOR), p.1)
  {
    hide Xor, Round;
    FnvAppend(FNV_OFFSET, p.0 + [SEPARATOR], p.1);
    FnvAppend(FNV_OFFSET, p.0, [SEPARATOR]);
    assert [SEPARATOR][1..] == [];
    assert Fnv(Fnv(FNV_OFFSET, p.0), [SEPARATOR]) == Fnv(Round(Fnv(FNV_OFFSET, p.0), SEPARATOR), [SEPARATOR][1..]);
  }

  method AttrsHashUnordered(attrs: Attrs) returns (combined: u64)
    ensures combined == Hash(attrs)
  {
    hide Xor, Round, Fnv;
    combined := 0;
    var i := 0;
    while i < |attrs|
      invariant i <= |attrs|
      invariant combined == HashSum(attrs[..i]) % TWO_64
    {
      var (k, v) := attrs[i];
      var h := HashBytes(FNV_OFFSET, k);
      h := Round(h, SEPARATOR);
      h := HashBytes(h, v);
      PairHashParts(attrs[i]);
      assert attrs[..i + 1][..i] == attrs[..i];
      combined := (combined + h) % TWO_64;
      i := i + 1;
    }
    assert attrs[..|attrs|] == attrs;
  }

  lemma {:induction false} HashSumAppend(a: Attrs, b: Attrs)
    ensures HashSum(a + b) == HashSum(a) + HashSum(b)
  {
    if b == [] {
      assert a + b == a;
    } else {
      assert (a + b)[..|a + b| - 1] == a + b[..|b| - 1];
      HashSumAppend(a, b[..|b| - 1]);
    }
  }

  lemma HashSumMiddle(a: Attrs, p: Pair, b: Attrs)
    ensures HashSum(a + [p] + b) == HashSum(a + b) + PairHash(p)
  {
    HashSumAppend(a + [p], b);
    HashSumAppend(a, [p]);
    HashSumAppend(a, b);
    assert [p][..0] == [] && HashSum([p]) == HashSum([p][..0]) + PairHash(p);
  }

  lemma MultisetMiddle(a: Attrs, p: Pair, b: Attrs)
    ensures multiset(a + [p] + b) == multiset(a + b) + multiset{p}
  {
  }

  lemma Cancel(x: multiset<Pair>, y: multiset<Pair>, z: multiset<Pair>)
    requires x + z == y + z
    ensures x == y
  {
    forall p ensures x[p] == y[p] {
      assert (x + z)[p] == (y + z)[p];
    }
  }

  /** Taking one occurrence of the same pair out of two lists of the same pairs. */
  lemma CancelMiddle(a: Attrs, p: Pair, b: Attrs, c: Attrs, d: Attrs)
    requires multiset(a + [p] + b) == multiset(c + [p] + d)
    ensures multiset(a + b) == multiset(c + d)
  {
    MultisetMiddle(a, p, b);
    MultisetMiddle(c, p, d);
    Cancel(multiset(a + b), multiset(c + d), multiset{p});
  }

  /** Two lists of the same pairs: the first pair of one can be taken out of both. */
  lemma SplitAt(a: Attrs, b: Attrs) returns (i: nat)
    requires a != [] && multiset(a) == multiset(b)
    ensures i < |b| && b[i] == a[0] && b == b[..i] + [a[0]] + b[i + 1..]
    ensures multiset(a[1..]) == multiset(b[..i] + b[i + 1..])
    ensures a == [] + [a[0]] + a[1..]
  {
    assert a[0] in multiset(b);
    i :| 0 <= i < |b| && b[i] == a[0];
    assert a == [] + [a[0]] + a[1..] && b == b[..i] + [a[0]] + b[i + 1..];
    CancelMiddle([], a[0], a[1..], b[..i], b[i + 1..]);
    assert [] + a[1..] == a[1..];
  }

  lemma {:induction false} HashSumIgnoresOrder(a: Attrs, b: Attrs)
    requires multiset(a) == multiset(b)
    ensures HashSum(a) == HashSum(b)
    decreases |a|
  {
    hide PairHash;
    if a == [] {
      assert |multiset(b)| == 0;
    } else {
      var i := SplitAt(a, b);
      HashSumIgnoresOrder(a[1..], b[..i] + b[i + 1..]);
      HashSumMiddle([], a[0], a[1..]);
      HashSumMiddle(b[..i], a[0], b[i + 1..]);
      assert [] + a[1..] == a[1..];
    }
  }

  /** Every permutation of an attribute list has the same hash. */
  lemma HashIgnoresOrder(a: Attrs, b: Attrs)
    requires multiset(a) == multiset(b)
    ensures Hash(a) == Hash(b)
  {
    HashSumIgnoresOrder(a, b);
  }

  /** The separator never occurs in UTF-8, so a pair can be told from the bytes hashed for it. */
  lemma StreamIsUnambiguous(p: Pair, q: Pair)
    requires SEPARATOR !in p.0 && SEPARATOR !in q.0
    ensures Stream(p) == Stream(q) <==> p == q
  {
    if Stream(p) == Stream(q) {
      var n, m := |p.0|, |q.0|;
      assert Stream(p)[n] == SEPARATOR && Stream(q)[m] == SEPARATOR;
      if n < m {
        assert false;
      }
      if m < n {
        assert false;
      }
      assert p.0 == Stream(p)[..n] && q.0 == Stream(q)[..n];
      assert p.1 == Stream(p)[n + 1..] && q.1 == Stream(q)[n + 1..];
    }
  }

  // --- The sorted list ---

  /** Bytewise lexicographic order, the order of strings. */
  predicate LexLe(a: seq<byte>, b: seq<byte>) {
    a == [] || (b != [] && (a[0] < b[0] || (a[0] == b[0] && LexLe(a[1..], b[1..]))))
  }

  predicate PairLe(p: Pair, q: Pair) {
    if p.0 == q.0 then LexLe(p.1, q.1) else LexLe(p.0, q.0)
  }

  lemma {:induction false} LexOrder(a: seq<byte>, b: seq<byte>)
    ensures LexLe(a, b) || LexLe(b, a)
    ensures LexLe(a, b) && LexLe(b, a) <==> a == b
  {
    if a != [] && b != [] && a[0] == b[0] {
      LexOrder(a[1..], b[1..]);
      assert a == [a[0]] + a[1..] && b == [b[0]] + b[1..];
    }
    if a == b && a != [] {
      LexOrder(a[1..], a[1..]);
    }
  }

  /** The strings agree up to `n`, where the first ends or has the lower byte. */
  predicate LowerAt(a: seq<byte>, b: seq<byte>, n: nat) {
    n <= |a| && n <= |b| && a[..n] == b[..n] && (n == |a| || (n < |b| && a[n] < b[n]))
  }

  /** The first byte that differs decides, and a prefix comes first. */
  lemma {:induction false} LexLeIff(a: seq<byte>, b: seq<byte>)
    ensures LexLe(a, b) <==> exists n :: LowerAt(a, b, n)
  {
    if a == [] || b == [] || a[0] != b[0] {
      assert LexLe(a, b) ==> LowerAt(a, b, 0);
      forall n: nat | LowerAt(a, b, n) ensures LexLe(a, b) {
        LowerAtFirst(a, b, n);
      }
    } else {
      LexLeIff(a[1..], b[1..]);
      if n: nat :| LowerAt(a[1..], b[1..], n) {
        LowerAtNext(a, b, n);
        assert LowerAt(a, b, n + 1);
      }
      if n: nat :| LowerAt(a, b, n) {
        LowerAtNext(a, b, n - 1);
        assert LowerAt(a[1..], b[1..], n - 1);
      }
    }
  }

  lemma LowerAtFirst(a: seq<byte>, b: seq<byte>, n: nat)
    requires LowerAt(a, b, n)
    ensures n > 0 ==> a != [] && b != [] && a[0] == b[0]
  {
    if n > 0 {
      assert a[..n][0] == b[..n][0];
    }
  }

  lemma LowerAtNext(a: seq<byte>, b: seq<byte>, n: nat)
    requires a != [] && b != [] && a[0] == b[0]
    ensures LowerAt(a, b, n + 1) <==> LowerAt(a[1..], b[1..], n)
  {
    if n + 1 <= |a| && n + 1 <= |b| {
      assert a[..n + 1] == [a[0]] + a[1..][..n] && b[..n + 1] == [b[0]] + b[1..][..n];
    }
  }

  /** Pairs are ordered by key, and by value only where the keys are the same. */
  lemma PairLeIff(p: Pair, q: Pair)
    ensures PairLe(p, q)
       <==> (p.0 != q.0 && exists n :: LowerAt(p.0, q.0, n)) || (p.0 == q.0 && exists n :: LowerAt(p.1, q.1, n))
  {
    LexLeIff(p.0, q.0);
    LexLeIff(p.1, q.1);
  }

  lemma {:induction false} LexTransitive(a: seq<byte>, b: seq<byte>, c: seq<byte>)
    requires LexLe(a, b) && LexLe(b, c)
    ensures LexLe(a, c)
  {
    if a != [] && a[0] == b[0] == c[0] {
      LexTransitive(a[1..], b[1..], c[1..]);
    }
  }

  lemma PairOrder(p: Pair, q: Pair)
    ensures PairLe(p, q) || PairLe(q, p)
    ensures PairLe(p, q) && PairLe(q, p) <==> p == q
  {
    LexOrder(p.0, q.0);
    LexOrder(p.1, q.1);
  }

  lemma PairTransitive(p: Pair, q: Pair, r: Pair)
    requires PairLe(p, q) && PairLe(q, r)
    ensures PairLe(p, r)
  {
    LexOrder(p.0, q.0);
    LexOrder(q.0, r.0);
    if p.0 == q.0 == r.0 {
      LexTransitive(p.1, q.1, r.1);
    } else if p.0 != q.0 && q.0 != r.0 {
      LexTransitive(p.0, q.0, r.0);
    }
  }

  lemma PairsAreOrdered()
    ensures TotalOrder(PairLe)
  {
    forall p, q ensures PairLe(p, q) || PairLe(q, p) {
      PairOrder(p, q);
    }
    forall p, q | PairLe(p, q) && PairLe(q, p) ensures p == q {
      PairOrder(p, q);
    }
    forall p, q, r | PairLe(p, q) && PairLe(q, r) ensures PairLe(p, r) {
      PairTransitive(p, q, r);
    }
  }

  /** The owned copy of an attribute list: the same pairs, in order. */
  function Owned(attrs: Attrs): (r: Attrs)
    ensures multiset(r) == multiset(attrs)
  {
    Sort(PairLe, attrs)
  }

  /** The owned list is the sorted list of the pairs, so it identifies their multiset. */
  lemma OwnedIsCanonical(a: Attrs, b: Attrs)
    ensures Owned(a) == Owned(b) <==> multiset(a) == multiset(b)
    ensures IsSorted(PairLe, Owned(a)) && multiset(Owned(a)) == multiset(a)
  {
    hide PairLe, TotalOrder, IsSorted;
    PairsAreOrdered();
    SortSorts(PairLe, a);
    SortSorts(PairLe, b);
    if multiset(a) == multiset(b) {
      SortedIsUnique(PairLe, Owned(a), Owned(b));
    }
  }

  /** The index of a data point: the empty list has key zero. */
  function Key(attrs: Attrs): u64 {
    if attrs == [] then 0 else Hash(attrs)
  }

  lemma KeyIgnoresOrder(a: Attrs, b: Attrs)
    requires multiset(a) == multiset(b)
    ensures Key(a) == Key(b)
  {
    HashIgnoresOrder(a, b);
  }
}

/**
 Which attribute lists the hash tells apart: it is the published FNV-1a, each of its rounds is a
 bijection, and lists that differ in one byte of one pair get data points of their own.
 */
module HashCollisions {
  import opened Bytes
  import opened Attributes
  import opened Aggregation
  import opened Instruments

  // --- One round ---

  /** Bit `k` of a number. */
  predicate Bit(n: nat, k: nat) {
    if k == 0 then n % 2 == 1 else Bit(n / 2, k - 1)
  }

  lemma XorStep(a: nat, b: nat)
    ensures Xor(a, b) / 2 == Xor(a / 2, b / 2) && Xor(a, b) % 2 == (a + b) % 2
  {
  }

  /** Bit by bit, exclusive or says where two numbers differ. */
  lemma {:induction false} XorBits(a: nat, b: nat, k: nat)
    ensures Bit(Xor(a, b), k) <==> Bit(a, k) != Bit(b, k)
    decreases k
  {
    hide Xor;
    XorStep(a, b);
    if k == 0 {
    } else {
      XorBits(a / 2, b / 2, k - 1);
    }
  }

  lemma {:induction false} XorBelow(a: nat, b: nat, n: nat)
    requires a < Pow(2, n) && b < Pow(2, n)
    ensures Xor(a, b) < Pow(2, n)
    decreases n
  {
    if n == 0 {
    } else {
      XorBelow(a / 2, b / 2, n - 1);
    }
  }

  /** Exclusive or with one number tells the others apart. */
  lemma {:induction false} XorInjective(a: nat, b: nat, c: nat)
    ensures Xor(a, b) == Xor(a, c) <==> b == c
    decreases a + b + c
  {
    if b != c {
      assert Xor(a, b) / 2 == Xor(a / 2, b / 2) && Xor(a, c) / 2 == Xor(a / 2, c / 2);
      XorInjective(a / 2, b / 2, c / 2);
    }
  }

  lemma {:induction false} XorCommutes(a: nat, b: nat)
    ensures Xor(a, b) == Xor(b, a)
  {
    if a == 0 && b == 0 {
    } else {
      XorCommutes(a / 2, b / 2);
    }
  }

  lemma {:induction false} Pow2OfBytes(n: nat)
    ensures Pow(2, 8 * n) == Pow(256, n)
  {
    if n == 0 {
    } else {
      var k := 8 * n;
      assert Pow(2, k - 4) == 16 * Pow(2, k - 8) by {
        assert Pow(2, k - 6) == 4 * Pow(2, k - 8);
      }
      assert Pow(2, k) == 16 * Pow(2, k - 4) by {
        assert Pow(2, k - 2) == 4 * Pow(2, k - 4);
      }
      Pow2OfBytes(n - 1);
    }
  }

  /** The inverse of the prime: their product is one modulo 2^64. */
  const INVERSE: u64 := 0xce96_5057_aff6_957b

  lemma PrimeIsInvertible(x: u64, y: u64)
    requires (x * FNV_PRIME) % TWO_64 == (y * FNV_PRIME) % TWO_64
    ensures x == y
  {
    var k := (x * FNV_PRIME) / TWO_64 - (y * FNV_PRIME) / TWO_64;
    assert (x - y) * FNV_PRIME == k * TWO_64;
    assert FNV_PRIME * INVERSE == 887_285_111_055 * TWO_64 + 1;
    assert x - y == TWO_64 * (k * INVERSE - 887_285_111_055 * (x - y));
  }

  /** A round is a bijection of the state for each byte, and tells bytes apart in each state. */
  lemma RoundInjective(g: u64, h: u64, a: byte, b: byte)
    ensures Round(g, a) == Round(h, a) <==> g == h
    ensures Round(h, a) == Round(h, b) <==> a == b
  {
    hide Xor, Pow;
    Pow2OfBytes(8);
    Pow256Of8();
    XorBelow(g, a, 64);
    XorBelow(h, a, 64);
    XorBelow(h, b, 64);
    XorCommutes(g, a);
    XorCommutes(h, a);
    XorInjective(a, g, h);
    XorInjective(h, a, b);
    if Round(g, a) == Round(h, a) {
      PrimeIsInvertible(Xor(g, a), Xor(h, a));
    }
    if Round(h, a) == Round(h, b) {
      PrimeIsInvertible(Xor(h, a), Xor(h, b));
    }
  }

  lemma {:induction false} FnvInjective(g: u64, h: u64, s: seq<byte>)
    ensures Fnv(g, s) == Fnv(h, s) <==> g == h
    decreases s
  {
    hide Round;
    if s == [] {
    } else {
      RoundInjective(g, h, s[0], s[0]);
      FnvInjective(Round(g, s[0]), Round(h, s[0]), s[1..]);
    }
  }

  lemma {:induction false} XorZero(a: nat)
    ensures Xor(a, 0) == a
  {
    if a == 0 {
    } else {
      XorZero(a / 2);
    }
  }

  lemma XorIs(a: nat, b: nat, c: nat)
    requires Xor(a / 2, b / 2) == c / 2 && (a + b) % 2 == c % 2
    ensures Xor(a, b) == c
  {
    hide Xor;
    XorStep(a, b);
  }

  /** The published values of FNV-1a for the empty string and for "a". */
  lemma PublishedValues()
    ensures Fnv(FNV_OFFSET, []) == 0xcbf2_9ce4_8422_2325
    ensures Fnv(FNV_OFFSET, [0x61]) == 0xaf63_dc4c_8601_ec8c
  {
    hide Xor;
    XorZero(0x197_e539_c908_4446);
    XorIs(0x32f_ca73_9210_888c, 0x1, 0x32f_ca73_9210_888d);
    XorIs(0x65f_94e7_2421_1119, 0x3, 0x65f_94e7_2421_111a);
    XorIs(0xcbf_29ce_4842_2232, 0x6, 0xcbf_29ce_4842_2234);
    XorIs(0x197e_539c_9084_4464, 0xc, 0x197e_539c_9084_4468);
    XorIs(0x32fc_a739_2108_88c9, 0x18, 0x32fc_a739_2108_88d1);
    XorIs(0x65f9_4e72_4211_1192, 0x30, 0x65f9_4e72_4211_11a2);
    XorIs(0xcbf2_9ce4_8422_2325, 0x61, 0xcbf2_9ce4_8422_2344);
    assert Round(FNV_OFFSET, 0x61) == 0xaf63_dc4c_8601_ec8c;
    assert Fnv(FNV_OFFSET, [0x61]) == Fnv(Round(FNV_OFFSET, 0x61), [0x61][1..]);
  }

  // --- Pairs and lists ---

  /** The strings have one length and differ in exactly one byte. */
  ghost predicate DifferInOneByte(s: seq<byte>, t: seq<byte>) {
    |s| == |t| && exists i :: 0 <= i < |s| && s[i] != t[i] && t == s[i := t[i]]
  }

  lemma OneByteChangesFnv(h: u64, s: seq<byte>, t: seq<byte>)
    requires DifferInOneByte(s, t)
    ensures Fnv(h, s) != Fnv(h, t)
  {
    hide Round, Fnv;
    var i :| 0 <= i < |s| && s[i] != t[i] && t == s[i := t[i]];
    var front, back := s[..i], s[i + 1..];
    assert s[i := s[i]] == s;
    Around(s, i, s[i]);
    Around(s, i, t[i]);
    FnvAppend(h, front, [s[i]] + back);
    FnvAppend(h, front, [t[i]] + back);
    FirstRound(Fnv(h, front), s[i], back);
    FirstRound(Fnv(h, front), t[i], back);
    RoundInjective(h, Fnv(h, front), s[i], t[i]);
    FnvInjective(Round(Fnv(h, front), s[i]), Round(Fnv(h, front), t[i]), back);
  }

  lemma Around(s: seq<byte>, i: nat, b: byte)
    requires i < |s|
    ensures s[i := b] == s[..i] + ([b] + s[i + 1..])
  {
    assert s[i := b] == s[..i] + [b] + s[i + 1..];
  }

  lemma FirstRound(h: u64, b: byte, s: seq<byte>)
    ensures Fnv(h, [b] + s) == Fnv(Round(h, b), s)
  {
    assert ([b] + s)[1..] == s;
  }

  /** The key of one pair is FNV-1a of its bytes, with 0xff between attribute key and value; that of no pair is zero. */
  lemma KeyOfPair(p: Pair)
    ensures Key([]) == 0 && Key([p]) == Fnv(FNV_OFFSET, p.0 + [0xff] + p.1)
  {
    hide Fnv;
    assert [p][..0] == [] && HashSum([p]) == HashSum([p][..0]) + PairHash(p);
  }

  lemma KeyIsHash(a: Attrs)
    ensures Key(a) == HashSum(a) % TWO_64
  {
  }

  /** The key of a list is the sum of those of its parts, modulo 2^64. */
  lemma KeyIsSum(a: Attrs, b: Attrs)
    ensures Key(a + b) == (Key(a) + Key(b)) % TWO_64
  {
    hide HashSum, Key;
    HashSumAppend(a, b);
    AddModulo(HashSum(a), HashSum(b));
    KeyIsHash(a);
    KeyIsHash(b);
    KeyIsHash(a + b);
  }

  lemma AddModulo(x: nat, y: nat)
    ensures (x + y) % TWO_64 == (x % TWO_64 + y % TWO_64) % TWO_64
  {
  }

  /** Exchanging one pair of a list changes its hash exactly if the hash of the pair changes. */
  lemma ExchangedPair(a: Attrs, p: Pair, q: Pair, b: Attrs)
    ensures Key(a + [p] + b) == Key(a + [q] + b) <==> PairHash(p) == PairHash(q)
  {
    hide PairHash;
    HashSumMiddle(a, p, b);
    HashSumMiddle(a, q, b);
  }

  /** Lists that differ in one byte of one pair have different keys. */
  lemma OneByteChangesKey(a: Attrs, p: Pair, q: Pair, b: Attrs)
    requires DifferInOneByte(Stream(p), Stream(q))
    ensures Key(a + [p] + b) != Key(a + [q] + b)
  {
    OneByteChangesFnv(FNV_OFFSET, Stream(p), Stream(q));
    ExchangedPair(a, p, q, b);
  }

  // --- Data points ---

  /** Two updates leave two points exactly if their keys differ; equal keys share the first one's point. */
  lemma TwoUpdates<V, X, E>(limit: nat, init: V, step: (V, X) -> V, u: Update<X, E>, v: Update<X, E>)
    requires limit >= 2
    ensures var m, k, l := After(ByHash(limit, init, step), [Upd(u), Upd(v)]), Key(u.attrs), Key(v.attrs);
      && m.Keys == {k, l} && m[k].attrs == Owned(u.attrs)
      && if k == l then |m| == 1 && m[k].value == step(step(init, u.value), v.value)
         else
           && |m| == 2 && m[k] == Point(Owned(u.attrs), step(init, u.value), u.exemplar)
           && m[l] == Point(Owned(v.attrs), step(init, v.value), v.exemplar)
  {
    hide Owned, Key;
    var ins := ByHash(limit, init, step);
    AfterSnoc(ins, [], Upd(u));
    AfterSnoc(ins, [Upd(u)], Upd(v));
    assert [Upd(u)] + [Upd(v)] == [Upd(u), Upd(v)] && [] + [Upd(u)] == [Upd(u)];
    assert After(ins, [Upd(u)]) == map[Key(u.attrs) := Point(Owned(u.attrs), step(init, u.value), u.exemplar)];
  }

  lemma FirstAdd(x: u64)
    ensures AddStep(0, x) == ToI64(x) && x % TWO_64 == x
  {
    WrapAdd(0, x);
  }

  /** Adds whose attributes differ in one byte of one pair are counted in two points, each with its own value. */
  lemma OneByteMakesTwoPoints<E>(limit: nat, a: Attrs, p: Pair, q: Pair, b: Attrs, x: u64, y: u64, e: Option<E>,
        f: Option<E>)
    requires limit >= 2 && DifferInOneByte(Stream(p), Stream(q))
    ensures var u, v := Update(a + [p] + b, x, e), Update(a + [q] + b, y, f);
      var m := After(CounterOf(limit), [Upd(u), Upd(v)]);
      && |m| == 2 && Key(u.attrs) in m && Key(v.attrs) in m
      && m[Key(u.attrs)] == Point(Owned(u.attrs), ToI64(x), e)
      && m[Key(v.attrs)] == Point(Owned(v.attrs), ToI64(y), f)
  {
    hide Owned, Key, DifferInOneByte, Stream, After, AddStep;
    OneByteChangesKey(a, p, q, b);
    TwoUpdates(limit, 0, AddStep, Update(a + [p] + b, x, e), Update(a + [q] + b, y, f));
    FirstAdd(x);
    FirstAdd(y);
  }

  /** The same attributes in another order share one point, which holds the sum. */
  lemma AnyOrderMakesOnePoint<E>(limit: nat, a: Attrs, b: Attrs, x: u64, y: u64, e: Option<E>, f: Option<E>)
    requires limit >= 2 && multiset(a) == multiset(b)
    ensures var m := After(CounterOf(limit), [Upd(Update(a, x, e)), Upd(Update(b, y, f))]);
      |m| == 1 && Key(a) in m && m[Key(a)].value == ToI64((x + y) % TWO_64)
  {
    hide Owned, Key, After, AddStep;
    KeyIgnoresOrder(a, b);
    TwoUpdates(limit, 0, AddStep, Update(a, x, e), Update(b, y, f));
    FirstAdd(x);
    WrapAdd(x, y);
  }
}

/**
 The wire format against its published definition: the digits of varints and fixed-width
 integers, and the example messages of the Protocol Buffers encoding guide.
 */
module WireVectors {
  import opened Bytes
  import opened Wire

  // --- Digits ---

  lemma {:induction false} PowPositive(b: nat, k: nat)
    requires b >= 1
    ensures Pow(b, k) >= 1
  {
    if k == 0 {
    } else {
      PowPositive(b, k - 1);
    }
  }

  /** Dividing by one factor after the other. */
  lemma DivideTwice(v: nat, b: nat, p: nat)
    requires b >= 1 && p >= 1
    ensures b * p >= 1 && v / (b * p) == v / b / p
  {
    var m := v / b;
    Assembled(v, b, m, v % b, p, m / p, m % p);
    Quotient(v, b * p, m / p, b * (m % p) + v % b);
  }

  lemma Assembled(v: nat, b: nat, m: nat, s: nat, p: nat, q: nat, r: nat)
    requires v == b * m + s && s < b && m == p * q + r && r < p
    ensures v == (b * p) * q + (b * r + s) && b * r + s < b * p
  {
    assert b * m == b * (p * q) + b * r == (b * p) * q + b * r;
    Monotone(b, r, p - 1);
    assert b * (p - 1) == b * p - b;
  }

  lemma Monotone(d: nat, a: int, b: int)
    ensures a <= b ==> d * a <= d * b
  {
  }

  lemma Quotient(v: nat, d: nat, q: nat, r: nat)
    requires v == d * q + r && r < d
    ensures v / d == q
  {
    Monotone(d, v / d + 1, q);
    Monotone(d, q + 1, v / d);
  }

  /** Digit `i` of `v` in base `b`, least significant first. */
  function Digit(v: nat, b: nat, i: nat): nat
    requires b >= 1
  {
    PowPositive(b, i);
    v / Pow(b, i) % b
  }

  lemma DigitNext(v: nat, b: nat, i: nat)
    requires b >= 1
    ensures Digit(v, b, i + 1) == Digit(v / b, b, i) && Digit(v, b, 0) == v % b
  {
    PowPositive(b, i);
    DivideTwice(v, b, Pow(b, i));
  }

  /** Byte `i` of a varint is digit `i` in base 128, marked on every byte but the last. */
  lemma {:induction false} VarintDigits(v: nat, i: nat)
    requires i < |Varint(v)|
    ensures Varint(v)[i] == Digit(v, 128, i) + if i < |Varint(v)| - 1 then 128 else 0
  {
    DigitNext(v, 128, if i == 0 then 0 else i - 1);
    if i > 0 {
      VarintDigits(v / 128, i - 1);
    }
  }

  /** Byte `i` of a fixed-width integer is digit `i` in base 256. */
  lemma {:induction false} LeDigits(v: nat, n: nat, i: nat)
    requires i < n
    ensures Le(v, n)[i] == Digit(v, 256, i)
  {
    DigitNext(v, 256, if i == 0 then 0 else i - 1);
    if i > 0 {
      LeDigits(v / 256, n - 1, i - 1);
    }
  }

  /** Signed words are two's complement: the signed value is the one in range that agrees modulo 2^64. */
  lemma SignedWords(u: u64, v: i64)
    ensures v == ToI64(u) <==> (u - v) % 0x1_0000_0000_0000_0000 == 0
    ensures u == ToU64(v) <==> v == ToI64(u)
    ensures -9_223_372_036_854_775_808 <= v <= 9_223_372_036_854_775_807
  {
  }

  // --- The example messages ---

  lemma EmitOne(f: Field)
    ensures Emit([f]) == EmitField(f)
  {
    assert [f][1..] == [];
  }

  /** Field 1 with the integer 150. */
  lemma IntegerExample()
    ensures Emit([VarintField(1, 150, false)]) == [0x08, 0x96, 0x01]
  {
    EmitOne(VarintField(1, 150, false));
    assert Varint(150) == [0x96] + Varint(1);
  }

  /** Field 2 with the string "testing". */
  lemma StringExample()
    ensures Emit([BytesField(2, [0x74, 0x65, 0x73, 0x74, 0x69, 0x6e, 0x67])])
         == [0x12, 0x07, 0x74, 0x65, 0x73, 0x74, 0x69, 0x6e, 0x67]
  {
    EmitOne(BytesField(2, [0x74, 0x65, 0x73, 0x74, 0x69, 0x6e, 0x67]));
  }

  /** Field 3 with the message of the first example. */
  lemma NestedExample()
    ensures Emit([MessageField(3, [VarintField(1, 150, false)])]) == [0x1a, 0x03, 0x08, 0x96, 0x01]
  {
    IntegerExample();
    EmitOne(MessageField(3, [VarintField(1, 150, false)]));
  }

  lemma {:induction false} LeOfZero(n: nat)
    ensures forall i | 0 <= i < n :: Le(0, n)[i] == 0
  {
    if n == 0 {
    } else {
      LeOfZero(n - 1);
    }
  }

  lemma LeNext(v: nat, n: nat)
    ensures Le(v, n + 1) == [v % 256] + Le(v / 256, n)
  {
  }

  lemma Le64Example()
    ensures Le64(0x0102) == [2, 1, 0, 0, 0, 0, 0, 0]
  {
    hide Le;
    LeOfZero(6);
    LeNext(0x0102, 7);
    LeNext(1, 6);
    assert |Le(0, 6)| == 6 && Le64(0x0102) == [2] + ([1] + Le(0, 6));
  }

  /** Field 7 as a fixed-width integer: wire type 1, least significant byte first. */
  lemma FixedExample()
    ensures Emit([Fixed64Field(7, 0x0102, false)]) == [0x39, 2, 1, 0, 0, 0, 0, 0, 0]
  {
    hide Le64, Emit;
    EmitOne(Fixed64Field(7, 0x0102, false));
    Le64Example();
    assert EmitRecord(7, Fix(0x0102)) == [0x39] + Le64(0x0102);
  }
}

/**
 The protobuf wire format as a specification: base-128 varints, records, message
 trees with the proto3 rule that default values are left out, and a strict
 schema-driven parser. The writer in ProtoWriter is proved against `Emit`.
 */
module Wire {
  import opened Bytes

  // --- Varints ---

  /** Base 128, least significant group first, bit 7 set on every byte but the last. */
  function Varint(v: nat): (r: seq<byte>)
    ensures |r| >= 1
  {
    if v < 128 then [v] else [v % 128 + 128] + Varint(v / 128)
  }

  /** Reads a varint of at most `limit` bytes: its value and how many bytes it took. */
  function Unvarint(s: seq<byte>, limit: nat): (r: Option<(nat, nat)>)
    ensures r.Some? ==> 1 <= r.value.1 <= |s|
  {
    if s == [] || limit == 0 then None
    else if s[0] < 128 then Some((s[0], 1))
    else
      var (v, n) :- Unvarint(s[1..], limit - 1);
      Some((s[0] - 128 + 128 * v, n + 1))
  }

  /** Exactly the values below 128^k fit in k bytes. */
  lemma {:induction false} VarintLength(v: nat, k: nat)
    requires k >= 1
    ensures |Varint(v)| <= k <==> v < Pow(128, k)
  {
    if k == 1 {
      assert Pow(128, 1) == 128 * Pow(128, 0) == 128;
    } else if v < 128 {
      assert Pow(128, k - 1) >= 1 by { PowPositive(128, k - 1); }
    } else {
      VarintLength(v / 128, k - 1);
    }
  }

  lemma {:induction false} PowPositive(b: nat, k: nat)
    requires b >= 1
    ensures Pow(b, k) >= 1
  {
    if k == 0 {
    } else {
      PowPositive(b, k - 1);
    }
  }

  lemma Pow128()
    ensures Pow(128, 5) == TWO_35 && Pow(128, 10) == TWO_35 * TWO_35
  {
    assert Pow(128, 2) == 0x4000;
    assert Pow(128, 4) == 0x1000_0000;
    assert Pow(128, 5) == TWO_35;
    assert Pow(128, 7) == 128 * 128 * TWO_35;
    assert Pow(128, 9) == 0x1000_0000 * TWO_35;
  }

  /** Five bytes hold a length exactly when it is below 2^35; every u64 takes at most ten. */
  lemma VarintLimits(v: nat)
    ensures |Varint(v)| <= 5 <==> v < TWO_35
    ensures v < TWO_64 ==> |Varint(v)| <= 10
  {
    Pow128();
    VarintLength(v, 5);
    VarintLength(v, 10);
  }

  /** A varint followed by anything reads back as the value and its own length. */
  lemma {:induction false} VarintRoundTrip(v: nat, t: seq<byte>, limit: nat)
    requires |Varint(v)| <= limit
    ensures Unvarint(Varint(v) + t, limit) == Some((v, |Varint(v)|))
  {
    if v >= 128 {
      VarintRoundTrip(v / 128, t, limit - 1);
      assert (Varint(v) + t)[1..] == Varint(v / 128) + t;
    }
  }

  /** No byte string for a value is shorter than `Varint`, and none other is as short. */
  lemma {:induction false} VarintShortest(w: seq<byte>, limit: nat, v: nat)
    requires Unvarint(w, limit) == Some((v, |w|))
    ensures |Varint(v)| <= |w|
    ensures |Varint(v)| == |w| ==> w == Varint(v)
  {
    if w[0] >= 128 {
      var v' := Unvarint(w[1..], limit - 1).value.0;
      VarintShortest(w[1..], limit - 1, v');
      assert v / 128 == v' && v % 128 + 128 == w[0];
      assert w == [w[0]] + w[1..];
    }
  }

  lemma {:induction false} UnvarintPrefix(s: seq<byte>, t: seq<byte>, limit: nat)
    requires Unvarint(s, limit).Some?
    ensures Unvarint(s + t, limit) == Unvarint(s, limit)
  {
    if s[0] >= 128 {
      assert (s + t)[1..] == s[1..] + t;
      UnvarintPrefix(s[1..], t, limit - 1);
    }
  }

  // --- Records ---

  /** What follows a tag: wire type 0, 1 or 2. */
  datatype Payload = Num(v: u64) | Fix(v: u64) | Len(data: seq<byte>) {
    function WireType(): nat {
      match this
      case Num(_) => 0
      case Fix(_) => 1
      case Len(_) => 2
    }

    function Size(): nat {
      if Len? then |data| else 0
    }
  }

  function Tag(num: u32, wireType: nat): seq<byte>
    requires wireType < 8
  {
    Varint(num * 8 + wireType)
  }

  function EmitPayload(p: Payload): seq<byte> {
    match p
    case Num(v) => Varint(v)
    case Fix(v) => Le64(v)
    case Len(data) => Varint(|data|) + data
  }

  function EmitRecord(num: u32, p: Payload): (r: seq<byte>)
    ensures |r| >= 2 && |r| > p.Size()
  {
    Tag(num, p.WireType()) + EmitPayload(p)
  }

  function ReadVarint(s: seq<byte>): (r: Option<(u64, seq<byte>)>)
    ensures r.Some? ==> |r.value.1| < |s|
  {
    var (v, n) :- Unvarint(s, 10);
    if v < TWO_64 then Some((v, s[n..])) else None
  }

  function ReadPayload(wireType: nat, s: seq<byte>): (r: Option<(Payload, seq<byte>)>)
    ensures r.Some? ==> |r.value.1| + r.value.0.Size() <= |s|
  {
    if wireType == 0 then
      var (v, rest) :- ReadVarint(s);
      Some((Num(v), rest))
    else if wireType == 1 then
      if |s| < 8 then None else Some((Fix(FromLe64(s[..8])), s[8..]))
    else if wireType == 2 then
      var (len, rest) :- ReadVarint(s);
      if |rest| < len then None else Some((Len(rest[..len]), rest[len..]))
    else
      None
  }

  /** One record: field number, payload, and the bytes after it. */
  function ReadRecord(s: seq<byte>): (r: Option<(u64, Payload, seq<byte>)>)
    ensures r.Some? ==> |r.value.2| + r.value.1.Size() < |s|
  {
    var (tag, s1) :- ReadVarint(s);
    var (p, s2) :- ReadPayload(tag % 8, s1);
    Some((tag / 8, p, s2))
  }

  lemma ReadVarintRoundTrip(v: u64, t: seq<byte>)
    ensures ReadVarint(Varint(v) + t) == Some((v, t))
  {
    VarintLimits(v);
    VarintRoundTrip(v, t, 10);
    assert (Varint(v) + t)[|Varint(v)|..] == t;
  }

  lemma ReadVarintPrefix(s: seq<byte>, t: seq<byte>)
    requires ReadVarint(s).Some?
    ensures ReadVarint(s + t) == Some((ReadVarint(s).value.0, ReadVarint(s).value.1 + t))
  {
    UnvarintPrefix(s, t, 10);
    var (v, n) := Unvarint(s, 10).value;
    assert (s + t)[n..] == s[n..] + t;
  }

  lemma ReadPayloadRoundTrip(p: Payload, t: seq<byte>)
    requires p.Size() < TWO_64
    ensures ReadPayload(p.WireType(), EmitPayload(p) + t) == Some((p, t))
  {
    match p
    case Num(v) => ReadVarintRoundTrip(v, t);
    case Fix(v) =>
      Le64RoundTrip(v);
      assert (Le64(v) + t)[..8] == Le64(v) && (Le64(v) + t)[8..] == t;
    case Len(data) =>
      Assoc3(Varint(|data|), data, t);
      ReadVarintRoundTrip(|data|, data + t);
      assert (data + t)[..|data|] == data && (data + t)[|data|..] == t;
  }

  lemma ReadRecordRoundTrip(num: u32, p: Payload, t: seq<byte>)
    requires p.Size() < TWO_64
    ensures ReadRecord(EmitRecord(num, p) + t) == Some((num, p, t))
  {
    var w, body := p.WireType(), EmitPayload(p);
    Assoc3(Tag(num, w), body, t);
    ReadVarintRoundTrip(num * 8 + w, body + t);
    assert (num * 8 + w) / 8 == num && (num * 8 + w) % 8 == w;
    ReadPayloadRoundTrip(p, t);
  }

  lemma ReadPayloadPrefix(wireType: nat, s: seq<byte>, t: seq<byte>)
    requires ReadPayload(wireType, s).Some?
    ensures var r := ReadPayload(wireType, s).value; ReadPayload(wireType, s + t) == Some((r.0, r.1 + t))
  {
    if wireType == 1 {
      assert (s + t)[..8] == s[..8] && (s + t)[8..] == s[8..] + t;
    } else {
      ReadVarintPrefix(s, t);
      if wireType == 2 {
        var (len, rest) := ReadVarint(s).value;
        assert (rest + t)[..len] == rest[..len] && (rest + t)[len..] == rest[len..] + t;
      }
    }
  }

  lemma ReadRecordPrefix(s: seq<byte>, t: seq<byte>)
    requires ReadRecord(s).Some?
    ensures var r := ReadRecord(s).value; ReadRecord(s + t) == Some((r.0, r.1, r.2 + t))
  {
    ReadVarintPrefix(s, t);
    var (tag, s1) := ReadVarint(s).value;
    ReadPayloadPrefix(tag % 8, s1, t);
  }

  // --- Message trees ---

  /**
   One field as handed to the writer. `always` marks the calls that write a zero
   value; every other zero, empty string, empty list and empty message is left out.
   */
  datatype Field =
    | VarintField(num: u32, v: u64, always: bool)
    | Fixed64Field(num: u32, v: u64, always: bool)
    | BytesField(num: u32, data: seq<byte>)
    | PackedField(num: u32, vs: seq<u64>)
    | MessageField(num: u32, body: seq<Field>)

  function EmitLe64s(vs: seq<u64>): (r: seq<byte>)
    ensures |r| == 8 * |vs|
  {
    if vs == [] then [] else Le64(vs[0]) + EmitLe64s(vs[1..])
  }

  /** The record a field turns into, if it is written at all. */
  function PayloadOf(f: Field): Option<Payload>
    decreases f, 0
  {
    match f
    case VarintField(_, v, always) => if v == 0 && !always then None else Some(Num(v))
    case Fixed64Field(_, v, always) => if v == 0 && !always then None else Some(Fix(v))
    case BytesField(_, data) => if data == [] then None else Some(Len(data))
    case PackedField(_, vs) => if vs == [] then None else Some(Len(EmitLe64s(vs)))
    case MessageField(_, body) => if Emit(body) == [] then None else Some(Len(Emit(body)))
  }

  function EmitField(f: Field): seq<byte>
    decreases f, 1
  {
    match PayloadOf(f)
    case None => []
    case Some(p) => EmitRecord(f.num, p)
  }

  /** The bytes of a message body. */
  function Emit(fs: seq<Field>): seq<byte>
    decreases fs, 2
  {
    if fs == [] then [] else EmitField(fs[0]) + Emit(fs[1..])
  }

  /** A field as a reader sees it: nothing where the writer leaves it out. */
  function NormField(f: Field): (r: seq<Field>)
    ensures |r| <= 1 && (|r| == 1 ==> r[0].num == f.num)
    decreases f, 0
  {
    match f
    case VarintField(n, v, always) => if v == 0 && !always then [] else [VarintField(n, v, true)]
    case Fixed64Field(n, v, always) => if v == 0 && !always then [] else [Fixed64Field(n, v, true)]
    case BytesField(_, data) => if data == [] then [] else [f]
    case PackedField(_, vs) => if vs == [] then [] else [f]
    case MessageField(n, body) => if Norm(body) == [] then [] else [MessageField(n, Norm(body))]
  }

  /** A message without the values proto3 leaves out, at every depth. */
  function Norm(fs: seq<Field>): seq<Field>
    decreases fs, 1
  {
    if fs == [] then [] else NormField(fs[0]) + Norm(fs[1..])
  }

  lemma EmitSingle(f: Field)
    ensures Emit([f]) == EmitField(f)
  {
    assert [f][1..] == [];
    assert Emit([f]) == EmitField(f) + Emit([]);
  }

  lemma NormSingle(f: Field)
    ensures Norm([f]) == NormField(f)
  {
    assert [f][1..] == [];
    assert Norm([f]) == NormField(f) + Norm([]);
  }

  lemma {:induction false} EmitAppend(a: seq<Field>, b: seq<Field>)
    ensures Emit(a + b) == Emit(a) + Emit(b)
  {
    if a == [] {
      assert a + b == b;
    } else {
      assert (a + b)[0] == a[0] && (a + b)[1..] == a[1..] + b;
      EmitAppend(a[1..], b);
      Assoc3(EmitField(a[0]), Emit(a[1..]), Emit(b));
    }
  }

  lemma EmitSnoc(a: seq<Field>, f: Field)
    ensures Emit(a + [f]) == Emit(a) + EmitField(f)
  {
    EmitAppend(a, [f]);
    EmitSingle(f);
  }

  lemma {:induction false} NormAppend(a: seq<Field>, b: seq<Field>)
    ensures Norm(a + b) == Norm(a) + Norm(b)
  {
    if a == [] {
      assert a + b == b;
    } else {
      assert (a + b)[0] == a[0] && (a + b)[1..] == a[1..] + b;
      NormAppend(a[1..], b);
      Assoc3(NormField(a[0]), Norm(a[1..]), Norm(b));
    }
  }

  lemma NormPair(f: Field, g: Field)
    ensures Norm([f, g]) == NormField(f) + NormField(g)
  {
    assert [f, g] == [f] + [g];
    NormAppend([f], [g]);
    NormSingle(f);
    NormSingle(g);
  }

  /** Writing one more field of a message; each field is no longer than the whole. */
  lemma EmitStep(fs: seq<Field>, i: nat)
    requires i < |fs|
    ensures Emit(fs[..i + 1]) == Emit(fs[..i]) + EmitField(fs[i])
    ensures |EmitField(fs[i])| <= |Emit(fs)|
    ensures fs[i].MessageField? ==> |Emit(fs[i].body)| <= |Emit(fs)|
    ensures fs[i].BytesField? ==> |fs[i].data| <= |Emit(fs)|
    ensures fs[i].PackedField? ==> 8 * |fs[i].vs| <= |Emit(fs)|
  {
    assert fs[..i + 1] == fs[..i] + [fs[i]];
    EmitSnoc(fs[..i], fs[i]);
    assert fs == fs[..i + 1] + fs[i + 1..];
    EmitAppend(fs[..i + 1], fs[i + 1..]);
  }

  /** Nothing is written exactly when nothing remains after normalisation. */
  lemma {:induction false} FieldEmptyTogether(f: Field)
    ensures EmitField(f) == [] <==> NormField(f) == []
    decreases f, 0
  {
    if f.MessageField? {
      EmptyTogether(f.body);
    }
  }

  lemma {:induction false} EmptyTogether(fs: seq<Field>)
    ensures Emit(fs) == [] <==> Norm(fs) == []
    decreases fs, 1
  {
    if fs == [] {
    } else {
      FieldEmptyTogether(fs[0]);
      EmptyTogether(fs[1..]);
      assert |Emit(fs)| == |EmitField(fs[0])| + |Emit(fs[1..])|;
      assert |Norm(fs)| == |NormField(fs[0])| + |Norm(fs[1..])|;
    }
  }

  /** Normalising drops nothing that was written: the bytes do not change. */
  lemma {:induction false} NormFieldKeepsBytes(f: Field)
    ensures Emit(NormField(f)) == EmitField(f)
    decreases f, 0
  {
    FieldEmptyTogether(f);
    if NormField(f) != [] {
      EmitSingle(NormField(f)[0]);
      assert NormField(f) == [NormField(f)[0]];
      if f.MessageField? {
        NormKeepsBytes(f.body);
      }
    }
  }

  lemma {:induction false} NormKeepsBytes(fs: seq<Field>)
    ensures Emit(Norm(fs)) == Emit(fs)
    decreases fs, 1
  {
    if fs == [] {
    } else {
      NormFieldKeepsBytes(fs[0]);
      NormKeepsBytes(fs[1..]);
      EmitAppend(NormField(fs[0]), Norm(fs[1..]));
    }
  }

  // --- Schema-driven parsing ---

  /** The type of a field; a message type maps its field numbers to kinds. */
  datatype Kind = KVarint | KFixed64 | KBytes | KPacked | KMessage(sub: map<u32, Kind>)

  type Schema = map<u32, Kind>

  function ReadLe64s(s: seq<byte>): seq<u64>
    requires |s| % 8 == 0
  {
    if s == [] then [] else [FromLe64(s[..8])] + ReadLe64s(s[8..])
  }

  /** A record read as the kind its schema gives; a wrong wire type is an error. */
  function Interpret(sch: Schema, num: u64, p: Payload): (r: Option<Field>)
    decreases p.Size(), 1
  {
    if num !in sch then None
    else
      match (sch[num], p)
      case (KVarint, Num(v)) => Some(VarintField(num, v, true))
      case (KFixed64, Fix(v)) => Some(Fixed64Field(num, v, true))
      case (KBytes, Len(data)) => Some(BytesField(num, data))
      case (KPacked, Len(data)) => if |data| % 8 == 0 then Some(PackedField(num, ReadLe64s(data))) else None
      case (KMessage(sub), Len(data)) =>
        var body :- Parse(sub, data);
        Some(MessageField(num, body))
      case _ => None
  }

  /** Reads a whole message; unknown field numbers and leftover bytes are errors. */
  function Parse(sch: Schema, s: seq<byte>): Option<seq<Field>>
    decreases |s|, 0
  {
    if s == [] then Some([])
    else
      var (num, p, rest) :- ReadRecord(s);
      var f :- Interpret(sch, num, p);
      var fs :- Parse(sch, rest);
      Some([f] + fs)
  }

  /** Every field, at every depth, has the kind the schema gives its number. */
  ghost predicate FieldConforms(f: Field, sch: Schema)
    decreases f, 0
  {
    f.num in sch &&
    match sch[f.num]
    case KVarint => f.VarintField?
    case KFixed64 => f.Fixed64Field?
    case KBytes => f.BytesField?
    case KPacked => f.PackedField?
    case KMessage(sub) => f.MessageField? && Conforms(f.body, sub)
  }

  ghost predicate Conforms(fs: seq<Field>, sch: Schema)
    decreases fs, 1
  {
    forall i | 0 <= i < |fs| :: FieldConforms(fs[i], sch)
  }

  lemma SingleConforms(f: Field, sch: Schema)
    requires FieldConforms(f, sch)
    ensures Conforms([f], sch)
  {
  }

  lemma PairConforms(fs: seq<Field>, sch: Schema)
    requires |fs| == 2 && FieldConforms(fs[0], sch) && FieldConforms(fs[1], sch)
    ensures Conforms(fs, sch)
  {
  }

  lemma ConformsAppend(a: seq<Field>, b: seq<Field>, sch: Schema)
    requires Conforms(a, sch) && Conforms(b, sch)
    ensures Conforms(a + b, sch)
  {
  }

  lemma {:induction false} Le64sRoundTrip(vs: seq<u64>)
    ensures ReadLe64s(EmitLe64s(vs)) == vs
  {
    if vs == [] {
    } else {
      Le64RoundTrip(vs[0]);
      Le64sRoundTrip(vs[1..]);
      assert EmitLe64s(vs)[..8] == Le64(vs[0]) && EmitLe64s(vs)[8..] == EmitLe64s(vs[1..]);
    }
  }

  /** Parsing distributes over concatenation, the protobuf rule for merging messages. */
  lemma {:induction false} ParseAppend(sch: Schema, a: seq<byte>, b: seq<byte>)
    requires Parse(sch, a).Some?
    ensures Parse(sch, b).None? ==> Parse(sch, a + b).None?
    ensures Parse(sch, b).Some? ==> Parse(sch, a + b) == Some(Parse(sch, a).value + Parse(sch, b).value)
    decreases |a|
  {
    if a == [] {
      assert a + b == b;
      assert Parse(sch, b).Some? ==> [] + Parse(sch, b).value == Parse(sch, b).value;
    } else {
      ReadRecordPrefix(a, b);
      var (num, p, rest) := ReadRecord(a).value;
      ParseAppend(sch, rest, b);
      var f := Interpret(sch, num, p).value;
      ParseStep(sch, a, num, p, rest, f);
      ParseStep(sch, a + b, num, p, rest + b, f);
      if Parse(sch, b).Some? {
        assert [f] + (Parse(sch, rest).value + Parse(sch, b).value)
          == [f] + Parse(sch, rest).value + Parse(sch, b).value;
      }
    }
  }

  lemma ParseStep(sch: Schema, s: seq<byte>, num: u64, p: Payload, rest: seq<byte>, f: Field)
    requires ReadRecord(s) == Some((num, p, rest)) && Interpret(sch, num, p) == Some(f)
    ensures Parse(sch, s) == if Parse(sch, rest).None? then None else Some([f] + Parse(sch, rest).value)
  {
    assert s != [];
  }

  /** The record of a written field is interpreted as the field's normal form. */
  lemma {:induction false} InterpretRoundTrip(sch: Schema, f: Field)
    requires FieldConforms(f, sch) && |EmitField(f)| < TWO_64 && NormField(f) != []
    ensures PayloadOf(f).Some?
    ensures Interpret(sch, f.num, PayloadOf(f).value) == Some(NormField(f)[0])
    decreases f, 0
  {
    FieldEmptyTogether(f);
    match f {
      case PackedField(_, vs) => Le64sRoundTrip(vs);
      case MessageField(_, body) => MessageRoundTrip(sch[f.num].sub, body);
      case _ =>
    }
  }

  /** One field reads back as its normal form. */
  lemma {:induction false} FieldRoundTrip(sch: Schema, f: Field)
    requires FieldConforms(f, sch) && |EmitField(f)| < TWO_64
    ensures Parse(sch, EmitField(f)) == Some(NormField(f))
    decreases f, 1
  {
    FieldEmptyTogether(f);
    if NormField(f) != [] {
      InterpretRoundTrip(sch, f);
      var p := PayloadOf(f).value;
      ReadRecordRoundTrip(f.num, p, []);
      assert EmitField(f) + [] == EmitField(f);
      ParseStep(sch, EmitField(f), f.num, p, [], NormField(f)[0]);
      assert [NormField(f)[0]] + [] == NormField(f);
    }
  }

  /**
   The wire round trip: a message tree of any shape reads back as itself without
   the values proto3 leaves out, and every byte is consumed.
   */
  lemma {:induction false} MessageRoundTrip(sch: Schema, fs: seq<Field>)
    requires Conforms(fs, sch) && |Emit(fs)| < TWO_64
    ensures Parse(sch, Emit(fs)) == Some(Norm(fs))
    decreases fs, 2
  {
    if fs == [] {
    } else {
      assert FieldConforms(fs[0], sch);
      assert forall i | 0 <= i < |fs[1..]| :: fs[1..][i] == fs[i + 1];
      FieldRoundTrip(sch, fs[0]);
      MessageRoundTrip(sch, fs[1..]);
      ParseAppend(sch, EmitField(fs[0]), Emit(fs[1..]));
    }
  }

  /** Two messages of one schema have the same bytes exactly when they normalise alike. */
  lemma EmitInjective(sch: Schema, a: seq<Field>, b: seq<Field>)
    requires Conforms(a, sch) && Conforms(b, sch)
    requires |Emit(a)| < TWO_64 && |Emit(b)| < TWO_64
    ensures Emit(a) == Emit(b) <==> Norm(a) == Norm(b)
  {
    MessageRoundTrip(sch, a);
    MessageRoundTrip(sch, b);
    NormKeepsBytes(a);
    NormKeepsBytes(b);
  }
}

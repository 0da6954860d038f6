/**
 The OTLP messages shared by the three signals: attribute values, attributes, the
 resource, the scope, and the envelope around the items of one request.
 */
module OtlpCommon {
  import opened Bytes
  import opened Wire
  import opened WireReader
  import opened ProtoWriter

  /** Strings are their UTF-8 bytes and doubles their 64-bit patterns. */
  datatype AnyValue =
    | StringValue(s: seq<byte>)
    | IntValue(i: i64)
    | BoolValue(b: bool)
    | DoubleValue(bits: u64)
    | BytesValue(data: seq<byte>)

  datatype KeyValue = KeyValue(key: seq<byte>, value: AnyValue)

  /** An attribute as decoded: the value is absent when its message was empty. */
  datatype DecodedKeyValue = DecodedKeyValue(key: seq<byte>, value: Option<AnyValue>)

  // --- What is written ---

  function AnyValueFields(v: AnyValue): seq<Field> {
    match v
    case StringValue(s) => [BytesField(1, s)]
    case BoolValue(b) => [VarintField(2, if b then 1 else 0, true)]
    case IntValue(i) => [VarintField(3, ToU64(i), true)]
    case DoubleValue(bits) => [Fixed64Field(4, bits, true)]
    case BytesValue(data) => [BytesField(7, data)]
  }

  function KeyValueFields(kv: KeyValue): seq<Field> {
    [BytesField(1, kv.key), MessageField(2, AnyValueFields(kv.value))]
  }

  function ResourceFields(attrs: seq<KeyValue>): seq<Field> {
    Rep(1, attrs, KeyValueFields)
  }

  function ScopeFields(name: seq<byte>, version: seq<byte>): seq<Field> {
    [BytesField(1, name), BytesField(2, version)]
  }

  function ScopeGroupFields<T>(name: seq<byte>, version: seq<byte>, items: seq<T>, f: T -> seq<Field>): seq<Field> {
    [MessageField(1, ScopeFields(name, version))] + Rep(2, items, f)
  }

  function EnvelopeFields<T>(attrs: seq<KeyValue>, name: seq<byte>, version: seq<byte>, items: seq<T>,
        f: T -> seq<Field>): seq<Field> {
    [MessageField(1, ResourceFields(attrs)), MessageField(2, ScopeGroupFields(name, version, items, f))]
  }

  /** A whole export request: one envelope in field 1. */
  function RequestFields<T>(attrs: seq<KeyValue>, name: seq<byte>, version: seq<byte>, items: seq<T>,
        f: T -> seq<Field>): seq<Field> {
    [MessageField(1, EnvelopeFields(attrs, name, version, items, f))]
  }

  lemma RequestBytes<T>(attrs: seq<KeyValue>, name: seq<byte>, version: seq<byte>, items: seq<T>, f: T -> seq<Field>)
    ensures var body := Emit(EnvelopeFields(attrs, name, version, items, f));
      && Emit(RequestFields(attrs, name, version, items, f)) == [] + Framed(1, body)
      && (|body| < TWO_35 ==> |Emit(RequestFields(attrs, name, version, items, f))| < TWO_64)
  {
    EmitSingle(RequestFields(attrs, name, version, items, f)[0]);
    assert Tag(1, 2) == [10];
    VarintLimits(|Emit(EnvelopeFields(attrs, name, version, items, f))|);
  }

  /** A boolean is one byte, zero or one. */
  lemma BooleanBytes(b: bool)
    ensures Emit(AnyValueFields(BoolValue(b))) == [0x10, if b then 1 else 0]
  {
    EmitSingle(AnyValueFields(BoolValue(b))[0]);
    assert Tag(2, 0) == [0x10];
  }

  // --- The encoders ---

  method EncodeAnyValue(buf: ByteBuffer, v: AnyValue)
    requires |Emit(AnyValueFields(v))| < TWO_35
    modifies buf
    ensures buf.bytes == old(buf.bytes) + Emit(AnyValueFields(v))
  {
    Step(buf.bytes, AnyValueFields(v), 0);
    Ends(buf.bytes, AnyValueFields(v));
    match v
    case StringValue(s) => buf.EncodeBytesField(1, s);
    case BoolValue(b) => buf.EncodeVarintFieldAlways(2, if b then 1 else 0);
    case IntValue(i) => buf.EncodeVarintFieldAlways(3, ToU64(i));
    case DoubleValue(bits) => buf.EncodeFixed64FieldAlways(4, bits);
    case BytesValue(data) => buf.EncodeBytesField(7, data);
  }

  method EncodeKeyValue(buf: ByteBuffer, kv: KeyValue)
    requires |Emit(KeyValueFields(kv))| < TWO_35
    modifies buf
    ensures buf.bytes == old(buf.bytes) + Emit(KeyValueFields(kv))
  {
    ghost var before, fs := buf.bytes, KeyValueFields(kv);
    Ends(before, fs);
    Step(before, fs, 0);
    buf.EncodeBytesField(1, kv.key);
    Step(before, fs, 1);
    var m := buf.OpenMessage(2);
    EncodeAnyValue(buf, kv.value);
    buf.CloseMessage(2, m, before + Emit(fs[..1]), Emit(AnyValueFields(kv.value)));
  }

  /** The attribute loop of a resource, a span or a log record. */
  method EncodeAttributes(buf: ByteBuffer, field: u32, attrs: seq<KeyValue>)
    requires |Emit(Rep(field, attrs, KeyValueFields))| < TWO_35
    modifies buf
    ensures buf.bytes == old(buf.bytes) + Emit(Rep(field, attrs, KeyValueFields))
  {
    ghost var before, fs := buf.bytes, Rep(field, attrs, KeyValueFields);
    Ends(before, fs);
    for i := 0 to |attrs|
      invariant buf.bytes == before + Emit(fs[..i])
    {
      Step(before, fs, i);
      var m := buf.OpenMessage(field);
      EncodeKeyValue(buf, attrs[i]);
      buf.CloseMessage(field, m, before + Emit(fs[..i]), Emit(KeyValueFields(attrs[i])));
    }
  }

  method EncodeResource(buf: ByteBuffer, attrs: seq<KeyValue>)
    requires |Emit(ResourceFields(attrs))| < TWO_35
    modifies buf
    ensures buf.bytes == old(buf.bytes) + Emit(ResourceFields(attrs))
  {
    EncodeAttributes(buf, 1, attrs);
  }

  method EncodeScope(buf: ByteBuffer, name: seq<byte>, version: seq<byte>)
    requires |Emit(ScopeFields(name, version))| < TWO_35
    modifies buf
    ensures buf.bytes == old(buf.bytes) + Emit(ScopeFields(name, version))
  {
    ghost var before, fs := buf.bytes, ScopeFields(name, version);
    Ends(before, fs);
    Step(before, fs, 0);
    buf.EncodeBytesField(1, name);
    Step(before, fs, 1);
    buf.EncodeBytesField(2, version);
  }

  // --- What a reader makes of it ---

  const ANY_VALUE_SCHEMA: Schema := map[1 := KBytes, 2 := KVarint, 3 := KVarint, 4 := KFixed64, 7 := KBytes]
  const KEY_VALUE_SCHEMA: Schema := map[1 := KBytes, 2 := KMessage(ANY_VALUE_SCHEMA)]
  const RESOURCE_SCHEMA: Schema := map[1 := KMessage(KEY_VALUE_SCHEMA)]
  const SCOPE_SCHEMA: Schema := map[1 := KBytes, 2 := KBytes]

  function RequestSchema(item: Schema): Schema {
    map[1 := KMessage(EnvelopeSchema(item))]
  }

  function EnvelopeSchema(item: Schema): Schema {
    map[1 := KMessage(RESOURCE_SCHEMA), 2 := KMessage(ScopeGroupSchema(item))]
  }

  function ScopeGroupSchema(item: Schema): Schema {
    map[1 := KMessage(SCOPE_SCHEMA), 2 := KMessage(item)]
  }

  /** The oneof of an attribute value: the last member present wins. */
  function ReadAnyValue(fs: seq<Field>): Option<AnyValue> {
    var p := Pick(fs, {1, 2, 3, 4, 7});
    if p == [] then None
    else
      match p[|p| - 1]
      case BytesField(n, data) => Some(if n == 1 then StringValue(data) else BytesValue(data))
      case VarintField(n, v, _) => Some(if n == 2 then BoolValue(v != 0) else IntValue(ToI64(v)))
      case Fixed64Field(_, v, _) => Some(DoubleValue(v))
      case _ => None
  }

  function ReadKeyValue(fs: seq<Field>): DecodedKeyValue {
    DecodedKeyValue(LastBytes(fs, 1), ReadAnyValue(Merged(fs, 2)))
  }

  /** A scope group as decoded; the scope is absent when its message was empty. */
  datatype ScopeGroup<D> = ScopeGroup(scope: Option<(seq<byte>, seq<byte>)>, items: seq<D>)

  /** One resource entry of a request as decoded. */
  datatype Envelope<D> = Envelope(resource: Option<seq<DecodedKeyValue>>, groups: seq<ScopeGroup<D>>)

  function ReadScopeGroup<D>(fs: seq<Field>, read: seq<Field> -> D): ScopeGroup<D> {
    var s := Merged(fs, 1);
    ScopeGroup(if Bodies(fs, 1) == [] then None else Some((LastBytes(s, 1), LastBytes(s, 2))),
               Map(Bodies(fs, 2), read))
  }

  function ReadScopeGroups<D>(bodies: seq<seq<Field>>, read: seq<Field> -> D): seq<ScopeGroup<D>> {
    if bodies == [] then [] else [ReadScopeGroup(bodies[0], read)] + ReadScopeGroups(bodies[1..], read)
  }

  function ReadEnvelope<D>(fs: seq<Field>, read: seq<Field> -> D): Envelope<D> {
    Envelope(if Bodies(fs, 1) == [] then None else Some(Map(Bodies(Merged(fs, 1), 1), ReadKeyValue)),
             ReadScopeGroups(Bodies(fs, 2), read))
  }

  function ReadEnvelopes<D>(bodies: seq<seq<Field>>, read: seq<Field> -> D): seq<Envelope<D>> {
    if bodies == [] then [] else [ReadEnvelope(bodies[0], read)] + ReadEnvelopes(bodies[1..], read)
  }

  /** Decodes a request: the entries of its repeated field 1, in order. */
  function DecodeRequest<D>(item: Schema, read: seq<Field> -> D, s: seq<byte>): Option<seq<Envelope<D>>> {
    var fs :- Parse(RequestSchema(item), s);
    Some(ReadEnvelopes(Bodies(fs, 1), read))
  }

  // --- What survives encoding and decoding ---

  /** An empty string or byte string leaves no value behind. */
  function NormAnyValue(v: AnyValue): Option<AnyValue> {
    if v == StringValue([]) || v == BytesValue([]) then None else Some(v)
  }

  /** An attribute with an empty key and an empty value vanishes. */
  function NormKeyValue(kv: KeyValue): Option<DecodedKeyValue> {
    if kv.key == [] && NormAnyValue(kv.value).None? then None
    else Some(DecodedKeyValue(kv.key, NormAnyValue(kv.value)))
  }

  function NormScopeGroup<T, D>(name: seq<byte>, version: seq<byte>, items: seq<T>,
        norm: T -> Option<D>): Option<ScopeGroup<D>> {
    var scope := if name == [] && version == [] then None else Some((name, version));
    if scope.None? && Somes(items, norm) == [] then None
    else Some(ScopeGroup(scope, Somes(items, norm)))
  }

  /** A request keeps everything but an empty scope, an empty resource, and what `norm` drops. */
  function NormRequest<T, D>(attrs: seq<KeyValue>, name: seq<byte>, version: seq<byte>, items: seq<T>,
        norm: T -> Option<D>): seq<Envelope<D>> {
    var kvs := Somes(attrs, NormKeyValue);
    var group := NormScopeGroup(name, version, items, norm);
    if kvs == [] && group.None? then []
    else [Envelope(if kvs == [] then None else Some(kvs), if group.None? then [] else [group.value])]
  }

  lemma AnyValueReads(v: AnyValue)
    ensures Norm(AnyValueFields(v)) == [] <==> NormAnyValue(v).None?
    ensures ReadAnyValue(Norm(AnyValueFields(v))) == NormAnyValue(v)
    ensures Conforms(AnyValueFields(v), ANY_VALUE_SCHEMA)
  {
    var fs := AnyValueFields(v);
    NormSingle(fs[0]);
    PickOnly(fs, {1, 2, 3, 4, 7}, 0);
  }

  lemma KeyValueParts(kv: KeyValue)
    ensures var b := Norm(KeyValueFields(kv));
      && LastBytes(b, 1) == kv.key && Merged(b, 2) == Norm(AnyValueFields(kv.value))
      && (b == [] <==> kv.key == [] && Norm(AnyValueFields(kv.value)) == [])
  {
    var fs := KeyValueFields(kv);
    ScalarAt(fs, 0);
    MessageAt(fs, 1);
    NormPair(fs[0], fs[1]);
  }

  lemma KeyValueConforms(kv: KeyValue)
    ensures Conforms(KeyValueFields(kv), KEY_VALUE_SCHEMA)
  {
    hide AnyValueFields, Conforms;
    AnyValueReads(kv.value);
    var fs := KeyValueFields(kv);
    assert FieldConforms(fs[0], KEY_VALUE_SCHEMA) && FieldConforms(fs[1], KEY_VALUE_SCHEMA);
    PairConforms(fs, KEY_VALUE_SCHEMA);
  }

  lemma KeyValueReads(kv: KeyValue)
    ensures ReadsAs(kv, KeyValueFields, ReadKeyValue, NormKeyValue)
    ensures Conforms(KeyValueFields(kv), KEY_VALUE_SCHEMA)
  {
    hide Norm, LastBytes, Merged, ReadAnyValue, NormAnyValue, AnyValueFields, KeyValueFields, Conforms;
    KeyValueConforms(kv);
    AnyValueReads(kv.value);
    KeyValueParts(kv);
  }

  lemma ResourceReads(attrs: seq<KeyValue>)
    ensures Norm(ResourceFields(attrs)) == [] <==> Somes(attrs, NormKeyValue) == []
    ensures Map(Bodies(Norm(ResourceFields(attrs)), 1), ReadKeyValue) == Somes(attrs, NormKeyValue)
    ensures Conforms(ResourceFields(attrs), RESOURCE_SCHEMA)
  {
    forall kv | kv in attrs
      ensures ReadsAs(kv, KeyValueFields, ReadKeyValue, NormKeyValue) && Conforms(KeyValueFields(kv), KEY_VALUE_SCHEMA)
    {
      KeyValueReads(kv);
    }
    RepRoundTrip(1, attrs, KeyValueFields, ReadKeyValue, NormKeyValue);
    RepeatedAt(ResourceFields(attrs), 1, 0, attrs, KeyValueFields, ReadKeyValue, NormKeyValue);
    RepConforms(1, attrs, KeyValueFields, RESOURCE_SCHEMA, KEY_VALUE_SCHEMA);
  }

  lemma ScopeReads(name: seq<byte>, version: seq<byte>)
    ensures var b := Norm(ScopeFields(name, version));
      && (b == [] <==> name == [] && version == [])
      && LastBytes(b, 1) == name && LastBytes(b, 2) == version
    ensures Conforms(ScopeFields(name, version), SCOPE_SCHEMA)
  {
    var fs := ScopeFields(name, version);
    ScalarAt(fs, 0);
    ScalarAt(fs, 1);
    NormPair(fs[0], fs[1]);
  }

  /** What is known of the items of a request, whatever the signal. */
  ghost predicate ItemsRead<T, D>(items: seq<T>, f: T -> seq<Field>, read: seq<Field> -> D, norm: T -> Option<D>,
        item: Schema) {
    forall x | x in items :: ReadsAs(x, f, read, norm) && Conforms(f(x), item)
  }

  lemma ScopeGroupConforms<T>(name: seq<byte>, version: seq<byte>, items: seq<T>, f: T -> seq<Field>, item: Schema)
    requires forall x | x in items :: Conforms(f(x), item)
    ensures Conforms(ScopeGroupFields(name, version, items, f), ScopeGroupSchema(item))
  {
    ScopeReads(name, version);
    RepConforms(2, items, f, ScopeGroupSchema(item), item);
  }

  lemma RequestConforms<T>(attrs: seq<KeyValue>, name: seq<byte>, version: seq<byte>, items: seq<T>,
        f: T -> seq<Field>, item: Schema)
    requires forall x | x in items :: Conforms(f(x), item)
    ensures Conforms(RequestFields(attrs, name, version, items, f), RequestSchema(item))
  {
    ResourceReads(attrs);
    ScopeGroupConforms(name, version, items, f, item);
    var fs := EnvelopeFields(attrs, name, version, items, f);
    assert FieldConforms(fs[0], EnvelopeSchema(item)) && FieldConforms(fs[1], EnvelopeSchema(item));
    assert Conforms(fs, EnvelopeSchema(item));
    assert FieldConforms(MessageField(1, fs), RequestSchema(item));
  }

  lemma ScopeGroupItems<T, D>(name: seq<byte>, version: seq<byte>, items: seq<T>, f: T -> seq<Field>,
        read: seq<Field> -> D, norm: T -> Option<D>, item: Schema)
    requires ItemsRead(items, f, read, norm, item)
    ensures Map(Bodies(Norm(ScopeGroupFields(name, version, items, f)), 2), read) == Somes(items, norm)
    ensures Norm(Rep(2, items, f)) == [] <==> Somes(items, norm) == []
  {
    var fs := ScopeGroupFields(name, version, items, f);
    assert fs[1..1 + |items|] == Rep(2, items, f);
    RepRoundTrip(2, items, f, read, norm);
    RepeatedAt(fs, 2, 1, items, f, read, norm);
  }

  lemma ScopeGroupFromParts<D>(b: seq<Field>, scope: seq<Field>, name: seq<byte>, version: seq<byte>,
        items: seq<D>, read: seq<Field> -> D)
    requires Bodies(b, 1) == (if scope == [] then [] else [scope]) && Merged(b, 1) == scope
    requires scope == [] <==> name == [] && version == []
    requires LastBytes(scope, 1) == name && LastBytes(scope, 2) == version
    requires Map(Bodies(b, 2), read) == items
    ensures ReadScopeGroup(b, read)
      == ScopeGroup(if name == [] && version == [] then None else Some((name, version)), items)
  {
  }

  lemma ScopeGroupEmpty<T, D>(name: seq<byte>, version: seq<byte>, items: seq<T>, f: T -> seq<Field>,
        read: seq<Field> -> D, norm: T -> Option<D>, item: Schema)
    requires ItemsRead(items, f, read, norm, item)
    ensures Norm(ScopeGroupFields(name, version, items, f)) == [] <==> NormScopeGroup(name, version, items, norm).None?
  {
    var scope := MessageField(1, ScopeFields(name, version));
    ScopeReads(name, version);
    ScopeGroupItems(name, version, items, f, read, norm, item);
    NormAppend([scope], Rep(2, items, f));
    NormSingle(scope);
  }

  lemma ScopeGroupReads<T, D>(name: seq<byte>, version: seq<byte>, items: seq<T>, f: T -> seq<Field>,
        read: seq<Field> -> D, norm: T -> Option<D>, item: Schema)
    requires ItemsRead(items, f, read, norm, item)
    ensures var b, group := Norm(ScopeGroupFields(name, version, items, f)), NormScopeGroup(name, version, items, norm);
      && (b == [] <==> group.None?)
      && (group.Some? ==> ReadScopeGroup(b, read) == group.value)
  {
    var fs := ScopeGroupFields(name, version, items, f);
    ScopeReads(name, version);
    MessageAt(fs, 0);
    ScopeGroupItems(name, version, items, f, read, norm, item);
    ScopeGroupEmpty(name, version, items, f, read, norm, item);
    ScopeGroupFromParts(Norm(fs), Norm(ScopeFields(name, version)), name, version, Somes(items, norm), read);
  }

  lemma EnvelopeReads<T, D>(attrs: seq<KeyValue>, name: seq<byte>, version: seq<byte>, items: seq<T>,
        f: T -> seq<Field>, read: seq<Field> -> D, norm: T -> Option<D>, item: Schema)
    requires ItemsRead(items, f, read, norm, item)
    ensures var b, n := Norm(EnvelopeFields(attrs, name, version, items, f)),
      NormRequest(attrs, name, version, items, norm);
      if b == [] then n == [] else n == [ReadEnvelope(b, read)]
  {
    var fs := EnvelopeFields(attrs, name, version, items, f);
    ResourceReads(attrs);
    ScopeGroupReads(name, version, items, f, read, norm, item);
    MessageAt(fs, 0);
    MessageAt(fs, 1);
    NormPair(fs[0], fs[1]);
    OneGroup(Norm(fs[1].body), read);
  }

  lemma OneGroup<D>(b: seq<Field>, read: seq<Field> -> D)
    ensures ReadScopeGroups([b], read) == [ReadScopeGroup(b, read)]
    ensures ReadEnvelopes([b], read) == [ReadEnvelope(b, read)]
  {
    assert [b][1..] == [];
    assert ReadScopeGroups([b], read) == [ReadScopeGroup(b, read)] + ReadScopeGroups([], read);
    assert ReadEnvelopes([b], read) == [ReadEnvelope(b, read)] + ReadEnvelopes([], read);
  }

  /** The round trip of a whole request, for any kind of item that round-trips. */
  lemma RequestRoundTrip<T, D>(attrs: seq<KeyValue>, name: seq<byte>, version: seq<byte>, items: seq<T>,
        f: T -> seq<Field>, read: seq<Field> -> D, norm: T -> Option<D>, item: Schema)
    requires ItemsRead(items, f, read, norm, item)
    requires |Emit(RequestFields(attrs, name, version, items, f))| < TWO_64
    ensures DecodeRequest(item, read, Emit(RequestFields(attrs, name, version, items, f)))
         == Some(NormRequest(attrs, name, version, items, norm))
  {
    var fs := RequestFields(attrs, name, version, items, f);
    RequestConforms(attrs, name, version, items, f, item);
    MessageRoundTrip(RequestSchema(item), fs);
    EnvelopeReads(attrs, name, version, items, f, read, norm, item);
    MessageAt(fs, 0);
    OneGroup(Norm(fs[0].body), read);
  }

  lemma {:induction false} BodiesAppend(a: seq<Field>, b: seq<Field>)
    ensures BodiesOf(a + b) == BodiesOf(a) + BodiesOf(b)
  {
    if a == [] {
      assert a + b == b;
    } else {
      assert (a + b)[0] == a[0] && (a + b)[1..] == a[1..] + b;
      BodiesAppend(a[1..], b);
      Assoc3(if a[0].MessageField? then [a[0].body] else [], BodiesOf(a[1..]), BodiesOf(b));
    }
  }

  lemma {:induction false} ReadEnvelopesAppend<D>(a: seq<seq<Field>>, b: seq<seq<Field>>, read: seq<Field> -> D)
    ensures ReadEnvelopes(a + b, read) == ReadEnvelopes(a, read) + ReadEnvelopes(b, read)
  {
    if a == [] {
      assert a + b == b;
    } else {
      assert (a + b)[0] == a[0] && (a + b)[1..] == a[1..] + b;
      ReadEnvelopesAppend(a[1..], b, read);
      Assoc3([ReadEnvelope(a[0], read)], ReadEnvelopes(a[1..], read), ReadEnvelopes(b, read));
    }
  }

  /** Concatenated requests decode to the entries of the first, then those of the second. */
  lemma DecodeAppend<D>(item: Schema, read: seq<Field> -> D, a: seq<byte>, b: seq<byte>)
    requires DecodeRequest(item, read, a).Some? && DecodeRequest(item, read, b).Some?
    ensures DecodeRequest(item, read, a + b)
      == Some(DecodeRequest(item, read, a).value + DecodeRequest(item, read, b).value)
  {
    ParseAppend(RequestSchema(item), a, b);
    var fs, gs := Parse(RequestSchema(item), a).value, Parse(RequestSchema(item), b).value;
    PickAppend(fs, gs, {1});
    BodiesAppend(Pick(fs, {1}), Pick(gs, {1}));
    ReadEnvelopesAppend(Bodies(fs, 1), Bodies(gs, 1), read);
  }

  function DecodeAll<D>(item: Schema, read: seq<Field> -> D, ss: seq<seq<byte>>): Option<seq<Envelope<D>>> {
    if ss == [] then Some([])
    else
      var first :- DecodeRequest(item, read, ss[0]);
      var rest :- DecodeAll(item, read, ss[1..]);
      Some(first + rest)
  }

  /** A payload joined from requests decodes to the entries of the requests, in order. */
  lemma {:induction false} DecodeConcat<D>(item: Schema, read: seq<Field> -> D, ss: seq<seq<byte>>)
    requires DecodeAll(item, read, ss).Some?
    ensures DecodeRequest(item, read, Concat(ss)) == DecodeAll(item, read, ss)
  {
    if ss == [] {
    } else {
      DecodeConcat(item, read, ss[1..]);
      DecodeAppend(item, read, ss[0], Concat(ss[1..]));
    }
  }
}

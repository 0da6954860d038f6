/** The trace signal: spans, their encoder, and the round trip of a trace request. */
module OtlpTrace {
  import opened Bytes
  import opened Wire
  import opened WireReader
  import opened ProtoWriter
  import opened OtlpCommon

  datatype SpanKind = Unspecified | Internal | Server | Client | Producer | Consumer {
    function Code(): u64 {
      match this
      case Unspecified => 0
      case Internal => 1
      case Server => 2
      case Client => 3
      case Producer => 4
      case Consumer => 5
    }
  }

  datatype StatusCode = Unset | Ok | Error {
    function Code(): u64 {
      match this
      case Unset => 0
      case Ok => 1
      case Error => 2
    }
  }

  datatype SpanStatus = SpanStatus(message: seq<byte>, code: StatusCode)

  type TraceId = s: seq<byte> | |s| == 16 witness seq(16, _ => 0)
  type SpanId = s: seq<byte> | |s| == 8 witness seq(8, _ => 0)

  datatype SpanData = SpanData(
    traceId: TraceId, spanId: SpanId, parentSpanId: SpanId, name: seq<byte>, kind: SpanKind,
    startTime: u64, endTime: u64, attributes: seq<KeyValue>, status: Option<SpanStatus>)

  datatype DecodedSpan = DecodedSpan(
    traceId: seq<byte>, spanId: seq<byte>, parentSpanId: seq<byte>, name: seq<byte>, kind: SpanKind,
    startTime: u64, endTime: u64, attributes: seq<DecodedKeyValue>, status: Option<SpanStatus>)

  function StatusFields(s: SpanStatus): seq<Field> {
    [BytesField(2, s.message), VarintField(3, s.code.Code(), false)]
  }

  function SpanIdentity(s: SpanData): seq<Field> {
    [BytesField(1, s.traceId), BytesField(2, s.spanId), BytesField(4, s.parentSpanId), BytesField(5, s.name)]
  }

  function SpanTiming(s: SpanData): seq<Field> {
    [VarintField(6, s.kind.Code(), false), Fixed64Field(7, s.startTime, false), Fixed64Field(8, s.endTime, false)]
  }

  function SpanHead(s: SpanData): seq<Field> {
    SpanIdentity(s) + SpanTiming(s)
  }

  function SpanTail(s: SpanData): seq<Field> {
    match s.status
    case None => []
    case Some(status) => [MessageField(15, StatusFields(status))]
  }

  function SpanFields(s: SpanData): seq<Field> {
    SpanHead(s) + Rep(9, s.attributes, KeyValueFields) + SpanTail(s)
  }

  method EncodeStatus(buf: ByteBuffer, status: SpanStatus)
    requires |Emit(StatusFields(status))| < TWO_35
    modifies buf
    ensures buf.bytes == old(buf.bytes) + Emit(StatusFields(status))
  {
    hide Emit, EmitField;
    ghost var before, fs := buf.bytes, StatusFields(status);
    Ends(before, fs);
    Step(before, fs, 0);
    buf.EncodeBytesField(2, status.message);
    Step(before, fs, 1);
    buf.EncodeVarintField(3, status.code.Code());
  }

  method EncodeSpan(buf: ByteBuffer, span: SpanData)
    requires |Emit(SpanFields(span))| < TWO_35
    modifies buf
    ensures buf.bytes == old(buf.bytes) + Emit(SpanFields(span))
  {
    Parts(buf.bytes, SpanHead(span), Rep(9, span.attributes, KeyValueFields), SpanTail(span));
    EncodeSpanHead(buf, span);
    EncodeAttributes(buf, 9, span.attributes);
    ghost var before, tail := buf.bytes, SpanTail(span);
    Ends(before, tail);
    if span.status.Some? {
      Step(before, tail, 0);
      var m := buf.OpenMessage(15);
      EncodeStatus(buf, span.status.value);
      buf.CloseMessage(15, m, before, Emit(StatusFields(span.status.value)));
    }
  }

  method EncodeSpanHead(buf: ByteBuffer, span: SpanData)
    requires |Emit(SpanHead(span))| < TWO_35
    modifies buf
    ensures buf.bytes == old(buf.bytes) + Emit(SpanHead(span))
  {
    Halves(buf.bytes, SpanIdentity(span), SpanTiming(span));
    EncodeSpanIdentity(buf, span);
    EncodeSpanTiming(buf, span);
  }

  method EncodeSpanIdentity(buf: ByteBuffer, span: SpanData)
    requires |Emit(SpanIdentity(span))| < TWO_35
    modifies buf
    ensures buf.bytes == old(buf.bytes) + Emit(SpanIdentity(span))
  {
    ghost var before, fs := buf.bytes, SpanIdentity(span);
    Ends(before, fs);
    Step(before, fs, 0);
    buf.EncodeBytesField(1, span.traceId);
    Step(before, fs, 1);
    buf.EncodeBytesField(2, span.spanId);
    Step(before, fs, 2);
    buf.EncodeBytesField(4, span.parentSpanId);
    Step(before, fs, 3);
    buf.EncodeBytesField(5, span.name);
  }

  method EncodeSpanTiming(buf: ByteBuffer, span: SpanData)
    requires |Emit(SpanTiming(span))| < TWO_35
    modifies buf
    ensures buf.bytes == old(buf.bytes) + Emit(SpanTiming(span))
  {
    ghost var before, fs := buf.bytes, SpanTiming(span);
    Ends(before, fs);
    Step(before, fs, 0);
    buf.EncodeVarintField(6, span.kind.Code());
    Step(before, fs, 1);
    buf.EncodeFixed64Field(7, span.startTime);
    Step(before, fs, 2);
    buf.EncodeFixed64Field(8, span.endTime);
  }

  const STATUS_SCHEMA: Schema := map[2 := KBytes, 3 := KVarint]
  const SPAN_SCHEMA: Schema := map[
    1 := KBytes, 2 := KBytes, 4 := KBytes, 5 := KBytes, 6 := KVarint, 7 := KFixed64, 8 := KFixed64,
    9 := KMessage(KEY_VALUE_SCHEMA), 15 := KMessage(STATUS_SCHEMA)]

  function ReadKind(n: u64): SpanKind {
    if n == 1 then Internal else if n == 2 then Server else if n == 3 then Client
    else if n == 4 then Producer else if n == 5 then Consumer else Unspecified
  }

  function ReadStatusCode(n: u64): StatusCode {
    if n == 1 then Ok else if n == 2 then Error else Unset
  }

  /** The codes of kinds and statuses are those of the protocol, which are consecutive from zero. */
  lemma CodesAreNumbered(kind: SpanKind, code: StatusCode)
    ensures ReadKind(kind.Code()) == kind && kind.Code() <= 5
    ensures ReadStatusCode(code.Code()) == code && code.Code() <= 2
  {
    match kind {
      case Unspecified =>
      case Internal =>
      case Server =>
      case Client =>
      case Producer =>
      case Consumer =>
    }
    match code {
      case Unset =>
      case Ok =>
      case Error =>
    }
  }

  function ReadStatus(fs: seq<Field>): SpanStatus {
    SpanStatus(LastBytes(fs, 2), ReadStatusCode(LastVarint(fs, 3)))
  }

  function ReadSpan(fs: seq<Field>): DecodedSpan {
    DecodedSpan(
      LastBytes(fs, 1), LastBytes(fs, 2), LastBytes(fs, 4), LastBytes(fs, 5), ReadKind(LastVarint(fs, 6)),
      LastFixed64(fs, 7), LastFixed64(fs, 8), Map(Bodies(fs, 9), ReadKeyValue),
      if Bodies(fs, 15) == [] then None else Some(ReadStatus(Merged(fs, 15))))
  }

  /** A status with no message and code Unset is no status. */
  function NormStatus(s: Option<SpanStatus>): Option<SpanStatus> {
    if s == Some(SpanStatus([], Unset)) then None else s
  }

  function NormSpan(s: SpanData): Option<DecodedSpan> {
    Some(DecodedSpan(
      s.traceId, s.spanId, s.parentSpanId, s.name, s.kind,
      s.startTime, s.endTime, Somes(s.attributes, NormKeyValue), NormStatus(s.status)))
  }

  /** A trace request as a collector decodes it. */
  function DecodeTraceRequest(s: seq<byte>): Option<seq<Envelope<DecodedSpan>>> {
    DecodeRequest(SPAN_SCHEMA, ReadSpan, s)
  }

  lemma StatusReads(s: SpanStatus)
    ensures var b := Norm(StatusFields(s));
      (b == [] <==> s == SpanStatus([], Unset)) && ReadStatus(b) == s
    ensures Conforms(StatusFields(s), STATUS_SCHEMA)
  {
    var fs := StatusFields(s);
    ScalarAt(fs, 0);
    ScalarAt(fs, 1);
    NormPair(fs[0], fs[1]);
  }

  /** The fields of a span, found in a parsed message. */
  ghost predicate HasIdentity(b: seq<Field>, s: SpanData) {
    && LastBytes(b, 1) == s.traceId && LastBytes(b, 2) == s.spanId
    && LastBytes(b, 4) == s.parentSpanId && LastBytes(b, 5) == s.name
  }

  ghost predicate HasTiming(b: seq<Field>, s: SpanData) {
    && LastVarint(b, 6) == s.kind.Code()
    && LastFixed64(b, 7) == s.startTime && LastFixed64(b, 8) == s.endTime
  }

  ghost predicate HasAttributes(b: seq<Field>, s: SpanData) {
    Map(Bodies(b, 9), ReadKeyValue) == Somes(s.attributes, NormKeyValue)
  }

  ghost predicate HasStatus(b: seq<Field>, s: SpanData) {
    (if Bodies(b, 15) == [] then None else Some(ReadStatus(Merged(b, 15)))) == NormStatus(s.status)
  }

  lemma IdentityReads(s: SpanData)
    ensures HasIdentity(Norm(SpanFields(s)), s) && Norm(SpanFields(s)) != []
  {
    var fs := SpanFields(s);
    ScalarAt(fs, 0);
    ScalarAt(fs, 1);
    ScalarAt(fs, 2);
    ScalarAt(fs, 3);
    NeverEmpty(fs, 0);
  }

  lemma TimingReads(s: SpanData)
    ensures HasTiming(Norm(SpanFields(s)), s)
  {
    var fs := SpanFields(s);
    ScalarAt(fs, 4);
    ScalarAt(fs, 5);
    ScalarAt(fs, 6);
  }

  lemma AttributesRead(s: SpanData)
    ensures HasAttributes(Norm(SpanFields(s)), s)
  {
    var fs, n := SpanFields(s), |s.attributes|;
    forall kv | kv in s.attributes ensures ReadsAs(kv, KeyValueFields, ReadKeyValue, NormKeyValue) {
      KeyValueReads(kv);
    }
    assert fs[7..7 + n] == Rep(9, s.attributes, KeyValueFields);
    RepeatedAt(fs, 9, 7, s.attributes, KeyValueFields, ReadKeyValue, NormKeyValue);
  }

  lemma OptionalStatusReads(s: SpanData)
    ensures HasStatus(Norm(SpanFields(s)), s)
  {
    if s.status.Some? {
      MessageAt(SpanFields(s), 7 + |s.attributes|);
      StatusReads(s.status.value);
    } else {
      PickNothing(SpanFields(s), {15});
    }
  }

  lemma SpanFromParts(b: seq<Field>, s: SpanData)
    requires HasIdentity(b, s) && HasTiming(b, s) && HasAttributes(b, s) && HasStatus(b, s)
    ensures NormSpan(s) == Some(ReadSpan(b))
  {
    assert ReadKind(s.kind.Code()) == s.kind;
  }

  lemma SpanReads(s: SpanData)
    ensures ReadsAs(s, SpanFields, ReadSpan, NormSpan)
  {
    IdentityReads(s);
    TimingReads(s);
    AttributesRead(s);
    OptionalStatusReads(s);
    SpanFromParts(Norm(SpanFields(s)), s);
  }

  lemma SpanConforms(s: SpanData)
    ensures Conforms(SpanFields(s), SPAN_SCHEMA)
  {
    forall kv | kv in s.attributes ensures Conforms(KeyValueFields(kv), KEY_VALUE_SCHEMA) {
      KeyValueReads(kv);
    }
    RepConforms(9, s.attributes, KeyValueFields, SPAN_SCHEMA, KEY_VALUE_SCHEMA);
    assert Conforms(SpanHead(s), SPAN_SCHEMA);
    if s.status.Some? {
      StatusReads(s.status.value);
    }
    assert Conforms(SpanTail(s), SPAN_SCHEMA);
  }

  /** A trace request decodes to its input up to the empty values the format cannot carry. */
  lemma TraceRoundTrip(attrs: seq<KeyValue>, name: seq<byte>, version: seq<byte>, spans: seq<SpanData>)
    requires |Emit(RequestFields(attrs, name, version, spans, SpanFields))| < TWO_64
    ensures DecodeTraceRequest(Emit(RequestFields(attrs, name, version, spans, SpanFields)))
         == Some(NormRequest(attrs, name, version, spans, NormSpan))
  {
    forall s | s in spans ensures ReadsAs(s, SpanFields, ReadSpan, NormSpan) && Conforms(SpanFields(s), SPAN_SCHEMA) {
      SpanReads(s);
      SpanConforms(s);
    }
    RequestRoundTrip(attrs, name, version, spans, SpanFields, ReadSpan, NormSpan, SPAN_SCHEMA);
  }

  method EncodeScopeSpans(buf: ByteBuffer, name: seq<byte>, version: seq<byte>, spans: seq<SpanData>)
    requires |Emit(ScopeGroupFields(name, version, spans, SpanFields))| < TWO_35
    modifies buf
    ensures buf.bytes == old(buf.bytes) + Emit(ScopeGroupFields(name, version, spans, SpanFields))
  {
    ghost var before, fs := buf.bytes, ScopeGroupFields(name, version, spans, SpanFields);
    Ends(before, fs);
    Step(before, fs, 0);
    var m := buf.OpenMessage(1);
    EncodeScope(buf, name, version);
    buf.CloseMessage(1, m, before, Emit(ScopeFields(name, version)));
    for i := 0 to |spans|
      invariant buf.bytes == before + Emit(fs[..1 + i])
    {
      Step(before, fs, 1 + i);
      assert fs[1 + i] == MessageField(2, SpanFields(spans[i]));
      var m := buf.OpenMessage(2);
      EncodeSpan(buf, spans[i]);
      buf.CloseMessage(2, m, before + Emit(fs[..1 + i]), Emit(SpanFields(spans[i])));
    }
  }

  method EncodeResourceSpans(buf: ByteBuffer, attrs: seq<KeyValue>, name: seq<byte>, version: seq<byte>,
        spans: seq<SpanData>)
    requires |Emit(EnvelopeFields(attrs, name, version, spans, SpanFields))| < TWO_35
    modifies buf
    ensures buf.bytes == old(buf.bytes) + Emit(EnvelopeFields(attrs, name, version, spans, SpanFields))
  {
    ghost var before, fs := buf.bytes, EnvelopeFields(attrs, name, version, spans, SpanFields);
    Ends(before, fs);
    Step(before, fs, 0);
    var r := buf.OpenMessage(1);
    EncodeResource(buf, attrs);
    buf.CloseMessage(1, r, before, Emit(ResourceFields(attrs)));
    Step(before, fs, 1);
    var g := buf.OpenMessage(2);
    EncodeScopeSpans(buf, name, version, spans);
    buf.CloseMessage(2, g, before + Emit(fs[..1]), Emit(ScopeGroupFields(name, version, spans, SpanFields)));
  }

  /** The export call: its bytes decode to the request it was given. */
  method EncodeExportTraceRequest(attrs: seq<KeyValue>, name: seq<byte>, version: seq<byte>, spans: seq<SpanData>)
    returns (request: seq<byte>)
    requires |Emit(EnvelopeFields(attrs, name, version, spans, SpanFields))| < TWO_35
    ensures request == Emit(RequestFields(attrs, name, version, spans, SpanFields))
    ensures DecodeTraceRequest(request) == Some(NormRequest(attrs, name, version, spans, NormSpan))
  {
    var buf := new ByteBuffer();
    var m := buf.OpenMessage(1);
    EncodeResourceSpans(buf, attrs, name, version, spans);
    buf.CloseMessage(1, m, [], Emit(EnvelopeFields(attrs, name, version, spans, SpanFields)));
    request := buf.bytes;
    RequestBytes(attrs, name, version, spans, SpanFields);
    TraceRoundTrip(attrs, name, version, spans);
  }
}

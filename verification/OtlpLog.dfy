/** The log signal: log records, their encoder, and the round trip of a logs request. */
module OtlpLog {
  import opened Bytes
  import opened Wire
  import opened WireReader
  import opened ProtoWriter
  import opened OtlpCommon
  import opened OtlpTrace

  datatype Severity = Trace | Debug | Info | Warn | Err | Fatal {
    function Code(): u64 {
      match this
      case Trace => 1
      case Debug => 5
      case Info => 9
      case Warn => 13
      case Err => 17
      case Fatal => 21
    }
  }

  datatype LogData = LogData(
    time: u64, severity: Severity, severityText: seq<byte>, body: AnyValue,
    attributes: seq<KeyValue>, traceId: TraceId, spanId: SpanId)

  datatype DecodedLog = DecodedLog(
    time: u64, severity: Option<Severity>, severityText: seq<byte>, body: Option<AnyValue>,
    attributes: seq<DecodedKeyValue>, traceId: seq<byte>, spanId: seq<byte>)

  function LogHead(l: LogData): seq<Field> {
    [Fixed64Field(1, l.time, false), VarintField(2, l.severity.Code(), false),
     BytesField(3, l.severityText), MessageField(5, AnyValueFields(l.body))]
  }

  function LogIds(l: LogData): seq<Field> {
    [BytesField(9, l.traceId), BytesField(10, l.spanId)]
  }

  function LogFields(l: LogData): seq<Field> {
    LogHead(l) + Rep(6, l.attributes, KeyValueFields) + LogIds(l)
  }

  method EncodeLogRecord(buf: ByteBuffer, log: LogData)
    requires |Emit(LogFields(log))| < TWO_35
    modifies buf
    ensures buf.bytes == old(buf.bytes) + Emit(LogFields(log))
  {
    Parts(buf.bytes, LogHead(log), Rep(6, log.attributes, KeyValueFields), LogIds(log));
    EncodeLogHead(buf, log);
    EncodeAttributes(buf, 6, log.attributes);
    ghost var before, fs := buf.bytes, LogIds(log);
    Ends(before, fs);
    Step(before, fs, 0);
    buf.EncodeBytesField(9, log.traceId);
    Step(before, fs, 1);
    buf.EncodeBytesField(10, log.spanId);
  }

  method EncodeLogHead(buf: ByteBuffer, log: LogData)
    requires |Emit(LogHead(log))| < TWO_35
    modifies buf
    ensures buf.bytes == old(buf.bytes) + Emit(LogHead(log))
  {
    ghost var before, fs := buf.bytes, LogHead(log);
    Ends(before, fs);
    Step(before, fs, 0);
    buf.EncodeFixed64Field(1, log.time);
    Step(before, fs, 1);
    buf.EncodeVarintField(2, log.severity.Code());
    Step(before, fs, 2);
    buf.EncodeBytesField(3, log.severityText);
    Step(before, fs, 3);
    var m := buf.OpenMessage(5);
    EncodeAnyValue(buf, log.body);
    buf.CloseMessage(5, m, before + Emit(fs[..3]), Emit(AnyValueFields(log.body)));
  }

  const LOG_SCHEMA: Schema := map[
    1 := KFixed64, 2 := KVarint, 3 := KBytes, 5 := KMessage(ANY_VALUE_SCHEMA),
    6 := KMessage(KEY_VALUE_SCHEMA), 9 := KBytes, 10 := KBytes]

  function ReadSeverity(n: u64): Option<Severity> {
    if n == 1 then Some(Trace) else if n == 5 then Some(Debug) else if n == 9 then Some(Info)
    else if n == 13 then Some(Warn) else if n == 17 then Some(Err) else if n == 21 then Some(Fatal)
    else None
  }

  function ReadLog(fs: seq<Field>): DecodedLog {
    DecodedLog(
      LastFixed64(fs, 1), ReadSeverity(LastVarint(fs, 2)), LastBytes(fs, 3), ReadAnyValue(Merged(fs, 5)),
      Map(Bodies(fs, 6), ReadKeyValue), LastBytes(fs, 9), LastBytes(fs, 10))
  }

  function NormLog(l: LogData): Option<DecodedLog> {
    Some(DecodedLog(
      l.time, Some(l.severity), l.severityText, NormAnyValue(l.body),
      Somes(l.attributes, NormKeyValue), l.traceId, l.spanId))
  }

  /** A logs request as a collector decodes it. */
  function DecodeLogsRequest(s: seq<byte>): Option<seq<Envelope<DecodedLog>>> {
    DecodeRequest(LOG_SCHEMA, ReadLog, s)
  }

  ghost predicate HasHead(b: seq<Field>, l: LogData) {
    && LastFixed64(b, 1) == l.time && LastVarint(b, 2) == l.severity.Code()
    && LastBytes(b, 3) == l.severityText && ReadAnyValue(Merged(b, 5)) == NormAnyValue(l.body)
  }

  ghost predicate HasRest(b: seq<Field>, l: LogData) {
    && Map(Bodies(b, 6), ReadKeyValue) == Somes(l.attributes, NormKeyValue)
    && LastBytes(b, 9) == l.traceId && LastBytes(b, 10) == l.spanId
  }

  lemma HeadReads(l: LogData)
    ensures HasHead(Norm(LogFields(l)), l)
  {
    var fs := LogFields(l);
    ScalarAt(fs, 0);
    ScalarAt(fs, 1);
    ScalarAt(fs, 2);
    MessageAt(fs, 3);
    AnyValueReads(l.body);
  }

  lemma RestReads(l: LogData)
    ensures HasRest(Norm(LogFields(l)), l) && Norm(LogFields(l)) != []
  {
    hide Norm, LastBytes, Bodies, Map, Somes, KeyValueFields, AnyValueFields;
    var fs, n := LogFields(l), |l.attributes|;
    forall kv | kv in l.attributes ensures ReadsAs(kv, KeyValueFields, ReadKeyValue, NormKeyValue) {
      KeyValueReads(kv);
    }
    assert fs[4..4 + n] == Rep(6, l.attributes, KeyValueFields);
    RepeatedAt(fs, 6, 4, l.attributes, KeyValueFields, ReadKeyValue, NormKeyValue);
    ScalarAt(fs, 4 + n);
    ScalarAt(fs, 5 + n);
    NeverEmpty(fs, 4 + n);
  }

  lemma LogFromParts(b: seq<Field>, l: LogData)
    requires HasHead(b, l) && HasRest(b, l)
    ensures NormLog(l) == Some(ReadLog(b))
  {
    assert ReadSeverity(l.severity.Code()) == Some(l.severity);
  }

  lemma LogReads(l: LogData)
    ensures ReadsAs(l, LogFields, ReadLog, NormLog)
  {
    HeadReads(l);
    RestReads(l);
    LogFromParts(Norm(LogFields(l)), l);
  }

  lemma LogHeadConforms(l: LogData)
    ensures Conforms(LogHead(l), LOG_SCHEMA)
  {
    hide AnyValueFields;
    AnyValueReads(l.body);
  }

  lemma LogConforms(l: LogData)
    ensures Conforms(LogFields(l), LOG_SCHEMA)
  {
    forall kv | kv in l.attributes ensures Conforms(KeyValueFields(kv), KEY_VALUE_SCHEMA) {
      KeyValueReads(kv);
    }
    RepConforms(6, l.attributes, KeyValueFields, LOG_SCHEMA, KEY_VALUE_SCHEMA);
    LogHeadConforms(l);
    PairConforms(LogIds(l), LOG_SCHEMA);
    hide Conforms, LogHead, LogIds, KeyValueFields, Rep;
    ConformsAppend(LogHead(l), Rep(6, l.attributes, KeyValueFields), LOG_SCHEMA);
    ConformsAppend(LogHead(l) + Rep(6, l.attributes, KeyValueFields), LogIds(l), LOG_SCHEMA);
  }

  /** A logs request decodes to its input up to the empty values the format cannot carry. */
  lemma LogsRoundTrip(attrs: seq<KeyValue>, name: seq<byte>, version: seq<byte>, logs: seq<LogData>)
    requires |Emit(RequestFields(attrs, name, version, logs, LogFields))| < TWO_64
    ensures DecodeLogsRequest(Emit(RequestFields(attrs, name, version, logs, LogFields)))
         == Some(NormRequest(attrs, name, version, logs, NormLog))
  {
    forall l | l in logs ensures ReadsAs(l, LogFields, ReadLog, NormLog) && Conforms(LogFields(l), LOG_SCHEMA) {
      LogReads(l);
      LogConforms(l);
    }
    RequestRoundTrip(attrs, name, version, logs, LogFields, ReadLog, NormLog, LOG_SCHEMA);
  }

  method EncodeScopeLogs(buf: ByteBuffer, name: seq<byte>, version: seq<byte>, logs: seq<LogData>)
    requires |Emit(ScopeGroupFields(name, version, logs, LogFields))| < TWO_35
    modifies buf
    ensures buf.bytes == old(buf.bytes) + Emit(ScopeGroupFields(name, version, logs, LogFields))
  {
    ghost var before, fs := buf.bytes, ScopeGroupFields(name, version, logs, LogFields);
    Ends(before, fs);
    Step(before, fs, 0);
    var m := buf.OpenMessage(1);
    EncodeScope(buf, name, version);
    buf.CloseMessage(1, m, before, Emit(ScopeFields(name, version)));
    for i := 0 to |logs|
      invariant buf.bytes == before + Emit(fs[..1 + i])
    {
      Step(before, fs, 1 + i);
      assert fs[1 + i] == MessageField(2, LogFields(logs[i]));
      var m := buf.OpenMessage(2);
      EncodeLogRecord(buf, logs[i]);
      buf.CloseMessage(2, m, before + Emit(fs[..1 + i]), Emit(LogFields(logs[i])));
    }
  }

  method EncodeResourceLogs(buf: ByteBuffer, attrs: seq<KeyValue>, name: seq<byte>, version: seq<byte>,
        logs: seq<LogData>)
    requires |Emit(EnvelopeFields(attrs, name, version, logs, LogFields))| < TWO_35
    modifies buf
    ensures buf.bytes == old(buf.bytes) + Emit(EnvelopeFields(attrs, name, version, logs, LogFields))
  {
    ghost var before, fs := buf.bytes, EnvelopeFields(attrs, name, version, logs, LogFields);
    Ends(before, fs);
    Step(before, fs, 0);
    var r := buf.OpenMessage(1);
    EncodeResource(buf, attrs);
    buf.CloseMessage(1, r, before, Emit(ResourceFields(attrs)));
    Step(before, fs, 1);
    var g := buf.OpenMessage(2);
    EncodeScopeLogs(buf, name, version, logs);
    buf.CloseMessage(2, g, before + Emit(fs[..1]), Emit(ScopeGroupFields(name, version, logs, LogFields)));
  }

  /** The export call: its bytes decode to the request it was given. */
  method EncodeExportLogsRequest(attrs: seq<KeyValue>, name: seq<byte>, version: seq<byte>, logs: seq<LogData>)
    returns (request: seq<byte>)
    requires |Emit(EnvelopeFields(attrs, name, version, logs, LogFields))| < TWO_35
    ensures request == Emit(RequestFields(attrs, name, version, logs, LogFields))
    ensures DecodeLogsRequest(request) == Some(NormRequest(attrs, name, version, logs, NormLog))
  {
    var buf := new ByteBuffer();
    var m := buf.OpenMessage(1);
    EncodeResourceLogs(buf, attrs, name, version, logs);
    buf.CloseMessage(1, m, [], Emit(EnvelopeFields(attrs, name, version, logs, LogFields)));
    request := buf.bytes;
    RequestBytes(attrs, name, version, logs, LogFields);
    LogsRoundTrip(attrs, name, version, logs);
  }
}

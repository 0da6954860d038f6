/**
 The protobuf writer: a growable byte buffer that every encoder appends to, and the
 in-place nested message, which reserves five length bytes, lets the body be written
 behind them, and then patches the length and slides the body left.
 */
module ProtoWriter {
  import opened Bytes
  import opened Wire

  const MAX_LEN_BYTES := 5
  const RESERVED: seq<byte> := [0, 0, 0, 0, 0]

  /** A nested message: tag, length and body, or nothing for an empty body. */
  function Framed(field: u32, body: seq<byte>): seq<byte> {
    if body == [] then [] else EmitRecord(field, Len(body))
  }

  /** The bytes of a record, written part by part. */
  lemma RecordParts(before: seq<byte>, field: u32, data: seq<byte>)
    ensures before + Tag(field, 2) + Varint(|data|) + data == before + EmitRecord(field, Len(data))
  {
    Assoc(before, Tag(field, 2), Varint(|data|), data);
  }

  /** Before anything is written, and after everything is. */
  lemma Ends(before: seq<byte>, fs: seq<Field>)
    ensures before + Emit(fs[..0]) == before
    ensures fs[..|fs|] == fs
  {
    assert Emit(fs[..0]) == [];
  }

  /** Writing the next field of a message behind the ones already written. */
  lemma Step(before: seq<byte>, fs: seq<Field>, i: nat)
    requires i < |fs|
    ensures before + Emit(fs[..i + 1]) == before + Emit(fs[..i]) + EmitField(fs[i])
    ensures |EmitField(fs[i])| <= |Emit(fs)|
    ensures fs[i].MessageField? ==> |Emit(fs[i].body)| <= |Emit(fs)|
    ensures fs[i].BytesField? ==> |fs[i].data| <= |Emit(fs)|
    ensures fs[i].PackedField? ==> 8 * |fs[i].vs| <= |Emit(fs)|
  {
    EmitStep(fs, i);
    Assoc3(before, Emit(fs[..i]), EmitField(fs[i]));
  }

  /** A message written as two consecutive groups of fields. */
  lemma Halves(before: seq<byte>, a: seq<Field>, b: seq<Field>)
    ensures before + Emit(a + b) == before + Emit(a) + Emit(b)
    ensures |Emit(a + b)| == |Emit(a)| + |Emit(b)|
  {
    EmitAppend(a, b);
    Assoc3(before, Emit(a), Emit(b));
  }

  /** A message written as three consecutive groups of fields. */
  lemma Parts(before: seq<byte>, a: seq<Field>, b: seq<Field>, c: seq<Field>)
    ensures before + Emit(a + b + c) == before + Emit(a) + Emit(b) + Emit(c)
    ensures |Emit(a + b + c)| == |Emit(a)| + |Emit(b)| + |Emit(c)|
  {
    EmitAppend(a + b, c);
    EmitAppend(a, b);
    Assoc(before, Emit(a), Emit(b), Emit(c));
    Assoc3(Emit(a), Emit(b), Emit(c));
  }

  /**
   The left shift: after the body has been copied down over the unused part of the
   reservation, the length written and the tail cut off, the buffer holds head, length, body.
   */
  lemma ShiftedLeft(head: seq<byte>, gap: seq<byte>, body: seq<byte>, len: seq<byte>, s1: seq<byte>)
    requires |len| < |gap|
    requires var s := head + gap + body;
      s1 == s[..|head| + |len|] + s[|head| + |gap|..|s|] + s[|head| + |len| + |body|..]
    ensures (s1[..|head|] + len + s1[|head| + |len|..])[..|head| + |len| + |body|] == head + len + body
  {
    var s := head + gap + body;
    assert s[..|head| + |len|] == head + gap[..|len|];
    assert s[|head| + |gap|..|s|] == body;
    assert s1[..|head|] == head;
    assert s1[|head| + |len|..] == body + s[|head| + |len| + |body|..];
  }

  lemma Overwritten(head: seq<byte>, gap: seq<byte>, body: seq<byte>, len: seq<byte>)
    requires |len| == |gap|
    ensures var s := head + gap + body; s[..|head|] + len + s[|head| + |len|..] == head + len + body
  {
  }

  /** Writes a varint to a five-byte array and returns how many bytes it took. */
  method EncodeVarintToSlice(out: array<byte>, val: u64) returns (n: nat)
    requires out.Length == MAX_LEN_BYTES && val < TWO_35
    modifies out
    ensures n == |Varint(val)| <= MAX_LEN_BYTES
    ensures out[..n] == Varint(val)
  {
    VarintLimits(val);
    var v: u64 := val;
    var i := 0;
    while v >= 0x80
      invariant i + |Varint(v)| == |Varint(val)|
      invariant out[..i] + Varint(v) == Varint(val)
    {
      out[i] := v % 128 + 0x80;
      v := v / 128;
      i := i + 1;
    }
    out[i] := v;
    n := i + 1;
  }

  /** The number of bytes the tag of a length-delimited field takes. */
  method VarintTagLen(field: u32) returns (n: nat)
    ensures n == |Tag(field, 2)|
  {
    var v := field * 8 + 2;
    n := 1;
    while v >= 0x80
      invariant v >= 0
      invariant n + |Varint(v)| == 1 + |Tag(field, 2)|
    {
      v := v / 128;
      n := n + 1;
    }
  }

  class ByteBuffer {
    var bytes: seq<byte>

    constructor ()
      ensures bytes == []
    {
      bytes := [];
    }

    method Push(b: byte)
      modifies this
      ensures bytes == old(bytes) + [b]
    {
      bytes := bytes + [b];
    }

    method Extend(s: seq<byte>)
      modifies this
      ensures bytes == old(bytes) + s
    {
      bytes := bytes + s;
    }

    method Truncate(n: nat)
      modifies this
      ensures bytes == if n <= |old(bytes)| then old(bytes)[..n] else old(bytes)
    {
      if n <= |bytes| {
        bytes := bytes[..n];
      }
    }

    /** Copies a range over a possibly overlapping one; out-of-range positions are the caller's error. */
    method CopyWithin(from: nat, to: nat, dest: nat)
      requires from <= to <= |bytes| && dest + (to - from) <= |bytes|
      modifies this
      ensures bytes == old(bytes)[..dest] + old(bytes)[from..to] + old(bytes)[dest + (to - from)..]
    {
      bytes := bytes[..dest] + bytes[from..to] + bytes[dest + (to - from)..];
    }

    method Overwrite(start: nat, s: seq<byte>)
      requires start + |s| <= |bytes|
      modifies this
      ensures bytes == old(bytes)[..start] + s + old(bytes)[start + |s|..]
    {
      bytes := bytes[..start] + s + bytes[start + |s|..];
    }

    method EncodeVarint(val: u64)
      modifies this
      ensures bytes == old(bytes) + Varint(val)
    {
      var v: u64 := val;
      while v >= 0x80
        invariant bytes + Varint(v) == old(bytes) + Varint(val)
      {
        Push(v % 128 + 0x80);
        v := v / 128;
      }
      Push(v);
    }

    method EncodeTag(field: u32, wireType: nat)
      requires wireType < 8
      modifies this
      ensures bytes == old(bytes) + Tag(field, wireType)
    {
      EncodeVarint(field * 8 + wireType);
    }

    method EncodeVarintField(field: u32, val: u64)
      modifies this
      ensures bytes == old(bytes) + EmitField(VarintField(field, val, false))
    {
      if val == 0 {
        return;
      }
      Assoc3(bytes, Tag(field, 0), Varint(val));
      EncodeTag(field, 0);
      EncodeVarint(val);
    }

    method EncodeVarintFieldAlways(field: u32, val: u64)
      modifies this
      ensures bytes == old(bytes) + EmitField(VarintField(field, val, true))
    {
      Assoc3(bytes, Tag(field, 0), Varint(val));
      EncodeTag(field, 0);
      EncodeVarint(val);
    }

    method EncodeBytesField(field: u32, data: seq<byte>)
      requires |data| < TWO_64
      modifies this
      ensures bytes == old(bytes) + EmitField(BytesField(field, data))
    {
      if data == [] {
        return;
      }
      EncodeTag(field, 2);
      EncodeVarint(|data|);
      Extend(data);
      RecordParts(old(bytes), field, data);
    }

    method EncodeFixed64Field(field: u32, val: u64)
      modifies this
      ensures bytes == old(bytes) + EmitField(Fixed64Field(field, val, false))
    {
      if val == 0 {
        return;
      }
      Assoc3(bytes, Tag(field, 1), Le64(val));
      EncodeTag(field, 1);
      Extend(Le64(val));
    }

    method EncodeFixed64FieldAlways(field: u32, val: u64)
      modifies this
      ensures bytes == old(bytes) + EmitField(Fixed64Field(field, val, true))
    {
      Assoc3(bytes, Tag(field, 1), Le64(val));
      EncodeTag(field, 1);
      Extend(Le64(val));
    }

    /** Also the packed double field: a double is its 64-bit pattern. */
    method EncodePackedFixed64Field(field: u32, values: seq<u64>)
      requires 8 * |values| < TWO_64
      modifies this
      ensures bytes == old(bytes) + EmitField(PackedField(field, values))
    {
      if values == [] {
        return;
      }
      EncodeTag(field, 2);
      EncodeVarint(|values| * 8);
      ExtendLe64s(values);
      RecordParts(old(bytes), field, EmitLe64s(values));
    }

    method ExtendLe64s(values: seq<u64>)
      modifies this
      ensures bytes == old(bytes) + EmitLe64s(values)
    {
      var i := 0;
      while i < |values|
        invariant i <= |values|
        invariant bytes + EmitLe64s(values[i..]) == old(bytes) + EmitLe64s(values)
      {
        assert values[i..][1..] == values[i + 1..];
        Assoc3(bytes, Le64(values[i]), EmitLe64s(values[i + 1..]));
        Extend(Le64(values[i]));
        i := i + 1;
      }
    }

    /** The allocating nested message: the body already exists as bytes. */
    method EncodeMessageField(field: u32, msg: seq<byte>)
      requires |msg| < TWO_64
      modifies this
      ensures bytes == old(bytes) + Framed(field, msg)
    {
      if msg == [] {
        return;
      }
      EncodeTag(field, 2);
      EncodeVarint(|msg|);
      Extend(msg);
      RecordParts(old(bytes), field, msg);
    }

    /** The in-place nested message up to its closure: the tag and the reserved length bytes. */
    method OpenMessage(field: u32) returns (tagEnd: nat)
      modifies this
      ensures bytes == old(bytes) + Tag(field, 2) + RESERVED
      ensures tagEnd == |old(bytes)| + |Tag(field, 2)|
    {
      EncodeTag(field, 2);
      tagEnd := |bytes|;
      Extend(RESERVED);
    }

    /**
     The in-place nested message after its closure. Whatever stood before the message
     stays, and what is added is what the allocating form adds for the same body.
     */
    method CloseMessage(field: u32, tagEnd: nat, ghost before: seq<byte>, ghost body: seq<byte>)
      requires bytes == before + Tag(field, 2) + RESERVED + body
      requires tagEnd == |before| + |Tag(field, 2)|
      requires |body| < TWO_35
      modifies this
      ensures bytes == before + Framed(field, body)
    {
      var bodyStart := tagEnd + MAX_LEN_BYTES;
      var bodyLen := |bytes| - bodyStart;
      if bodyLen == 0 {
        var tagLen := VarintTagLen(field);
        Truncate(tagEnd - tagLen);
        assert bytes == before;
        return;
      }
      PatchLength(tagEnd, bodyLen, before + Tag(field, 2), body);
      RecordParts(before, field, body);
    }

    /** Writes the length over the reserved bytes and closes the gap it leaves. */
    method PatchLength(tagEnd: nat, bodyLen: nat, ghost head: seq<byte>, ghost body: seq<byte>)
      requires bytes == head + RESERVED + body
      requires tagEnd == |head| && bodyLen == |body| < TWO_35
      modifies this
      ensures bytes == head + Varint(|body|) + body
    {
      var bodyStart := tagEnd + MAX_LEN_BYTES;
      var lenBuf := new byte[5](_ => 0);
      var varintLen := EncodeVarintToSlice(lenBuf, bodyLen);
      var len := lenBuf[..varintLen];
      if varintLen < MAX_LEN_BYTES {
        CopyWithin(bodyStart, bodyStart + bodyLen, tagEnd + varintLen);
        ShiftedLeft(head, RESERVED, body, len, bytes);
        Overwrite(tagEnd, len);
        Truncate(tagEnd + varintLen + bodyLen);
      } else {
        Overwrite(tagEnd, len);
        Overwritten(head, RESERVED, body, len);
      }
    }

    /** The in-place nested message with the closure given as the fields it writes. */
    method EncodeMessageFieldInPlace(field: u32, body: seq<Field>)
      requires |Emit(body)| < TWO_35
      modifies this
      ensures bytes == old(bytes) + Framed(field, Emit(body))
      decreases body, 1
    {
      var tagEnd := OpenMessage(field);
      EncodeFields(body);
      CloseMessage(field, tagEnd, old(bytes), Emit(body));
    }

    /** Writes a message tree with calls nested to any depth. */
    method EncodeFields(fs: seq<Field>)
      requires |Emit(fs)| < TWO_35
      modifies this
      ensures bytes == old(bytes) + Emit(fs)
      decreases fs, 0
    {
      if fs != [] {
        Assoc3(bytes, EmitField(fs[0]), Emit(fs[1..]));
        EncodeOne(fs[0]);
        EncodeFields(fs[1..]);
      }
    }

    method EncodeOne(f: Field)
      requires |EmitField(f)| < TWO_35
      modifies this
      ensures bytes == old(bytes) + EmitField(f)
      decreases f, 2
    {
      match f
      case VarintField(n, v, always) =>
        if always { EncodeVarintFieldAlways(n, v); } else { EncodeVarintField(n, v); }
      case Fixed64Field(n, v, always) =>
        if always { EncodeFixed64FieldAlways(n, v); } else { EncodeFixed64Field(n, v); }
      case BytesField(n, data) => EncodeBytesField(n, data);
      case PackedField(n, vs) => EncodePackedFixed64Field(n, vs);
      case MessageField(n, body) => EncodeMessageFieldInPlace(n, body);
    }
  }
}

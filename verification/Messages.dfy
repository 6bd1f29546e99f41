/** Whole messages ("Message Format" of the D-Bus Specification) and the service's message encoder. */
module Messages {
  import opened Bytes
  import opened Options
  import opened Signatures
  import opened Values
  import E = Encoder

  const LITTLE_ENDIAN: byte := 108 // 'l'

  const METHOD_CALL: byte := 1
  const METHOD_REPLY: byte := 2
  const ERROR: byte := 3

  const PATH: byte := 1
  const INTERFACE: byte := 2
  const MEMBER: byte := 3
  const ERROR_NAME: byte := 4
  const REPLY_SERIAL: byte := 5
  const SIGNATURE: byte := 8

  datatype Header = Header(typ: byte, flags: byte, version: byte, serial: uint32)

  /** A header field: its code and the value its variant carries. */
  datatype Field = Field(code: byte, val: Value)

  const FIELD_TYPE := TStruct([TByte, TVariant])

  function FieldValue(f: Field): Value {
    VStruct([VByte(f.code), VVariant(TypeOf(f.val), f.val)])
  }

  function FieldValues(fs: seq<Field>): (vs: seq<Value>)
    ensures |vs| == |fs|
  {
    if fs == [] then [] else [FieldValue(fs[0])] + FieldValues(fs[1..])
  }

  predicate TypedField(f: Field) {
    Typed(f.val) && Complete(TypeOf(f.val)) && |SigOf(TypeOf(f.val))| < 0x100
  }

  predicate TypedFields(fs: seq<Field>) {
    forall f | f in fs :: TypedField(f)
  }

  /** The header field array, which starts at offset 12 of every message. */
  function FieldArray(fs: seq<Field>): bytes {
    Marshal(VArray(FIELD_TYPE, FieldValues(fs)), 12)
  }

  /** The offset of the body. */
  function BodyStart(fs: seq<Field>): nat {
    AlignUp(12 + |FieldArray(fs)|, 8)
  }

  function FixedHeader(h: Header, bodyLen: uint32): (b: bytes)
    ensures |b| == 12
  {
    [LITTLE_ENDIAN, h.typ, h.flags, h.version] + (PutUint32(bodyLen) + PutUint32(h.serial))
  }

  /** The wire form of a message. */
  function Frame(h: Header, fs: seq<Field>, body: bytes): (raw: bytes)
    ensures |raw| == BodyStart(fs) + |body|
  {
    FixedHeader(h, Truncate32(|body|)) + (FieldArray(fs) + (Padding(12 + |FieldArray(fs)|, 8) + body))
  }

  // ----- The service's encoder -----

  /** The fields of a reply. */
  function ReplyFields(replySerial: uint32, errName: bytes, bodySig: bytes): seq<Field> {
    [Field(REPLY_SERIAL, VUint32(replySerial))] +
    ((if errName != [] then [Field(ERROR_NAME, VString(errName))] else []) +
     (if bodySig != [] then [Field(SIGNATURE, VSignature(bodySig))] else []))
  }

  lemma TypedFieldValues(fs: seq<Field>)
    requires TypedFields(fs)
    ensures forall v | v in FieldValues(fs) :: Typed(v) && TypeOf(v) == FIELD_TYPE
  {
    if fs != [] {
      TypedFieldValues(fs[1..]);
      TypedFieldValue(fs[0]);
    }
  }

  lemma TypedFieldValue(f: Field)
    requires TypedField(f)
    ensures Typed(FieldValue(f)) && TypeOf(FieldValue(f)) == FIELD_TYPE
  {
    var vs := [VByte(f.code), VVariant(TypeOf(f.val), f.val)];
    assert vs[1..][1..] == [];
    assert TypesOf(vs) == [TByte] + TypesOf(vs[1..]);
    assert TypesOf(vs[1..]) == [TVariant] + TypesOf(vs[1..][1..]);
  }

  /** The calls that write one header field: a struct of a code and a variant. */
  function FieldCalls(f: Field): seq<E.Call> {
    [E.Pad(8), E.Byte(f.code), E.Variant(SigOf(TypeOf(f.val)), E.CallsOf(f.val))]
  }

  lemma CallsOfField(f: Field)
    ensures E.CallsOf(FieldValue(f)) == FieldCalls(f)
  {
    var vs := [VByte(f.code), VVariant(TypeOf(f.val), f.val)];
    assert vs[1..][1..] == [];
    assert E.CallsOfAll(vs) == E.CallsOf(vs[0]) + E.CallsOfAll(vs[1..]);
    assert E.CallsOfAll(vs[1..]) == E.CallsOf(vs[1]) + E.CallsOfAll(vs[1..][1..]);
  }

  lemma CallsOfFields(a: Field, rest: seq<Field>)
    ensures E.CallsOfAll(FieldValues([a] + rest)) == FieldCalls(a) + E.CallsOfAll(FieldValues(rest))
  {
    CallsOfField(a);
    assert ([a] + rest)[1..] == rest;
    assert FieldValues([a] + rest) == [FieldValue(a)] + FieldValues(rest);
  }

  // The closure that writes a reply's header fields.
  method ReplyFieldCalls(replySerial: uint32, errName: bytes, bodySig: bytes) returns (calls: seq<E.Call>)
    ensures calls == E.CallsOfAll(FieldValues(ReplyFields(replySerial, errName, bodySig)))
  {
    hide E.CallsOfAll, FieldValues, FieldCalls;
    calls := [E.Pad(8), E.Byte(REPLY_SERIAL), E.Variant(Ascii("u"), [E.U32(replySerial)])];
    if errName != [] {
      calls := calls + [E.Pad(8), E.Byte(ERROR_NAME), E.Variant(Ascii("s"), [E.Str(errName)])];
    }
    if bodySig != [] {
      calls := calls + [E.Pad(8), E.Byte(SIGNATURE), E.Variant(Ascii("g"), [E.Sig(bodySig)])];
    }
    ReplyFieldCallsAre(replySerial, errName, bodySig);
  }

  lemma ReplyFieldCallsAre(replySerial: uint32, errName: bytes, bodySig: bytes)
    ensures E.CallsOfAll(FieldValues(ReplyFields(replySerial, errName, bodySig))) ==
            [E.Pad(8), E.Byte(REPLY_SERIAL), E.Variant(Ascii("u"), [E.U32(replySerial)])] +
            ((if errName != [] then [E.Pad(8), E.Byte(ERROR_NAME), E.Variant(Ascii("s"), [E.Str(errName)])] else []) +
             (if bodySig != [] then [E.Pad(8), E.Byte(SIGNATURE), E.Variant(Ascii("g"), [E.Sig(bodySig)])] else []))
  {
    hide E.CallsOfAll, FieldValues;
    var a, b, c := Field(REPLY_SERIAL, VUint32(replySerial)), Field(ERROR_NAME, VString(errName)),
                   Field(SIGNATURE, VSignature(bodySig));
    var cs := if bodySig != [] then [c] else [];
    var bs := if errName != [] then [b] else [];
    NoFieldCalls();
    CallsOfFields(c, []);
    CallsOfFields(b, cs);
    CallsOfFields(a, bs + cs);
    assert [c] + [] == [c];
    assert [] + cs == cs;
    assert Ascii("u") == [117] && Ascii("s") == [115] && Ascii("g") == [103];
    assert FieldCalls(a) == [E.Pad(8), E.Byte(REPLY_SERIAL), E.Variant(Ascii("u"), [E.U32(replySerial)])];
    assert FieldCalls(b) == [E.Pad(8), E.Byte(ERROR_NAME), E.Variant(Ascii("s"), [E.Str(errName)])];
    assert FieldCalls(c) == [E.Pad(8), E.Byte(SIGNATURE), E.Variant(Ascii("g"), [E.Sig(bodySig)])];
  }

  lemma NoFieldCalls()
    ensures E.CallsOfAll(FieldValues([])) == []
  {
  }

  lemma TypedReplyFields(replySerial: uint32, errName: bytes, bodySig: bytes)
    requires |bodySig| < 0x100
    ensures TypedFields(ReplyFields(replySerial, errName, bodySig))
  {
  }

  lemma FieldArrayEmitted(fs: seq<Field>)
    requires TypedFields(fs)
    ensures E.Emit(E.Array(8, E.CallsOfAll(FieldValues(fs))), 12) == FieldArray(fs)
  {
    var v := VArray(FIELD_TYPE, FieldValues(fs));
    TypedFieldValues(fs);
    E.CallsMarshal(v, 12);
    E.EmitOne(E.Array(8, E.CallsOfAll(FieldValues(fs))), 12);
  }

  lemma FrameFromBuffer(h: Header, fs: seq<Field>, body: bytes)
    ensures var fixed := [LITTLE_ENDIAN, h.typ, h.flags, h.version];
            var after := PutUint32(h.serial) + (FieldArray(fs) + (Padding(12 + |FieldArray(fs)|, 8) + body));
            E.Patch32(fixed + (PutUint32(0) + after), 4, Truncate32(|body|)) == Frame(h, fs, body)
  {
    hide Padding, FieldArray, PutUint32;
    var fixed := [LITTLE_ENDIAN, h.typ, h.flags, h.version];
    var after := PutUint32(h.serial) + (FieldArray(fs) + (Padding(12 + |FieldArray(fs)|, 8) + body));
    var buf := fixed + (PutUint32(0) + after);
    assert buf[..4] == fixed && buf[8..] == after;
  }

  // A reply marshalled from offset 0.  Every caller passes a literal signature.
  method EncodeMessage(typ: byte, serial: uint32, replySerial: uint32, errName: bytes, bodySig: bytes,
                       body: seq<E.Call>)
    returns (raw: bytes)
    requires |bodySig| < 0x100
    ensures var fs := ReplyFields(replySerial, errName, bodySig);
            raw == Frame(Header(typ, 1, 1, serial), fs, E.EmitAll(body, BodyStart(fs)))
  {
    hide AlignUp, Padding, PutUint32, E.EmitAll, E.Emit, E.CallsOfAll, E.Patch32, FieldValues, Marshal, FieldArray;
    var e := new E.Enc();
    e.Byte(LITTLE_ENDIAN);
    e.Byte(typ);
    e.Byte(1); // flags
    e.Byte(1); // protocol version
    var bodyLenPos := |e.buf|;
    WordAligned(0);
    e.U32(0);
    WordAligned(serial);
    e.U32(serial);
    var calls := ReplyFieldCalls(replySerial, errName, bodySig);
    e.Array(8, calls);
    ghost var fs := ReplyFields(replySerial, errName, bodySig);
    TypedReplyFields(replySerial, errName, bodySig);
    FieldArrayEmitted(fs);
    e.Pad(8);
    var bodyStart := |e.buf|;
    e.Run(body);
    ghost var bs := E.EmitAll(body, bodyStart);
    Reassociate(typ, PutUint32(0), PutUint32(serial), FieldArray(fs), Padding(12 + |FieldArray(fs)|, 8), bs);
    FrameFromBuffer(Header(typ, 1, 1, serial), fs, bs);
    raw := E.Patch32(e.buf, bodyLenPos, Truncate32(|e.buf| - bodyStart));
  }

  lemma Reassociate(typ: byte, l: bytes, s: bytes, fs: bytes, p: bytes, b: bytes)
    ensures [] + [LITTLE_ENDIAN] + [typ] + [1] + [1] + l + s + fs + p + b
            == [LITTLE_ENDIAN, typ, 1, 1] + (l + (s + (fs + (p + b))))
  {
  }

  // The two words of the fixed header need no padding.
  lemma WordAligned(n: uint32)
    ensures Word(n, 4) == PutUint32(n) && Word(n, 8) == PutUint32(n)
  {
  }

  // ----- A strict reader of whole messages -----

  datatype Message = Message(h: Header, fields: seq<Value>, body: seq<Value>)

  /** The value carried by the first header field with the given code. */
  function FieldOf(fields: seq<Value>, code: byte): Option<Value> {
    if fields == [] then None
    else if fields[0].VStruct? && |fields[0].fields| == 2 && fields[0].fields[0] == VByte(code) &&
            fields[0].fields[1].VVariant?
    then Some(fields[0].fields[1].val)
    else FieldOf(fields[1..], code)
  }

  /** The signature the header declares for the body; no SIGNATURE field means an empty body. */
  function DeclaredSignature(fields: seq<Value>): Option<bytes> {
    match FieldOf(fields, SIGNATURE)
    case None => Some([])
    case Some(VSignature(s)) => Some(s)
    case Some(_) => None
  }

  function DecodeFixedHeader(raw: bytes): Option<(Header, uint32)> {
    if |raw| < 12 || raw[0] != LITTLE_ENDIAN then None
    else Some((Header(raw[1], raw[2], raw[3], Uint32(raw[8..12])), Uint32(raw[4..8])))
  }

  /** Decodes header and body, each under its signature; nothing may be left over. */
  function DecodeMessage(raw: bytes): Option<Message> {
    var (h, bodyLen) :- DecodeFixedHeader(raw);
    if |raw| < 12 then None
    else
      var (fields, p) :- Decode(TArray(FIELD_TYPE), raw, 12);
      var start :- Skip(raw, p, 8);
      var signature :- DeclaredSignature(if fields.VArray? then fields.items else []);
      var types :- ParseAll(signature, 0);
      var (body, end) :- DecodeAll(types, raw, start);
      if start + bodyLen == |raw| == end && fields.VArray? then Some(Message(h, fields.items, body)) else None
  }

  /** Where the parts of a frame lie, whatever follows it. */
  lemma FrameParts(h: Header, fs: seq<Field>, body: bytes, data: bytes)
    requires At(data, 0, Frame(h, fs, body))
    ensures At(data, 0, FixedHeader(h, Truncate32(|body|))) && At(data, 12, FieldArray(fs))
    ensures At(data, 12 + |FieldArray(fs)|, Padding(12 + |FieldArray(fs)|, 8)) && At(data, BodyStart(fs), body)
  {
    hide At, FixedHeader, FieldArray, Padding, AlignUp;
    var a, p := FieldArray(fs), Padding(12 + |FieldArray(fs)|, 8);
    AtSplit(data, 0, FixedHeader(h, Truncate32(|body|)), a + (p + body));
    AtSplit(data, 12, a, p + body);
    AtSplit(data, 12 + |a|, p, body);
  }

  lemma FixedHeaderParts(h: Header, n: uint32, data: bytes)
    requires At(data, 0, FixedHeader(h, n))
    ensures |data| >= 12
    ensures data[0] == LITTLE_ENDIAN && data[1] == h.typ && data[2] == h.flags && data[3] == h.version
    ensures Uint32(data[4..8]) == n && Uint32(data[8..12]) == h.serial
  {
    hide Uint32, PutUint32;
    var b := FixedHeader(h, n);
    assert data[..12] == b;
    assert data[4..8] == b[4..8] == PutUint32(n);
    assert data[8..12] == b[8..12] == PutUint32(h.serial);
    Uint32RoundTrip(n);
    Uint32RoundTrip(h.serial);
  }

  lemma MarshalBody(body: seq<Value>, fs: seq<Field>)
    ensures MarshalAll(body, 0) == MarshalAll(body, BodyStart(fs))
  {
    hide MarshalAll, FieldArray;
    MarshalAllShift(body, 0, BodyStart(fs) / 8);
  }

  /** The body's values match the signature that the fields declare. */
  predicate Declares(fs: seq<Field>, body: seq<Value>) {
    DeclaredSignature(FieldValues(fs)) == Some(SigOfAll(TypesOf(body)))
  }

  /** Values a body may carry. */
  predicate TypedBody(body: seq<Value>) {
    (forall v | v in body :: Typed(v)) && forall t | t in TypesOf(body) :: Complete(t)
  }

  /** A frame decodes, under its own declared signature, to the fields and values it was made from. */
  lemma FrameDecodes(h: Header, fs: seq<Field>, body: seq<Value>)
    requires TypedFields(fs) && TypedBody(body) && Declares(fs, body)
    requires |Frame(h, fs, MarshalAll(body, 0))| < TWO_TO_THE_32
    ensures DecodeMessage(Frame(h, fs, MarshalAll(body, 0))) == Some(Message(h, FieldValues(fs), body))
  {
    hide At, Padding, FieldArray, Frame, FixedHeader, Decode, DecodeAll, ParseAll, SigOfAll, MarshalAll, TypesOf;
    hide DeclaredSignature, FieldValues, TypedFields, TypedBody, Uint32, AlignUp;
    var b := MarshalAll(body, 0);
    var raw := Frame(h, fs, b);
    FrameAt(h, fs, b, raw);
    FrameParts(h, fs, b, raw);
    FixedHeaderParts(h, Truncate32(|b|), raw);
    FieldArrayDecodes(fs, raw);
    BodyDecodes(fs, body, raw);
  }

  lemma FrameAt(h: Header, fs: seq<Field>, body: bytes, data: bytes)
    requires Frame(h, fs, body) <= data
    ensures At(data, 0, Frame(h, fs, body))
  {
    hide Frame;
  }

  lemma FieldArrayDecodes(fs: seq<Field>, raw: bytes)
    requires TypedFields(fs) && |FieldArray(fs)| < TWO_TO_THE_32 && At(raw, 12, FieldArray(fs))
    ensures 12 <= |raw|
    ensures Decode(TArray(FIELD_TYPE), raw, 12) == Some((VArray(FIELD_TYPE, FieldValues(fs)), 12 + |FieldArray(fs)|))
  {
    hide Decode, Marshal;
    TypedFieldValues(fs);
    DecodeMarshal(VArray(FIELD_TYPE, FieldValues(fs)), raw, 12);
  }

  lemma BodyDecodes(fs: seq<Field>, body: seq<Value>, raw: bytes)
    requires TypedBody(body) && |MarshalAll(body, 0)| < TWO_TO_THE_32
    requires At(raw, BodyStart(fs), MarshalAll(body, 0)) && BodyStart(fs) <= |raw|
    ensures ParseAll(SigOfAll(TypesOf(body)), 0) == Some(TypesOf(body))
    ensures DecodeAll(TypesOf(body), raw, BodyStart(fs)) == Some((body, BodyStart(fs) + |MarshalAll(body, 0)|))
  {
    hide MarshalAll, DecodeAll, ParseAll, SigOfAll, TypesOf, At, Typed, Complete, FieldArray;
    MarshalBody(body, fs);
    WholeAt(SigOfAll(TypesOf(body)));
    DecodeAllAt(body, raw, BodyStart(fs));
    ParseSigOfAll(TypesOf(body), SigOfAll(TypesOf(body)), 0);
  }

  lemma WholeAt(s: bytes)
    ensures At(s, 0, s)
  {
  }
}

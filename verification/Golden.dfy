/** The wire format fixed byte by byte, independently of every reader and writer: a client's first exchange. */
module Golden {
  import opened Bytes
  import opened Options
  import opened Signatures
  import opened Values
  import opened Messages
  import opened Incoming
  import opened Lines
  import opened Service
  import A = Answers
  import D = Dispatch

  /** A client's Hello with serial 1. */
  function HelloCall(): bytes {
    [108, 1, 0, 1, 0, 0, 0, 0, 1, 0, 0, 0, 78, 0, 0, 0] +
    ([1, 1, 111, 0, 21, 0, 0, 0] + Ascii("/org/freedesktop/DBus") + [0, 0, 0]) +
    ([2, 1, 115, 0, 20, 0, 0, 0] + Ascii("org.freedesktop.DBus") + [0, 0, 0, 0]) +
    ([3, 1, 115, 0, 5, 0, 0, 0] + Ascii("Hello") + [0, 0, 0])
  }

  /** The reply to it: field 5 names the call, field 8 declares the body, which is the string ":1.1". */
  function HelloReply(): bytes {
    [108, 2, 1, 1, 9, 0, 0, 0, 1, 0, 0, 0, 15, 0, 0, 0,
     5, 1, 117, 0, 1, 0, 0, 0,
     8, 1, 103, 0, 1, 115, 0, 0,
     4, 0, 0, 0, 58, 49, 46, 49, 0]
  }

  // ----- The call -----

  function HelloFields(): seq<Field> {
    [Field(1, VObjPath(Ascii("/org/freedesktop/DBus"))), Field(2, VString(Ascii("org.freedesktop.DBus"))),
     Field(3, VString(Ascii("Hello")))]
  }

  lemma SmallWord(n: byte, pos: nat)
    requires pos % 4 == 0
    ensures Word(n, pos) == [n, 0, 0, 0]
  {
  }

  lemma TextLayout(v: Value, q: nat)
    requires (v.VString? || v.VObjPath?) && |v.s| < 0x100 && q % 4 == 0
    ensures Marshal(v, q) == [|v.s|, 0, 0, 0] + (v.s + [0])
    ensures SigOf(TypeOf(v)) == [if v.VString? then 115 else 111]
  {
    hide Word;
    SmallWord(|v.s|, q);
  }

  lemma HeadJoined(pad: bytes, code: byte, sig: byte, val: bytes)
    ensures pad + ([code] + (SigText([sig]) + val)) == pad + ([code, 1, sig, 0] + val)
  {
  }

  /** A header field whose value has a signature of one letter, laid out. */
  lemma FieldBytes(f: Field, sig: byte, off: nat)
    requires SigOf(TypeOf(f.val)) == [sig]
    ensures Marshal(FieldValue(f), off) ==
            Padding(off, 8) + ([f.code, 1, sig, 0] + Marshal(f.val, Align8(off) + 4))
  {
    hide Padding, Marshal, SigText, Align8, SigOf, TypeOf, FieldValue;
    FieldLayout(f, off);
    HeadJoined(Padding(off, 8), f.code, sig, Marshal(f.val, Align8(off) + 4));
  }

  lemma Aligned(off: nat)
    ensures Align8(off) % 8 == 0
  {
  }

  lemma LengthJoined(head: bytes, n: byte, text: bytes)
    ensures head + ([n, 0, 0, 0] + text) == head + [n, 0, 0, 0] + text
  {
  }

  lemma TextField(f: Field, sig: byte, off: nat)
    requires (f.val.VString? || f.val.VObjPath?) && |f.val.s| < 0x100 && sig == if f.val.VString? then 115 else 111
    ensures Marshal(FieldValue(f), off) ==
            Padding(off, 8) + ([f.code, 1, sig, 0, |f.val.s|, 0, 0, 0] + (f.val.s + [0]))
  {
    hide Padding, Marshal, Align8, SigOf, TypeOf, FieldValue;
    Aligned(off);
    TextLayout(f.val, Align8(off) + 4);
    FieldBytes(f, sig, off);
    LengthJoined([f.code, 1, sig, 0], |f.val.s|, f.val.s + [0]);
  }

  lemma FieldStep(f: Field, fs: seq<Field>, off: nat)
    ensures var b := Marshal(FieldValue(f), off);
            MarshalAll(FieldValues([f] + fs), off) == b + MarshalAll(FieldValues(fs), off + |b|)
  {
    hide Marshal, FieldValue;
    assert ([f] + fs)[1..] == fs;
    var vs := FieldValues([f] + fs);
    assert vs[0] == FieldValue(f) && vs[1..] == FieldValues(fs);
  }

  lemma NoFieldBytes(off: nat)
    ensures MarshalAll(FieldValues([]), off) == []
  {
  }

  lemma Paddings()
    ensures Padding(16, 8) == [] && Padding(46, 8) == [0, 0] && Padding(77, 8) == [0, 0, 0] && Padding(94, 8) == [0, 0]
    ensures Padding(24, 8) == [] && Padding(31, 8) == [0]
  {
  }

  lemma HelloFieldBytes()
    ensures MarshalAll(FieldValues(HelloFields()), 16) ==
            [1, 1, 111, 0, 21, 0, 0, 0] + (Ascii("/org/freedesktop/DBus") + [0]) +
            ([0, 0] + ([2, 1, 115, 0, 20, 0, 0, 0] + (Ascii("org.freedesktop.DBus") + [0]))) +
            ([0, 0, 0] + ([3, 1, 115, 0, 5, 0, 0, 0] + (Ascii("Hello") + [0])))
  {
    hide Padding, Marshal, FieldValue, FieldValues, MarshalAll, Ascii;
    var fs := HelloFields();
    var a, b, c := fs[0], fs[1], fs[2];
    Paddings();
    TextField(a, 111, 16);
    TextField(b, 115, 46);
    TextField(c, 115, 77);
    FieldStep(a, [b, c], 16);
    FieldStep(b, [c], 46);
    FieldStep(c, [], 77);
    NoFieldBytes(94);
    assert [a] + [b, c] == fs && [b] + [c] == [b, c] && [c] + [] == [c];
    assert |Marshal(FieldValue(a), 16)| == 30 && |Marshal(FieldValue(b), 46)| == 31;
  }

  lemma SmallWords()
    ensures PutUint32(0) == [0, 0, 0, 0] && PutUint32(1) == [1, 0, 0, 0] && PutUint32(9) == [9, 0, 0, 0] &&
            PutUint32(78) == [78, 0, 0, 0] && PutUint32(15) == [15, 0, 0, 0]
  {
  }

  lemma HelloJoined(fixed: bytes, len: bytes, ha: bytes, ta: bytes, hb: bytes, tb: bytes, hc: bytes, tc: bytes)
    ensures fixed + ((len + (ha + (ta + [0]) + ([0, 0] + (hb + (tb + [0]))) + ([0, 0, 0] + (hc + (tc + [0]))))) +
                     ([0, 0] + [])) ==
            (fixed + len) + (ha + ta + [0, 0, 0]) + (hb + tb + [0, 0, 0, 0]) + (hc + tc + [0, 0, 0])
  {
  }

  lemma HelloFrame()
    ensures HelloCall() == Frame(Header(1, 0, 1, 1), HelloFields(), []) && |HelloCall()| == 96
  {
    hide Padding, FieldValues, MarshalAll, Ascii, PutUint32, FieldArray, HelloFields;
    var fs := HelloFields();
    FieldArrayLayout(fs);
    HelloFieldBytes();
    SmallWords();
    Paddings();
    assert |MarshalAll(FieldValues(fs), 16)| == 78 && |FieldArray(fs)| == 82;
    var fixed, len := [108, 1, 0, 1, 0, 0, 0, 0, 1, 0, 0, 0], [78, 0, 0, 0];
    assert FixedHeader(Header(1, 0, 1, 1), 0) == fixed;
    assert fixed + len == [108, 1, 0, 1, 0, 0, 0, 0, 1, 0, 0, 0, 78, 0, 0, 0];
    HelloJoined(fixed, len, [1, 1, 111, 0, 21, 0, 0, 0], Ascii("/org/freedesktop/DBus"), [2, 1, 115, 0, 20, 0, 0, 0],
                Ascii("org.freedesktop.DBus"), [3, 1, 115, 0, 5, 0, 0, 0], Ascii("Hello"));
  }

  lemma TypedHello()
    ensures TypedFields(HelloFields()) && AllKnown(HelloFields())
  {
    hide Ascii;
  }

  lemma HelloStored(m: InMessage)
    ensures Assign(m, HelloFields()) ==
            m.(path := Ascii("/org/freedesktop/DBus"), iface := Ascii("org.freedesktop.DBus"), member := Ascii("Hello"))
  {
    hide Ascii;
    var fs := HelloFields();
    var fs' := fs[1..];
    var m' := SetField(m, 1, fs[0].val.s);
    assert Assign(m, fs) == Assign(m', fs');
    var m'' := SetField(m', 2, fs'[0].val.s);
    assert Assign(m', fs') == Assign(m'', fs'[1..]);
    assert fs'[1..] == [fs[2]];
    assert Assign(m'', [fs[2]]) == Assign(SetField(m'', 3, fs[2].val.s), [fs[2]][1..]);
  }

  /** What the service makes of those bytes, wherever the stream goes on. */
  lemma HelloRead(rest: bytes, room: Room)
    ensures ReadSpec(HelloCall() + rest, room) ==
            (Got(InMessage(1, 1, Ascii("/org/freedesktop/DBus"), Ascii("org.freedesktop.DBus"), Ascii("Hello"),
                           HelloCall(), 96, room(96))), rest)
  {
    hide Ascii, HelloCall, HelloFields, Frame, Assign, ReadSpec, FieldArray;
    HelloFrame();
    TypedHello();
    var h := Header(1, 0, 1, 1);
    ReadFrame(h, HelloFields(), [], rest, room);
    HelloStored(Unread(h, HelloFields(), [], room));
  }

  // ----- The reply -----

  lemma ReplyText()
    ensures Ascii(":1.1") == [58, 49, 46, 49]
  {
  }

  lemma OneValue(v: Value)
    ensures MarshalAll([v], 0) == Marshal(v, 0)
  {
    hide Marshal;
    assert MarshalAll([v], 0) == Marshal(v, 0) + MarshalAll([v][1..], 0 + |Marshal(v, 0)|);
  }

  lemma ReplyBodyBytes()
    ensures MarshalAll([VString(Ascii(":1.1"))], 0) == [4, 0, 0, 0, 58, 49, 46, 49, 0]
  {
    hide Marshal, MarshalAll, Ascii, SigOf, TypeOf;
    ReplyText();
    TextLayout(VString(Ascii(":1.1")), 0);
    OneValue(VString(Ascii(":1.1")));
  }

  lemma ReplyFieldValues()
    ensures Marshal(VUint32(1), 20) == [1, 0, 0, 0] && SigOf(TUint32) == [117]
    ensures Marshal(VSignature([115]), 28) == [1, 115, 0] && SigOf(TSignature) == [103]
  {
    hide Word;
    SmallWord(1, 20);
  }

  lemma ReplyFieldBytes()
    ensures MarshalAll(FieldValues(ReplyFields(1, [], [115])), 16) ==
            [5, 1, 117, 0, 1, 0, 0, 0, 8, 1, 103, 0, 1, 115, 0]
  {
    hide Padding, Marshal, FieldValue, FieldValues, MarshalAll, SigOf, Align8;
    var a, b := Field(5, VUint32(1)), Field(8, VSignature([115]));
    assert ReplyFields(1, [], [115]) == [a] + [b] && [b] + [] == [b];
    Paddings();
    FieldBounds(16);
    FieldBounds(24);
    ReplyFieldValues();
    FieldBytes(a, 117, 16);
    FieldBytes(b, 103, 24);
    FieldStep(a, [b], 16);
    FieldStep(b, [], 24);
    NoFieldBytes(31);
  }

  lemma ReplyJoined()
    ensures [108, 2, 1, 1, 9, 0, 0, 0, 1, 0, 0, 0] +
            (([15, 0, 0, 0] + [5, 1, 117, 0, 1, 0, 0, 0, 8, 1, 103, 0, 1, 115, 0]) +
             ([0] + [4, 0, 0, 0, 58, 49, 46, 49, 0])) == HelloReply()
  {
  }

  lemma ReplyFrameBytes()
    ensures Frame(Header(2, 1, 1, 1), ReplyFields(1, [], [115]), [4, 0, 0, 0, 58, 49, 46, 49, 0]) == HelloReply()
  {
    hide Padding, FieldValues, MarshalAll, PutUint32, FieldArray, ReplyFields, HelloReply;
    var fs := ReplyFields(1, [], [115]);
    FieldArrayLayout(fs);
    ReplyFieldBytes();
    SmallWords();
    Paddings();
    assert |FieldArray(fs)| == 19;
    assert FixedHeader(Header(2, 1, 1, 1), 9) == [108, 2, 1, 1, 9, 0, 0, 0, 1, 0, 0, 0];
    ReplyJoined();
  }

  /** The reply to a Hello with serial 1 that is the first call, byte for byte. */
  lemma HelloReplyGolden(m: InMessage, secret: bytes)
    requires m.iface == Ascii("org.freedesktop.DBus") && m.member == Ascii("Hello") && m.serial == 1
    ensures D.ReplyFor(m, secret, 1) == HelloReply()
  {
    hide MarshalAll, Ascii, Frame, ReplyFields, D.Intended, SigOfAll, TypesOf, HelloReply;
    A.BusIntended(m, secret);
    D.WritesString(Ascii(":1.1"));
    KnownSignatures();
    ReplyBodyBytes();
    ReplyFrameBytes();
  }

  // ----- The exchange -----

  /** The first lines a client sends, with a user id of 1000 in hexadecimal digits. */
  function Greeting(): bytes {
    [0] + (Ascii("AUTH EXTERNAL 31303030") + [13, 10] + (Ascii("BEGIN") + [13, 10]))
  }

  lemma GreetingBytes()
    ensures Ascii("BEGIN") == [66, 69, 71, 73, 78] && Ascii("AUTH EXTERNAL") <= Ascii("AUTH EXTERNAL 31303030")
    ensures IsLine(Ascii("AUTH EXTERNAL 31303030")) && Ascii("AUTH EXTERNAL 31303030")[21] == 48
    ensures Ascii("AUTH EXTERNAL 31303030")[0] == 65
  {
  }

  lemma GreetingInput(line: bytes, rest: bytes)
    ensures [0] + (line + [13, 10] + (Ascii("BEGIN") + [13, 10])) + rest ==
            [0] + (Unlines([line + [13]]) + ((Ascii("BEGIN") + [13]) + [10] + rest))
  {
    hide Ascii;
    var lines := [line + [13]];
    assert |lines[1..]| == 0;
    assert Unlines(lines) == line + [13] + [10];
  }

  lemma GreetingLines(rest: bytes)
    ensures var line, last := Ascii("AUTH EXTERNAL 31303030") + [13], Ascii("BEGIN") + [13];
            Handshaken(Greeting() + rest, [line], last, rest) &&
            Responses([line]) == [Ascii("OK ") + Ascii("0123456789abcdef0123456789abcdef") + Ascii("\r\n")]
  {
    hide Ascii, Respond, TrimEol, Unlines;
    GreetingBytes();
    var text := Ascii("AUTH EXTERNAL 31303030");
    var line: bytes := text + [13];
    RespondsExactly(text, [13]);
    assert text + ([13] + [10]) == line + [10];
    assert |[line][1..]| == 0 && Responses([line]) == [Respond(TrimEol(line + [10]))] + Responses([line][1..]);
    GreetingInput(text, rest);
    assert !Begins(line) by { assert line[0] == 65; }
  }

  lemma OneCall(m: InMessage, secret: bytes)
    requires m.typ == 1
    ensures Replies(Calls([m]), secret, 0) == [D.ReplyFor(m, secret, 1)]
  {
    hide D.ReplyFor;
    CallsInOrder(m, [], []);
    assert [m][1..] == [];
  }

  /** A client that greets, calls Hello and closes its end gets one line and the reply, in this order. */
  lemma FirstExchange(secret: bytes, room: Room)
    ensures Session(Greeting() + HelloCall(), secret, room) ==
            [Ascii("OK ") + Ascii("0123456789abcdef0123456789abcdef") + Ascii("\r\n"), HelloReply()]
  {
    hide Ascii, HelloCall, HelloReply, Greeting, Sasl, Handshaken, Responses, ReadSpec, MessagesIn, Replies, Calls,
      D.ReplyFor;
    GreetingLines(HelloCall());
    SaslSucceedsIff(Greeting() + HelloCall());
    HelloRead([], room);
    assert HelloCall() + [] == HelloCall();
    var m := ReadSpec(HelloCall(), room).0.m;
    NextMessage(HelloCall(), m, [], room);
    ReadFails([], room);
    NothingRead([], room);
    assert [m] + [] == [m];
    OneCall(m, secret);
    HelloReplyGolden(m, secret);
  }
}

/** Reading messages: the frame reader, the header field walk and the two body decoders. */
module Incoming {
  import opened Bytes
  import opened Options
  import opened Signatures
  import opened Values
  import opened Messages

  /** spare is raw's capacity beyond its length: indexing stops at the length, slicing only at the capacity. */
  datatype InMessage = InMessage(typ: byte, serial: uint32, path: bytes, iface: bytes, member: bytes,
                                 raw: bytes, bodyStart: nat, spare: nat)

  /** What slicing raw can reach; memory that was never written is zero. */
  function Reach(m: InMessage): bytes {
    m.raw + Zeros(m.spare)
  }

  /** The spare capacity that the runtime gives a slice grown to a length. */
  type Room = nat -> nat

  // ----- The header field walk -----

  /** Fault is an index beyond the length or a slice beyond the capacity: the walk has no bounds checks. */
  datatype Walk = Walked(m: InMessage, off: nat) | Fault

  function SetField(m: InMessage, code: byte, val: bytes): InMessage {
    if code == PATH then m.(path := val)
    else if code == INTERFACE then m.(iface := val)
    else if code == MEMBER then m.(member := val)
    else m
  }

  /** One field at offset p: the message with that field stored and the offset after it; None stops the walk. */
  datatype FieldStep = Next(m: InMessage, off: nat) | Stop(at: nat) | Beyond

  function StepField(m: InMessage, p: nat): (r: FieldStep)
    ensures r.Next? ==> r.off > p && r.m.raw == m.raw && r.m.spare == m.spare
  {
    if p + 1 >= |m.raw| || p + 2 + m.raw[p + 1] > |Reach(m)| then Beyond
    else
      var sig := Reach(m)[p + 2..p + 2 + m.raw[p + 1]];
      StepValue(m, m.raw[p], sig, p + 2 + |sig| + 1)
  }

  /** The value of a field whose code and variant signature have been read. */
  function StepValue(m: InMessage, code: byte, sig: bytes, q: nat): (r: FieldStep)
    ensures r.Next? ==> r.off > q && r.m.raw == m.raw && r.m.spare == m.spare
  {
    if sig == Ascii("s") || sig == Ascii("o") then
      var w := Align4(q);
      if w + 4 > |Reach(m)| then Beyond
      else
        var n := Uint32(Reach(m)[w..w + 4]);
        if w + 4 + n > |Reach(m)| then Beyond
        else Next(SetField(m, code, Reach(m)[w + 4..w + 4 + n]), w + 4 + n + 1)
    else if sig == Ascii("g") then
      if q >= |m.raw| then Beyond else Next(m, q + m.raw[q] + 2)
    else if sig == Ascii("u") then Next(m, Align4(q) + 4)
    else Stop(q)
  }

  function WalkFields(m: InMessage, off: nat, end: nat): Walk
    decreases end - off
  {
    if off >= end then Walked(m, off)
    else if Align8(off) >= end then Walked(m, Align8(off))
    else
      match StepField(m, Align8(off))
      case Beyond => Fault
      case Stop(at) => Walked(m, at)
      case Next(m', off') => WalkFields(m', off', end)
  }

  // One turn of the walk.
  lemma WalkStep(m: InMessage, off: nat, end: nat)
    requires Align8(off) < end
    ensures var step := StepField(m, Align8(off));
            WalkFields(m, off, end) ==
            if step.Beyond? then Fault else if step.Stop? then Walked(m, step.at) else WalkFields(step.m, step.off, end)
  {
  }

  lemma WalkEnds(m: InMessage, off: nat, end: nat)
    requires Align8(off) >= end
    ensures WalkFields(m, off, end) == Walked(m, if off >= end then off else Align8(off))
  {
  }

  // The body of the walk's loop: one field at offset p.
  method ParseField(m: InMessage, p: nat) returns (r: FieldStep)
    ensures r == StepField(m, p)
  {
    hide Uint32, SetField, Ascii, Align4, Reach;
    var mem := Reach(m);
    var off := p;
    if off + 1 >= |m.raw| {
      return Beyond;
    }
    var code := m.raw[off];
    off := off + 1;
    var sigLen := m.raw[off];
    off := off + 1;
    if off + sigLen > |mem| {
      return Beyond;
    }
    var sig := mem[off..off + sigLen];
    off := off + sigLen + 1;
    if sig == Ascii("s") || sig == Ascii("o") {
      off := Align4(off);
      if off + 4 > |mem| {
        return Beyond;
      }
      var n := Uint32(mem[off..off + 4]);
      off := off + 4;
      if off + n > |mem| {
        return Beyond;
      }
      return Next(SetField(m, code, mem[off..off + n]), off + n + 1);
    } else if sig == Ascii("g") {
      if off >= |m.raw| {
        return Beyond;
      }
      return Next(m, off + m.raw[off] + 2);
    } else if sig == Ascii("u") {
      return Next(m, Align4(off) + 4);
    } else {
      return Stop(off);
    }
  }

  method ParseHeaderFields(m: InMessage, fields: bytes) returns (r: Walk)
    ensures r == WalkFields(m, 16, 16 + |fields|)
  {
    hide WalkFields, StepField;
    var cur, off, end := m, 16, 16 + |fields|;
    while off < end
      invariant WalkFields(cur, off, end) == WalkFields(m, 16, end)
      decreases end - off
    {
      if Align8(off) >= end {
        WalkEnds(cur, off, end);
      } else {
        WalkStep(cur, off, end);
      }
      off := Align8(off);
      if off >= end {
        return Walked(cur, off);
      }
      var step := ParseField(cur, off);
      match step
      case Beyond => return Fault;
      case Stop(at) => return Walked(cur, at);
      case Next(m', off') => cur, off := m', off';
    }
    WalkEnds(cur, off, end);
    return Walked(cur, off);
  }

  // ----- When the walk faults -----

  /** The field at offset p declares a signature, or a text, that ends beyond what slicing can reach. */
  predicate DeclaresTooMuch(m: InMessage, p: nat)
    requires p + 8 <= |m.raw|
  {
    p + 2 + m.raw[p + 1] > |m.raw| + m.spare ||
    (m.raw[p + 1] == 1 && (m.raw[p + 2] == 115 || m.raw[p + 2] == 111) &&
     p + 8 + Uint32(m.raw[p + 4..p + 8]) > |m.raw| + m.spare)
  }

  lemma ShortSignature(sig: bytes)
    ensures (sig == Ascii("s") || sig == Ascii("o")) <==> |sig| == 1 && (sig[0] == 115 || sig[0] == 111)
    ensures sig == Ascii("g") ==> |sig| == 1
  {
    KnownSignatures();
    assert |sig| == 1 ==> sig == [sig[0]];
  }

  /** Of a field that starts inside the message that is the only way: no index it reads is beyond the message. */
  lemma StepBeyondIff(m: InMessage, p: nat)
    requires p % 8 == 0 && p + 8 <= |m.raw|
    ensures StepField(m, p).Beyond? <==> DeclaresTooMuch(m, p)
  {
    hide Uint32, Ascii, Reach, StepValue, Align4;
    var n: nat := m.raw[p + 1];
    ReachSlice(m, p + 2, p + 3);
    ReachSlice(m, p + 4, p + 8);
    ReachLength(m);
    WordStart(p);
    if p + 2 + n <= |Reach(m)| {
      var sig := Reach(m)[p + 2..p + 2 + n];
      ShortSignature(sig);
      ValueBeyondIff(m, m.raw[p], sig, p + 2 + n + 1);
      assert n == 1 ==> sig == m.raw[p + 2..p + 3];
    }
  }

  lemma WordStart(p: nat)
    requires p % 8 == 0
    ensures Align4(p + 4) == p + 4
  {
    var k := p / 8;
    assert p + 7 == 4 * (2 * k + 1) + 3;
    assert (p + 7) / 4 == 2 * k + 1;
  }

  lemma ValueBeyondIff(m: InMessage, code: byte, sig: bytes, q: nat)
    ensures StepValue(m, code, sig, q).Beyond? <==>
            if sig == Ascii("s") || sig == Ascii("o") then
              Align4(q) + 4 > |Reach(m)| ||
              Align4(q) + 4 + Uint32(Reach(m)[Align4(q)..Align4(q) + 4]) > |Reach(m)|
            else sig == Ascii("g") && q >= |m.raw|
  {
    hide Uint32, Ascii, Reach, Align4;
  }

  lemma ReachLength(m: InMessage)
    ensures |Reach(m)| == |m.raw| + m.spare
  {
  }

  /** The walk from off comes to a field at offset p. */
  predicate Arrives(m: InMessage, off: nat, end: nat, p: nat)
    decreases end - off
  {
    var first := Align8(off);
    off < end && first < end &&
    (p == first || (StepField(m, first).Next? && Arrives(StepField(m, first).m, StepField(m, first).off, end, p)))
  }

  predicate FaultsAt(m: InMessage, p: nat) {
    p + 8 <= |m.raw| && DeclaresTooMuch(m, p)
  }

  /** The walk of a whole message faults exactly when it comes to a field that declares too much. */
  lemma {:induction false} WalkFaultsIff(m: InMessage, off: nat, end: nat)
    requires Align8(end) <= |m.raw|
    ensures WalkFields(m, off, end).Fault? <==> exists p :: Arrives(m, off, end, p) && FaultsAt(m, p)
    decreases end - off
  {
    hide StepField, DeclaresTooMuch, WalkFields, Align8;
    AlignAbove(off);
    if Align8(off) >= end {
      WalkEnds(m, off, end);
    } else {
      var first := Align8(off);
      WalkStep(m, off, end);
      InsideMessage(off, end);
      StepBeyondIff(m, first);
      assert Arrives(m, off, end, first);
      if StepField(m, first).Next? {
        var m', off' := StepField(m, first).m, StepField(m, first).off;
        WalkFaultsIff(m', off', end);
        forall p
          ensures FaultsAt(m', p) <==> FaultsAt(m, p)
        {
          SameBytes(m, m', p);
        }
        forall p | Arrives(m', off', end, p)
          ensures Arrives(m, off, end, p)
        {
        }
      }
    }
  }

  lemma AlignAbove(off: nat)
    ensures off <= Align8(off)
  {
  }

  lemma InsideMessage(off: nat, end: nat)
    requires Align8(off) < end
    ensures off <= Align8(off) && Align8(off) % 8 == 0 && Align8(off) + 8 <= Align8(end)
  {
  }

  lemma SameBytes(m: InMessage, m': InMessage, p: nat)
    requires m'.raw == m.raw && m'.spare == m.spare
    ensures FaultsAt(m', p) <==> FaultsAt(m, p)
  {
  }

  // ----- What the walk means on well-formed fields -----

  /** The types the walk can step over. */
  predicate Known(v: Value) {
    v.VString? || v.VObjPath? || v.VSignature? || v.VUint32?
  }

  /** Stores the fields one after another up to the first of a type the walk does not know. */
  function Assign(m: InMessage, fs: seq<Field>): InMessage
    decreases |fs|
  {
    if fs == [] || !Known(fs[0].val) then m
    else if fs[0].val.VString? || fs[0].val.VObjPath? then Assign(SetField(m, fs[0].code, fs[0].val.s), fs[1..])
    else Assign(m, fs[1..])
  }

  /** The walk of one well-formed field. */
  lemma StepFieldAt(m: InMessage, f: Field, off: nat)
    requires TypedField(f) && |Marshal(FieldValue(f), off)| < TWO_TO_THE_32
    requires At(m.raw, off, Marshal(FieldValue(f), off))
    ensures Align8(off) < off + |Marshal(FieldValue(f), off)|
    ensures Known(f.val) ==>
              StepField(m, Align8(off)) ==
              Next(if f.val.VString? || f.val.VObjPath? then SetField(m, f.code, f.val.s) else m,
                   off + |Marshal(FieldValue(f), off)|)
    ensures !Known(f.val) ==> StepField(m, Align8(off)).Stop?
  {
    hide At, Marshal, FieldValue, SigOf, TypeOf, StepField, StepValue, SetField, Padding, SigText;
    FieldLayout(f, off);
    FieldBounds(off);
    var p := Align8(off);
    var sig := SigOf(TypeOf(f.val));
    var q := p + 2 + |sig| + 1;
    AtSplit(m.raw, off, Padding(off, 8), [f.code] + (SigText(sig) + Marshal(f.val, q)));
    AtSplit(m.raw, p, [f.code], SigText(sig) + Marshal(f.val, q));
    AtSplit(m.raw, p + 1, SigText(sig), Marshal(f.val, q));
    StepSignature(m, p, f.code, sig);
    StepValueAt(m, f.code, f.val, q);
  }

  lemma FieldBounds(off: nat)
    ensures off + |Padding(off, 8)| == Align8(off)
  {
  }

  lemma AlignedTo8(off: nat)
    ensures AlignUp(off, 8) == Align8(off)
  {
  }

  lemma FieldLayout(f: Field, off: nat)
    ensures var sig := SigOf(TypeOf(f.val));
            var q := Align8(off) + 2 + |sig| + 1;
            Marshal(FieldValue(f), off) == Padding(off, 8) + ([f.code] + (SigText(sig) + Marshal(f.val, q)))
  {
    hide SigOf, TypeOf, Padding, SigText, AlignUp, Text, Word;
    AlignedTo8(off);
    var vs := FieldValue(f).fields;
    var p := AlignUp(off, 8);
    var sig := SigOf(TypeOf(f.val));
    assert vs[1..][1..] == [];
    assert MarshalAll(vs, p) == [f.code] + MarshalAll(vs[1..], p + 1);
    assert MarshalAll(vs[1..], p + 1) == Marshal(vs[1], p + 1) + [];
  }

  lemma StepSignature(m: InMessage, p: nat, code: byte, sig: bytes)
    requires At(m.raw, p, [code]) && At(m.raw, p + 1, SigText(sig)) && |sig| < 0x100
    ensures StepField(m, p) == StepValue(m, code, sig, p + 2 + |sig| + 1)
  {
    hide At, StepValue, Reach;
    AtIndex(m.raw, p, [code], 0);
    AtSplit(m.raw, p + 1, [|sig|], sig + [0]);
    AtIndex(m.raw, p + 1, [|sig|], 0);
    AtSplit(m.raw, p + 2, sig, [0]);
    AtSlice(m.raw, p + 2, sig);
    ReachSlice(m, p + 2, p + 2 + |sig|);
  }

  lemma ReachSlice(m: InMessage, a: nat, b: nat)
    requires a <= b <= |m.raw|
    ensures b <= |Reach(m)| && Reach(m)[a..b] == m.raw[a..b]
  {
  }

  lemma AtSlice(data: bytes, pos: nat, b: bytes)
    requires At(data, pos, b)
    ensures pos + |b| <= |data| && data[pos..pos + |b|] == b
  {
  }

  lemma KnownSignatures()
    ensures Ascii("s") == [115] && Ascii("o") == [111] && Ascii("g") == [103] && Ascii("u") == [117]
  {
  }

  lemma KnownBySignature(v: Value)
    ensures Known(v) <==> SigOf(TypeOf(v)) in [[115], [111], [103], [117]]
    ensures v.VString? <==> SigOf(TypeOf(v)) == [115]
    ensures v.VObjPath? <==> SigOf(TypeOf(v)) == [111]
    ensures v.VSignature? <==> SigOf(TypeOf(v)) == [103]
    ensures v.VUint32? <==> SigOf(TypeOf(v)) == [117]
  {
  }

  lemma StepValueAt(m: InMessage, code: byte, v: Value, q: nat)
    requires Typed(v) && |Marshal(v, q)| < TWO_TO_THE_32 && At(m.raw, q, Marshal(v, q))
    ensures Known(v) ==> StepValue(m, code, SigOf(TypeOf(v)), q) ==
                         Next(if v.VString? || v.VObjPath? then SetField(m, code, v.s) else m, q + |Marshal(v, q)|)
    ensures !Known(v) ==> StepValue(m, code, SigOf(TypeOf(v)), q).Stop?
  {
    hide At, Text, SigText, Word, SetField, Ascii, Complete, SigOf, TypeOf, StepValue;
    KnownSignatures();
    KnownBySignature(v);
    var sig := SigOf(TypeOf(v));
    if v.VString? || v.VObjPath? {
      StepText(m, code, sig, v.s, q);
    } else if v.VSignature? {
      StepSigText(m, code, v.s, q);
    } else {
      StepOther(m, code, sig, q);
      WordEnd(v, q);
    }
  }

  lemma StepText(m: InMessage, code: byte, sig: bytes, s: bytes, q: nat)
    requires (sig == Ascii("s") || sig == Ascii("o")) && At(m.raw, q, Text(s, q)) && |s| < TWO_TO_THE_32
    ensures StepValue(m, code, sig, q) == Next(SetField(m, code, s), q + |Text(s, q)|)
  {
    hide At, Uint32, Text, SetField, Ascii, Reach, Align4;
    TextParts(m.raw, q, s);
    TextEnd(s, q);
    ReachSlice(m, Align4(q), Align4(q) + 4);
    ReachSlice(m, Align4(q) + 4, Align4(q) + 4 + |s|);
  }

  lemma StepSigText(m: InMessage, code: byte, s: bytes, q: nat)
    requires At(m.raw, q, SigText(s)) && |s| < 0x100
    ensures StepValue(m, code, [103], q) == Next(m, q + |SigText(s)|)
  {
    hide At, Uint32, SetField, Ascii, Reach, Align4;
    KnownSignatures();
    AtSplit(m.raw, q, [|s|], s + [0]);
    AtIndex(m.raw, q, [|s|], 0);
  }

  lemma StepOther(m: InMessage, code: byte, sig: bytes, q: nat)
    requires sig != [115] && sig != [111] && sig != [103]
    ensures StepValue(m, code, sig, q) == if sig == [117] then Next(m, Align4(q) + 4) else Stop(q)
  {
    hide Uint32, SetField, Ascii, Reach, Align4;
    KnownSignatures();
  }

  lemma WordEnd(v: Value, q: nat)
    ensures v.VUint32? ==> q + |Marshal(v, q)| == Align4(q) + 4
  {
    hide PutUint32;
  }

  lemma TextParts(data: bytes, q: nat, s: bytes)
    requires At(data, q, Text(s, q)) && |s| < TWO_TO_THE_32
    ensures var w := Align4(q);
            w + 4 + |s| < |data| && Uint32(data[w..w + 4]) == |s| && data[w + 4..w + 4 + |s|] == s
  {
    DecodeTextAt(data, q, s);
  }

  predicate AllKnown(fs: seq<Field>) {
    forall f | f in fs :: Known(f.val)
  }

  lemma WalkNothing(m: InMessage, off: nat)
    ensures WalkFields(m, off, off) == Walked(m, off)
  {
  }

  /**
   * On any list of well-formed fields, in any order and with any codes, the walk
   * never leaves the message, stores exactly the fields before the first unknown
   * type and, when there is none, ends exactly where the array ends.
   */
  lemma {:induction false} WalkMarshalled(m: InMessage, fs: seq<Field>, off: nat)
    requires TypedFields(fs) && |MarshalAll(FieldValues(fs), off)| < TWO_TO_THE_32
    requires At(m.raw, off, MarshalAll(FieldValues(fs), off))
    ensures var end := off + |MarshalAll(FieldValues(fs), off)|;
            WalkFields(m, off, end).Walked? && WalkFields(m, off, end).m == Assign(m, fs) &&
            (AllKnown(fs) ==> WalkFields(m, off, end).off == end)
    decreases |fs|
  {
    hide At, Marshal, FieldValue, StepField, Align8, TypedField, WalkFields;
    var end := off + |MarshalAll(FieldValues(fs), off)|;
    if fs == [] {
      WalkNothing(m, off);
    } else {
      var v := FieldValue(fs[0]);
      var vs := FieldValues(fs);
      assert vs == [v] + FieldValues(fs[1..]);
      assert vs[1..] == FieldValues(fs[1..]);
      var next := off + |Marshal(v, off)|;
      AtSplit(m.raw, off, Marshal(v, off), MarshalAll(vs[1..], next));
      StepFieldAt(m, fs[0], off);
      WalkStep(m, off, end);
      assert fs[0] in fs;
      if Known(fs[0].val) {
        var m' := StepField(m, Align8(off)).m;
        WalkMarshalled(m', fs[1..], next);
      }
    }
  }

  /** The text stored under one of the three codes the walk keeps. */
  function Stored(m: InMessage, code: byte): bytes {
    if code == PATH then m.path else if code == INTERFACE then m.iface else m.member
  }

  predicate Holds(f: Field, code: byte) {
    f.code == code && (f.val.VString? || f.val.VObjPath?)
  }

  /** Fields of known types with pairwise distinct codes are stored alike in every order. */
  lemma {:induction false} AssignInAnyOrder(m: InMessage, fs: seq<Field>, code: byte)
    requires AllKnown(fs) && code in {PATH, INTERFACE, MEMBER}
    requires forall i, j :: 0 <= i < j < |fs| ==> fs[i].code != fs[j].code
    ensures forall f | f in fs && Holds(f, code) :: Stored(Assign(m, fs), code) == f.val.s
    ensures (forall f | f in fs :: !Holds(f, code)) ==> Stored(Assign(m, fs), code) == Stored(m, code)
    decreases |fs|
  {
    if fs != [] {
      assert fs[0] in fs;
      var m' := if fs[0].val.VString? || fs[0].val.VObjPath? then SetField(m, fs[0].code, fs[0].val.s) else m;
      AssignInAnyOrder(m', fs[1..], code);
      assert forall f | f in fs[1..] :: f in fs;
      forall f | f in fs && Holds(f, code)
        ensures Stored(Assign(m, fs), code) == f.val.s
      {
        if f != fs[0] {
          assert f in fs[1..];
        } else {
          assert forall g | g in fs[1..] :: !Holds(g, code);
        }
      }
    }
  }

  // ----- Frames -----

  datatype ReadError = Eof | UnexpectedEof | Endianness(b: byte) | HeaderFault

  datatype ReadResult = Got(m: InMessage) | Failed(e: ReadError)

  /** io.ReadFull's error when fewer bytes are left than asked for. */
  function ShortRead(left: nat): ReadError {
    if left == 0 then Eof else UnexpectedEof
  }

  /** Where the fixed part of a header says that the field array ends. */
  function HeaderEnd(hdr: bytes): (n: nat)
    requires |hdr| >= 16
    ensures n >= 16
  {
    var len: int := Uint32(hdr[12..16]);
    16 + len
  }

  /** The length of the whole message; its body starts at the next multiple of eight. */
  function Total(hdr: bytes): (n: nat)
    requires |hdr| >= 16
    ensures n >= Align8(HeaderEnd(hdr)) >= HeaderEnd(hdr)
  {
    Align8(HeaderEnd(hdr)) + Uint32(hdr[4..8])
  }

  /** The message a whole frame is read as. */
  function Parsed(raw: bytes, room: Room): ReadResult
    requires |raw| >= 16
  {
    var m := InMessage(raw[1], Uint32(raw[8..12]), [], [], [], raw, Align8(HeaderEnd(raw)), room(|raw|));
    match WalkFields(m, 16, HeaderEnd(raw))
    case Fault => Failed(HeaderFault)
    case Walked(m', _) => Got(m')
  }

  /** What one read makes of the bytes still to come: its result and what it leaves unread. */
  function ReadSpec(input: bytes, room: Room): (r: (ReadResult, bytes))
    ensures |r.1| <= |input| && (r.0.Got? ==> |r.1| < |input|)
  {
    if |input| < 16 then (Failed(ShortRead(|input|)), [])
    else if input[0] != LITTLE_ENDIAN then (Failed(Endianness(input[0])), input[16..])
    else if |input| < Total(input) then (Failed(ShortRead(|input| - 16)), [])
    else (Parsed(input[..Total(input)], room), input[Total(input)..])
  }

  /** The number that four bytes give, the first counting least. */
  function LittleEndian(a: byte, b: byte, c: byte, d: byte): nat {
    var (a: int, b: int, c: int, d: int) := (a, b, c, d);
    a + 256 * b + 65536 * c + 16777216 * d
  }

  /**
   * When a read fails before the header is walked and what it has consumed: nothing left, too little left, a first
   * byte other than 'l', or fewer bytes than the two lengths in the header call for.
   */
  lemma ReadFails(input: bytes, room: Room)
    ensures input == [] ==> ReadSpec(input, room) == (Failed(Eof), [])
    ensures 0 < |input| < 16 ==> ReadSpec(input, room) == (Failed(UnexpectedEof), [])
    ensures |input| >= 16 && input[0] != 108 ==> ReadSpec(input, room) == (Failed(Endianness(input[0])), input[16..])
    ensures |input| >= 16 && input[0] == 108 ==>
              var fields := LittleEndian(input[12], input[13], input[14], input[15]);
              var body := LittleEndian(input[4], input[5], input[6], input[7]);
              var total := (16 + fields + 7) / 8 * 8 + body;
              if |input| < total then
                ReadSpec(input, room) == (Failed(if |input| == 16 then Eof else UnexpectedEof), [])
              else
                ReadSpec(input, room) == (Parsed(input[..total], room), input[total..])
  {
    hide Parsed;
  }

  /** The message a reader makes of a frame. */
  function Received(h: Header, fs: seq<Field>, body: bytes, room: Room): InMessage {
    Assign(Unread(h, fs, body, room), fs)
  }

  /** The message before the walk over its header fields. */
  function Unread(h: Header, fs: seq<Field>, body: bytes, room: Room): InMessage {
    InMessage(h.typ, h.serial, [], [], [], Frame(h, fs, body), BodyStart(fs), room(|Frame(h, fs, body)|))
  }

  lemma FieldArrayParts(fs: seq<Field>, data: bytes)
    requires At(data, 12, FieldArray(fs)) && |FieldArray(fs)| < TWO_TO_THE_32
    ensures |data| >= 16 && |FieldArray(fs)| >= 4 && Uint32(data[12..16]) == |FieldArray(fs)| - 4
    ensures |MarshalAll(FieldValues(fs), 16)| == |FieldArray(fs)| - 4 && At(data, 16, MarshalAll(FieldValues(fs), 16))
  {
    hide MarshalAll, FieldValues, Uint32, PutUint32, At;
    var b := MarshalAll(FieldValues(fs), 16);
    FieldArrayLayout(fs);
    AtSplit(data, 12, PutUint32(Truncate32(|b|)), b);
    assert At(data, 12, PutUint32(Truncate32(|b|)));
    Uint32RoundTrip(Truncate32(|b|));
    WordAt(data, 12, Truncate32(|b|));
  }

  lemma WordAt(data: bytes, pos: nat, n: uint32)
    requires At(data, pos, PutUint32(n))
    ensures pos + 4 <= |data| && Uint32(data[pos..pos + 4]) == n
  {
    Uint32RoundTrip(n);
  }

  lemma FieldArrayLayout(fs: seq<Field>)
    ensures var b := MarshalAll(FieldValues(fs), 16);
            FieldArray(fs) == PutUint32(Truncate32(|b|)) + b
  {
    hide MarshalAll, FieldValues, PutUint32;
  }

  // What the fixed header of a frame says about it.
  lemma FrameSizes(h: Header, fs: seq<Field>, body: bytes, data: bytes)
    requires Frame(h, fs, body) <= data && |Frame(h, fs, body)| < TWO_TO_THE_32
    ensures |data| >= 16 && data[0] == LITTLE_ENDIAN && data[1] == h.typ && Uint32(data[8..12]) == h.serial
    ensures HeaderEnd(data) == 12 + |FieldArray(fs)| == 16 + |MarshalAll(FieldValues(fs), 16)|
    ensures Align8(HeaderEnd(data)) == BodyStart(fs) && Total(data) == |Frame(h, fs, body)|
    ensures At(data, 16, MarshalAll(FieldValues(fs), 16))
  {
    hide At, Padding, FieldArray, Frame, FixedHeader, MarshalAll, FieldValues, Uint32;
    FrameAt(h, fs, body, data);
    FrameParts(h, fs, body, data);
    FixedHeaderParts(h, Truncate32(|body|), data);
    FieldArrayParts(fs, data);
  }

  /** A call of 24 bytes whose one header field declares a signature of 200 bytes. */
  function TooLong(): bytes {
    [LITTLE_ENDIAN, METHOD_CALL, 0, 1, 0, 0, 0, 0, 1, 0, 0, 0, 8, 0, 0, 0, PATH, 200, 0, 0, 0, 0, 0, 0]
  }

  /** Reading it faults, unless the runtime happens to leave as much spare capacity. */
  lemma TooLongFaults(room: Room)
    requires room(24) < 194
    ensures ReadSpec(TooLong(), room) == (Failed(HeaderFault), [])
  {
    hide WalkFields, StepField, Align8, Uint32;
    var raw := TooLong();
    var m := InMessage(METHOD_CALL, 1, [], [], [], raw, 24, room(24));
    TooLongHeader();
    assert raw[..24] == raw && raw[24..] == [];
    WalkStep(m, 16, 24);
    StepBeyondIff(m, 16);
    var n: nat := m.raw[17];
  }

  lemma TooLongHeader()
    ensures var raw := TooLong();
            |raw| == 24 && Uint32(raw[8..12]) == 1 && HeaderEnd(raw) == 24 && Total(raw) == 24 && Align8(24) == 24 &&
            Align8(16) == 16
  {
    var raw := TooLong();
    assert raw[8..12] == [1, 0, 0, 0] && raw[12..16] == [8, 0, 0, 0] && raw[4..8] == [0, 0, 0, 0];
  }

  /** A well-formed frame is read back whole, wherever the stream goes on, and nothing after it is touched. */
  lemma ReadFrame(h: Header, fs: seq<Field>, body: bytes, rest: bytes, room: Room)
    requires TypedFields(fs) && |Frame(h, fs, body)| < TWO_TO_THE_32
    ensures ReadSpec(Frame(h, fs, body) + rest, room) == (Got(Received(h, fs, body, room)), rest)
  {
    hide At, Padding, FieldArray, Frame, FixedHeader, MarshalAll, FieldValues, WalkFields, Assign, Uint32, TypedFields,
      AlignUp;
    var raw := Frame(h, fs, body);
    var input := raw + rest;
    FrameSizes(h, fs, body, input);
    assert input[..|raw|] == raw && input[|raw|..] == rest;
    FrameSizes(h, fs, body, raw);
    WalkMarshalled(Unread(h, fs, body, room), fs, 16);
  }

  // ----- The body decoders -----

  function ObjPathsFrom(raw: bytes, off: nat, end: nat): seq<bytes>
    decreases end - off
  {
    if off >= end then []
    else
      var p := Align4(off);
      if p + 4 > |raw| then []
      else
        var l := Uint32(raw[p..p + 4]);
        if p + 4 + l > |raw| then []
        else [raw[p + 4..p + 4 + l]] + ObjPathsFrom(raw, p + 4 + l + 1, end)
  }

  /** The paths a leading ao argument is read as. */
  function ObjPathsOf(m: InMessage): seq<bytes> {
    var off := Align4(m.bodyStart);
    if off + 4 > |m.raw| then []
    else ObjPathsFrom(m.raw, off + 4, off + 4 + Uint32(m.raw[off..off + 4]))
  }

  method BodyObjPaths(m: InMessage) returns (out: seq<bytes>)
    ensures out == ObjPathsOf(m)
  {
    hide Uint32, Align4;
    var off := Align4(m.bodyStart);
    if off + 4 > |m.raw| {
      return [];
    }
    var arrLen := Uint32(m.raw[off..off + 4]);
    off := off + 4;
    var end := off + arrLen;
    ghost var all := ObjPathsFrom(m.raw, off, end);
    out := [];
    while off < end
      invariant out + ObjPathsFrom(m.raw, off, end) == all
      decreases end - off
    {
      Align4Bounds(off);
      off := Align4(off);
      if off + 4 > |m.raw| {
        break;
      }
      var l := Uint32(m.raw[off..off + 4]);
      off := off + 4;
      if off + l > |m.raw| {
        break;
      }
      out := out + [m.raw[off..off + l]];
      off := off + l + 1;
    }
  }

  lemma Align4Bounds(n: nat)
    ensures n <= Align4(n) < n + 4
  {
  }

  function StringsFrom(raw: bytes, off: nat, n: nat): seq<bytes>
    decreases n
  {
    var p := Align4(off);
    if n == 0 || p + 4 > |raw| then []
    else
      var l := Uint32(raw[p..p + 4]);
      if p + 4 + l > |raw| then []
      else [raw[p + 4..p + 4 + l]] + StringsFrom(raw, p + 4 + l + 1, n - 1)
  }

  method BodyStrings(m: InMessage, n: nat) returns (out: seq<bytes>)
    ensures out == StringsFrom(m.raw, m.bodyStart, n)
  {
    hide Uint32, Align4;
    var off: nat := m.bodyStart;
    out := [];
    var i := 0;
    while i < n
      invariant i <= n
      invariant out + StringsFrom(m.raw, off, n - i) == StringsFrom(m.raw, m.bodyStart, n)
    {
      off := Align4(off);
      if off + 4 > |m.raw| {
        break;
      }
      var l := Uint32(m.raw[off..off + 4]);
      off := off + 4;
      if off + l > |m.raw| {
        break;
      }
      out := out + [m.raw[off..off + l]];
      off := off + l + 1;
      i := i + 1;
    }
  }

  function PathValues(paths: seq<bytes>): (vs: seq<Value>)
    ensures |vs| == |paths|
  {
    seq(|paths|, i requires 0 <= i < |paths| => VObjPath(paths[i]))
  }

  /** Reading inverts writing a list of paths, at any offset and whatever follows. */
  lemma {:induction false} ObjPathsWritten(raw: bytes, paths: seq<bytes>, off: nat)
    requires |MarshalAll(PathValues(paths), off)| < TWO_TO_THE_32
    requires At(raw, off, MarshalAll(PathValues(paths), off))
    ensures ObjPathsFrom(raw, off, off + |MarshalAll(PathValues(paths), off)|) == paths
    decreases |paths|
  {
    hide At, Uint32, Align4, Text;
    if paths != [] {
      assert PathValues(paths)[1..] == PathValues(paths[1..]);
      var b := Text(paths[0], off);
      AtSplit(raw, off, b, MarshalAll(PathValues(paths[1..]), off + |b|));
      TextParts(raw, off, paths[0]);
      TextEnd(paths[0], off);
      ObjPathsWritten(raw, paths[1..], off + |b|);
      assert [paths[0]] + paths[1..] == paths;
    }
  }

  lemma TextEnd(s: bytes, off: nat)
    ensures off + |Text(s, off)| == Align4(off) + 4 + |s| + 1
  {
  }

  function TextValues(texts: seq<bytes>): (vs: seq<Value>)
    ensures |vs| == |texts|
  {
    seq(|texts|, i requires 0 <= i < |texts| => VString(texts[i]))
  }

  /** Reading inverts writing a number of strings, at any offset and whatever follows. */
  lemma {:induction false} StringsWritten(raw: bytes, texts: seq<bytes>, off: nat)
    requires |MarshalAll(TextValues(texts), off)| < TWO_TO_THE_32
    requires At(raw, off, MarshalAll(TextValues(texts), off))
    ensures StringsFrom(raw, off, |texts|) == texts
    decreases |texts|
  {
    hide At, Uint32, Align4, Text;
    if texts != [] {
      assert TextValues(texts)[1..] == TextValues(texts[1..]);
      var b := Text(texts[0], off);
      AtSplit(raw, off, b, MarshalAll(TextValues(texts[1..]), off + |b|));
      TextParts(raw, off, texts[0]);
      TextEnd(texts[0], off);
      StringsWritten(raw, texts[1..], off + |b|);
      assert [texts[0]] + texts[1..] == texts;
    }
  }

  /** The decoder of a leading ao argument inverts the marshaller at the start of any body. */
  lemma ObjPathsOfBody(m: InMessage, paths: seq<bytes>)
    requires var b := Marshal(VArray(TObjPath, PathValues(paths)), m.bodyStart);
             |b| < TWO_TO_THE_32 && At(m.raw, m.bodyStart, b)
    ensures ObjPathsOf(m) == paths
  {
    hide At, MarshalAll, Uint32, PathValues, Word;
    var first := AlignUp(m.bodyStart, 4) + 4;
    var body := MarshalAll(PathValues(paths), first);
    ObjPathArrayLayout(paths, m.bodyStart);
    AtSplit(m.raw, m.bodyStart, Word(Truncate32(|body|), m.bodyStart), body);
    WordParts(m.raw, m.bodyStart, Truncate32(|body|));
    ObjPathsWritten(m.raw, paths, first);
  }

  lemma WordParts(data: bytes, pos: nat, n: uint32)
    requires At(data, pos, Word(n, pos))
    ensures Align4(pos) + 4 <= |data| && Uint32(data[Align4(pos)..Align4(pos) + 4]) == n
  {
    DecodeWordAt(data, pos, n);
  }

  lemma ObjPathArrayLayout(paths: seq<bytes>, pos: nat)
    ensures var first := AlignUp(pos, 4) + 4;
            var body := MarshalAll(PathValues(paths), first);
            Marshal(VArray(TObjPath, PathValues(paths)), pos) == Word(Truncate32(|body|), pos) + body
  {
    hide MarshalAll, Word, PathValues;
  }

  lemma Aligned4(n: nat)
    requires n % 4 == 0
    ensures Align4(n) == n && Align4(n + 4) == n + 4
  {
  }

  // The word and the text after it, at the end of a message.
  lemma LastWord(raw: bytes, head: bytes, n: uint32, s: bytes)
    requires raw == head + (PutUint32(n) + s)
    ensures |raw| == |head| + 4 + |s| && Uint32(raw[|head|..|head| + 4]) == n && raw[|head| + 4..] == s
    ensures n <= |s| ==> raw[|head| + 4..|head| + 4 + n] == s[..n]
  {
    hide PutUint32, Uint32;
    Uint32RoundTrip(n);
    assert raw[|head|..|head| + 4] == PutUint32(n);
  }

  /** A string at the end of a message is read exactly when as many bytes are left as its length says. */
  lemma LastString(raw: bytes, head: bytes, n: uint32, s: bytes)
    requires raw == head + (PutUint32(n) + s) && |head| % 4 == 0
    ensures StringsFrom(raw, |head|, 1) == if n <= |s| then [s[..n]] else []
  {
    hide PutUint32, Uint32, Align4;
    Aligned4(|head|);
    LastWord(raw, head, n, s);
  }

  /** So is a path of an array, whatever the array's length says beyond that; an empty array holds none. */
  lemma LastPath(m: InMessage, head: bytes, len: uint32, n: uint32, s: bytes)
    requires m.raw == head + (PutUint32(len) + (PutUint32(n) + s)) && |head| % 4 == 0 && m.bodyStart == |head|
    requires len <= n + 5 || |s| <= n
    ensures ObjPathsOf(m) == if 0 < len && n <= |s| then [s[..n]] else []
  {
    hide PutUint32, Uint32, Align4;
    var first := head + PutUint32(len);
    assert m.raw == first + (PutUint32(n) + s);
    Aligned4(|head|);
    LastWord(m.raw, head, len, PutUint32(n) + s);
    LastWord(m.raw, first, n, s);
    Aligned4(|first|);
    var end, next := |first| + len, |first| + 4 + n + 1;
    AlignForward(next);
    if n <= |s| {
      assert next >= end || Align4(next) + 4 > |m.raw|;
      assert ObjPathsFrom(m.raw, next, end) == [];
    }
  }

  lemma AlignForward(n: nat)
    ensures n <= Align4(n)
  {
  }
}

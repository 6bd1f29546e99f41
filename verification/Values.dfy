/**
 * D-Bus values, their marshalled form and a strict, signature-driven decoder
 * ("Marshaling (Wire Format)" of the D-Bus Specification).  This is the reference
 * the service's encoder is proved against; it contains no backpatching.
 */
module Values {
  import opened Bytes
  import opened Options
  import opened Signatures

  datatype Value =
    | VByte(b: byte)
    | VBool(on: bool)
    | VUint32(n: uint32)
    | VString(s: bytes)
    | VObjPath(s: bytes)
    | VSignature(s: bytes)
    | VVariant(ty: Type, val: Value)
    | VArray(elem: Type, items: seq<Value>)
    | VStruct(fields: seq<Value>)
    | VEntry(key: Value, val: Value)

  function TypeOf(v: Value): Type {
    match v
    case VByte(_) => TByte
    case VBool(_) => TBool
    case VUint32(_) => TUint32
    case VString(_) => TString
    case VObjPath(_) => TObjPath
    case VSignature(_) => TSignature
    case VVariant(_, _) => TVariant
    case VArray(e, _) => TArray(e)
    case VStruct(fs) => TStruct(TypesOf(fs))
    case VEntry(k, w) => TEntry(TypeOf(k), TypeOf(w))
  }

  function TypesOf(vs: seq<Value>): (ts: seq<Type>)
    ensures |ts| == |vs|
  {
    if vs == [] then [] else [TypeOf(vs[0])] + TypesOf(vs[1..])
  }

  /**
   * A value D-Bus can carry: array items of the declared element type, variants of
   * one complete type whose signature's length fits in a byte, no empty struct.
   */
  predicate Typed(v: Value) {
    match v
    case VVariant(ty, w) => Complete(ty) && |SigOf(ty)| < 0x100 && Typed(w) && TypeOf(w) == ty
    case VArray(e, items) => forall w | w in items :: Typed(w) && TypeOf(w) == e
    case VStruct(fs) => fs != [] && forall w | w in fs :: Typed(w)
    case VEntry(k, w) => Typed(k) && Typed(w)
    case VSignature(s) => |s| < 0x100
    case _ => true
  }

  function Alignment(t: Type): alignment {
    match t
    case TByte => 1
    case TSignature => 1
    case TVariant => 1
    case TStruct(_) => 8
    case TEntry(_, _) => 8
    case _ => 4
  }

  /** A four-byte word at offset pos, padded to its alignment. */
  function Word(n: uint32, pos: nat): (b: bytes)
    ensures |b| == AlignUp(pos, 4) + 4 - pos
  {
    Padding(pos, 4) + PutUint32(n)
  }

  function Text(s: bytes, pos: nat): (b: bytes)
    ensures |b| == AlignUp(pos, 4) + 4 - pos + |s| + 1
  {
    Word(Truncate32(|s|), pos) + (s + [0])
  }

  function SigText(s: bytes): (b: bytes)
    ensures |b| == |s| + 2
  {
    [|s| % 0x100] + (s + [0])
  }

  /** The bytes of v when its first padding byte lies at offset pos of the message. */
  function Marshal(v: Value, pos: nat): bytes
    decreases v
  {
    match v
    case VByte(b) => [b]
    case VBool(on) => Word(if on then 1 else 0, pos)
    case VUint32(n) => Word(n, pos)
    case VString(s) => Text(s, pos)
    case VObjPath(s) => Text(s, pos)
    case VSignature(s) => SigText(s)
    case VVariant(ty, w) => SigText(SigOf(ty)) + Marshal(w, pos + |SigOf(ty)| + 2)
    case VArray(e, items) =>
      var first := AlignUp(pos, 4) + 4;
      var body := MarshalAll(items, AlignUp(first, Alignment(e)));
      Word(Truncate32(|body|), pos) + (Padding(first, Alignment(e)) + body)
    case VStruct(fs) => Padding(pos, 8) + MarshalAll(fs, AlignUp(pos, 8))
    case VEntry(k, w) =>
      var kb := Marshal(k, AlignUp(pos, 8));
      Padding(pos, 8) + (kb + Marshal(w, AlignUp(pos, 8) + |kb|))
  }

  function MarshalAll(vs: seq<Value>, pos: nat): bytes
    decreases vs
  {
    if vs == [] then []
    else
      var b := Marshal(vs[0], pos);
      b + MarshalAll(vs[1..], pos + |b|)
  }

  // ----- Decoding -----

  /** Steps over the padding to a multiple of n, which must be zero bytes. */
  function Skip(data: bytes, pos: nat, n: alignment): (r: Option<nat>)
    ensures r.Some? ==> pos <= r.value <= |data|
  {
    if At(data, pos, Padding(pos, n)) then Some(AlignUp(pos, n)) else None
  }

  function DecodeWord(data: bytes, pos: nat): (r: Option<(uint32, nat)>)
    ensures r.Some? ==> pos + 4 <= r.value.1 <= |data|
  {
    var p :- Skip(data, pos, 4);
    if p + 4 <= |data| then Some((Uint32(data[p..p + 4]), p + 4)) else None
  }

  /** n bytes and the NUL after them. */
  function DecodeTerminated(data: bytes, pos: nat, n: nat): (r: Option<(bytes, nat)>)
    ensures r.Some? ==> pos < r.value.1 <= |data|
  {
    if pos + n < |data| && data[pos + n] == 0 then Some((data[pos..pos + n], pos + n + 1)) else None
  }

  function DecodeText(data: bytes, pos: nat): (r: Option<(bytes, nat)>)
    ensures r.Some? ==> pos < r.value.1 <= |data|
  {
    var (n, p) :- DecodeWord(data, pos);
    DecodeTerminated(data, p, n)
  }

  function DecodeSigText(data: bytes, pos: nat): (r: Option<(bytes, nat)>)
    ensures r.Some? ==> pos < r.value.1 <= |data|
  {
    if pos < |data| then DecodeTerminated(data, pos + 1, data[pos]) else None
  }

  /** Reads a value of type t at offset pos; the second component is the offset after it. */
  function Decode(t: Type, data: bytes, pos: nat): (r: Option<(Value, nat)>)
    requires pos <= |data|
    ensures r.Some? ==> pos < r.value.1 <= |data|
    decreases |data| - pos, t, 0
  {
    match t
    case TByte => if pos < |data| then Some((VByte(data[pos]), pos + 1)) else None
    case TBool =>
      var (n, p) :- DecodeWord(data, pos);
      if n <= 1 then Some((VBool(n == 1), p)) else None
    case TUint32 =>
      var (n, p) :- DecodeWord(data, pos);
      Some((VUint32(n), p))
    case TString =>
      var (s, p) :- DecodeText(data, pos);
      Some((VString(s), p))
    case TObjPath =>
      var (s, p) :- DecodeText(data, pos);
      Some((VObjPath(s), p))
    case TSignature =>
      var (s, p) :- DecodeSigText(data, pos);
      Some((VSignature(s), p))
    case TVariant =>
      var (s, p) :- DecodeSigText(data, pos);
      var (ty, j) :- ParseType(s, 0);
      if j != |s| then None
      else
        var (w, q) :- Decode(ty, data, p);
        Some((VVariant(ty, w), q))
    case TArray(e) =>
      var (n, p) :- DecodeWord(data, pos);
      var q :- Skip(data, p, Alignment(e));
      if q + n > |data| then None
      else
        var items :- DecodeItems(e, data, q, q + n);
        Some((VArray(e, items), q + n))
    case TStruct(ts) =>
      var p :- Skip(data, pos, 8);
      if ts == [] then None
      else
        var (ws, q) :- DecodeAll(ts, data, p);
        Some((VStruct(ws), q))
    case TEntry(kt, vt) =>
      var p :- Skip(data, pos, 8);
      var (k, q) :- Decode(kt, data, p);
      var (w, r) :- Decode(vt, data, q);
      Some((VEntry(k, w), r))
  }

  /** Reads values of the given types one after another. */
  function DecodeAll(ts: seq<Type>, data: bytes, pos: nat): (r: Option<(seq<Value>, nat)>)
    requires pos <= |data|
    ensures r.Some? ==> pos <= r.value.1 <= |data| && (ts != [] ==> pos < r.value.1)
    decreases |data| - pos, ts, 0
  {
    if ts == [] then Some(([], pos))
    else
      var (v, p) :- Decode(ts[0], data, pos);
      var (vs, q) :- DecodeAll(ts[1..], data, p);
      Some(([v] + vs, q))
  }

  /** Reads items of type e that fill data[pos..end] exactly. */
  function DecodeItems(e: Type, data: bytes, pos: nat, end: nat): Option<seq<Value>>
    requires pos <= end <= |data|
    decreases |data| - pos, e, 1
  {
    if pos == end then Some([])
    else
      var (v, p) :- Decode(e, data, pos);
      if p > end then None
      else
        var vs :- DecodeItems(e, data, p, end);
        Some([v] + vs)
  }

  // ----- Round trip -----

  lemma DecodeWordAt(data: bytes, pos: nat, n: uint32)
    requires At(data, pos, Word(n, pos))
    ensures DecodeWord(data, pos) == Some((n, pos + |Word(n, pos)|))
  {
    AtSplit(data, pos, Padding(pos, 4), PutUint32(n));
    Uint32RoundTrip(n);
  }

  lemma DecodeTerminatedAt(data: bytes, pos: nat, s: bytes)
    requires At(data, pos, s + [0])
    ensures DecodeTerminated(data, pos, |s|) == Some((s, pos + |s| + 1))
  {
    AtSplit(data, pos, s, [0]);
    AtIndex(data, pos + |s|, [0], 0);
  }

  lemma DecodeTextAt(data: bytes, pos: nat, s: bytes)
    requires At(data, pos, Text(s, pos)) && |s| < TWO_TO_THE_32
    ensures DecodeText(data, pos) == Some((s, pos + |Text(s, pos)|))
  {
    hide At, AlignUp, Padding, Word, DecodeWord, DecodeTerminated;
    AtSplit(data, pos, Word(|s|, pos), s + [0]);
    DecodeWordAt(data, pos, |s|);
    DecodeTerminatedAt(data, pos + |Word(|s|, pos)|, s);
  }

  lemma DecodeSigTextAt(data: bytes, pos: nat, s: bytes)
    requires At(data, pos, SigText(s)) && |s| < 0x100
    ensures DecodeSigText(data, pos) == Some((s, pos + |s| + 2))
  {
    AtSplit(data, pos, [|s|], s + [0]);
    AtIndex(data, pos, [|s|], 0);
    DecodeTerminatedAt(data, pos + 1, s);
  }

  /** Whatever surrounds it, a marshalled value decodes to itself and is consumed exactly. */
  lemma {:induction false} DecodeMarshal(v: Value, data: bytes, pos: nat)
    requires Typed(v) && |Marshal(v, pos)| < TWO_TO_THE_32
    requires At(data, pos, Marshal(v, pos))
    ensures Decode(TypeOf(v), data, pos) == Some((v, pos + |Marshal(v, pos)|))
    decreases v, 1
  {
    hide At, Decode, Marshal, Complete;
    match v
    case VVariant(ty, w) => DecodeVariant(ty, w, data, pos);
    case VArray(e, items) => DecodeArray(e, items, data, pos);
    case VStruct(fs) => DecodeStruct(fs, data, pos);
    case VEntry(k, w) => DecodeEntry(k, w, data, pos);
    case _ => DecodeBasic(v, data, pos);
  }

  lemma DecodeBasic(v: Value, data: bytes, pos: nat)
    requires !v.VVariant? && !v.VArray? && !v.VStruct? && !v.VEntry?
    requires Typed(v) && |Marshal(v, pos)| < TWO_TO_THE_32 && At(data, pos, Marshal(v, pos))
    ensures Decode(TypeOf(v), data, pos) == Some((v, pos + |Marshal(v, pos)|))
  {
    hide At, AlignUp, Padding, Word, Text, SigText, DecodeWord, DecodeText, DecodeSigText, SigOf, ParseType, Complete,
      DecodeItems, DecodeAll, MarshalAll;
    match v
    case VByte(b) => AtIndex(data, pos, [b], 0);
    case VBool(on) => DecodeWordAt(data, pos, if on then 1 else 0);
    case VUint32(n) => DecodeWordAt(data, pos, n);
    case VString(s) => DecodeTextAt(data, pos, s);
    case VObjPath(s) => DecodeTextAt(data, pos, s);
    case VSignature(s) => DecodeSigTextAt(data, pos, s);
  }

  lemma {:induction false} DecodeVariant(ty: Type, w: Value, data: bytes, pos: nat)
    requires Typed(VVariant(ty, w)) && |Marshal(VVariant(ty, w), pos)| < TWO_TO_THE_32
    requires At(data, pos, Marshal(VVariant(ty, w), pos))
    ensures Decode(TVariant, data, pos) == Some((VVariant(ty, w), pos + |Marshal(VVariant(ty, w), pos)|))
    decreases VVariant(ty, w), 0
  {
    hide At, AlignUp, Padding, SigOf, ParseType, Complete, DecodeSigText, DecodeWord, DecodeText;
    hide Word, Text, SigText, MarshalAll, DecodeAll, DecodeItems, TypesOf;
    var s := SigOf(ty);
    AtSplit(data, pos, SigText(s), Marshal(w, pos + |s| + 2));
    DecodeSigTextAt(data, pos, s);
    ParseSigOf(ty, s, 0);
    DecodeMarshal(w, data, pos + |s| + 2);
  }

  lemma {:induction false} DecodeArray(e: Type, items: seq<Value>, data: bytes, pos: nat)
    requires Typed(VArray(e, items)) && |Marshal(VArray(e, items), pos)| < TWO_TO_THE_32
    requires At(data, pos, Marshal(VArray(e, items), pos))
    ensures Decode(TArray(e), data, pos) == Some((VArray(e, items), pos + |Marshal(VArray(e, items), pos)|))
    decreases VArray(e, items), 0
  {
    hide At, AlignUp, SigOf, ParseType, Complete, DecodeSigText, DecodeText, DecodeItems, MarshalAll;
    hide Word, Text, SigText, DecodeAll, TypesOf, DecodeWord, Padding;
    var first := AlignUp(pos, 4) + 4;
    var start := AlignUp(first, Alignment(e));
    var body := MarshalAll(items, start);
    AtSplit(data, pos, Word(Truncate32(|body|), pos), Padding(first, Alignment(e)) + body);
    DecodeWordAt(data, pos, Truncate32(|body|));
    AtSplit(data, first, Padding(first, Alignment(e)), body);
    DecodeItemsAt(e, items, data, start);
  }

  lemma {:induction false} DecodeStruct(fs: seq<Value>, data: bytes, pos: nat)
    requires Typed(VStruct(fs)) && |Marshal(VStruct(fs), pos)| < TWO_TO_THE_32
    requires At(data, pos, Marshal(VStruct(fs), pos))
    ensures Decode(TStruct(TypesOf(fs)), data, pos) == Some((VStruct(fs), pos + |Marshal(VStruct(fs), pos)|))
    decreases VStruct(fs), 0
  {
    AtSplit(data, pos, Padding(pos, 8), MarshalAll(fs, AlignUp(pos, 8)));
    DecodeAllAt(fs, data, AlignUp(pos, 8));
  }

  lemma EntryParts(k: Value, w: Value, data: bytes, pos: nat)
    requires At(data, pos, Marshal(VEntry(k, w), pos))
    ensures var p := AlignUp(pos, 8);
            At(data, pos, Padding(pos, 8)) && At(data, p, Marshal(k, p)) &&
            At(data, p + |Marshal(k, p)|, Marshal(w, p + |Marshal(k, p)|)) &&
            pos + |Marshal(VEntry(k, w), pos)| == p + |Marshal(k, p)| + |Marshal(w, p + |Marshal(k, p)|)|
  {
    hide At, AlignUp, Padding;
    var p := AlignUp(pos, 8);
    var kb := Marshal(k, p);
    var wb := Marshal(w, p + |kb|);
    AtSplit(data, pos, Padding(pos, 8), kb + wb);
    AtSplit(data, p, kb, wb);
  }

  // The two directions of Decode's definition on an entry.
  lemma EntryStep(kt: Type, vt: Type, data: bytes, pos: nat, k: Value, q: nat)
    requires pos <= |data| && At(data, pos, Padding(pos, 8)) && AlignUp(pos, 8) <= |data|
    requires Decode(kt, data, AlignUp(pos, 8)) == Some((k, q)) && Decode(vt, data, q).Some?
    ensures var (w, r) := Decode(vt, data, q).value;
            Decode(TEntry(kt, vt), data, pos) == Some((VEntry(k, w), r))
  {
    hide At, AlignUp, Padding;
  }

  lemma EntryUnstep(kt: Type, vt: Type, data: bytes, pos: nat) returns (k: Value, q: nat)
    requires pos <= |data| && Decode(TEntry(kt, vt), data, pos).Some?
    ensures At(data, pos, Padding(pos, 8)) && AlignUp(pos, 8) <= |data|
    ensures Decode(kt, data, AlignUp(pos, 8)) == Some((k, q)) && Decode(vt, data, q).Some?
    ensures var (w, r) := Decode(vt, data, q).value;
            Decode(TEntry(kt, vt), data, pos) == Some((VEntry(k, w), r))
  {
    hide At, AlignUp, Padding;
    SkipSound(data, pos, 8);
    k, q := Decode(kt, data, AlignUp(pos, 8)).value.0, Decode(kt, data, AlignUp(pos, 8)).value.1;
  }

  lemma {:induction false} DecodeEntry(k: Value, w: Value, data: bytes, pos: nat)
    requires Typed(k) && Typed(w) && |Marshal(VEntry(k, w), pos)| < TWO_TO_THE_32
    requires At(data, pos, Marshal(VEntry(k, w), pos))
    ensures Decode(TEntry(TypeOf(k), TypeOf(w)), data, pos) == Some((VEntry(k, w), pos + |Marshal(VEntry(k, w), pos)|))
    decreases VEntry(k, w), 0
  {
    hide At, AlignUp, Padding, Marshal, TypeOf, Typed, Decode;
    var p := AlignUp(pos, 8);
    EntryParts(k, w, data, pos);
    DecodeMarshal(k, data, p);
    DecodeMarshal(w, data, p + |Marshal(k, p)|);
    EntryStep(TypeOf(k), TypeOf(w), data, pos, k, p + |Marshal(k, p)|);
  }

  lemma {:induction false} DecodeAllAt(vs: seq<Value>, data: bytes, pos: nat)
    requires (forall v | v in vs :: Typed(v)) && |MarshalAll(vs, pos)| < TWO_TO_THE_32
    requires At(data, pos, MarshalAll(vs, pos))
    ensures DecodeAll(TypesOf(vs), data, pos) == Some((vs, pos + |MarshalAll(vs, pos)|))
    decreases vs, 2
  {
    hide At, Decode, Marshal, TypeOf, Typed;
    if vs != [] {
      var b := Marshal(vs[0], pos);
      AtSplit(data, pos, b, MarshalAll(vs[1..], pos + |b|));
      DecodeMarshal(vs[0], data, pos);
      DecodeAllAt(vs[1..], data, pos + |b|);
      assert [vs[0]] + vs[1..] == vs;
    }
  }

  lemma {:induction false} DecodeItemsAt(e: Type, vs: seq<Value>, data: bytes, pos: nat)
    requires (forall v | v in vs :: Typed(v) && TypeOf(v) == e) && |MarshalAll(vs, pos)| < TWO_TO_THE_32
    requires At(data, pos, MarshalAll(vs, pos))
    ensures DecodeItems(e, data, pos, pos + |MarshalAll(vs, pos)|) == Some(vs)
    decreases vs, 2
  {
    hide At, Decode, Marshal, TypeOf, Typed;
    if vs != [] {
      var b := Marshal(vs[0], pos);
      AtSplit(data, pos, b, MarshalAll(vs[1..], pos + |b|));
      DecodeMarshal(vs[0], data, pos);
      DecodeItemsAt(e, vs[1..], data, pos + |b|);
      assert [vs[0]] + vs[1..] == vs;
    }
  }

  // ----- The decoder accepts nothing but marshalled values -----

  lemma SkipSound(data: bytes, pos: nat, n: alignment)
    requires Skip(data, pos, n).Some?
    ensures At(data, pos, Padding(pos, n)) && Skip(data, pos, n).value == pos + |Padding(pos, n)| == AlignUp(pos, n)
  {
  }

  lemma DecodeWordSound(data: bytes, pos: nat)
    requires DecodeWord(data, pos).Some?
    ensures var (n, p) := DecodeWord(data, pos).value; At(data, pos, Word(n, pos)) && p == pos + |Word(n, pos)|
  {
    var p := Skip(data, pos, 4).value;
    SkipSound(data, pos, 4);
    PutUint32Inverse(data[p..p + 4]);
    AtJoin(data, pos, Padding(pos, 4), data[p..p + 4]);
  }

  lemma DecodeTerminatedSound(data: bytes, pos: nat, n: nat)
    requires DecodeTerminated(data, pos, n).Some?
    ensures var (s, p) := DecodeTerminated(data, pos, n).value; |s| == n && At(data, pos, s + [0]) && p == pos + n + 1
  {
    AtJoin(data, pos, data[pos..pos + n], [0]);
  }

  lemma DecodeTextSound(data: bytes, pos: nat)
    requires DecodeText(data, pos).Some?
    ensures var (s, p) := DecodeText(data, pos).value; At(data, pos, Text(s, pos)) && p == pos + |Text(s, pos)|
  {
    hide At, Word, Uint32;
    var (n, p) := DecodeWord(data, pos).value;
    DecodeWordSound(data, pos);
    DecodeTerminatedSound(data, p, n);
    AtJoin(data, pos, Word(n, pos), DecodeTerminated(data, p, n).value.0 + [0]);
  }

  lemma DecodeSigTextSound(data: bytes, pos: nat)
    requires DecodeSigText(data, pos).Some?
    ensures var (s, p) := DecodeSigText(data, pos).value; At(data, pos, SigText(s)) && p == pos + |SigText(s)|
  {
    var (s, q) := DecodeTerminated(data, pos + 1, data[pos]).value;
    DecodeTerminatedSound(data, pos + 1, data[pos]);
    AtJoin(data, pos, [data[pos]], s + [0]);
  }

  /** What the decoder accepts is the marshalled form of what it returns, of the type asked for. */
  lemma {:induction false} DecodeSound(t: Type, data: bytes, pos: nat)
    requires pos <= |data| && Decode(t, data, pos).Some?
    ensures var (v, q) := Decode(t, data, pos).value;
            TypeOf(v) == t && At(data, pos, Marshal(v, pos)) && q == pos + |Marshal(v, pos)|
    decreases |data| - pos, t, 1
  {
    hide At, AlignUp, Padding, Word, Text, SigText, DecodeWord, DecodeText, DecodeSigText, SigOf, ParseType;
    hide DecodeItems, DecodeAll, MarshalAll, Skip;
    match t
    case TByte =>
      assert At(data, pos, [data[pos]]) by { ByteAt(data, pos); }
    case TBool => DecodeWordSound(data, pos);
    case TUint32 => DecodeWordSound(data, pos);
    case TString => DecodeTextSound(data, pos);
    case TObjPath => DecodeTextSound(data, pos);
    case TSignature => DecodeSigTextSound(data, pos);
    case TVariant => DecodeVariantSound(data, pos);
    case TArray(e) => DecodeArraySound(e, data, pos);
    case TStruct(ts) =>
      var p := Skip(data, pos, 8).value;
      SkipSound(data, pos, 8);
      DecodeAllSound(ts, data, p);
      AtJoin(data, pos, Padding(pos, 8), MarshalAll(DecodeAll(ts, data, p).value.0, p));
    case TEntry(kt, vt) => DecodeEntrySound(kt, vt, data, pos);
  }

  lemma ByteAt(data: bytes, pos: nat)
    requires pos < |data|
    ensures At(data, pos, [data[pos]])
  {
  }

  lemma VariantUnstep(data: bytes, pos: nat) returns (s: bytes, p: nat, ty: Type)
    requires pos <= |data| && Decode(TVariant, data, pos).Some?
    ensures DecodeSigText(data, pos) == Some((s, p)) && ParseType(s, 0) == Some((ty, |s|)) && Decode(ty, data, p).Some?
    ensures var (w, q) := Decode(ty, data, p).value; Decode(TVariant, data, pos) == Some((VVariant(ty, w), q))
  {
    hide DecodeSigText, ParseType;
    s, p := DecodeSigText(data, pos).value.0, DecodeSigText(data, pos).value.1;
    ty := ParseType(s, 0).value.0;
  }

  lemma WholeSignature(s: bytes, ty: Type)
    requires ParseType(s, 0) == Some((ty, |s|))
    ensures SigOf(ty) == s
  {
    SigOfParsed(s, 0);
    hide ParseType, SigOf;
  }

  lemma VariantJoin(ty: Type, w: Value, data: bytes, pos: nat)
    requires At(data, pos, SigText(SigOf(ty))) && At(data, pos + |SigOf(ty)| + 2, Marshal(w, pos + |SigOf(ty)| + 2))
    ensures At(data, pos, Marshal(VVariant(ty, w), pos))
    ensures |Marshal(VVariant(ty, w), pos)| == |SigOf(ty)| + 2 + |Marshal(w, pos + |SigOf(ty)| + 2)|
  {
    hide At, SigText, SigOf;
    AtJoin(data, pos, SigText(SigOf(ty)), Marshal(w, pos + |SigOf(ty)| + 2));
  }

  lemma {:induction false} DecodeVariantSound(data: bytes, pos: nat)
    requires pos <= |data| && Decode(TVariant, data, pos).Some?
    ensures var (v, q) := Decode(TVariant, data, pos).value;
            TypeOf(v) == TVariant && At(data, pos, Marshal(v, pos)) && q == pos + |Marshal(v, pos)|
    decreases |data| - pos, TVariant, 0
  {
    hide At, SigText, SigOf, ParseType, DecodeSigText, Decode, Marshal;
    var s, p, ty := VariantUnstep(data, pos);
    DecodeSigTextSound(data, pos);
    WholeSignature(s, ty);
    DecodeSound(ty, data, p);
    VariantJoin(ty, Decode(ty, data, p).value.0, data, pos);
  }

  lemma {:induction false} DecodeArraySound(e: Type, data: bytes, pos: nat)
    requires pos <= |data| && Decode(TArray(e), data, pos).Some?
    ensures var (v, q) := Decode(TArray(e), data, pos).value;
            TypeOf(v) == TArray(e) && At(data, pos, Marshal(v, pos)) && q == pos + |Marshal(v, pos)|
    decreases |data| - pos, TArray(e), 0
  {
    hide At, AlignUp, Padding, Word, DecodeWord, Skip, DecodeItems, MarshalAll;
    var (n, p) := DecodeWord(data, pos).value;
    DecodeWordSound(data, pos);
    var q := Skip(data, p, Alignment(e)).value;
    SkipSound(data, p, Alignment(e));
    DecodeItemsSound(e, data, q, q + n);
    var body := MarshalAll(DecodeItems(e, data, q, q + n).value, q);
    AtJoin(data, p, Padding(p, Alignment(e)), body);
    AtJoin(data, pos, Word(n, pos), Padding(p, Alignment(e)) + body);
  }

  lemma EntryJoin(k: Value, w: Value, data: bytes, pos: nat)
    requires var p := AlignUp(pos, 8);
             At(data, pos, Padding(pos, 8)) && At(data, p, Marshal(k, p)) &&
             At(data, p + |Marshal(k, p)|, Marshal(w, p + |Marshal(k, p)|))
    ensures At(data, pos, Marshal(VEntry(k, w), pos))
    ensures var p := AlignUp(pos, 8);
            pos + |Marshal(VEntry(k, w), pos)| == p + |Marshal(k, p)| + |Marshal(w, p + |Marshal(k, p)|)|
  {
    hide At, AlignUp, Padding;
    var p := AlignUp(pos, 8);
    var kb := Marshal(k, p);
    var wb := Marshal(w, p + |kb|);
    AtJoin(data, p, kb, wb);
    AtJoin(data, pos, Padding(pos, 8), kb + wb);
  }

  lemma {:induction false} DecodeEntrySound(kt: Type, vt: Type, data: bytes, pos: nat)
    requires pos <= |data| && Decode(TEntry(kt, vt), data, pos).Some?
    ensures var (v, q) := Decode(TEntry(kt, vt), data, pos).value;
            TypeOf(v) == TEntry(kt, vt) && At(data, pos, Marshal(v, pos)) && q == pos + |Marshal(v, pos)|
    decreases |data| - pos, TEntry(kt, vt), 0
  {
    hide At, AlignUp, Padding, Marshal, Decode;
    var k, q := EntryUnstep(kt, vt, data, pos);
    DecodeSound(kt, data, AlignUp(pos, 8));
    DecodeSound(vt, data, q);
    EntryJoin(k, Decode(vt, data, q).value.0, data, pos);
  }

  lemma {:induction false} DecodeAllSound(ts: seq<Type>, data: bytes, pos: nat)
    requires pos <= |data| && DecodeAll(ts, data, pos).Some?
    ensures var (vs, q) := DecodeAll(ts, data, pos).value;
            TypesOf(vs) == ts && At(data, pos, MarshalAll(vs, pos)) && q == pos + |MarshalAll(vs, pos)|
    decreases |data| - pos, ts, 0
  {
    hide Decode, Marshal, TypeOf;
    if ts != [] {
      var (v, p) := Decode(ts[0], data, pos).value;
      DecodeSound(ts[0], data, pos);
      DecodeAllSound(ts[1..], data, p);
      var vs := DecodeAll(ts[1..], data, p).value.0;
      hide At;
      AtJoin(data, pos, Marshal(v, pos), MarshalAll(vs, p));
      assert ([v] + vs)[1..] == vs;
      assert [ts[0]] + ts[1..] == ts;
    }
  }

  lemma {:induction false} DecodeItemsSound(e: Type, data: bytes, pos: nat, end: nat)
    requires pos <= end <= |data| && DecodeItems(e, data, pos, end).Some?
    ensures var vs := DecodeItems(e, data, pos, end).value;
            (forall v | v in vs :: TypeOf(v) == e) && At(data, pos, MarshalAll(vs, pos)) &&
              end == pos + |MarshalAll(vs, pos)|
    decreases |data| - pos, e, 2
  {
    hide Decode, Marshal, TypeOf;
    if pos < end {
      var (v, p) := Decode(e, data, pos).value;
      DecodeSound(e, data, pos);
      DecodeItemsSound(e, data, p, end);
      var vs := DecodeItems(e, data, p, end).value;
      hide At;
      AtJoin(data, pos, Marshal(v, pos), MarshalAll(vs, p));
      assert ([v] + vs)[1..] == vs;
    }
  }

  // ----- Marshalling depends on the offset only modulo eight -----

  lemma AlignShift(pos: nat, n: alignment, k: nat)
    ensures AlignUp(pos + 8 * k, n) == AlignUp(pos, n) + 8 * k
    ensures Padding(pos + 8 * k, n) == Padding(pos, n)
  {
    if n == 4 {
      assert pos + 8 * k + 3 == (pos + 3) + 4 * (2 * k);
      DivShift(pos + 3, 4, 2 * k);
    } else if n == 8 {
      assert pos + 8 * k + 7 == (pos + 7) + 8 * k;
      DivShift(pos + 7, 8, k);
    }
  }

  lemma DivShift(x: nat, n: nat, k: nat)
    requires n == 4 || n == 8
    ensures (x + n * k) / n == x / n + k
  {
  }

  lemma {:induction false} MarshalShift(v: Value, pos: nat, k: nat)
    ensures Marshal(v, pos + 8 * k) == Marshal(v, pos)
    decreases v, 1
  {
    hide Marshal, AlignUp;
    match v
    case VVariant(ty, w) => MarshalVariantShift(ty, w, pos, k);
    case VArray(e, items) => MarshalArrayShift(e, items, pos, k);
    case VStruct(fs) => MarshalStructShift(fs, pos, k);
    case VEntry(x, w) => MarshalEntryShift(x, w, pos, k);
    case _ => MarshalBasicShift(v, pos, k);
  }

  lemma MarshalBasicShift(v: Value, pos: nat, k: nat)
    requires !v.VVariant? && !v.VArray? && !v.VStruct? && !v.VEntry?
    ensures Marshal(v, pos + 8 * k) == Marshal(v, pos)
  {
    hide AlignUp, Padding, SigText;
    AlignShift(pos, 4, k);
  }

  lemma {:induction false} MarshalVariantShift(ty: Type, w: Value, pos: nat, k: nat)
    ensures Marshal(VVariant(ty, w), pos + 8 * k) == Marshal(VVariant(ty, w), pos)
    decreases VVariant(ty, w), 0
  {
    hide AlignUp, Padding, SigText, SigOf;
    MarshalShift(w, pos + |SigOf(ty)| + 2, k);
  }

  lemma {:induction false} MarshalStructShift(fs: seq<Value>, pos: nat, k: nat)
    ensures Marshal(VStruct(fs), pos + 8 * k) == Marshal(VStruct(fs), pos)
    decreases VStruct(fs), 0
  {
    hide AlignUp, Padding, MarshalAll;
    AlignShift(pos, 8, k);
    MarshalAllShift(fs, AlignUp(pos, 8), k);
  }

  lemma {:induction false} MarshalEntryShift(x: Value, w: Value, pos: nat, k: nat)
    ensures Marshal(VEntry(x, w), pos + 8 * k) == Marshal(VEntry(x, w), pos)
    decreases VEntry(x, w), 0
  {
    hide AlignUp, Padding, MarshalAll;
    AlignShift(pos, 8, k);
    MarshalShift(x, AlignUp(pos, 8), k);
    MarshalShift(w, AlignUp(pos, 8) + |Marshal(x, AlignUp(pos, 8))|, k);
  }

  lemma {:induction false} MarshalArrayShift(e: Type, items: seq<Value>, pos: nat, k: nat)
    ensures Marshal(VArray(e, items), pos + 8 * k) == Marshal(VArray(e, items), pos)
    decreases VArray(e, items), 0
  {
    hide AlignUp, Padding, MarshalAll;
    var first := AlignUp(pos, 4) + 4;
    AlignShift(pos, 4, k);
    AlignShift(first, Alignment(e), k);
    MarshalAllShift(items, AlignUp(first, Alignment(e)), k);
  }

  lemma {:induction false} MarshalAllShift(vs: seq<Value>, pos: nat, k: nat)
    ensures MarshalAll(vs, pos + 8 * k) == MarshalAll(vs, pos)
    decreases vs, 2
  {
    hide Marshal;
    if vs != [] {
      MarshalShift(vs[0], pos, k);
      MarshalAllShift(vs[1..], pos + |Marshal(vs[0], pos)|, k);
    }
  }
}

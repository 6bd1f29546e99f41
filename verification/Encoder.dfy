/**
 * The service's encoder.  A Go closure that drives the encoder is the list of the
 * calls it makes, so closures nest as lists of calls do.
 */
module Encoder {
  import opened Bytes
  import opened Signatures
  import opened Values

  datatype Call =
    | Pad(n: alignment)
    | Byte(b: byte)
    | U32(v: uint32)
    | Str(s: bytes)
    | Sig(s: bytes)
    | Ay(data: bytes)
    | Variant(signature: bytes, val: seq<Call>)
    | Array(elemAlign: alignment, elems: seq<Call>)

  /** What a call appends to a buffer of length pos; an array's length word counts its elements' bytes only. */
  function Emit(c: Call, pos: nat): bytes
    decreases c
  {
    match c
    case Pad(n) => Padding(pos, n)
    case Byte(b) => [b]
    case U32(v) => Word(v, pos)
    case Str(s) => Text(s, pos)
    case Sig(s) => SigText(s)
    case Ay(data) => Word(Truncate32(|data|), pos) + data
    case Variant(signature, val) => SigText(signature) + EmitAll(val, pos + |signature| + 2)
    case Array(n, elems) =>
      var first := AlignUp(pos, 4) + 4;
      var body := EmitAll(elems, AlignUp(first, n));
      Word(Truncate32(|body|), pos) + (Padding(first, n) + body)
  }

  function EmitAll(cs: seq<Call>, pos: nat): bytes
    decreases cs
  {
    if cs == [] then []
    else
      var b := Emit(cs[0], pos);
      b + EmitAll(cs[1..], pos + |b|)
  }

  lemma Aligned(pos: nat, p: nat, n: alignment)
    requires pos <= p <= AlignUp(pos, n)
    ensures p % n == 0 <==> p == AlignUp(pos, n)
  {
    if n == 4 {
    } else if n == 8 {
    }
  }

  /** PutUint32 over the four bytes of buf at index i. */
  function Patch32(buf: bytes, i: nat, v: uint32): (r: bytes)
    requires i + 4 <= |buf|
    ensures |r| == |buf|
  {
    buf[..i] + PutUint32(v) + buf[i + 4..]
  }

  lemma PatchWord(pre: bytes, v: uint32, post: bytes)
    ensures var w := Padding(|pre|, 4);
            Patch32(pre + Word(0, |pre|) + post, |pre| + |w|, v) == pre + (Word(v, |pre|) + post)
  {
    var w := Padding(|pre|, 4);
    var buf := pre + Word(0, |pre|) + post;
    assert buf[..|pre| + |w|] == pre + w;
    assert buf[|pre| + |w| + 4..] == post;
    assert pre + (Word(v, |pre|) + post) == (pre + w) + PutUint32(v) + post;
  }

  class Enc {
    var buf: bytes

    constructor ()
      ensures buf == []
    {
      buf := [];
    }

    method Pad(n: alignment)
      modifies this
      ensures buf == old(buf) + Padding(|old(buf)|, n)
    {
      ghost var end := AlignUp(|buf|, n);
      Aligned(|buf|, |buf|, n);
      while |buf| % n != 0
        invariant |old(buf)| <= |buf| <= end
        invariant buf == old(buf) + Zeros(|buf| - |old(buf)|)
        invariant |buf| % n == 0 <==> |buf| == end
        decreases end - |buf|
      {
        buf := buf + [0];
        Aligned(|old(buf)|, |buf|, n);
      }
    }

    method Byte(b: byte)
      modifies this
      ensures buf == old(buf) + [b]
    {
      buf := buf + [b];
    }

    method U32(v: uint32)
      modifies this
      ensures buf == old(buf) + Word(v, |old(buf)|)
    {
      Pad(4);
      buf := buf + PutUint32(v);
    }

    // STRING or OBJECT_PATH
    method Str(s: bytes)
      modifies this
      ensures buf == old(buf) + Text(s, |old(buf)|)
    {
      U32(Truncate32(|s|));
      buf := buf + s;
      buf := buf + [0];
    }

    // SIGNATURE
    method Sig(s: bytes)
      modifies this
      ensures buf == old(buf) + SigText(s)
    {
      Byte(|s| % 0x100);
      buf := buf + s;
      buf := buf + [0];
    }

    // array of bytes
    method Ay(data: bytes)
      modifies this
      ensures buf == old(buf) + (Word(Truncate32(|data|), |old(buf)|) + data)
    {
      U32(Truncate32(|data|));
      buf := buf + data;
    }

    method Variant(signature: bytes, val: seq<Call>)
      modifies this
      ensures buf == old(buf) + (SigText(signature) + EmitAll(val, |old(buf)| + |signature| + 2))
      decreases val, 1
    {
      Sig(signature);
      Run(val);
    }

    // The length word is written as zero and patched in place once the elements are in the buffer.
    method Array(elemAlign: alignment, elems: seq<Call>)
      modifies this
      ensures buf == old(buf) + Emit(Call.Array(elemAlign, elems), |old(buf)|)
      decreases elems, 1
    {
      hide EmitAll, AlignUp, Padding, Word, Patch32;
      ghost var pre := buf;
      U32(0);
      var lenPos := |buf| - 4;
      Pad(elemAlign);
      var start := |buf|;
      Run(elems);
      ghost var post := Padding(AlignUp(|pre|, 4) + 4, elemAlign) + EmitAll(elems, start);
      assert buf == pre + Word(0, |pre|) + post;
      PatchWord(pre, Truncate32(|buf| - start), post);
      buf := Patch32(buf, lenPos, Truncate32(|buf| - start));
    }

    // One call of a closure.
    method Do(c: Call)
      modifies this
      ensures buf == old(buf) + Emit(c, |old(buf)|)
      decreases c, 2
    {
      match c
      case Pad(n) => Pad(n);
      case Byte(b) => Byte(b);
      case U32(v) => U32(v);
      case Str(s) => Str(s);
      case Sig(s) => Sig(s);
      case Ay(data) => Ay(data);
      case Variant(signature, val) => Variant(signature, val);
      case Array(n, elems) => Array(n, elems);
    }

    // A whole closure.
    method Run(cs: seq<Call>)
      modifies this
      ensures buf == old(buf) + EmitAll(cs, |old(buf)|)
      decreases cs, 0
    {
      hide Emit;
      if cs != [] {
        Do(cs[0]);
        Run(cs[1..]);
      }
    }
  }

  // ----- The calls that marshal a value -----

  /** A byte string as a D-Bus array of bytes. */
  function Blob(data: bytes): Value {
    VArray(TByte, seq(|data|, i requires 0 <= i < |data| => VByte(data[i])))
  }

  function BytesOf(items: seq<Value>): bytes {
    seq(|items|, i requires 0 <= i < |items| => if items[i].VByte? then items[i].b else 0)
  }

  /** The calls that write v: padding in front of a struct or an entry, byte arrays in one call. */
  function CallsOf(v: Value): seq<Call>
    decreases v
  {
    match v
    case VByte(b) => [Byte(b)]
    case VBool(on) => [U32(if on then 1 else 0)]
    case VUint32(n) => [U32(n)]
    case VString(s) => [Str(s)]
    case VObjPath(s) => [Str(s)]
    case VSignature(s) => [Sig(s)]
    case VVariant(ty, w) => [Variant(SigOf(ty), CallsOf(w))]
    case VArray(e, items) =>
      if e.TByte? then [Ay(BytesOf(items))] else [Array(Alignment(e), CallsOfAll(items))]
    case VStruct(fs) => [Pad(8)] + CallsOfAll(fs)
    case VEntry(k, w) => [Pad(8)] + (CallsOf(k) + CallsOf(w))
  }

  function CallsOfAll(vs: seq<Value>): seq<Call>
    decreases vs
  {
    if vs == [] then [] else CallsOf(vs[0]) + CallsOfAll(vs[1..])
  }

  lemma {:induction false} EmitConcat(a: seq<Call>, b: seq<Call>, pos: nat)
    ensures EmitAll(a + b, pos) == EmitAll(a, pos) + EmitAll(b, pos + |EmitAll(a, pos)|)
    decreases |a|
  {
    hide Emit;
    if a == [] {
      assert a + b == b;
    } else {
      assert (a + b)[1..] == a[1..] + b;
      EmitConcat(a[1..], b, pos + |Emit(a[0], pos)|);
    }
  }

  lemma EmitOne(c: Call, pos: nat)
    ensures EmitAll([c], pos) == Emit(c, pos)
  {
    hide Emit;
  }

  lemma EmitNothing(pos: nat)
    ensures EmitAll([], pos) == []
  {
  }

  lemma {:induction false} MarshalBytes(items: seq<Value>, pos: nat)
    requires forall w | w in items :: TypeOf(w) == TByte
    ensures MarshalAll(items, pos) == BytesOf(items)
    decreases |items|
  {
    if items != [] {
      assert items[0] in items;
      MarshalBytes(items[1..], pos + 1);
      assert BytesOf(items) == [items[0].b] + BytesOf(items[1..]);
    }
  }

  /** For any nesting, the calls of a value write exactly its marshalled form. */
  lemma {:induction false} CallsMarshal(v: Value, pos: nat)
    requires Typed(v)
    ensures EmitAll(CallsOf(v), pos) == Marshal(v, pos)
    decreases v, 1
  {
    hide EmitAll, CallsOf, Marshal, TypeOf, Complete;
    match v
    case VVariant(ty, w) => CallsMarshalVariant(ty, w, pos);
    case VArray(e, items) => CallsMarshalArray(e, items, pos);
    case VStruct(fs) => CallsMarshalStruct(fs, pos);
    case VEntry(k, w) => CallsMarshalEntry(k, w, pos);
    case _ => CallsMarshalBasic(v, pos);
  }

  lemma CallsMarshalBasic(v: Value, pos: nat)
    requires !v.VVariant? && !v.VArray? && !v.VStruct? && !v.VEntry?
    ensures EmitAll(CallsOf(v), pos) == Marshal(v, pos)
  {
    hide AlignUp, Padding, Word, Text, SigText, EmitAll;
    EmitOne(CallsOf(v)[0], pos);
  }

  lemma {:induction false} CallsMarshalVariant(ty: Type, w: Value, pos: nat)
    requires Typed(w)
    ensures EmitAll(CallsOf(VVariant(ty, w)), pos) == Marshal(VVariant(ty, w), pos)
    decreases VVariant(ty, w), 0
  {
    hide SigText, SigOf, EmitAll, Typed;
    EmitOne(Variant(SigOf(ty), CallsOf(w)), pos);
    CallsMarshal(w, pos + |SigOf(ty)| + 2);
  }

  lemma {:induction false} CallsMarshalStruct(fs: seq<Value>, pos: nat)
    requires forall v | v in fs :: Typed(v)
    ensures EmitAll(CallsOf(VStruct(fs)), pos) == Marshal(VStruct(fs), pos)
    decreases VStruct(fs), 0
  {
    hide AlignUp, Padding, EmitAll, Typed, CallsOfAll, MarshalAll;
    EmitPadded(CallsOfAll(fs), pos);
    CallsMarshalAll(fs, AlignUp(pos, 8));
  }

  lemma {:induction false} CallsMarshalEntry(k: Value, w: Value, pos: nat)
    requires Typed(k) && Typed(w)
    ensures EmitAll(CallsOf(VEntry(k, w)), pos) == Marshal(VEntry(k, w), pos)
    decreases VEntry(k, w), 0
  {
    hide AlignUp, Padding, EmitAll, Typed;
    var p := AlignUp(pos, 8);
    EmitPadded(CallsOf(k) + CallsOf(w), pos);
    EmitConcat(CallsOf(k), CallsOf(w), p);
    CallsMarshal(k, p);
    CallsMarshal(w, p + |Marshal(k, p)|);
  }

  lemma EmitPadded(cs: seq<Call>, pos: nat)
    ensures EmitAll([Pad(8)] + cs, pos) == Padding(pos, 8) + EmitAll(cs, AlignUp(pos, 8))
  {
    hide AlignUp, Padding;
    EmitConcat([Pad(8)], cs, pos);
    EmitOne(Pad(8), pos);
  }

  lemma {:induction false} CallsMarshalArray(e: Type, items: seq<Value>, pos: nat)
    requires Typed(VArray(e, items))
    ensures EmitAll(CallsOf(VArray(e, items)), pos) == Marshal(VArray(e, items), pos)
    decreases VArray(e, items), 0
  {
    hide AlignUp, Padding, Word, EmitAll;
    var start := AlignUp(AlignUp(pos, 4) + 4, Alignment(e));
    EmitOne(CallsOf(VArray(e, items))[0], pos);
    if e.TByte? {
      MarshalBytes(items, start);
      assert Padding(AlignUp(pos, 4) + 4, 1) == [] by { NoPadding(AlignUp(pos, 4) + 4); }
    } else {
      CallsMarshalAll(items, start);
    }
  }

  lemma NoPadding(pos: nat)
    ensures Padding(pos, 1) == []
  {
  }

  lemma {:induction false} CallsMarshalAll(vs: seq<Value>, pos: nat)
    requires forall v | v in vs :: Typed(v)
    ensures EmitAll(CallsOfAll(vs), pos) == MarshalAll(vs, pos)
    decreases vs, 2
  {
    hide EmitAll, Marshal, CallsOf, Typed, CallsOfAll, MarshalAll;
    AllStep(vs, pos);
    if vs == [] {
      EmitNothing(pos);
    } else {
      CallsMarshal(vs[0], pos);
      CallsMarshalAll(vs[1..], pos + |Marshal(vs[0], pos)|);
      EmitConcat(CallsOf(vs[0]), CallsOfAll(vs[1..]), pos);
    }
  }

  lemma AllStep(vs: seq<Value>, pos: nat)
    ensures vs == [] ==> CallsOfAll(vs) == [] && MarshalAll(vs, pos) == []
    ensures vs != [] ==>
              CallsOfAll(vs) == CallsOf(vs[0]) + CallsOfAll(vs[1..]) &&
              MarshalAll(vs, pos) == Marshal(vs[0], pos) + MarshalAll(vs[1..], pos + |Marshal(vs[0], pos)|)
  {
    hide Marshal, CallsOf;
  }
}

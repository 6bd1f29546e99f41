/** Byte strings, little-endian words and alignment, shared by the D-Bus modules. */
module Bytes {

  type byte = x: int | 0 <= x < 0x100
  type uint32 = x: int | 0 <= x < 0x1_0000_0000

  /** A Go string or byte slice. */
  type bytes = seq<byte>

  const TWO_TO_THE_32 := 0x1_0000_0000

  /** The bytes of a Go string literal. */
  function Ascii(s: string): (b: bytes)
    ensures |b| == |s|
  {
    seq(|s|, i requires 0 <= i < |s| => s[i] as int % 0x100)
  }

  /** Go's conversion `uint32(n)` of a length. */
  function Truncate32(n: nat): uint32 {
    n % TWO_TO_THE_32
  }

  /** binary.LittleEndian.PutUint32 into a fresh four-byte buffer. */
  function PutUint32(v: uint32): (b: bytes)
    ensures |b| == 4
  {
    [v % 0x100, v / 0x100 % 0x100, v / 0x1_0000 % 0x100, v / 0x100_0000]
  }

  /** binary.LittleEndian.Uint32 on a four-byte slice. */
  function Uint32(b: bytes): uint32
    requires |b| == 4
  {
    var (b0: int, b1: int, b2: int, b3: int) := (b[0], b[1], b[2], b[3]);
    b0 + 0x100 * b1 + 0x1_0000 * b2 + 0x100_0000 * b3
  }

  lemma Uint32RoundTrip(v: uint32)
    ensures Uint32(PutUint32(v)) == v
  {
    assert v == v % 0x100 + 0x100 * (v / 0x100);
    assert v / 0x100 == v / 0x100 % 0x100 + 0x100 * (v / 0x1_0000);
    assert v / 0x1_0000 == v / 0x1_0000 % 0x100 + 0x100 * (v / 0x100_0000);
  }

  lemma PutUint32Inverse(b: bytes)
    requires |b| == 4
    ensures PutUint32(Uint32(b)) == b
  {
    var (b0: int, b1: int, b2: int, b3: int) := (b[0], b[1], b[2], b[3]);
    var v := Uint32(b);
    var w := b2 + 0x100 * b3;
    var u := b1 + 0x100 * w;
    assert v == b0 + 0x100 * u;
    DropByte(b0, u);
    DropByte(b1, w);
    DropByte(b2, b3);
    assert v / 0x1_0000 == v / 0x100 / 0x100 == w;
    assert v / 0x100_0000 == v / 0x1_0000 / 0x100 == b3;
  }

  lemma DropByte(b: int, q: int)
    requires 0 <= b < 0x100 && q >= 0
    ensures (b + 0x100 * q) / 0x100 == q && (b + 0x100 * q) % 0x100 == b
  {
  }

  /** The alignments of the D-Bus types in use. */
  type alignment = n: int | n == 1 || n == 4 || n == 8 witness 1

  /** The least multiple of n that is not below pos. */
  function AlignUp(pos: nat, n: alignment): (r: nat)
    ensures pos <= r < pos + n
  {
    if n == 1 then pos else if n == 4 then Align4(pos) else Align8(pos)
  }

  function Align4(n: nat): nat {
    (n + 3) / 4 * 4
  }

  function Align8(n: nat): nat {
    (n + 7) / 8 * 8
  }

  /** Clearing the low bits, as the program does, is rounding down to a multiple. */
  lemma ClearLowBits(x: bv64)
    ensures x & !3 == x / 4 * 4
    ensures x & !7 == x / 8 * 8
  {
  }

  /** k zero bytes. */
  function Zeros(k: nat): (b: bytes)
    ensures |b| == k
    ensures forall i :: 0 <= i < k ==> b[i] == 0
  {
    seq(k, i => 0)
  }

  /** The zero padding that brings pos to a multiple of n. */
  function Padding(pos: nat, n: alignment): (b: bytes)
    ensures |b| == AlignUp(pos, n) - pos
  {
    Zeros(AlignUp(pos, n) - pos)
  }

  /** data holds the bytes b at offset pos. */
  predicate At(data: bytes, pos: nat, b: bytes) {
    pos + |b| <= |data| && data[pos..pos + |b|] == b
  }

  lemma AtSplit(data: bytes, pos: nat, a: bytes, b: bytes)
    requires At(data, pos, a + b)
    ensures At(data, pos, a) && At(data, pos + |a|, b)
  {
    var d := data[pos..pos + |a| + |b|];
    assert d[..|a|] == a && d[|a|..] == b;
  }

  lemma AtJoin(data: bytes, pos: nat, a: bytes, b: bytes)
    requires At(data, pos, a) && At(data, pos + |a|, b)
    ensures At(data, pos, a + b)
  {
  }

  lemma AtIndex(data: bytes, pos: nat, b: bytes, k: nat)
    requires At(data, pos, b) && k < |b|
    ensures pos + k < |data| && data[pos + k] == b[k]
  {
  }
}

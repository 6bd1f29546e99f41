/** The seccomp filter that denies the TIOCSTI ioctl, with an interpreter for the classic BPF it is written in. */
module Seccomp {
  import opened Bytes
  import opened Options

  type uint64 = x: int | 0 <= x < 0x1_0000_0000_0000_0000

  /** struct sock_filter: code, jt, jf, k. */
  datatype Insn = Insn(code: int, jt: byte, jf: byte, k: uint32)

  const LD := 0x20
  const JEQ := 0x15
  const RET := 0x06

  const RET_ALLOW: uint32 := 0x7fff0000
  const RET_EPERM: uint32 := 0x00050001
  const ARCH_X86_64: uint32 := 0xc000003e
  const ARCH_AARCH64: uint32 := 0xc00000b7
  const TIOCSTI: uint32 := 0x5412

  // ----- Emitting -----

  function PutUint16(v: int): (b: bytes)
    requires 0 <= v < 0x1_0000
    ensures |b| == 2
  {
    [v % 0x100, v / 0x100]
  }

  function Encode(i: Insn): (b: bytes)
    requires 0 <= i.code < 0x1_0000
    ensures |b| == 8
  {
    PutUint16(i.code) + [i.jt, i.jf] + PutUint32(i.k)
  }

  predicate Encodable(p: seq<Insn>) {
    forall i | i in p :: 0 <= i.code < 0x1_0000
  }

  function EncodeAll(p: seq<Insn>): (b: bytes)
    requires Encodable(p)
    ensures |b| == 8 * |p|
    decreases |p|
  {
    if p == [] then [] else Encode(p[0]) + EncodeAll(p[1..])
  }

  /** The filter, instruction by instruction. */
  function Program(): (p: seq<Insn>)
    ensures Encodable(p) && |p| == 11
  {
    [Insn(LD, 0, 0, 4),
     Insn(JEQ, 3, 0, ARCH_X86_64),
     Insn(JEQ, 0, 7, ARCH_AARCH64),
     Insn(LD, 0, 0, 0),
     Insn(JEQ, 2, 5, 29),
     Insn(LD, 0, 0, 0),
     Insn(JEQ, 0, 3, 16),
     Insn(LD, 0, 0, 24),
     Insn(JEQ, 0, 1, TIOCSTI),
     Insn(RET, 0, 0, RET_EPERM),
     Insn(RET, 0, 0, RET_ALLOW)]
  }

  /** The eleven instructions, eight bytes each. */
  function FilterBytes(): bytes {
    [32, 0, 0, 0, 4, 0, 0, 0] +
    ([21, 0, 3, 0, 62, 0, 0, 192] +
    ([21, 0, 0, 7, 183, 0, 0, 192] +
    ([32, 0, 0, 0, 0, 0, 0, 0] +
    ([21, 0, 2, 5, 29, 0, 0, 0] +
    ([32, 0, 0, 0, 0, 0, 0, 0] +
    ([21, 0, 0, 3, 16, 0, 0, 0] +
    ([32, 0, 0, 0, 24, 0, 0, 0] +
    ([21, 0, 0, 1, 18, 84, 0, 0] +
    ([6, 0, 0, 0, 1, 0, 5, 0] +
    ([6, 0, 0, 0, 0, 0, 255, 127]))))))))))
  }

  lemma InsnBytes()
    ensures Encode(Insn(LD, 0, 0, 4)) == [32, 0, 0, 0, 4, 0, 0, 0] &&
            Encode(Insn(LD, 0, 0, 0)) == [32, 0, 0, 0, 0, 0, 0, 0]
    ensures Encode(Insn(LD, 0, 0, 24)) == [32, 0, 0, 0, 24, 0, 0, 0]
    ensures Encode(Insn(JEQ, 3, 0, ARCH_X86_64)) == [21, 0, 3, 0, 62, 0, 0, 192]
    ensures Encode(Insn(JEQ, 0, 7, ARCH_AARCH64)) == [21, 0, 0, 7, 183, 0, 0, 192]
    ensures Encode(Insn(JEQ, 2, 5, 29)) == [21, 0, 2, 5, 29, 0, 0, 0]
    ensures Encode(Insn(JEQ, 0, 3, 16)) == [21, 0, 0, 3, 16, 0, 0, 0]
    ensures Encode(Insn(JEQ, 0, 1, TIOCSTI)) == [21, 0, 0, 1, 18, 84, 0, 0]
    ensures Encode(Insn(RET, 0, 0, RET_EPERM)) == [6, 0, 0, 0, 1, 0, 5, 0]
    ensures Encode(Insn(RET, 0, 0, RET_ALLOW)) == [6, 0, 0, 0, 0, 0, 255, 127]
  {
  }

  lemma EmitsFirst(i: Insn, p: seq<Insn>)
    requires Encodable([i] + p)
    ensures Encodable(p) && EncodeAll([i] + p) == Encode(i) + EncodeAll(p)
  {
    hide Encode;
    assert ([i] + p)[1..] == p;
    assert forall x | x in p :: x in [i] + p;
  }

  lemma EmitsFrom(p: seq<Insn>, k: nat)
    requires Encodable(p) && k < |p|
    ensures EncodeAll(p[k..]) == Encode(p[k]) + EncodeAll(p[k + 1..])
  {
    hide Encode;
    assert p[k..] == [p[k]] + p[k + 1..];
    EmitsFirst(p[k], p[k + 1..]);
  }

  // The last five instructions, and then the first six.
  lemma TailBytes()
    ensures EncodeAll(Program()[6..]) ==
            [21, 0, 0, 3, 16, 0, 0, 0] +
            ([32, 0, 0, 0, 24, 0, 0, 0] +
            ([21, 0, 0, 1, 18, 84, 0, 0] +
            ([6, 0, 0, 0, 1, 0, 5, 0] +
            ([6, 0, 0, 0, 0, 0, 255, 127]))))
  {
    hide Encode, EncodeAll;
    var p := Program();
    InsnBytes();
    NothingEncoded();
    EmitsFrom(p, 6);
    EmitsFrom(p, 7);
    EmitsFrom(p, 8);
    EmitsFrom(p, 9);
    EmitsFrom(p, 10);
    assert |p[11..]| == 0;
    assert Encode(p[10]) + [] == Encode(p[10]);
  }

  lemma ProgramBytes()
    ensures EncodeAll(Program()) == FilterBytes()
  {
    hide Encode, EncodeAll;
    var p := Program();
    InsnBytes();
    TailBytes();
    EmitsFrom(p, 0);
    EmitsFrom(p, 1);
    EmitsFrom(p, 2);
    EmitsFrom(p, 3);
    EmitsFrom(p, 4);
    EmitsFrom(p, 5);
    assert p[0..] == p;
  }

  lemma NothingEncoded()
    ensures EncodeAll([]) == []
  {
  }

  method TiocstiSeccompFilter() returns (f: bytes)
    ensures f == EncodeAll(Program()) == FilterBytes()
  {
    hide Encode, Program, FilterBytes;
    ProgramBytes();
    var p := Program();
    f := [];
    for i := 0 to |p|
      invariant f + EncodeAll(p[i..]) == EncodeAll(p)
    {
      EncodeStep(p, i, f);
      f := f + Encode(p[i]);
    }
  }

  lemma EncodeStep(p: seq<Insn>, i: nat, f: bytes)
    requires Encodable(p) && i < |p|
    ensures f + EncodeAll(p[i..]) == f + Encode(p[i]) + EncodeAll(p[i + 1..])
  {
    hide Encode;
    assert p[i..][1..] == p[i + 1..];
  }

  // ----- Decoding -----

  function Decode(b: bytes): Insn
    requires |b| == 8
  {
    var (lo: int, hi: int) := (b[0], b[1]);
    Insn(lo + 0x100 * hi, b[2], b[3], Uint32(b[4..8]))
  }

  function DecodeAll(b: bytes): seq<Insn>
    decreases |b|
  {
    if |b| < 8 then [] else [Decode(b[..8])] + DecodeAll(b[8..])
  }

  lemma DecodeEncode(i: Insn)
    requires 0 <= i.code < 0x1_0000
    ensures Decode(Encode(i)) == i
  {
    hide PutUint32, Uint32;
    assert Encode(i)[4..8] == PutUint32(i.k);
    Uint32RoundTrip(i.k);
  }

  /** The kernel reads back exactly the instructions that were written. */
  lemma {:induction false} DecodeEncodeAll(p: seq<Insn>)
    requires Encodable(p)
    ensures DecodeAll(EncodeAll(p)) == p
    decreases |p|
  {
    hide Decode, Encode;
    if p != [] {
      assert p[0] in p;
      DecodeEncode(p[0]);
      DecodeEncodeAll(p[1..]);
      assert EncodeAll(p)[..8] == Encode(p[0]) && EncodeAll(p)[8..] == EncodeAll(p[1..]);
    }
  }

  // ----- Running -----

  /** struct seccomp_data on a little-endian machine, read by 32-bit words. */
  datatype Data = Data(nr: uint32, arch: uint32, ip: uint64, args: seq<uint64>)

  predicate WellFormed(d: Data) {
    |d.args| == 6
  }

  function Low(x: uint64): uint32 {
    x % TWO_TO_THE_32
  }

  function High(x: uint64): uint32 {
    x / TWO_TO_THE_32
  }

  /** The word at byte offset k, if k is the offset of a whole word. */
  function Load(d: Data, k: nat): Option<uint32>
    requires WellFormed(d)
  {
    if k == 0 then Some(d.nr)
    else if k == 4 then Some(d.arch)
    else if k == 8 then Some(Low(d.ip))
    else if k == 12 then Some(High(d.ip))
    else if 16 <= k < 64 && k % 4 == 0 then
      var arg := d.args[(k - 16) / 8];
      Some(if k % 8 == 0 then Low(arg) else High(arg))
    else None
  }

  /** Runs p from instruction pc with accumulator a; None when the program goes wrong. */
  function Run(p: seq<Insn>, d: Data, pc: nat, a: uint32): Option<uint32>
    requires WellFormed(d)
    decreases |p| - pc
  {
    if pc >= |p| then None
    else
      var i := p[pc];
      if i.code == LD then
        var w :- Load(d, i.k);
        Run(p, d, pc + 1, w)
      else if i.code == JEQ then Run(p, d, pc + 1 + (if a == i.k then i.jt else i.jf), a)
      else if i.code == RET then Some(i.k)
      else None
  }

  /** A program the kernel accepts: jumps stay inside, the last instruction returns. */
  predicate Checked(p: seq<Insn>) {
    p != [] && p[|p| - 1].code == RET &&
    forall pc | 0 <= pc < |p| ::
      p[pc].code in {LD, JEQ, RET} && (p[pc].code == JEQ ==> pc + 1 + p[pc].jt < |p| && pc + 1 + p[pc].jf < |p|)
  }

  lemma ProgramChecked()
    ensures Checked(DecodeAll(EncodeAll(Program())))
  {
    hide DecodeAll, EncodeAll;
    DecodeEncodeAll(Program());
  }

  /** The ioctl system call on the two architectures the filter knows. */
  predicate IsIoctl(d: Data) {
    (d.arch == ARCH_X86_64 && d.nr == 16) || (d.arch == ARCH_AARCH64 && d.nr == 29)
  }

  function Verdict(d: Data): uint32
    requires WellFormed(d)
  {
    if IsIoctl(d) && Low(d.args[1]) == TIOCSTI then RET_EPERM else RET_ALLOW
  }

  // The program's tails, from the end.
  lemma RunAllow(d: Data, a: uint32)
    requires WellFormed(d)
    ensures Run(Program(), d, 10, a) == Some(RET_ALLOW) && Run(Program(), d, 9, a) == Some(RET_EPERM)
  {
  }

  lemma RunRequest(d: Data, a: uint32)
    requires WellFormed(d)
    ensures Run(Program(), d, 7, a) == Some(if Low(d.args[1]) == TIOCSTI then RET_EPERM else RET_ALLOW)
  {
    var w := Low(d.args[1]);
    RunAllow(d, w);
    assert Run(Program(), d, 8, w) == Run(Program(), d, if w == TIOCSTI then 9 else 10, w);
    assert Load(d, 24) == Some(w);
  }

  lemma RunNumber(d: Data, a: uint32)
    requires WellFormed(d)
    ensures Run(Program(), d, 5, a) == if d.nr == 16 then Run(Program(), d, 7, 16) else Some(RET_ALLOW)
    ensures Run(Program(), d, 3, a) == if d.nr == 29 then Run(Program(), d, 7, 29) else Some(RET_ALLOW)
  {
    RunAllow(d, d.nr);
    assert Run(Program(), d, 6, d.nr) == Run(Program(), d, if d.nr == 16 then 7 else 10, d.nr);
    assert Run(Program(), d, 4, d.nr) == Run(Program(), d, if d.nr == 29 then 7 else 10, d.nr);
  }

  /** The same in numbers: audit architectures, system calls, request and return values as the kernel knows them. */
  lemma FilterVerdict(d: Data)
    requires WellFormed(d)
    ensures Run(DecodeAll(FilterBytes()), d, 0, 0) ==
            Some(if ((d.arch == 3221225534 && d.nr == 16) || (d.arch == 3221225655 && d.nr == 29)) &&
                    d.args[1] % 4294967296 == 21522
                 then 327681 else 2147418112)
  {
    hide EncodeAll, DecodeAll, FilterBytes, Program, Run;
    ProgramBytes();
    FilterExact(d);
  }

  /**
   * The emitted bytes deny exactly TIOCSTI ioctls of the two known architectures and allow
   * everything else, for every architecture, system call and argument.
   */
  lemma FilterExact(d: Data)
    requires WellFormed(d)
    ensures Run(DecodeAll(EncodeAll(Program())), d, 0, 0) == Some(Verdict(d))
  {
    hide DecodeAll, EncodeAll;
    DecodeEncodeAll(Program());
    var p := Program();
    RunAllow(d, d.arch);
    RunNumber(d, d.arch);
    RunRequest(d, d.nr);
    assert Run(p, d, 0, 0) == Run(p, d, 1, d.arch);
    assert Run(p, d, 1, d.arch) == Run(p, d, if d.arch == ARCH_X86_64 then 5 else 2, d.arch);
    assert Run(p, d, 2, d.arch) == Run(p, d, if d.arch == ARCH_AARCH64 then 3 else 10, d.arch);
  }
}

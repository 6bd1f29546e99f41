/**
 * The D-Bus types the service sends and reads, and the signature strings that
 * denote them ("Type System" of the D-Bus Specification).
 */
module Signatures {
  import opened Bytes
  import opened Options

  /** TEntry is the dict entry, which may occur only as an array's element. */
  datatype Type =
    | TByte
    | TBool
    | TUint32
    | TString
    | TObjPath
    | TSignature
    | TVariant
    | TArray(elem: Type)
    | TStruct(fields: seq<Type>)
    | TEntry(key: Type, val: Type)

  predicate Basic(t: Type) {
    t.TByte? || t.TBool? || t.TUint32? || t.TString? || t.TObjPath? || t.TSignature?
  }

  /** A single complete type. */
  predicate Complete(t: Type) {
    match t
    case TArray(TEntry(k, v)) => Basic(k) && Complete(v)
    case TArray(e) => Complete(e)
    case TStruct(fs) => fs != [] && forall f | f in fs :: Complete(f)
    case TEntry(_, _) => false
    case _ => true
  }

  // The signature codes, in ASCII: a 97, b 98, g 103, o 111, s 115, u 117, v 118, y 121,
  // ( 40, ) 41, { 123, } 125.
  const ARRAY: byte := 97
  const OPEN_STRUCT: byte := 40
  const CLOSE_STRUCT: byte := 41
  const OPEN_ENTRY: byte := 123
  const CLOSE_ENTRY: byte := 125

  /** The code of a type other than an array, a struct or an entry. */
  function Letter(t: Type): byte {
    match t
    case TByte => 121
    case TBool => 98
    case TUint32 => 117
    case TString => 115
    case TObjPath => 111
    case TSignature => 103
    case _ => 118
  }

  function FromLetter(c: byte): (r: Option<Type>)
    ensures forall t | Basic(t) || t.TVariant? :: Letter(t) == c <==> r == Some(t)
    ensures r.Some? ==> Basic(r.value) || r.value.TVariant?
  {
    if c == 121 then Some(TByte)
    else if c == 98 then Some(TBool)
    else if c == 117 then Some(TUint32)
    else if c == 115 then Some(TString)
    else if c == 111 then Some(TObjPath)
    else if c == 103 then Some(TSignature)
    else if c == 118 then Some(TVariant)
    else None
  }

  function SigOf(t: Type): (s: bytes)
    ensures s != []
  {
    match t
    case TArray(e) => [ARRAY] + SigOf(e)
    case TStruct(fs) => [OPEN_STRUCT] + (SigOfAll(fs) + [CLOSE_STRUCT])
    case TEntry(k, v) => [OPEN_ENTRY] + (SigOf(k) + (SigOf(v) + [CLOSE_ENTRY]))
    case _ => [Letter(t)]
  }

  function SigOfAll(ts: seq<Type>): bytes {
    if ts == [] then [] else SigOf(ts[0]) + SigOfAll(ts[1..])
  }

  /** Reads one complete type of signature s at index i; the second component is the index after it. */
  function ParseType(s: bytes, i: nat): (r: Option<(Type, nat)>)
    ensures r.Some? ==> i < r.value.1 <= |s|
    decreases |s| - i, 1
  {
    if i >= |s| then None
    else if s[i] == OPEN_STRUCT then
      var (fs, j) :- ParseFields(s, i + 1);
      if fs == [] then None else Some((TStruct(fs), j))
    else if s[i] != ARRAY then
      var t :- FromLetter(s[i]);
      Some((t, i + 1))
    else if i + 1 < |s| && s[i + 1] == OPEN_ENTRY then
      var (e, j) :- ParseEntry(s, i + 1);
      Some((TArray(e), j))
    else
      var (e, j) :- ParseType(s, i + 1);
      Some((TArray(e), j))
  }

  /** Reads a dict entry whose opening brace is at index i. */
  function ParseEntry(s: bytes, i: nat): (r: Option<(Type, nat)>)
    requires i < |s|
    ensures r.Some? ==> i < r.value.1 <= |s|
    decreases |s| - i, 0
  {
    var (k, j) :- ParseType(s, i + 1);
    var (v, l) :- ParseType(s, j);
    if Basic(k) && l < |s| && s[l] == CLOSE_ENTRY then Some((TEntry(k, v), l + 1)) else None
  }

  /** Reads complete types up to and including a closing parenthesis. */
  function ParseFields(s: bytes, i: nat): (r: Option<(seq<Type>, nat)>)
    ensures r.Some? ==> i < r.value.1 <= |s|
    decreases |s| - i, 2
  {
    if i >= |s| then None
    else if s[i] == CLOSE_STRUCT then Some(([], i + 1))
    else
      var (t, j) :- ParseType(s, i);
      var (ts, l) :- ParseFields(s, j);
      Some(([t] + ts, l))
  }

  /** Reads complete types up to the end of s. */
  function ParseAll(s: bytes, i: nat): Option<seq<Type>>
    decreases |s| - i
  {
    if i >= |s| then Some([])
    else
      var (t, j) :- ParseType(s, i);
      var ts :- ParseAll(s, j);
      Some([t] + ts)
  }

  // No complete type's signature starts with a bracket that closes a struct or opens an entry.
  lemma FirstCode(t: Type)
    requires Complete(t)
    ensures SigOf(t)[0] != CLOSE_STRUCT && SigOf(t)[0] != OPEN_ENTRY
  {
  }

  lemma {:induction false} ParseSigOf(t: Type, s: bytes, i: nat)
    requires Complete(t) && At(s, i, SigOf(t))
    ensures ParseType(s, i) == Some((t, i + |SigOf(t)|))
    decreases t, 1
  {
    if t.TArray? {
      ParseSigOfArray(t.elem, s, i);
    } else if t.TStruct? {
      ParseSigOfStruct(t.fields, s, i);
    } else {
      AtIndex(s, i, SigOf(t), 0);
    }
  }

  lemma {:induction false} ParseSigOfArray(e: Type, s: bytes, i: nat)
    requires Complete(TArray(e)) && At(s, i, SigOf(TArray(e)))
    ensures ParseType(s, i) == Some((TArray(e), i + |SigOf(TArray(e))|))
    decreases TArray(e), 0
  {
    hide At;
    AtIndex(s, i, SigOf(TArray(e)), 0);
    AtSplit(s, i, [ARRAY], SigOf(e));
    AtIndex(s, i + 1, SigOf(e), 0);
    if e.TEntry? {
      ParseSigOfEntry(e.key, e.val, s, i + 1);
    } else {
      FirstCode(e);
      ParseSigOf(e, s, i + 1);
    }
  }

  lemma {:induction false} ParseSigOfStruct(fs: seq<Type>, s: bytes, i: nat)
    requires Complete(TStruct(fs)) && At(s, i, SigOf(TStruct(fs)))
    ensures ParseType(s, i) == Some((TStruct(fs), i + |SigOf(TStruct(fs))|))
    decreases TStruct(fs), 0
  {
    hide At;
    AtIndex(s, i, SigOf(TStruct(fs)), 0);
    AtSplit(s, i, [OPEN_STRUCT], SigOfAll(fs) + [CLOSE_STRUCT]);
    ParseSigOfFields(fs, s, i + 1);
  }

  lemma {:induction false} ParseSigOfEntry(k: Type, v: Type, s: bytes, i: nat)
    requires Complete(k) && Basic(k) && Complete(v)
    requires At(s, i, SigOf(TEntry(k, v)))
    ensures ParseEntry(s, i) == Some((TEntry(k, v), i + |SigOf(TEntry(k, v))|))
    decreases TEntry(k, v), 2
  {
    hide ParseType, At, SigOf, Complete;
    EntryText(k, v);
    EntryParts(SigOf(k), SigOf(v), s, i);
    ParseSigOf(k, s, i + 1);
    ParseSigOf(v, s, i + 1 + |SigOf(k)|);
  }

  lemma EntryText(k: Type, v: Type)
    ensures SigOf(TEntry(k, v)) == [OPEN_ENTRY] + (SigOf(k) + (SigOf(v) + [CLOSE_ENTRY]))
  {
  }

  lemma EntryParts(a: bytes, b: bytes, s: bytes, i: nat)
    requires At(s, i, [OPEN_ENTRY] + (a + (b + [CLOSE_ENTRY])))
    ensures At(s, i + 1, a) && At(s, i + 1 + |a|, b)
    ensures i + 1 + |a| + |b| < |s| && s[i + 1 + |a| + |b|] == CLOSE_ENTRY
  {
    hide At;
    AtSplit(s, i, [OPEN_ENTRY], a + (b + [CLOSE_ENTRY]));
    AtSplit(s, i + 1, a, b + [CLOSE_ENTRY]);
    AtSplit(s, i + 1 + |a|, b, [CLOSE_ENTRY]);
    AtIndex(s, i + 1 + |a| + |b|, [CLOSE_ENTRY], 0);
  }

  lemma {:induction false} ParseSigOfFields(ts: seq<Type>, s: bytes, i: nat)
    requires (forall t | t in ts :: Complete(t)) && At(s, i, SigOfAll(ts) + [CLOSE_STRUCT])
    ensures ParseFields(s, i) == Some((ts, i + |SigOfAll(ts)| + 1))
    decreases ts, 1
  {
    hide At, SigOf, ParseType, Complete;
    if ts == [] {
      AtIndex(s, i, SigOfAll(ts) + [CLOSE_STRUCT], 0);
    } else {
      var first, rest := SigOf(ts[0]), SigOfAll(ts[1..]);
      assert SigOfAll(ts) + [CLOSE_STRUCT] == first + (rest + [CLOSE_STRUCT]);
      AtSplit(s, i, first, rest + [CLOSE_STRUCT]);
      FirstCode(ts[0]);
      AtIndex(s, i, first, 0);
      ParseSigOf(ts[0], s, i);
      ParseSigOfFields(ts[1..], s, i + |first|);
      assert [ts[0]] + ts[1..] == ts;
    }
  }

  /** Every list of complete types is recovered from its signature. */
  lemma {:induction false} ParseSigOfAll(ts: seq<Type>, s: bytes, i: nat)
    requires (forall t | t in ts :: Complete(t)) && i + |SigOfAll(ts)| == |s| && At(s, i, SigOfAll(ts))
    ensures ParseAll(s, i) == Some(ts)
    decreases |ts|
  {
    hide At, SigOf, ParseType, Complete;
    if ts != [] {
      AtSplit(s, i, SigOf(ts[0]), SigOfAll(ts[1..]));
      ParseSigOf(ts[0], s, i);
      ParseSigOfAll(ts[1..], s, i + |SigOf(ts[0])|);
      assert [ts[0]] + ts[1..] == ts;
    }
  }

  // ----- Only signatures parse -----

  lemma {:induction false} SigOfParsed(s: bytes, i: nat)
    requires ParseType(s, i).Some?
    ensures var (t, j) := ParseType(s, i).value; At(s, i, SigOf(t)) && j == i + |SigOf(t)|
    decreases |s| - i, 2
  {
    if s[i] == OPEN_STRUCT {
      SigOfParsedFields(s, i + 1);
      var fs := ParseFields(s, i + 1).value.0;
      hide At;
      LeadingCode(s, i, SigOfAll(fs) + [CLOSE_STRUCT]);
    } else if s[i] == ARRAY {
      SigOfParsedArray(s, i);
    }
  }

  lemma {:induction false} SigOfParsedArray(s: bytes, i: nat)
    requires ParseType(s, i).Some? && s[i] == ARRAY
    ensures var (t, j) := ParseType(s, i).value; At(s, i, SigOf(t)) && j == i + |SigOf(t)|
    decreases |s| - i, 1
  {
    hide At;
    if i + 1 < |s| && s[i + 1] == OPEN_ENTRY {
      SigOfParsedEntry(s, i + 1);
      LeadingCode(s, i, SigOf(ParseEntry(s, i + 1).value.0));
    } else {
      SigOfParsed(s, i + 1);
      LeadingCode(s, i, SigOf(ParseType(s, i + 1).value.0));
    }
  }

  lemma LeadingCode(s: bytes, i: nat, rest: bytes)
    requires At(s, i + 1, rest)
    ensures At(s, i, [s[i]] + rest)
  {
    AtJoin(s, i, [s[i]], rest);
  }

  lemma {:induction false} SigOfParsedEntry(s: bytes, i: nat)
    requires i < |s| && s[i] == OPEN_ENTRY && ParseEntry(s, i).Some?
    ensures var (t, j) := ParseEntry(s, i).value; At(s, i, SigOf(t)) && j == i + |SigOf(t)|
    decreases |s| - i, 0
  {
    hide ParseType, At, SigOf;
    var (k, j) := ParseType(s, i + 1).value;
    var (v, l) := ParseType(s, j).value;
    SigOfParsed(s, i + 1);
    SigOfParsed(s, j);
    EntryText(k, v);
    AtOne(s, i);
    AtOne(s, l);
    AtJoin(s, j, SigOf(v), [CLOSE_ENTRY]);
    AtJoin(s, i + 1, SigOf(k), SigOf(v) + [CLOSE_ENTRY]);
    AtJoin(s, i, [OPEN_ENTRY], SigOf(k) + (SigOf(v) + [CLOSE_ENTRY]));
  }

  lemma AtOne(s: bytes, i: nat)
    requires i < |s|
    ensures At(s, i, [s[i]])
  {
  }

  lemma {:induction false} SigOfParsedFields(s: bytes, i: nat)
    requires ParseFields(s, i).Some?
    ensures var (ts, j) := ParseFields(s, i).value;
            At(s, i, SigOfAll(ts) + [CLOSE_STRUCT]) && j == i + |SigOfAll(ts)| + 1
    decreases |s| - i, 3
  {
    if s[i] == CLOSE_STRUCT {
      assert SigOfAll([]) + [CLOSE_STRUCT] == [CLOSE_STRUCT];
    } else {
      var (t, j) := ParseType(s, i).value;
      var (ts, l) := ParseFields(s, j).value;
      SigOfParsed(s, i);
      SigOfParsedFields(s, j);
      hide ParseType;
      AtJoin(s, i, SigOf(t), SigOfAll(ts) + [CLOSE_STRUCT]);
      assert ([t] + ts)[1..] == ts;
      assert SigOfAll([t] + ts) + [CLOSE_STRUCT] == SigOf(t) + (SigOfAll(ts) + [CLOSE_STRUCT]);
    }
  }
}

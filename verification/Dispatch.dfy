/** Answering one method call: the Secret Service methods and the values they return. */
module Dispatch {
  import opened Bytes
  import opened Options
  import opened Signatures
  import opened Values
  import opened Messages
  import opened Incoming
  import E = Encoder

  function PathCollection(): bytes { Ascii("/org/freedesktop/secrets/collection/login") }
  function PathItem(): bytes { Ascii("/org/freedesktop/secrets/item/1") }
  function PathSession(): bytes { Ascii("/org/freedesktop/secrets/session/1") }
  function ServerGuid(): bytes { Ascii("0123456789abcdef0123456789abcdef") }
  function UnknownMethod(): bytes { Ascii("org.freedesktop.DBus.Error.UnknownMethod") }

  // ----- The intended answers -----

  /** The methods served, by interface and member. */
  datatype Method =
    | Hello | AddMatch | RemoveMatch | GetNameOwner
    | Ping | GetMachineId
    | OpenSession | Unlock | Lock | SearchItems | ReadAlias | GetSecrets
    | SearchCollection
    | GetSecret
    | CloseSession
    | GetProperty
    | Unhandled

  function Recognise(iface: bytes, member: bytes): Method {
    if iface == Ascii("org.freedesktop.DBus") then
      if member == Ascii("Hello") then Hello
      else if member == Ascii("AddMatch") then AddMatch
      else if member == Ascii("RemoveMatch") then RemoveMatch
      else if member == Ascii("GetNameOwner") then GetNameOwner
      else Unhandled
    else if iface == Ascii("org.freedesktop.DBus.Peer") then
      if member == Ascii("Ping") then Ping
      else if member == Ascii("GetMachineId") then GetMachineId
      else Unhandled
    else if iface == Ascii("org.freedesktop.Secret.Service") then
      if member == Ascii("OpenSession") then OpenSession
      else if member == Ascii("Unlock") then Unlock
      else if member == Ascii("Lock") then Lock
      else if member == Ascii("SearchItems") then SearchItems
      else if member == Ascii("ReadAlias") then ReadAlias
      else if member == Ascii("GetSecrets") then GetSecrets
      else Unhandled
    else if iface == Ascii("org.freedesktop.Secret.Collection") then
      if member == Ascii("SearchItems") then SearchCollection else Unhandled
    else if iface == Ascii("org.freedesktop.Secret.Item") then
      if member == Ascii("GetSecret") then GetSecret else Unhandled
    else if iface == Ascii("org.freedesktop.Secret.Session") then
      if member == Ascii("Close") then CloseSession else Unhandled
    else if iface == Ascii("org.freedesktop.DBus.Properties") then
      if member == Ascii("Get") then GetProperty else Unhandled
    else Unhandled
  }

  /** A successful reply carries values, a failed one an error name and a text. */
  datatype Answer = Return(values: seq<Value>) | Error(name: bytes, text: bytes)

  function Paths(paths: seq<bytes>): Value {
    VArray(TObjPath, PathValues(paths))
  }

  /** The Secret structure of the Secret Service API: session, parameters, value, content type. */
  function SecretValue(secret: bytes): Value {
    VStruct([VObjPath(PathSession()), E.Blob([]), E.Blob(secret), VString(Ascii("text/plain"))])
  }

  const SECRET_TYPE := TStruct([TObjPath, TArray(TByte), TArray(TByte), TString])

  function SecretsByItem(item: bytes, secret: bytes): Value {
    VArray(TEntry(TObjPath, SECRET_TYPE), [VEntry(VObjPath(item), SecretValue(secret))])
  }

  function Property(prop: bytes): Value {
    if prop == Ascii("Collections") then VVariant(TArray(TObjPath), Paths([PathCollection()]))
    else if prop == Ascii("Locked") then VVariant(TBool, VBool(false))
    else if prop == Ascii("Label") then VVariant(TString, VString(Ascii("agy")))
    else VVariant(TString, VString([]))
  }

  /** The second of the call's two string arguments, when both are there. */
  function PropertyName(m: InMessage): bytes {
    var args := StringsFrom(m.raw, m.bodyStart, 2);
    if |args| == 2 then args[1] else []
  }

  function NoSuchMethod(m: InMessage): bytes {
    Ascii("no such method ") + m.iface + Ascii(".") + m.member
  }

  function Intended(m: InMessage, secret: bytes): Answer {
    match Recognise(m.iface, m.member)
    case Hello => Return([VString(Ascii(":1.1"))])
    case AddMatch => Return([])
    case RemoveMatch => Return([])
    case GetNameOwner => Return([VString(Ascii(":1.1"))])
    case Ping => Return([])
    case GetMachineId => Return([VString(ServerGuid())])
    case OpenSession => Return([VVariant(TString, VString([])), VObjPath(PathSession())])
    case Unlock => Return([Paths(ObjPathsOf(m)), VObjPath(Ascii("/"))])
    case Lock => Return([Paths(ObjPathsOf(m)), VObjPath(Ascii("/"))])
    case SearchItems => Return([Paths([PathItem()]), Paths([])])
    case ReadAlias => Return([VObjPath(PathCollection())])
    case GetSecrets => Return([SecretsByItem(PathItem(), secret)])
    case SearchCollection => Return([Paths([PathItem()])])
    case GetSecret => Return([SecretValue(secret)])
    case CloseSession => Return([])
    case GetProperty => Return([Property(PropertyName(m))])
    case Unhandled => Error(UnknownMethod(), NoSuchMethod(m))
  }

  /** The reply that carries an answer to the call with serial replySerial. */
  function AnswerFields(a: Answer, replySerial: uint32): seq<Field> {
    match a
    case Return(values) => ReplyFields(replySerial, [], SigOfAll(TypesOf(values)))
    case Error(name, _) => ReplyFields(replySerial, name, [115])
  }

  function AnswerBody(a: Answer): seq<Value> {
    match a
    case Return(values) => values
    case Error(_, text) => [VString(text)]
  }

  function AnswerHeader(a: Answer, serial: uint32): Header {
    Header(if a.Return? then METHOD_REPLY else ERROR, 1, 1, serial)
  }

  function AnswerFrame(a: Answer, replySerial: uint32, serial: uint32): bytes {
    Frame(AnswerHeader(a, serial), AnswerFields(a, replySerial), MarshalAll(AnswerBody(a), 0))
  }

  function ReplyFor(m: InMessage, secret: bytes, serial: uint32): bytes {
    AnswerFrame(Intended(m, secret), m.serial, serial)
  }

  // ----- The closures -----

  function StrCalls(paths: seq<bytes>): seq<E.Call> {
    seq(|paths|, i requires 0 <= i < |paths| => E.Str(paths[i]))
  }

  function ArrayObjPaths(paths: seq<bytes>): seq<E.Call> {
    [E.Array(4, StrCalls(paths))]
  }

  function SecretStruct(secret: bytes): seq<E.Call> {
    [E.Pad(8), E.Str(PathSession()), E.Ay([]), E.Ay(secret), E.Str(Ascii("text/plain"))]
  }

  function ArrayDictItemSecret(item: bytes, secret: bytes): seq<E.Call> {
    [E.Array(8, [E.Pad(8), E.Str(item)] + SecretStruct(secret))]
  }

  /** A closure and a signature that write the given values and declare their types. */
  predicate Writes(sig: bytes, body: seq<E.Call>, values: seq<Value>) {
    sig == SigOfAll(TypesOf(values)) && body == E.CallsOfAll(values) && TypedBody(values) && |sig| < 0x100
  }

  lemma Cons(v: Value, vs: seq<Value>)
    ensures E.CallsOfAll([v] + vs) == E.CallsOf(v) + E.CallsOfAll(vs)
    ensures TypesOf([v] + vs) == [TypeOf(v)] + TypesOf(vs)
  {
  }

  lemma SigCons(t: Type, ts: seq<Type>)
    ensures SigOfAll([t] + ts) == SigOf(t) + SigOfAll(ts)
  {
  }

  // One simple value.
  lemma WritesOne(v: Value)
    requires Typed(v) && Complete(TypeOf(v))
    ensures TypesOf([v]) == [TypeOf(v)]
    ensures SigOfAll(TypesOf([v])) == SigOf(TypeOf(v)) && E.CallsOfAll([v]) == E.CallsOf(v) && TypedBody([v])
  {
  }

  lemma WritesTwo(v: Value, w: Value)
    requires Typed(v) && Typed(w) && Complete(TypeOf(v)) && Complete(TypeOf(w))
    ensures TypesOf([v, w]) == [TypeOf(v), TypeOf(w)]
    ensures SigOfAll(TypesOf([v, w])) == SigOf(TypeOf(v)) + SigOf(TypeOf(w))
    ensures E.CallsOfAll([v, w]) == E.CallsOf(v) + E.CallsOf(w)
    ensures TypedBody([v, w])
  {
    hide SigOf, E.CallsOf, Typed, Complete;
    WritesOne(w);
    assert [v, w][1..] == [w];
    assert [TypeOf(v), TypeOf(w)][1..] == [TypeOf(w)];
  }

  lemma {:induction false} CallsOfPaths(paths: seq<bytes>)
    ensures E.CallsOfAll(PathValues(paths)) == StrCalls(paths)
    decreases |paths|
  {
    if paths != [] {
      assert PathValues(paths)[1..] == PathValues(paths[1..]);
      CallsOfPaths(paths[1..]);
      assert StrCalls(paths) == [E.Str(paths[0])] + StrCalls(paths[1..]);
    }
  }

  lemma CallsOfPathArray(paths: seq<bytes>)
    ensures E.CallsOf(Paths(paths)) == ArrayObjPaths(paths)
    ensures Typed(Paths(paths)) && TypeOf(Paths(paths)) == TArray(TObjPath)
  {
    CallsOfPaths(paths);
    var v := Paths(paths);
    assert E.CallsOf(v) == [E.Array(Alignment(TObjPath), E.CallsOfAll(v.items))];
    forall w | w in v.items
      ensures Typed(w) && TypeOf(w) == TObjPath
    {
      assert w.VObjPath?;
    }
  }

  lemma CallsOfBlob(data: bytes)
    ensures E.CallsOf(E.Blob(data)) == [E.Ay(data)]
    ensures Typed(E.Blob(data)) && TypeOf(E.Blob(data)) == TArray(TByte)
  {
    var v := E.Blob(data);
    assert E.BytesOf(v.items) == data;
    assert E.CallsOf(v) == [E.Ay(E.BytesOf(v.items))];
    forall w | w in v.items
      ensures Typed(w) && TypeOf(w) == TByte
    {
      assert w.VByte?;
    }
  }

  lemma SimpleTyped(v: Value)
    requires v.VString? || v.VObjPath?
    ensures Typed(v)
  {
  }

  lemma StructTyped(fs: seq<Value>)
    requires fs != [] && forall f | f in fs :: Typed(f)
    ensures Typed(VStruct(fs))
  {
  }

  lemma CallsOfSecret(secret: bytes)
    ensures E.CallsOf(SecretValue(secret)) == SecretStruct(secret)
    ensures Typed(SecretValue(secret)) && TypeOf(SecretValue(secret)) == SECRET_TYPE
  {
    hide E.Blob, E.CallsOfAll, TypesOf, Typed, PathSession, Ascii;
    var a, b, c, d := VObjPath(PathSession()), E.Blob([]), E.Blob(secret), VString(Ascii("text/plain"));
    CallsOfBlob([]);
    CallsOfBlob(secret);
    SimpleTyped(a);
    SimpleTyped(d);
    WritesTwo(c, d);
    Cons(b, [c, d]);
    Cons(a, [b, c, d]);
    assert [b] + [c, d] == [b, c, d] && [a] + [b, c, d] == [a, b, c, d];
    assert TypesOf([a, b, c, d]) == [TObjPath, TArray(TByte), TArray(TByte), TString];
    assert E.CallsOfAll([a, b, c, d]) == [E.Str(PathSession()), E.Ay([]), E.Ay(secret), E.Str(Ascii("text/plain"))];
    StructTyped([a, b, c, d]);
  }

  lemma CallsOfSecrets(item: bytes, secret: bytes)
    ensures E.CallsOf(SecretsByItem(item, secret)) == ArrayDictItemSecret(item, secret)
    ensures Typed(SecretsByItem(item, secret)) &&
            TypeOf(SecretsByItem(item, secret)) == TArray(TEntry(TObjPath, SECRET_TYPE))
  {
    hide SecretStruct, SecretValue;
    var entry := VEntry(VObjPath(item), SecretValue(secret));
    CallsOfSecret(secret);
    assert Typed(entry) && TypeOf(entry) == TEntry(TObjPath, SECRET_TYPE);
    assert [entry][1..] == [];
    assert E.CallsOfAll([entry]) == E.CallsOf(entry) + [];
    assert E.CallsOf(entry) == [E.Pad(8)] + ([E.Str(item)] + SecretStruct(secret));
    assert E.CallsOfAll([entry]) == [E.Pad(8), E.Str(item)] + SecretStruct(secret);
  }

  lemma NoSignature()
    ensures SigOfAll([]) == []
  {
  }

  lemma SecretComplete()
    ensures Complete(SECRET_TYPE) && Complete(TArray(TEntry(TObjPath, SECRET_TYPE)))
  {
  }

  lemma SecretSignatures()
    ensures SigOf(SECRET_TYPE) == Ascii("(oayays)")
    ensures SigOf(TArray(TEntry(TObjPath, SECRET_TYPE))) == Ascii("a{o(oayays)}")
    ensures SigOf(TArray(TObjPath)) == Ascii("ao")
    ensures Complete(SECRET_TYPE) && Complete(TArray(TEntry(TObjPath, SECRET_TYPE)))
  {
    hide SigOfAll, Complete;
    var o, ay, s := TObjPath, TArray(TByte), TString;
    NoSignature();
    SigCons(s, []);
    SigCons(ay, [s]);
    SigCons(ay, [ay, s]);
    SigCons(o, [ay, ay, s]);
    assert [s] == [s] + [] && [ay, s] == [ay] + [s] && [ay, ay, s] == [ay] + [ay, s] &&
           SECRET_TYPE.fields == [o] + [ay, ay, s];
    assert SigOfAll(SECRET_TYPE.fields) == [111, 97, 121, 97, 121, 115];
    SecretComplete();
  }

  // ----- The methods -----

  // A METHOD_RETURN for m with the given body signature and body.
  method Reply(m: InMessage, serial: uint32, bodySig: bytes, body: seq<E.Call>) returns (raw: bytes)
    requires |bodySig| < 0x100
    ensures var fs := ReplyFields(m.serial, [], bodySig);
            raw == Frame(Header(METHOD_REPLY, 1, 1, serial), fs, E.EmitAll(body, BodyStart(fs)))
  {
    raw := EncodeMessage(METHOD_REPLY, serial, m.serial, [], bodySig, body);
  }

  method ErrorReply(m: InMessage, serial: uint32, name: bytes, msg: bytes) returns (raw: bytes)
    ensures raw == AnswerFrame(Error(name, msg), m.serial, serial)
  {
    hide E.EmitAll, Frame, MarshalAll, ReplyFields, E.CallsOfAll, BodyStart;
    assert Ascii("s") == [115];
    raw := EncodeMessage(ERROR, serial, m.serial, name, Ascii("s"), [E.Str(msg)]);
    WritesOne(VString(msg));
    EmittedBody(ReplyFields(m.serial, name, [115]), [VString(msg)]);
  }

  lemma EmittedBody(fs: seq<Field>, values: seq<Value>)
    requires TypedBody(values)
    ensures E.EmitAll(E.CallsOfAll(values), BodyStart(fs)) == MarshalAll(values, 0)
  {
    hide E.EmitAll, MarshalAll, E.CallsOfAll;
    E.CallsMarshalAll(values, BodyStart(fs));
    MarshalBody(values, fs);
  }

  /** A closure that writes the answer's values makes the answer's frame. */
  lemma ReplyFrame(sig: bytes, body: seq<E.Call>, values: seq<Value>, replySerial: uint32, serial: uint32)
    requires Writes(sig, body, values)
    ensures var fs := ReplyFields(replySerial, [], sig);
            Frame(Header(METHOD_REPLY, 1, 1, serial), fs, E.EmitAll(body, BodyStart(fs)))
            == AnswerFrame(Return(values), replySerial, serial)
  {
    hide E.EmitAll, Frame, MarshalAll, ReplyFields, E.CallsOfAll, BodyStart;
    EmittedBody(ReplyFields(replySerial, [], sig), values);
  }

  lemma WritesNothing()
    ensures Writes([], [], [])
  {
  }

  lemma WritesString(s: bytes)
    ensures Writes(Ascii("s"), [E.Str(s)], [VString(s)])
  {
  }

  lemma WritesObjPath(s: bytes)
    ensures Writes(Ascii("o"), [E.Str(s)], [VObjPath(s)])
  {
  }

  lemma WritesSession()
    ensures Writes(Ascii("vo"), [E.Variant(Ascii("s"), [E.Str([])]), E.Str(PathSession())],
                   [VVariant(TString, VString([])), VObjPath(PathSession())])
  {
    assert Ascii("s") == [115] && Ascii("vo") == [118, 111];
    hide PathSession;
    WritesTwo(VVariant(TString, VString([])), VObjPath(PathSession()));
  }

  lemma WritesUnlocked(paths: seq<bytes>)
    ensures Writes(Ascii("aoo"), ArrayObjPaths(paths) + [E.Str(Ascii("/"))], [Paths(paths), VObjPath(Ascii("/"))])
  {
    hide Paths, ArrayObjPaths;
    assert Ascii("aoo") == [97, 111, 111];
    CallsOfPathArray(paths);
    WritesTwo(Paths(paths), VObjPath(Ascii("/")));
  }

  lemma WritesFound(unlocked: seq<bytes>, locked: seq<bytes>)
    ensures Writes(Ascii("aoao"), ArrayObjPaths(unlocked) + ArrayObjPaths(locked), [Paths(unlocked), Paths(locked)])
  {
    hide Paths, ArrayObjPaths;
    assert Ascii("aoao") == [97, 111, 97, 111];
    CallsOfPathArray(unlocked);
    CallsOfPathArray(locked);
    WritesTwo(Paths(unlocked), Paths(locked));
  }

  lemma WritesPaths(paths: seq<bytes>)
    ensures Writes(Ascii("ao"), ArrayObjPaths(paths), [Paths(paths)])
  {
    hide Paths, ArrayObjPaths;
    assert Ascii("ao") == [97, 111];
    CallsOfPathArray(paths);
    WritesOne(Paths(paths));
  }

  lemma WritesSecrets(item: bytes, secret: bytes)
    ensures Writes(Ascii("a{o(oayays)}"), ArrayDictItemSecret(item, secret), [SecretsByItem(item, secret)])
  {
    hide SecretsByItem, ArrayDictItemSecret, Complete, SigOf;
    CallsOfSecrets(item, secret);
    SecretSignatures();
    WritesOne(SecretsByItem(item, secret));
  }

  lemma WritesSecret(secret: bytes)
    ensures Writes(Ascii("(oayays)"), SecretStruct(secret), [SecretValue(secret)])
  {
    hide SecretValue, SecretStruct, Complete, SigOf;
    CallsOfSecret(secret);
    SecretSignatures();
    WritesOne(SecretValue(secret));
  }

  lemma WritesVariant(sig: bytes, calls: seq<E.Call>, v: Value)
    requires Typed(v) && Complete(TypeOf(v)) && sig == SigOf(TypeOf(v)) && |sig| < 0x100 && calls == E.CallsOf(v)
    ensures Writes(Ascii("v"), [E.Variant(sig, calls)], [VVariant(TypeOf(v), v)])
  {
  }

  lemma PropertySignatures()
    ensures SigOf(TString) == Ascii("s") && SigOf(TBool) == Ascii("b") && SigOf(TArray(TObjPath)) == Ascii("ao")
  {
  }

  // The body of a property's reply.
  method PropertyCalls(prop: bytes) returns (calls: seq<E.Call>)
    ensures Writes(Ascii("v"), calls, [Property(prop)])
  {
    hide Writes, Ascii, SigOf, ArrayObjPaths, PathCollection, Paths;
    PropertySignatures();
    if prop == Ascii("Collections") {
      CallsOfPathArray([PathCollection()]);
      WritesVariant(Ascii("ao"), ArrayObjPaths([PathCollection()]), Paths([PathCollection()]));
      return [E.Variant(Ascii("ao"), ArrayObjPaths([PathCollection()]))];
    } else if prop == Ascii("Locked") {
      WritesVariant(Ascii("b"), [E.U32(0)], VBool(false));
      return [E.Variant(Ascii("b"), [E.U32(0)])];
    } else if prop == Ascii("Label") {
      WritesVariant(Ascii("s"), [E.Str(Ascii("agy"))], VString(Ascii("agy")));
      return [E.Variant(Ascii("s"), [E.Str(Ascii("agy"))])];
    } else {
      WritesVariant(Ascii("s"), [E.Str([])], VString([]));
      return [E.Variant(Ascii("s"), [E.Str([])])];
    }
  }

  // The calls to the Secret Service itself.
  method ChooseService(m: InMessage, secret: bytes)
    returns (handled: bool, sig: bytes, body: seq<E.Call>, ghost values: seq<Value>)
    requires m.iface == Ascii("org.freedesktop.Secret.Service")
    ensures handled ==> Writes(sig, body, values) && Intended(m, secret) == Return(values)
    ensures !handled ==> Intended(m, secret) == Error(UnknownMethod(), NoSuchMethod(m))
  {
    OnlyService();
    hide Writes, Ascii, Paths, ArrayObjPaths, SecretValue, SecretStruct, SecretsByItem, ArrayDictItemSecret, Property;
    hide PathCollection, PathItem, PathSession, ServerGuid, ObjPathsOf, StringsFrom, NoSuchMethod, UnknownMethod;
    handled, sig, body, values := true, [], [], [];
    if m.member == Ascii("OpenSession") {
      WritesSession();
      sig, body := Ascii("vo"), [E.Variant(Ascii("s"), [E.Str([])]), E.Str(PathSession())];
      values := [VVariant(TString, VString([])), VObjPath(PathSession())];
    } else if m.member == Ascii("Unlock") || m.member == Ascii("Lock") {
      // Echo back the requested paths, with no prompt.
      var paths := BodyObjPaths(m);
      WritesUnlocked(paths);
      sig, body, values := Ascii("aoo"), ArrayObjPaths(paths) + [E.Str(Ascii("/"))],
        [Paths(paths), VObjPath(Ascii("/"))];
    } else if m.member == Ascii("SearchItems") {
      WritesFound([PathItem()], []);
      sig, body, values := Ascii("aoao"), ArrayObjPaths([PathItem()]) + ArrayObjPaths([]),
        [Paths([PathItem()]), Paths([])];
    } else if m.member == Ascii("ReadAlias") {
      WritesObjPath(PathCollection());
      sig, body, values := Ascii("o"), [E.Str(PathCollection())], [VObjPath(PathCollection())];
    } else if m.member == Ascii("GetSecrets") {
      WritesSecrets(PathItem(), secret);
      sig, body := Ascii("a{o(oayays)}"), ArrayDictItemSecret(PathItem(), secret);
      values := [SecretsByItem(PathItem(), secret)];
    } else {
      handled := false;
    }
  }

  // Its name is none of those tried before it.
  lemma OnlyService()
    ensures Ascii("org.freedesktop.Secret.Service") != Ascii("org.freedesktop.DBus")
    ensures Ascii("org.freedesktop.Secret.Service") != Ascii("org.freedesktop.DBus.Peer")
  {
  }

  // The calls to the bus itself.
  method ChooseBus(m: InMessage, secret: bytes)
    returns (handled: bool, sig: bytes, body: seq<E.Call>, ghost values: seq<Value>)
    requires m.iface == Ascii("org.freedesktop.DBus")
    ensures handled ==> Writes(sig, body, values) && Intended(m, secret) == Return(values)
    ensures !handled ==> Intended(m, secret) == Error(UnknownMethod(), NoSuchMethod(m))
  {
    hide Writes, Ascii, Paths, SecretValue, SecretsByItem, Property, PathCollection, PathItem, PathSession, ServerGuid,
      ObjPathsOf, StringsFrom, NoSuchMethod, UnknownMethod;
    handled, sig, body, values := true, [], [], [];
    WritesNothing();
    if m.member == Ascii("Hello") || m.member == Ascii("GetNameOwner") {
      WritesString(Ascii(":1.1"));
      sig, body, values := Ascii("s"), [E.Str(Ascii(":1.1"))], [VString(Ascii(":1.1"))];
    } else if m.member == Ascii("AddMatch") || m.member == Ascii("RemoveMatch") {
    } else {
      handled := false;
    }
  }

  // The calls any peer answers.
  method ChoosePeer(m: InMessage, secret: bytes)
    returns (handled: bool, sig: bytes, body: seq<E.Call>, ghost values: seq<Value>)
    requires m.iface == Ascii("org.freedesktop.DBus.Peer")
    ensures handled ==> Writes(sig, body, values) && Intended(m, secret) == Return(values)
    ensures !handled ==> Intended(m, secret) == Error(UnknownMethod(), NoSuchMethod(m))
  {
    assert Ascii("org.freedesktop.DBus.Peer") != Ascii("org.freedesktop.DBus") by { OnlyPeer(); }
    hide Writes, Ascii, Paths, SecretValue, SecretsByItem, Property, PathCollection, PathItem, PathSession, ServerGuid,
      ObjPathsOf, StringsFrom, NoSuchMethod, UnknownMethod;
    handled, sig, body, values := true, [], [], [];
    WritesNothing();
    if m.member == Ascii("Ping") {
    } else if m.member == Ascii("GetMachineId") {
      WritesString(ServerGuid());
      sig, body, values := Ascii("s"), [E.Str(ServerGuid())], [VString(ServerGuid())];
    } else {
      handled := false;
    }
  }

  lemma OnlyPeer()
    ensures Ascii("org.freedesktop.DBus.Peer") != Ascii("org.freedesktop.DBus")
  {
  }

  // The reply's body signature and closure for a call that is served; the values are what they write.
  method Choose(m: InMessage, secret: bytes)
    returns (handled: bool, sig: bytes, body: seq<E.Call>, ghost values: seq<Value>)
    ensures handled ==> Writes(sig, body, values) && Intended(m, secret) == Return(values)
    ensures !handled ==> Intended(m, secret) == Error(UnknownMethod(), NoSuchMethod(m))
  {
    hide Writes, Ascii, Intended, NoSuchMethod, UnknownMethod;
    if m.iface == Ascii("org.freedesktop.DBus") {
      handled, sig, body, values := ChooseBus(m, secret);
    } else if m.iface == Ascii("org.freedesktop.DBus.Peer") {
      handled, sig, body, values := ChoosePeer(m, secret);
    } else if m.iface == Ascii("org.freedesktop.Secret.Service") {
      handled, sig, body, values := ChooseService(m, secret);
    } else {
      handled, sig, body, values := ChooseObject(m, secret);
    }
  }

  // The calls to the objects the service serves, and for properties.
  method ChooseObject(m: InMessage, secret: bytes)
    returns (handled: bool, sig: bytes, body: seq<E.Call>, ghost values: seq<Value>)
    requires m.iface != Ascii("org.freedesktop.DBus") && m.iface != Ascii("org.freedesktop.DBus.Peer")
    requires m.iface != Ascii("org.freedesktop.Secret.Service")
    ensures handled ==> Writes(sig, body, values) && Intended(m, secret) == Return(values)
    ensures !handled ==> Intended(m, secret) == Error(UnknownMethod(), NoSuchMethod(m))
  {
    hide Writes, Ascii, Paths, ArrayObjPaths, SecretValue, SecretStruct, Property, PathItem, PropertyName, NoSuchMethod,
      UnknownMethod, Intended;
    handled, sig, body, values := true, [], [], [];
    WritesNothing();
    ObjectAnswers(m, secret);
    if m.iface == Ascii("org.freedesktop.Secret.Collection") && m.member == Ascii("SearchItems") {
      WritesPaths([PathItem()]);
      sig, body, values := Ascii("ao"), ArrayObjPaths([PathItem()]), [Paths([PathItem()])];
    } else if m.iface == Ascii("org.freedesktop.Secret.Item") && m.member == Ascii("GetSecret") {
      WritesSecret(secret);
      sig, body, values := Ascii("(oayays)"), SecretStruct(secret), [SecretValue(secret)];
    } else if m.iface == Ascii("org.freedesktop.Secret.Session") && m.member == Ascii("Close") {
    } else if m.iface == Ascii("org.freedesktop.DBus.Properties") && m.member == Ascii("Get") {
      sig, body, values := ChooseProperty(m);
    } else {
      handled := false;
    }
  }

  lemma ObjectAnswers(m: InMessage, secret: bytes)
    requires m.iface != Ascii("org.freedesktop.DBus") && m.iface != Ascii("org.freedesktop.DBus.Peer")
    requires m.iface != Ascii("org.freedesktop.Secret.Service")
    ensures Intended(m, secret) ==
            if m.iface == Ascii("org.freedesktop.Secret.Collection") && m.member == Ascii("SearchItems") then
              Return([Paths([PathItem()])])
            else if m.iface == Ascii("org.freedesktop.Secret.Item") && m.member == Ascii("GetSecret") then
              Return([SecretValue(secret)])
            else if m.iface == Ascii("org.freedesktop.Secret.Session") && m.member == Ascii("Close") then Return([])
            else if m.iface == Ascii("org.freedesktop.DBus.Properties") && m.member == Ascii("Get") then
              Return([Property(PropertyName(m))])
            else Error(UnknownMethod(), NoSuchMethod(m))
  {
    hide Ascii, Paths, SecretValue, Property, PathItem, PropertyName, NoSuchMethod, UnknownMethod;
  }

  method ChooseProperty(m: InMessage) returns (sig: bytes, body: seq<E.Call>, ghost values: seq<Value>)
    ensures Writes(sig, body, values) && values == [Property(PropertyName(m))]
  {
    hide Writes, Ascii, Property, StringsFrom;
    var args := BodyStrings(m, 2);
    var prop := [];
    if |args| == 2 {
      prop := args[1];
    }
    body := PropertyCalls(prop);
    sig, values := Ascii("v"), [Property(prop)];
  }

  // Answers one method call.  Every call gets a reply.
  method Dispatch(m: InMessage, secret: bytes, serial: uint32) returns (raw: bytes)
    ensures raw == ReplyFor(m, secret, serial)
  {
    hide AnswerFrame, Intended, Frame, E.EmitAll, ReplyFields;
    var handled, sig, body, values := Choose(m, secret);
    if handled {
      raw := Reply(m, serial, sig, body);
      ReplyFrame(sig, body, values, m.serial, serial);
    } else {
      raw := ErrorReply(m, serial, UnknownMethod(), NoSuchMethod(m));
    }
  }

  // ----- What a client makes of the reply -----

  lemma AnswerTyped(a: Answer)
    requires a.Return? ==> TypedBody(a.values) && |SigOfAll(TypesOf(a.values))| < 0x100
    ensures TypedBody(AnswerBody(a))
  {
  }

  lemma IntendedTyped(m: InMessage, secret: bytes)
    ensures var a := Intended(m, secret); a.Return? ==> TypedBody(a.values) && |SigOfAll(TypesOf(a.values))| < 0x100
    ensures var a := Intended(m, secret); a.Error? ==> a.name != []
  {
    hide Ascii, Paths, SecretValue, SecretsByItem, ObjPathsOf, StringsFrom, SigOfAll, TypesOf, TypedBody;
    hide PathCollection, PathItem, PathSession, ServerGuid, NoSuchMethod, Recognise, ArrayObjPaths, SecretStruct,
      ArrayDictItemSecret;
    WritesNothing();
    WritesString(Ascii(":1.1"));
    WritesString(ServerGuid());
    WritesSession();
    WritesUnlocked(ObjPathsOf(m));
    WritesFound([PathItem()], []);
    WritesObjPath(PathCollection());
    WritesSecrets(PathItem(), secret);
    WritesPaths([PathItem()]);
    WritesSecret(secret);
    PropertyTyped(PropertyName(m));
  }

  lemma PropertyTyped(prop: bytes)
    ensures TypedBody([Property(prop)]) && |SigOfAll(TypesOf([Property(prop)]))| < 0x100
  {
    hide Ascii, SigOf, ArrayObjPaths, PathCollection, Paths, SigOfAll, TypedBody;
    PropertySignatures();
    CallsOfPathArray([PathCollection()]);
    WritesVariant(Ascii("ao"), ArrayObjPaths([PathCollection()]), Paths([PathCollection()]));
    WritesVariant(Ascii("b"), [E.U32(0)], VBool(false));
    WritesVariant(Ascii("s"), [E.Str(Ascii("agy"))], VString(Ascii("agy")));
    WritesVariant(Ascii("s"), [E.Str([])], VString([]));
  }

  lemma LookUp(f: Field, fs: seq<Field>, code: byte)
    ensures FieldOf(FieldValues([f] + fs), code) ==
            if f.code == code then Some(f.val) else FieldOf(FieldValues(fs), code)
  {
  }

  lemma NoFields(code: byte)
    ensures FieldOf(FieldValues([]), code) == None
  {
  }

  /** Each reply field is found under its code, and only the fields asked for are there. */
  lemma ReplyFieldsFound(replySerial: uint32, errName: bytes, sig: bytes)
    ensures var vs := FieldValues(ReplyFields(replySerial, errName, sig));
            FieldOf(vs, REPLY_SERIAL) == Some(VUint32(replySerial)) &&
            FieldOf(vs, ERROR_NAME) == (if errName != [] then Some(VString(errName)) else None) &&
            FieldOf(vs, SIGNATURE) == (if sig != [] then Some(VSignature(sig)) else None) &&
            DeclaredSignature(vs) == Some(sig)
  {
    hide FieldOf, FieldValues;
    var a, b, c := Field(REPLY_SERIAL, VUint32(replySerial)), Field(ERROR_NAME, VString(errName)),
                   Field(SIGNATURE, VSignature(sig));
    var cs := if sig != [] then [c] else [];
    var bs := if errName != [] then [b] else [];
    assert [c] + [] == [c] && [] + cs == cs;
    NoFields(ERROR_NAME);
    NoFields(SIGNATURE);
    LookUp(a, bs + cs, REPLY_SERIAL);
    LookUp(a, bs + cs, ERROR_NAME);
    LookUp(a, bs + cs, SIGNATURE);
    LookUp(b, cs, ERROR_NAME);
    LookUp(b, cs, SIGNATURE);
    LookUp(c, [], ERROR_NAME);
    LookUp(c, [], SIGNATURE);
  }

  /**
   * For every call and every secret, the reply decodes under its own declared
   * signature to the intended values, consuming the whole body; it bears the
   * serial it was given and names the call it answers.
   */
  lemma ReplyDecodes(m: InMessage, secret: bytes, serial: uint32)
    requires |ReplyFor(m, secret, serial)| < TWO_TO_THE_32
    ensures var a := Intended(m, secret);
            var vs := FieldValues(AnswerFields(a, m.serial));
            DecodeMessage(AnswerFrame(a, m.serial, serial)) ==
              Some(Message(AnswerHeader(a, serial), vs, AnswerBody(a))) &&
            FieldOf(vs, REPLY_SERIAL) == Some(VUint32(m.serial)) &&
            (a.Error? ==> FieldOf(vs, ERROR_NAME) == Some(VString(a.name)))
  {
    hide Intended, Frame, MarshalAll, DecodeMessage, FieldOf, FieldValues, ReplyFields, SigOfAll, TypesOf, TypedBody;
    hide DeclaredSignature;
    var a := Intended(m, secret);
    IntendedTyped(m, secret);
    AnswerTyped(a);
    match a
    case Return(values) =>
      var sig := SigOfAll(TypesOf(values));
      TypedReplyFields(m.serial, [], sig);
      ReplyFieldsFound(m.serial, [], sig);
      FrameDecodes(AnswerHeader(a, serial), AnswerFields(a, m.serial), values);
    case Error(name, text) =>
      TypedReplyFields(m.serial, name, [115]);
      ReplyFieldsFound(m.serial, name, [115]);
      WritesOne(VString(text));
      FrameDecodes(AnswerHeader(a, serial), AnswerFields(a, m.serial), [VString(text)]);
  }

  // ----- Named methods -----

  lemma NamedMethods()
    ensures Recognise(Ascii("org.freedesktop.Secret.Item"), Ascii("GetSecret")) == GetSecret
    ensures Recognise(Ascii("org.freedesktop.Secret.Service"), Ascii("GetSecrets")) == GetSecrets
    ensures Recognise(Ascii("org.freedesktop.Secret.Service"), Ascii("Unlock")) == Unlock
    ensures Recognise(Ascii("org.freedesktop.Secret.Service"), Ascii("Lock")) == Lock
  {
  }

  /** GetSecret and GetSecrets give the secret back byte for byte, whatever its bytes. */
  lemma SecretServed(m: InMessage, secret: bytes, serial: uint32)
    requires (m.iface, m.member) == (Ascii("org.freedesktop.Secret.Item"), Ascii("GetSecret")) ||
             (m.iface, m.member) == (Ascii("org.freedesktop.Secret.Service"), Ascii("GetSecrets"))
    requires |ReplyFor(m, secret, serial)| < TWO_TO_THE_32
    ensures var r := DecodeMessage(ReplyFor(m, secret, serial));
            r.Some? && r.value.h.typ == METHOD_REPLY &&
            r.value.body == [if m.member == Ascii("GetSecret") then SecretValue(secret)
                             else SecretsByItem(PathItem(), secret)]
    ensures E.BytesOf(SecretValue(secret).fields[2].items) == secret
  {
    hide Ascii, SecretValue, SecretsByItem, DecodeMessage, AnswerFrame, FieldValues, Intended;
    SecretIntended(m, secret);
    ReplyDecodes(m, secret, serial);
    SecretBytes(secret);
  }

  lemma SecretIntended(m: InMessage, secret: bytes)
    requires (m.iface, m.member) == (Ascii("org.freedesktop.Secret.Item"), Ascii("GetSecret")) ||
             (m.iface, m.member) == (Ascii("org.freedesktop.Secret.Service"), Ascii("GetSecrets"))
    ensures Intended(m, secret) == Return([if m.member == Ascii("GetSecret") then SecretValue(secret)
                                           else SecretsByItem(PathItem(), secret)])
  {
    hide Ascii, SecretValue, SecretsByItem, Recognise;
    NamedMethods();
  }

  lemma SecretBytes(secret: bytes)
    ensures E.BytesOf(SecretValue(secret).fields[2].items) == secret
  {
  }
}

/** The answer to each call, as its client decodes it: names, codes and values are written out. */
module Answers {
  import opened Bytes
  import opened Options
  import opened Signatures
  import opened Values
  import opened Messages
  import opened Incoming
  import D = Dispatch

  /** A METHOD_RETURN for the call m, of the given body signature and values. */
  predicate Returns(raw: bytes, m: InMessage, serial: uint32, sig: bytes, values: seq<Value>) {
    var r := DecodeMessage(raw);
    [108, 2, 1, 1] <= raw && r.Some? && r.value.h == Header(2, 1, 1, serial) && r.value.body == values &&
    FieldOf(r.value.fields, 5) == Some(VUint32(m.serial)) && FieldOf(r.value.fields, 4) == None &&
    FieldOf(r.value.fields, 8) == (if sig == [] then None else Some(VSignature(sig)))
  }

  /** An ERROR for the call m: there is no such method. */
  predicate Refuses(raw: bytes, m: InMessage, serial: uint32) {
    var r := DecodeMessage(raw);
    [108, 3, 1, 1] <= raw && r.Some? && r.value.h == Header(3, 1, 1, serial) &&
    r.value.body == [VString(Ascii("no such method ") + m.iface + Ascii(".") + m.member)] &&
    FieldOf(r.value.fields, 5) == Some(VUint32(m.serial)) &&
    FieldOf(r.value.fields, 4) == Some(VString(Ascii("org.freedesktop.DBus.Error.UnknownMethod"))) &&
    FieldOf(r.value.fields, 8) == Some(VSignature(Ascii("s")))
  }

  lemma FrameStarts(h: Header, fs: seq<Field>, body: bytes)
    ensures [108, h.typ, h.flags, h.version] <= Frame(h, fs, body)
  {
    hide FieldArray, Padding, PutUint32;
  }

  lemma ValuesReturned(m: InMessage, secret: bytes, serial: uint32, sig: bytes, values: seq<Value>)
    requires D.Intended(m, secret) == D.Return(values) && sig == SigOfAll(TypesOf(values))
    requires |D.ReplyFor(m, secret, serial)| < TWO_TO_THE_32
    ensures Returns(D.ReplyFor(m, secret, serial), m, serial, sig, values)
  {
    hide D.Intended, Frame, DecodeMessage, FieldOf, FieldValues, ReplyFields, SigOfAll, TypesOf, MarshalAll;
    D.ReplyDecodes(m, secret, serial);
    D.ReplyFieldsFound(m.serial, [], sig);
    FrameStarts(Header(2, 1, 1, serial), D.AnswerFields(D.Return(values), m.serial), MarshalAll(values, 0));
  }

  lemma CallRefused(m: InMessage, secret: bytes, serial: uint32)
    requires D.Intended(m, secret) == D.Error(D.UnknownMethod(), D.NoSuchMethod(m))
    requires |D.ReplyFor(m, secret, serial)| < TWO_TO_THE_32
    ensures Refuses(D.ReplyFor(m, secret, serial), m, serial)
  {
    hide D.Intended, Frame, DecodeMessage, FieldOf, FieldValues, ReplyFields, MarshalAll, Ascii;
    var a := D.Error(D.UnknownMethod(), D.NoSuchMethod(m));
    D.ReplyDecodes(m, secret, serial);
    D.IntendedTyped(m, secret);
    KnownSignatures();
    D.ReplyFieldsFound(m.serial, D.UnknownMethod(), Ascii("s"));
    FrameStarts(Header(3, 1, 1, serial), D.AnswerFields(a, m.serial), MarshalAll(D.AnswerBody(a), 0));
  }

  // ----- The bus and its peers -----

  lemma BusIntended(m: InMessage, secret: bytes)
    requires m.iface == Ascii("org.freedesktop.DBus")
    ensures m.member == Ascii("Hello") || m.member == Ascii("GetNameOwner") ==>
              D.Intended(m, secret) == D.Return([VString(Ascii(":1.1"))])
    ensures m.member == Ascii("AddMatch") || m.member == Ascii("RemoveMatch") ==>
              D.Intended(m, secret) == D.Return([])
    ensures m.member != Ascii("Hello") && m.member != Ascii("GetNameOwner") && m.member != Ascii("AddMatch") &&
            m.member != Ascii("RemoveMatch") ==>
              D.Intended(m, secret) == D.Error(D.UnknownMethod(), D.NoSuchMethod(m))
  {
    hide D.NoSuchMethod, D.UnknownMethod;
  }

  /** The calls to the bus. */
  lemma BusAnswers(m: InMessage, secret: bytes, serial: uint32)
    requires m.iface == Ascii("org.freedesktop.DBus") && |D.ReplyFor(m, secret, serial)| < TWO_TO_THE_32
    ensures var raw := D.ReplyFor(m, secret, serial);
            if m.member == Ascii("Hello") || m.member == Ascii("GetNameOwner") then
              Returns(raw, m, serial, Ascii("s"), [VString(Ascii(":1.1"))])
            else if m.member == Ascii("AddMatch") || m.member == Ascii("RemoveMatch") then
              Returns(raw, m, serial, [], [])
            else Refuses(raw, m, serial)
  {
    hide D.Intended, D.ReplyFor, Ascii, Returns, Refuses;
    BusIntended(m, secret);
    D.WritesNothing();
    D.WritesString(Ascii(":1.1"));
    if m.member == Ascii("Hello") || m.member == Ascii("GetNameOwner") {
      ValuesReturned(m, secret, serial, Ascii("s"), [VString(Ascii(":1.1"))]);
    } else if m.member == Ascii("AddMatch") || m.member == Ascii("RemoveMatch") {
      ValuesReturned(m, secret, serial, [], []);
    } else {
      CallRefused(m, secret, serial);
    }
  }

  lemma PeerIntended(m: InMessage, secret: bytes)
    requires m.iface == Ascii("org.freedesktop.DBus.Peer")
    ensures m.member == Ascii("Ping") ==> D.Intended(m, secret) == D.Return([])
    ensures m.member == Ascii("GetMachineId") ==>
              D.Intended(m, secret) == D.Return([VString(Ascii("0123456789abcdef0123456789abcdef"))])
    ensures m.member != Ascii("Ping") && m.member != Ascii("GetMachineId") ==>
              D.Intended(m, secret) == D.Error(D.UnknownMethod(), D.NoSuchMethod(m))
  {
    hide D.NoSuchMethod, D.UnknownMethod;
  }

  /** The calls that any peer answers. */
  lemma PeerAnswers(m: InMessage, secret: bytes, serial: uint32)
    requires m.iface == Ascii("org.freedesktop.DBus.Peer") && |D.ReplyFor(m, secret, serial)| < TWO_TO_THE_32
    ensures var raw := D.ReplyFor(m, secret, serial);
            if m.member == Ascii("Ping") then Returns(raw, m, serial, [], [])
            else if m.member == Ascii("GetMachineId") then
              Returns(raw, m, serial, Ascii("s"), [VString(Ascii("0123456789abcdef0123456789abcdef"))])
            else Refuses(raw, m, serial)
  {
    hide D.Intended, D.ReplyFor, Ascii, Returns, Refuses;
    PeerIntended(m, secret);
    D.WritesNothing();
    D.WritesString(Ascii("0123456789abcdef0123456789abcdef"));
    if m.member == Ascii("Ping") {
      ValuesReturned(m, secret, serial, [], []);
    } else if m.member == Ascii("GetMachineId") {
      ValuesReturned(m, secret, serial, Ascii("s"), [VString(Ascii("0123456789abcdef0123456789abcdef"))]);
    } else {
      CallRefused(m, secret, serial);
    }
  }

  // ----- The Secret Service -----

  function ByteValues(data: bytes): (vs: seq<Value>)
    ensures |vs| == |data| && forall i | 0 <= i < |data| :: vs[i] == VByte(data[i])
  {
    seq(|data|, i requires 0 <= i < |data| => VByte(data[i]))
  }

  /** What a client knows a secret by: the session, no parameters, the secret's bytes and a content type. */
  function Secret(secret: bytes): Value {
    VStruct([VObjPath(Ascii("/org/freedesktop/secrets/session/1")), VArray(TByte, []),
             VArray(TByte, ByteValues(secret)), VString(Ascii("text/plain"))])
  }

  lemma SecretIs(secret: bytes)
    ensures D.SecretValue(secret) == Secret(secret)
    ensures D.SecretsByItem(D.PathItem(), secret) ==
            VArray(TEntry(TObjPath, TStruct([TObjPath, TArray(TByte), TArray(TByte), TString])),
                   [VEntry(VObjPath(Ascii("/org/freedesktop/secrets/item/1")), Secret(secret))])
  {
    hide Ascii;
    assert D.SecretValue(secret).fields[1].items == [];
    assert D.SecretValue(secret).fields[2].items == ByteValues(secret);
  }

  lemma PathsAre()
    ensures D.Paths([]) == VArray(TObjPath, [])
    ensures D.Paths([D.PathItem()]) == VArray(TObjPath, [VObjPath(Ascii("/org/freedesktop/secrets/item/1"))])
    ensures D.Paths([D.PathCollection()]) ==
            VArray(TObjPath, [VObjPath(Ascii("/org/freedesktop/secrets/collection/login"))])
  {
    hide Ascii;
  }

  lemma ServiceIntended(m: InMessage, secret: bytes)
    requires m.iface == Ascii("org.freedesktop.Secret.Service")
    ensures m.member == Ascii("OpenSession") ==>
              D.Intended(m, secret) == D.Return([VVariant(TString, VString([])), VObjPath(D.PathSession())])
    ensures m.member == Ascii("Unlock") || m.member == Ascii("Lock") ==>
              D.Intended(m, secret) == D.Return([D.Paths(ObjPathsOf(m)), VObjPath(Ascii("/"))])
    ensures m.member == Ascii("SearchItems") ==>
              D.Intended(m, secret) == D.Return([D.Paths([D.PathItem()]), D.Paths([])])
    ensures m.member == Ascii("ReadAlias") ==> D.Intended(m, secret) == D.Return([VObjPath(D.PathCollection())])
    ensures m.member == Ascii("GetSecrets") ==>
              D.Intended(m, secret) == D.Return([D.SecretsByItem(D.PathItem(), secret)])
    ensures m.member != Ascii("OpenSession") && m.member != Ascii("Unlock") && m.member != Ascii("Lock") &&
            m.member != Ascii("SearchItems") && m.member != Ascii("ReadAlias") && m.member != Ascii("GetSecrets") ==>
              D.Intended(m, secret) == D.Error(D.UnknownMethod(), D.NoSuchMethod(m))
  {
    hide D.NoSuchMethod, D.UnknownMethod, D.Paths, D.PathItem, D.PathSession, D.PathCollection, D.SecretsByItem,
      ObjPathsOf;
    assert Ascii("OpenSession")[0] == 79 && Ascii("SearchItems")[0] == 83;
  }

  /** The calls to the Secret Service: one unlocked item, found by every search, and its secret. */
  lemma ServiceAnswers(m: InMessage, secret: bytes, serial: uint32)
    requires m.iface == Ascii("org.freedesktop.Secret.Service") && |D.ReplyFor(m, secret, serial)| < TWO_TO_THE_32
    ensures var raw := D.ReplyFor(m, secret, serial);
            if m.member == Ascii("OpenSession") then
              Returns(raw, m, serial, Ascii("vo"),
                      [VVariant(TString, VString([])), VObjPath(Ascii("/org/freedesktop/secrets/session/1"))])
            else if m.member == Ascii("Unlock") || m.member == Ascii("Lock") then
              Returns(raw, m, serial, Ascii("aoo"),
                      [VArray(TObjPath, PathValues(ObjPathsOf(m))), VObjPath(Ascii("/"))])
            else if m.member == Ascii("SearchItems") then
              Returns(raw, m, serial, Ascii("aoao"),
                      [VArray(TObjPath, [VObjPath(Ascii("/org/freedesktop/secrets/item/1"))]), VArray(TObjPath, [])])
            else if m.member == Ascii("ReadAlias") then
              Returns(raw, m, serial, Ascii("o"), [VObjPath(Ascii("/org/freedesktop/secrets/collection/login"))])
            else if m.member == Ascii("GetSecrets") then
              Returns(raw, m, serial, Ascii("a{o(oayays)}"),
                      [VArray(TEntry(TObjPath, TStruct([TObjPath, TArray(TByte), TArray(TByte), TString])),
                              [VEntry(VObjPath(Ascii("/org/freedesktop/secrets/item/1")), Secret(secret))])])
            else Refuses(raw, m, serial)
  {
    hide D.Intended, D.ReplyFor, Ascii, Returns, Refuses, D.SecretsByItem, Secret, ObjPathsOf, SigOfAll, TypesOf;
    ServiceIntended(m, secret);
    PathsAre();
    SecretIs(secret);
    if m.member == Ascii("OpenSession") {
      D.WritesSession();
      ValuesReturned(m, secret, serial, Ascii("vo"), [VVariant(TString, VString([])), VObjPath(D.PathSession())]);
    } else if m.member == Ascii("Unlock") || m.member == Ascii("Lock") {
      D.WritesUnlocked(ObjPathsOf(m));
      ValuesReturned(m, secret, serial, Ascii("aoo"), [D.Paths(ObjPathsOf(m)), VObjPath(Ascii("/"))]);
    } else if m.member == Ascii("SearchItems") {
      D.WritesFound([D.PathItem()], []);
      ValuesReturned(m, secret, serial, Ascii("aoao"), [D.Paths([D.PathItem()]), D.Paths([])]);
    } else if m.member == Ascii("ReadAlias") {
      D.WritesObjPath(D.PathCollection());
      ValuesReturned(m, secret, serial, Ascii("o"), [VObjPath(D.PathCollection())]);
    } else if m.member == Ascii("GetSecrets") {
      D.WritesSecrets(D.PathItem(), secret);
      ValuesReturned(m, secret, serial, Ascii("a{o(oayays)}"), [D.SecretsByItem(D.PathItem(), secret)]);
    } else {
      CallRefused(m, secret, serial);
    }
  }

  // ----- The objects it serves -----

  lemma ObjectIntended(m: InMessage, secret: bytes)
    ensures m.iface == Ascii("org.freedesktop.Secret.Collection") ==>
              D.Intended(m, secret) ==
              if m.member == Ascii("SearchItems") then D.Return([D.Paths([D.PathItem()])])
              else D.Error(D.UnknownMethod(), D.NoSuchMethod(m))
    ensures m.iface == Ascii("org.freedesktop.Secret.Item") ==>
              D.Intended(m, secret) ==
              if m.member == Ascii("GetSecret") then D.Return([D.SecretValue(secret)])
              else D.Error(D.UnknownMethod(), D.NoSuchMethod(m))
    ensures m.iface == Ascii("org.freedesktop.Secret.Session") ==>
              D.Intended(m, secret) ==
              if m.member == Ascii("Close") then D.Return([])
              else D.Error(D.UnknownMethod(), D.NoSuchMethod(m))
    ensures m.iface == Ascii("org.freedesktop.DBus.Properties") ==>
              D.Intended(m, secret) ==
              if m.member == Ascii("Get") then D.Return([D.Property(D.PropertyName(m))])
              else D.Error(D.UnknownMethod(), D.NoSuchMethod(m))
  {
    hide Ascii, D.NoSuchMethod, D.UnknownMethod, D.Paths, D.PathItem, D.SecretValue, D.Property, D.PropertyName,
      D.Intended;
    NotService();
    if m.iface == Ascii("org.freedesktop.Secret.Collection") || m.iface == Ascii("org.freedesktop.Secret.Item") ||
       m.iface == Ascii("org.freedesktop.Secret.Session") || m.iface == Ascii("org.freedesktop.DBus.Properties")
    {
      D.ObjectAnswers(m, secret);
    }
  }

  // The only two of the interfaces whose names are equally long.
  lemma NotService()
    ensures Ascii("org.freedesktop.Secret.Service") != Ascii("org.freedesktop.Secret.Session")
  {
    assert Ascii("org.freedesktop.Secret.Service")[25] == 114 && Ascii("org.freedesktop.Secret.Session")[25] == 115;
  }

  /** The calls to the collection, the item and the session. */
  lemma ObjectAnswers(m: InMessage, secret: bytes, serial: uint32)
    requires |D.ReplyFor(m, secret, serial)| < TWO_TO_THE_32
    ensures var raw := D.ReplyFor(m, secret, serial);
            (m.iface == Ascii("org.freedesktop.Secret.Collection") ==>
               if m.member == Ascii("SearchItems") then
                 Returns(raw, m, serial, Ascii("ao"),
                         [VArray(TObjPath, [VObjPath(Ascii("/org/freedesktop/secrets/item/1"))])])
               else Refuses(raw, m, serial)) &&
            (m.iface == Ascii("org.freedesktop.Secret.Item") ==>
               if m.member == Ascii("GetSecret") then Returns(raw, m, serial, Ascii("(oayays)"), [Secret(secret)])
               else Refuses(raw, m, serial)) &&
            (m.iface == Ascii("org.freedesktop.Secret.Session") ==>
               if m.member == Ascii("Close") then Returns(raw, m, serial, [], []) else Refuses(raw, m, serial))
  {
    hide D.Intended, D.ReplyFor, Ascii, Returns, Refuses, D.SecretValue, Secret, SigOfAll, TypesOf;
    ObjectIntended(m, secret);
    PathsAre();
    SecretIs(secret);
    D.WritesNothing();
    D.WritesPaths([D.PathItem()]);
    D.WritesSecret(secret);
    if D.Intended(m, secret) == D.Return([D.Paths([D.PathItem()])]) {
      ValuesReturned(m, secret, serial, Ascii("ao"), [D.Paths([D.PathItem()])]);
    } else if D.Intended(m, secret) == D.Return([D.SecretValue(secret)]) {
      ValuesReturned(m, secret, serial, Ascii("(oayays)"), [D.SecretValue(secret)]);
    } else if D.Intended(m, secret) == D.Return([]) {
      ValuesReturned(m, secret, serial, [], []);
    } else if D.Intended(m, secret) == D.Error(D.UnknownMethod(), D.NoSuchMethod(m)) {
      CallRefused(m, secret, serial);
    }
  }

  lemma PropertyIs(prop: bytes)
    ensures prop == Ascii("Collections") ==>
              D.Property(prop) == VVariant(TArray(TObjPath), D.Paths([D.PathCollection()]))
    ensures prop == Ascii("Locked") ==> D.Property(prop) == VVariant(TBool, VBool(false))
    ensures prop == Ascii("Label") ==> D.Property(prop) == VVariant(TString, VString(Ascii("agy")))
    ensures prop != Ascii("Collections") && prop != Ascii("Locked") && prop != Ascii("Label") ==>
              D.Property(prop) == VVariant(TString, VString([]))
  {
    hide D.Paths, D.PathCollection;
  }

  /** The property a call asks for is its second argument; without two arguments it is no known one. */
  lemma PropertyAnswers(m: InMessage, secret: bytes, serial: uint32)
    requires m.iface == Ascii("org.freedesktop.DBus.Properties") && |D.ReplyFor(m, secret, serial)| < TWO_TO_THE_32
    ensures var raw := D.ReplyFor(m, secret, serial);
            var args := StringsFrom(m.raw, m.bodyStart, 2);
            if m.member == Ascii("Get") then
              Returns(raw, m, serial, Ascii("v"),
                      [if |args| == 2 && args[1] == Ascii("Collections") then
                         VVariant(TArray(TObjPath),
                                  VArray(TObjPath, [VObjPath(Ascii("/org/freedesktop/secrets/collection/login"))]))
                       else if |args| == 2 && args[1] == Ascii("Locked") then VVariant(TBool, VBool(false))
                       else if |args| == 2 && args[1] == Ascii("Label") then VVariant(TString, VString(Ascii("agy")))
                       else VVariant(TString, VString([]))])
            else Refuses(raw, m, serial)
  {
    hide D.Intended, D.ReplyFor, Ascii, Returns, Refuses, D.Property, SigOfAll, TypesOf, StringsFrom;
    ObjectIntended(m, secret);
    PathsAre();
    PropertyIs(D.PropertyName(m));
    NamedProperty();
    if m.member == Ascii("Get") {
      D.PropertyTyped(D.PropertyName(m));
      VariantSignature(D.PropertyName(m));
      ValuesReturned(m, secret, serial, Ascii("v"), [D.Property(D.PropertyName(m))]);
    } else {
      CallRefused(m, secret, serial);
    }
  }

  lemma NamedProperty()
    ensures Ascii("Collections") != [] && Ascii("Locked") != [] && Ascii("Label") != []
    ensures Ascii("Collections") != Ascii("Locked") && Ascii("Locked") != Ascii("Label") &&
            Ascii("Collections") != Ascii("Label")
  {
  }

  lemma VariantSignature(prop: bytes)
    ensures SigOfAll(TypesOf([D.Property(prop)])) == Ascii("v")
  {
    assert D.Property(prop).VVariant?;
  }

  // ----- All other calls -----

  lemma NotServed(m: InMessage, secret: bytes)
    requires m.iface != Ascii("org.freedesktop.DBus") && m.iface != Ascii("org.freedesktop.DBus.Peer")
    requires m.iface != Ascii("org.freedesktop.Secret.Service") && m.iface != Ascii("org.freedesktop.Secret.Item")
    requires m.iface != Ascii("org.freedesktop.Secret.Collection")
    requires m.iface != Ascii("org.freedesktop.Secret.Session") && m.iface != Ascii("org.freedesktop.DBus.Properties")
    ensures D.Intended(m, secret) == D.Error(D.UnknownMethod(), D.NoSuchMethod(m))
  {
    hide Ascii, D.NoSuchMethod, D.UnknownMethod;
  }

  /** Every call to an interface other than those seven is refused. */
  lemma OtherInterfaces(m: InMessage, secret: bytes, serial: uint32)
    requires m.iface != Ascii("org.freedesktop.DBus") && m.iface != Ascii("org.freedesktop.DBus.Peer")
    requires m.iface != Ascii("org.freedesktop.Secret.Service") && m.iface != Ascii("org.freedesktop.Secret.Item")
    requires m.iface != Ascii("org.freedesktop.Secret.Collection")
    requires m.iface != Ascii("org.freedesktop.Secret.Session") && m.iface != Ascii("org.freedesktop.DBus.Properties")
    requires |D.ReplyFor(m, secret, serial)| < TWO_TO_THE_32
    ensures Refuses(D.ReplyFor(m, secret, serial), m, serial)
  {
    hide Ascii, Refuses, D.Intended, D.ReplyFor;
    NotServed(m, secret);
    CallRefused(m, secret, serial);
  }
}

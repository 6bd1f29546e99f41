/** One client's connection: the SASL handshake, then the request/reply loop. */
module Service {
  import opened Bytes
  import opened Options
  import opened Signatures
  import opened Values
  import opened Messages
  import opened Incoming
  import A = Answers
  import D = Dispatch
  import opened Lines

  // ----- The handshake -----

  /** strings.TrimRight(line, "\r\n"). */
  function TrimEol(s: bytes): bytes {
    if s != [] && (s[|s| - 1] == LF || s[|s| - 1] == CR) then TrimEol(s[..|s| - 1]) else s
  }

  /** The server's response to a line other than BEGIN. */
  function Respond(line: bytes): bytes {
    if Ascii("AUTH EXTERNAL") <= line then Ascii("OK ") + D.ServerGuid() + Ascii("\r\n")
    else if Ascii("AUTH") <= line then Ascii("REJECTED EXTERNAL\r\n")
    else if line == Ascii("NEGOTIATE_UNIX_FD") then Ascii("ERROR\r\n")
    else if line == Ascii("CANCEL") then Ascii("REJECTED EXTERNAL\r\n")
    else Ascii("ERROR\r\n")
  }

  /** r ends with its only line feed, after a carriage return. */
  predicate OneLine(r: bytes) {
    |r| >= 2 && r[|r| - 2] == CR && r[|r| - 1] == LF && forall i | 0 <= i < |r| - 1 :: r[i] != LF
  }

  lemma AsciiLine(s: string)
    requires |s| >= 2 && s[|s| - 2] == '\r' && s[|s| - 1] == '\n'
    requires forall i | 0 <= i < |s| - 1 :: s[i] != '\n' && s[i] < '\U{0080}'
    ensures OneLine(Ascii(s))
  {
  }

  lemma OkLine()
    ensures OneLine(Ascii("OK ") + D.ServerGuid() + Ascii("\r\n")) &&
            Ascii("OK ") <= Ascii("OK ") + D.ServerGuid() + Ascii("\r\n")
  {
    hide Ascii;
    AsciiLine("\r\n");
    NoLineFeed("OK ");
    NoLineFeed("0123456789abcdef0123456789abcdef");
  }

  lemma NoLineFeed(s: string)
    requires forall c | c in s :: c != '\n' && c < '\U{0080}'
    ensures LF !in Ascii(s)
  {
    forall i | 0 <= i < |s|
      ensures Ascii(s)[i] != LF
    {
      assert s[i] in s;
    }
  }

  lemma NotOk(s: string)
    requires s != "" && s[0] < '\U{0080}' && s[0] != 'O'
    ensures !(Ascii("OK ") <= Ascii(s))
  {
    assert Ascii("OK ")[0] == 79 && Ascii(s)[0] != 79;
  }

  /** Every response is one complete line, and only AUTH EXTERNAL is answered with OK. */
  lemma RespondsWithOneLine(line: bytes)
    ensures OneLine(Respond(line))
    ensures Ascii("OK ") <= Respond(line) <==> Ascii("AUTH EXTERNAL") <= line
  {
    hide Ascii, OneLine, D.ServerGuid;
    OkLine();
    AsciiLine("ERROR\r\n");
    AsciiLine("REJECTED EXTERNAL\r\n");
    NotOk("ERROR\r\n");
    NotOk("REJECTED EXTERNAL\r\n");
  }

  /** What is trimmed is every carriage return and line feed at the end, and nothing else. */
  lemma {:induction false} TrimmedEol(text: bytes, eol: bytes)
    requires forall b | b in eol :: b == 13 || b == 10
    requires text == [] || (text[|text| - 1] != 13 && text[|text| - 1] != 10)
    ensures TrimEol(text + eol) == text
    decreases |eol|
  {
    if eol == [] {
      assert text + eol == text;
    } else {
      var init := eol[..|eol| - 1];
      assert (text + eol)[|text + eol| - 1] == eol[|eol| - 1] && eol[|eol| - 1] in eol;
      assert (text + eol)[..|text + eol| - 1] == text + init;
      assert forall b | b in init :: b in eol;
      TrimmedEol(text, init);
    }
  }

  lemma RespondsTo(text: bytes)
    ensures Respond(text) ==
            if Ascii("AUTH EXTERNAL") <= text then Ascii("OK ") + D.ServerGuid() + Ascii("\r\n")
            else if Ascii("AUTH") <= text || text == Ascii("CANCEL") then Ascii("REJECTED EXTERNAL\r\n")
            else Ascii("ERROR\r\n")
  {
    hide Ascii, D.ServerGuid;
    NotCancel();
  }

  /** The response to a line, to the byte, whatever number of carriage returns ends it. */
  lemma RespondsExactly(text: bytes, crs: bytes)
    requires text == [] || (text[|text| - 1] != 13 && text[|text| - 1] != 10)
    requires forall b | b in crs :: b == 13
    ensures Respond(TrimEol(text + (crs + [10]))) ==
            if Ascii("AUTH EXTERNAL") <= text then
              Ascii("OK ") + Ascii("0123456789abcdef0123456789abcdef") + Ascii("\r\n")
            else if Ascii("AUTH") <= text || text == Ascii("CANCEL") then Ascii("REJECTED EXTERNAL\r\n")
            else Ascii("ERROR\r\n")
  {
    hide Ascii, TrimEol, Respond;
    TrimmedEol(text, crs + [10]);
    RespondsTo(text);
  }

  lemma NotCancel()
    ensures Ascii("NEGOTIATE_UNIX_FD") != Ascii("CANCEL")
  {
  }

  /** How a handshake ends: with the bytes after the BEGIN line, or with an error. */
  datatype Handshake = Begun(rest: bytes) | Broken(rest: bytes)

  function SaslLines(input: bytes): (r: (seq<bytes>, Handshake))
    decreases |input|
  {
    match LineEnd(input)
    case None => ([], Broken([]))
    case Some(i) =>
      var line := TrimEol(input[..i + 1]);
      if line == Ascii("BEGIN") then ([], Begun(input[i + 1..]))
      else
        var (responses, end) := SaslLines(input[i + 1..]);
        ([Respond(line)] + responses, end)
  }

  function Sasl(input: bytes): (seq<bytes>, Handshake) {
    if input == [] then ([], Broken([]))
    else if input[0] != 0 then ([], Broken(input[1..]))
    else SaslLines(input[1..])
  }

  // ----- What a session writes -----

  /** The messages read before the first read that fails. */
  function MessagesIn(input: bytes, room: Room): seq<InMessage>
    decreases |input|
  {
    match ReadSpec(input, room)
    case (Failed(_), _) => []
    case (Got(m), rest) => [m] + MessagesIn(rest, room)
  }

  function Calls(ms: seq<InMessage>): seq<InMessage> {
    if ms == [] then []
    else if ms[0].typ == METHOD_CALL then [ms[0]] + Calls(ms[1..])
    else Calls(ms[1..])
  }

  /** Whether a message is a call depends on its type alone, and the calls keep their order. */
  lemma {:induction false} CallsInOrder(m: InMessage, a: seq<InMessage>, b: seq<InMessage>)
    ensures Calls([m]) == if m.typ == 1 then [m] else []
    ensures Calls(a + b) == Calls(a) + Calls(b)
    decreases |a|
  {
    assert [m][1..] == [];
    if a == [] {
      assert a + b == b;
    } else {
      assert (a + b)[1..] == a[1..] + b;
      CallsInOrder(m, a[1..], b);
    }
  }

  function NextSerial(serial: uint32): uint32 {
    (serial + 1) % TWO_TO_THE_32
  }

  /** One reply per call, in order, with the serials that follow the given one. */
  function Replies(calls: seq<InMessage>, secret: bytes, serial: uint32): seq<bytes>
    decreases |calls|
  {
    if calls == [] then []
    else
      var s := NextSerial(serial);
      [D.ReplyFor(calls[0], secret, s)] + Replies(calls[1..], secret, s)
  }

  /** Everything written in answer to the given input when no write fails. */
  function Session(input: bytes, secret: bytes, room: Room): seq<bytes> {
    var (responses, end) := Sasl(input);
    match end
    case Broken(_) => responses
    case Begun(rest) => responses + Replies(Calls(MessagesIn(rest, room)), secret, 0)
  }

  /** The error of the first read that fails. */
  function ReadEnd(input: bytes, room: Room): ReadError
    decreases |input|
  {
    match ReadSpec(input, room)
    case (Failed(e), _) => e
    case (Got(_), rest) => ReadEnd(rest, room)
  }

  /** How a connection ends; a header fault is a panic that ends the whole service. */
  datatype Ending = NoHandshake | WriteFailed | ReadFailed(e: ReadError)

  /** The ending of a session whose peer takes n chunks. */
  function EndOf(input: bytes, secret: bytes, room: Room, n: nat): Ending {
    var (responses, end) := Sasl(input);
    match end
    case Broken(_) => NoHandshake
    case Begun(rest) =>
      var replies := Replies(Calls(MessagesIn(rest, room)), secret, 0);
      if replies != [] && |responses| + |replies| > n then WriteFailed else ReadFailed(ReadEnd(rest, room))
  }

  /** The chunks of out that arrive when only the first n writes succeed. */
  function Accepted(out: seq<bytes>, n: nat): seq<bytes> {
    if |out| <= n then out else out[..n]
  }

  // ----- The connection -----

  /** The peer's end: the bytes it will still send, the chunks it got, and how many more it takes. */
  class Conn {
    var input: bytes
    var output: seq<bytes>
    var writable: nat
    const room: Room

    constructor (input: bytes, writable: nat, room: Room)
      ensures this.input == input && output == [] && this.writable == writable && this.room == room
    {
      this.input, this.room := input, room;
      this.output := [];
      this.writable := writable;
    }

    // io.ReadFull into a buffer of n bytes: a short read takes what there is.
    method ReadFull(n: nat) returns (data: Option<bytes>, e: ReadError)
      modifies `input
      ensures if |old(input)| >= n then data == Some(old(input)[..n]) && input == old(input)[n..]
              else data == None && input == [] && e == ShortRead(|old(input)|)
    {
      e := ShortRead(|input|);
      if |input| >= n {
        data := Some(input[..n]);
        input := input[n..];
      } else {
        data := None;
        input := [];
      }
    }

    // ReadString('\n'): the line with its delimiter, or an error after taking all that was left.
    method ReadLine() returns (line: Option<bytes>)
      modifies `input
      ensures match LineEnd(old(input))
              case None => line == None && input == []
              case Some(i) => line == Some(old(input)[..i + 1]) && input == old(input)[i + 1..]
    {
      var i := LineEnd(input);
      if i.None? {
        line := None;
        input := [];
      } else {
        line := Some(input[..i.value + 1]);
        input := input[i.value + 1..];
      }
    }

    method Write(chunk: bytes) returns (ok: bool)
      modifies `output, `writable
      ensures ok == (old(writable) > 0)
      ensures ok ==> output == old(output) + [chunk] && writable == old(writable) - 1
      ensures !ok ==> output == old(output) && writable == 0
    {
      ok := writable > 0;
      if ok {
        output := output + [chunk];
        writable := writable - 1;
      }
    }
  }

  lemma AcceptMore(done: seq<bytes>, chunk: bytes, n: nat)
    ensures Accepted(done + [chunk], n) == Accepted(done, n) + (if n > |Accepted(done, n)| then [chunk] else [])
    ensures |Accepted(done, n)| <= n
  {
  }

  lemma AcceptNothing(n: nat)
    ensures Accepted([], n) == []
  {
  }

  lemma SaslStep(input: bytes)
    requires LineEnd(input).Some?
    ensures var i := LineEnd(input).value;
            var line := TrimEol(input[..i + 1]);
            SaslLines(input) == if line == Ascii("BEGIN") then ([], Begun(input[i + 1..]))
                                else ([Respond(line)] + SaslLines(input[i + 1..]).0, SaslLines(input[i + 1..]).1)
  {
    hide LineEnd, TrimEol, Ascii, Respond;
  }

  // Errors of the response writes are ignored, as the program ignores them.
  method SaslServer(c: Conn) returns (ok: bool)
    modifies c
    ensures var (responses, end) := Sasl(old(c.input));
            ok == end.Begun? && c.input == end.rest &&
            c.output == old(c.output) + Accepted(responses, old(c.writable)) &&
            c.writable == old(c.writable) - |Accepted(responses, old(c.writable))|
  {
    hide SaslLines, LineEnd, TrimEol, Ascii, Respond, Accepted;
    ghost var n := c.writable;
    ghost var before := c.output;
    AcceptNothing(n);
    var b, e := c.ReadFull(1);
    if b.None? {
      return false;
    }
    if b.value[0] != 0 {
      return false;
    }
    ghost var lines := c.input;
    ghost var done: seq<bytes> := [];
    assert [] + SaslLines(lines).0 == SaslLines(lines).0;
    while true
      invariant SaslLines(lines) == (done + SaslLines(c.input).0, SaslLines(c.input).1)
      invariant c.output == before + Accepted(done, n)
      invariant c.writable == n - |Accepted(done, n)|
      decreases |c.input|
    {
      ghost var left := c.input;
      var raw := c.ReadLine();
      if raw.None? {
        SaslCut(left);
        assert done + [] == done;
        return false;
      }
      SaslStep(left);
      var line := TrimEol(raw.value);
      if line == Ascii("BEGIN") {
        assert done + [] == done;
        return true;
      }
      var response := Respond(line);
      var _ := c.Write(response);
      AcceptMore(done, response, n);
      assert done + ([response] + SaslLines(c.input).0) == (done + [response]) + SaslLines(c.input).0;
      done := done + [response];
    }
  }

  lemma SaslCut(input: bytes)
    requires LineEnd(input).None?
    ensures SaslLines(input) == ([], Broken([]))
  {
  }

  method ReadMessage(c: Conn) returns (r: ReadResult)
    modifies c`input
    ensures (r, c.input) == ReadSpec(old(c.input), c.room)
  {
    hide Total, Parsed;
    ghost var input := c.input;
    var hdr, e := c.ReadFull(16);
    if hdr.None? {
      return Failed(e);
    }
    if hdr.value[0] != LITTLE_ENDIAN {
      return Failed(Endianness(hdr.value[0]));
    }
    HeaderAlone(input);
    var total := Total(hdr.value);
    var rest, e' := c.ReadFull(total - 16);
    if rest.None? {
      return Failed(e');
    }
    TwoReads(input, total);
    r := ParseMessage(hdr.value + rest.value, c.room);
  }

  // The message made of a whole frame.
  method ParseMessage(raw: bytes, room: Room) returns (r: ReadResult)
    requires |raw| >= 16 && |raw| == Total(raw)
    ensures r == Parsed(raw, room)
  {
    hide Uint32, Align8, WalkFields;
    var headerEnd := HeaderEnd(raw);
    var m := InMessage(raw[1], Uint32(raw[8..12]), [], [], [], raw, Align8(headerEnd), room(|raw|));
    var w := ParseHeaderFields(m, raw[16..headerEnd]);
    match w
    case Fault => return Failed(HeaderFault);
    case Walked(m', _) => return Got(m');
  }

  // The sizes are read from the first sixteen bytes.
  lemma HeaderAlone(input: bytes)
    requires |input| >= 16
    ensures HeaderEnd(input[..16]) == HeaderEnd(input) && Total(input[..16]) == Total(input)
  {
    assert input[..16][4..8] == input[4..8] && input[..16][12..16] == input[12..16];
  }

  lemma TwoReads(input: bytes, total: nat)
    requires 16 <= total <= |input| && total == Total(input)
    ensures input[..16] + input[16..][..total - 16] == input[..total]
    ensures input[16..][total - 16..] == input[total..]
    ensures Total(input[..total]) == total
  {
    HeaderAlone(input);
    HeaderAlone(input[..total]);
    assert input[..total][..16] == input[..16];
  }

  // A session is its handshake and, once that has begun, its replies.
  lemma SessionIs(input: bytes, secret: bytes, room: Room, n: nat)
    ensures var (responses, end) := Sasl(input);
            if end.Broken? then
              Session(input, secret, room) == responses && EndOf(input, secret, room, n) == NoHandshake
            else
              var replies := Replies(Calls(MessagesIn(end.rest, room)), secret, 0);
              Session(input, secret, room) == responses + replies &&
              EndOf(input, secret, room, n) ==
              if replies != [] && |responses| + |replies| > n then WriteFailed else ReadFailed(ReadEnd(end.rest, room))
  {
    hide Sasl, MessagesIn, Replies, ReadEnd, Calls;
  }

  // The connection loop, from the first byte of the handshake.
  method ServeConn(c: Conn, secret: bytes) returns (end: Ending)
    modifies c
    ensures c.output == old(c.output) + Accepted(Session(old(c.input), secret, c.room), old(c.writable))
    ensures end == EndOf(old(c.input), secret, c.room, old(c.writable))
  {
    hide Sasl, Accepted, MessagesIn, Replies, ReadSpec, ReadEnd, D.ReplyFor, Calls, SaslLines, TrimEol, Respond,
      LineEnd, Ascii, Session, EndOf;
    ghost var n := c.writable;
    ghost var before := c.output;
    ghost var (responses, _) := Sasl(c.input);
    SessionIs(c.input, secret, c.room, n);
    var ok := SaslServer(c);
    if !ok {
      return NoHandshake;
    }
    ghost var start := c.input;
    ghost var done := responses;
    ghost var all := Replies(Calls(MessagesIn(c.input, c.room)), secret, 0);
    AcceptMore(responses, [], n);
    var outSerial: uint32 := 0;
    assert done + all == responses + all;
    while true
      invariant responses + all == done + Replies(Calls(MessagesIn(c.input, c.room)), secret, outSerial)
      invariant ReadEnd(c.input, c.room) == ReadEnd(start, c.room)
      invariant |responses| <= |done| && (|done| <= n || done == responses)
      invariant c.output == before + Accepted(done, n)
      invariant c.writable == n - |Accepted(done, n)|
      decreases |c.input|
    {
      ghost var left := c.input;
      var r := ReadMessage(c);
      ReadStep(left, secret, outSerial, c.room);
      if r.Failed? {
        assert done + [] == done;
        return ReadFailed(r.e);
      }
      if r.m.typ == METHOD_CALL {
        outSerial := NextSerial(outSerial);
        var reply := D.Dispatch(r.m, secret, outSerial);
        var written := c.Write(reply);
        ghost var rest := Replies(Calls(MessagesIn(c.input, c.room)), secret, outSerial);
        assert done + ([reply] + rest) == (done + [reply]) + rest;
        AcceptMore(done, reply, n);
        AcceptCount(done, n);
        if !written {
          AcceptFull(done, [reply] + rest, n);
          assert |responses + all| == |done| + 1 + |rest|;
          return WriteFailed;
        }
        done := done + [reply];
      }
    }
  }

  lemma AcceptCount(done: seq<bytes>, n: nat)
    ensures |Accepted(done, n)| == if |done| <= n then |done| else n
  {
  }

  // Once as many chunks are written as the peer takes, the rest is lost.
  lemma AcceptFull(done: seq<bytes>, rest: seq<bytes>, n: nat)
    requires |Accepted(done, n)| == n
    ensures Accepted(done + rest, n) == Accepted(done, n)
  {
  }

  lemma ReadStep(input: bytes, secret: bytes, serial: uint32, room: Room)
    ensures var (r, rest) := ReadSpec(input, room);
            Replies(Calls(MessagesIn(input, room)), secret, serial) ==
            if r.Failed? then []
            else if r.m.typ != METHOD_CALL then Replies(Calls(MessagesIn(rest, room)), secret, serial)
            else [D.ReplyFor(r.m, secret, NextSerial(serial))]
                 + Replies(Calls(MessagesIn(rest, room)), secret, NextSerial(serial))
    ensures ReadSpec(input, room).0.Got? ==> |ReadSpec(input, room).1| < |input|
    ensures var (r, rest) := ReadSpec(input, room);
            ReadEnd(input, room) == if r.Failed? then r.e else ReadEnd(rest, room)
  {
    hide ReadSpec, D.ReplyFor;
    var (r, rest) := ReadSpec(input, room);
    if r.Got? {
      assert MessagesIn(input, room) == [r.m] + MessagesIn(rest, room);
      assert ([r.m] + MessagesIn(rest, room))[1..] == MessagesIn(rest, room);
    }
  }

  // ----- The handshake, in terms of its lines -----

  predicate IsLine(s: bytes) {
    LF !in s
  }

  function Responses(lines: seq<bytes>): seq<bytes> {
    if lines == [] then [] else [Respond(TrimEol(lines[0] + [LF]))] + Responses(lines[1..])
  }

  /** The bytes of BEGIN, then carriage returns alone. */
  predicate Begins(line: bytes) {
    [66, 69, 71, 73, 78] <= line && forall i | 5 <= i < |line| :: line[i] == 13
  }

  lemma Trimmed(s: bytes)
    ensures TrimEol(s) <= s
    ensures forall i | |TrimEol(s)| <= i < |s| :: s[i] == 13 || s[i] == 10
  {
  }

  lemma BeginText()
    ensures Ascii("BEGIN") == [66, 69, 71, 73, 78]
  {
  }

  /** Those are the lines that the program trims to BEGIN. */
  lemma BeginsIff(line: bytes)
    requires IsLine(line)
    ensures TrimEol(line + [LF]) == Ascii("BEGIN") <==> Begins(line)
  {
    hide Ascii, TrimEol;
    BeginText();
    var s := line + [LF];
    if Begins(line) {
      assert s == line[..5] + (line[5..] + [10]);
      TrimmedEol(line[..5], line[5..] + [10]);
    }
    if TrimEol(s) == Ascii("BEGIN") {
      Trimmed(s);
      assert s[4] == 78 && s[|line|] == 10;
      assert s[..5] == line[..5];
      forall i | 5 <= i < |line|
        ensures line[i] == 13
      {
        assert s[i] == line[i];
      }
    }
  }

  /** Earlier lines get one response each; the first BEGIN line ends the handshake and nothing after it is consumed. */
  lemma {:induction false} SaslBegins(lines: seq<bytes>, last: bytes, rest: bytes)
    requires forall l | l in lines :: IsLine(l) && !Begins(l)
    requires IsLine(last) && Begins(last)
    ensures SaslLines(Unlines(lines) + (last + [LF] + rest)) == (Responses(lines), Begun(rest))
    decreases |lines|
  {
    hide LineEnd, TrimEol, Ascii, Respond, SaslLines, Begins;
    var input := Unlines(lines) + (last + [LF] + rest);
    if lines == [] {
      assert input == last + [LF] + rest;
      LineEndAt(last, rest);
      BeginsIff(last);
      SaslStep(input);
    } else {
      var after := Unlines(lines[1..]) + (last + [LF] + rest);
      assert lines[0] in lines;
      assert input == lines[0] + [LF] + after;
      LineEndAt(lines[0], after);
      BeginsIff(lines[0]);
      SaslStep(input);
      SaslBegins(lines[1..], last, rest);
    }
  }

  lemma SplitLine(input: bytes, i: nat)
    requires i < |input| && input[i] == LF
    ensures input[..i + 1] == input[..i] + [LF] && input == input[..i] + [LF] + input[i + 1..]
  {
  }

  lemma JoinLine(line: bytes, rest: seq<bytes>, after: bytes)
    ensures Unlines([line] + rest) + after == line + [LF] + (Unlines(rest) + after)
  {
    assert ([line] + rest)[1..] == rest;
  }

  /** A handshake that succeeds has consumed exactly the lines up to its first BEGIN. */
  lemma {:induction false} SaslBegun(input: bytes) returns (lines: seq<bytes>, last: bytes)
    requires SaslLines(input).1.Begun?
    ensures forall l | l in lines :: IsLine(l) && !Begins(l)
    ensures IsLine(last) && Begins(last)
    ensures input == Unlines(lines) + (last + [LF] + SaslLines(input).1.rest)
    ensures SaslLines(input).0 == Responses(lines)
    decreases |input|
  {
    hide TrimEol, Ascii, Respond, LineEnd, SaslLines, Begins;
    if LineEnd(input).None? {
      SaslCut(input);
    }
    var i := LineEnd(input).value;
    SaslStep(input);
    SplitLine(input, i);
    BeginsIff(input[..i]);
    if Begins(input[..i]) {
      lines, last := [], input[..i];
      assert Unlines([]) + (last + [LF] + input[i + 1..]) == input;
    } else {
      var rest;
      rest, last := SaslBegun(input[i + 1..]);
      lines := [input[..i]] + rest;
      assert lines[1..] == rest;
      JoinLine(input[..i], rest, last + [LF] + SaslLines(input).1.rest);
    }
  }

  /** A NUL, lines that are not BEGIN, then BEGIN, then the rest. */
  predicate Handshaken(input: bytes, lines: seq<bytes>, last: bytes, rest: bytes) {
    (forall l | l in lines :: IsLine(l) && !Begins(l)) && IsLine(last) && Begins(last) &&
    input == [0] + (Unlines(lines) + (last + [LF] + rest))
  }

  /**
   * The handshake succeeds exactly on a NUL, complete lines none of which is BEGIN followed by
   * carriage returns alone, then such a line; what comes after its line feed is not consumed.
   */
  lemma SaslSucceedsIff(input: bytes)
    ensures Sasl(input).1.Begun? <==>
            exists lines: seq<bytes>, last: bytes, rest: bytes :: Handshaken(input, lines, last, rest)
    ensures forall lines: seq<bytes>, last: bytes, rest: bytes | Handshaken(input, lines, last, rest) ::
              Sasl(input) == (Responses(lines), Begun(rest))
  {
    hide TrimEol, Ascii, Respond, LineEnd, SaslLines, Unlines, Begins;
    if Sasl(input).1.Begun? {
      var lines, last := SaslBegun(input[1..]);
      assert Handshaken(input, lines, last, Sasl(input).1.rest);
    }
    forall lines: seq<bytes>, last: bytes, rest: bytes | Handshaken(input, lines, last, rest)
      ensures Sasl(input) == (Responses(lines), Begun(rest))
    {
      SaslBegins(lines, last, rest);
      assert input[1..] == Unlines(lines) + (last + [LF] + rest);
    }
  }

  /** Without a BEGIN line every complete line gets its response, and all input is consumed. */
  lemma {:induction false} SaslNeverBegins(lines: seq<bytes>, cut: bytes)
    requires (forall l | l in lines :: IsLine(l) && !Begins(l)) && IsLine(cut)
    ensures SaslLines(Unlines(lines) + cut) == (Responses(lines), Broken([]))
    decreases |lines|
  {
    hide LineEnd, TrimEol, Ascii, Respond, SaslLines, Begins;
    var input := Unlines(lines) + cut;
    if lines == [] {
      assert input == cut;
      SaslCut(cut);
    } else {
      var after := Unlines(lines[1..]) + cut;
      assert lines[0] in lines;
      assert input == lines[0] + [LF] + after;
      LineEndAt(lines[0], after);
      BeginsIff(lines[0]);
      SaslStep(input);
      SaslNeverBegins(lines[1..], cut);
    }
  }

  /** Nothing is answered before the NUL; a handshake that breaks off leaves its responses written and nothing more. */
  lemma SaslBroken(input: bytes, lines: seq<bytes>, cut: bytes, secret: bytes, room: Room)
    requires (forall l | l in lines :: IsLine(l) && !Begins(l)) && IsLine(cut)
    ensures input == [] || input[0] != 0 ==> Session(input, secret, room) == []
    ensures input == [0] + (Unlines(lines) + cut) ==> Session(input, secret, room) == Responses(lines)
  {
    hide SaslLines, Begins, Unlines, Responses, MessagesIn, Replies, Calls;
    SaslNeverBegins(lines, cut);
    if input == [0] + (Unlines(lines) + cut) {
      assert input[1..] == Unlines(lines) + cut;
    }
  }

  // ----- Streams of frames -----

  /** A message a client sends. */
  datatype Sent = Sent(h: Header, fs: seq<Field>, body: bytes)

  predicate Sendable(s: Sent) {
    TypedFields(s.fs) && |Frame(s.h, s.fs, s.body)| < TWO_TO_THE_32
  }

  function Stream(ss: seq<Sent>): bytes {
    if ss == [] then [] else Frame(ss[0].h, ss[0].fs, ss[0].body) + Stream(ss[1..])
  }

  function ReceivedAll(ss: seq<Sent>, room: Room): (ms: seq<InMessage>)
    ensures |ms| == |ss|
  {
    if ss == [] then [] else [Received(ss[0].h, ss[0].fs, ss[0].body, room)] + ReceivedAll(ss[1..], room)
  }

  lemma NextMessage(input: bytes, m: InMessage, rest: bytes, room: Room)
    requires ReadSpec(input, room) == (Got(m), rest)
    ensures MessagesIn(input, room) == [m] + MessagesIn(rest, room)
  {
    hide ReadSpec;
  }

  lemma StreamEnds(tail: bytes, room: Room)
    ensures Stream([]) + tail == tail && ReceivedAll([], room) + MessagesIn(tail, room) == MessagesIn(tail, room)
  {
    hide MessagesIn;
  }

  lemma StreamStep(ss: seq<Sent>, tail: bytes)
    requires ss != []
    ensures Stream(ss) + tail == Frame(ss[0].h, ss[0].fs, ss[0].body) + (Stream(ss[1..]) + tail)
  {
    hide Frame;
  }

  lemma FirstOfThree(a: seq<InMessage>, b: seq<InMessage>, c: seq<InMessage>)
    ensures a + (b + c) == (a + b) + c
  {
  }

  /** Any sequence of well-formed messages is read back message by message, and reading goes on with what follows. */
  lemma {:induction false} StreamRead(ss: seq<Sent>, tail: bytes, room: Room)
    requires forall s | s in ss :: Sendable(s)
    ensures MessagesIn(Stream(ss) + tail, room) == ReceivedAll(ss, room) + MessagesIn(tail, room)
    decreases |ss|
  {
    hide Frame, ReadSpec, Received, TypedFields, MessagesIn, Stream;
    if ss == [] {
      StreamEnds(tail, room);
    } else {
      var s := ss[0];
      var m, rest := Received(s.h, s.fs, s.body, room), Stream(ss[1..]) + tail;
      assert s in ss;
      StreamStep(ss, tail);
      ReadFrame(s.h, s.fs, s.body, rest, room);
      NextMessage(Frame(s.h, s.fs, s.body) + rest, m, rest, room);
      StreamRead(ss[1..], tail, room);
      FirstOfThree([m], ReceivedAll(ss[1..], room), MessagesIn(tail, room));
    }
  }

  /** Reading ends as it does on what follows the messages. */
  lemma {:induction false} StreamEnd(ss: seq<Sent>, tail: bytes, room: Room)
    requires forall s | s in ss :: Sendable(s)
    ensures ReadEnd(Stream(ss) + tail, room) == ReadEnd(tail, room)
    decreases |ss|
  {
    hide Frame, ReadSpec, Received, TypedFields, ReadEnd, Stream, MessagesIn, Replies, Calls;
    if ss == [] {
      StreamEnds(tail, room);
    } else {
      var s := ss[0];
      var rest := Stream(ss[1..]) + tail;
      assert s in ss;
      StreamStep(ss, tail);
      ReadFrame(s.h, s.fs, s.body, rest, room);
      ReadStep(Frame(s.h, s.fs, s.body) + rest, [], 0, room);
      StreamEnd(ss[1..], tail, room);
    }
  }

  /** The i-th reply answers the i-th call and bears the serial i + 1 places after the start. */
  lemma {:induction false} ReplyAt(calls: seq<InMessage>, secret: bytes, serial: uint32, i: nat)
    requires i < |calls|
    ensures |Replies(calls, secret, serial)| == |calls|
    ensures Replies(calls, secret, serial)[i] ==
            D.ReplyFor(calls[i], secret, (serial + i + 1) % TWO_TO_THE_32)
    decreases |calls|
  {
    hide D.ReplyFor;
    if |calls| > 1 {
      ReplyAt(calls[1..], secret, NextSerial(serial), if i == 0 then 0 else i - 1);
    }
    if i > 0 {
      assert calls[i] == calls[1..][i - 1];
      SerialAfter(serial, i);
    }
  }

  lemma SerialAfter(serial: uint32, i: nat)
    requires i > 0
    ensures (NextSerial(serial) + (i - 1) + 1) % TWO_TO_THE_32 == (serial + i + 1) % TWO_TO_THE_32
  {
    if serial + 1 == TWO_TO_THE_32 {
      assert (serial + i + 1) % TWO_TO_THE_32 == (TWO_TO_THE_32 + i) % TWO_TO_THE_32;
    }
  }

  /**
   * A whole run: whatever messages a client sends after its handshake, and whatever
   * unreadable bytes end the stream, the replies are one per METHOD_CALL, in order,
   * numbered 1, 2, 3, ..., and each decodes to the intended answer to its own call.
   */
  lemma RunReplies(lines: seq<bytes>, last: bytes, ss: seq<Sent>, tail: bytes, secret: bytes, room: Room)
    requires forall l | l in lines :: IsLine(l) && !Begins(l)
    requires IsLine(last) && Begins(last)
    requires forall s | s in ss :: Sendable(s)
    requires ReadSpec(tail, room).0.Failed?
    ensures var calls := Calls(ReceivedAll(ss, room));
            var input := [0] + (Unlines(lines) + (last + [LF] + (Stream(ss) + tail)));
            Session(input, secret, room) == Responses(lines) + Replies(calls, secret, 0) &&
            |Replies(calls, secret, 0)| == |calls|
  {
    hide Begins, Unlines, SaslLines, Stream, ReadSpec, Calls, Replies, ReceivedAll;
    var input := [0] + (Unlines(lines) + (last + [LF] + (Stream(ss) + tail)));
    SaslBegins(lines, last, Stream(ss) + tail);
    assert input[1..] == Unlines(lines) + (last + [LF] + (Stream(ss) + tail));
    StreamRead(ss, tail, room);
    assert ReceivedAll(ss, room) + [] == ReceivedAll(ss, room);
    RepliesCount(Calls(ReceivedAll(ss, room)), secret, 0);
  }

  /**
   * How such a run ends when the peer takes n chunks: with the failed write of a reply when there are more responses
   * and replies than that, else with the error of the read that fails after the last message.
   */
  lemma RunEnds(lines: seq<bytes>, last: bytes, ss: seq<Sent>, tail: bytes, secret: bytes, room: Room, n: nat)
    requires forall l | l in lines :: IsLine(l) && !Begins(l)
    requires IsLine(last) && Begins(last)
    requires forall s | s in ss :: Sendable(s)
    requires ReadSpec(tail, room).0.Failed?
    ensures var calls := Calls(ReceivedAll(ss, room));
            var input := [0] + (Unlines(lines) + (last + [LF] + (Stream(ss) + tail)));
            EndOf(input, secret, room, n) ==
            if calls != [] && |lines| + |calls| > n then WriteFailed else ReadFailed(ReadSpec(tail, room).0.e)
  {
    hide Begins, Unlines, SaslLines, Stream, ReadSpec, Calls, Replies, ReceivedAll, ReadEnd, Sasl, Responses;
    var input := [0] + (Unlines(lines) + (last + [LF] + (Stream(ss) + tail)));
    var calls := Calls(ReceivedAll(ss, room));
    assert Handshaken(input, lines, last, Stream(ss) + tail);
    SaslSucceedsIff(input);
    ResponsesCount(lines);
    StreamRead(ss, tail, room);
    NothingRead(tail, room);
    assert ReceivedAll(ss, room) + [] == ReceivedAll(ss, room);
    RepliesCount(calls, secret, 0);
    StreamEnd(ss, tail, room);
    ReadStep(tail, [], 0, room);
  }

  lemma NothingRead(tail: bytes, room: Room)
    requires ReadSpec(tail, room).0.Failed?
    ensures MessagesIn(tail, room) == []
  {
    hide ReadSpec;
  }

  lemma {:induction false} ResponsesCount(lines: seq<bytes>)
    ensures |Responses(lines)| == |lines|
    decreases |lines|
  {
    hide Respond, TrimEol;
    if lines != [] {
      ResponsesCount(lines[1..]);
    }
  }

  lemma RepliesCount(calls: seq<InMessage>, secret: bytes, serial: uint32)
    ensures |Replies(calls, secret, serial)| == |calls|
  {
    if calls != [] {
      ReplyAt(calls, secret, serial, 0);
    }
  }

  /** Each reply of a run of fewer than 2^32 calls, as its client decodes it. */
  lemma RunReplyDecodes(calls: seq<InMessage>, secret: bytes, i: nat)
    requires i < |calls| < TWO_TO_THE_32
    requires |Replies(calls, secret, 0)| == |calls| && |Replies(calls, secret, 0)[i]| < TWO_TO_THE_32
    ensures var a := D.Intended(calls[i], secret);
            var r := DecodeMessage(Replies(calls, secret, 0)[i]);
            r.Some? && r.value.h == D.AnswerHeader(a, i + 1) && r.value.body == D.AnswerBody(a) &&
            FieldOf(r.value.fields, REPLY_SERIAL) == Some(VUint32(calls[i].serial)) &&
            (a.Error? ==> FieldOf(r.value.fields, ERROR_NAME) == Some(VString(a.name)))
  {
    hide D.Intended, D.AnswerFrame, DecodeMessage, Replies, D.AnswerHeader, D.AnswerBody, D.AnswerFields, FieldOf;
    ReplyAt(calls, secret, 0, i);
    D.ReplyDecodes(calls[i], secret, i + 1);
  }

  // ----- Unlock and Lock -----

  /** The program's own reader takes each reply off the stream whole, with the type and serial it was given. */
  lemma ReplyReadBack(m: InMessage, secret: bytes, serial: uint32, rest: bytes, room: Room)
    requires |D.ReplyFor(m, secret, serial)| < TWO_TO_THE_32
    ensures var raw := D.ReplyFor(m, secret, serial);
            var r := ReadSpec(raw + rest, room);
            r.0.Got? && r.1 == rest && r.0.m.raw == raw && r.0.m.serial == serial &&
            r.0.m.typ == (if D.Intended(m, secret).Return? then METHOD_REPLY else ERROR)
  {
    hide ReadSpec, D.Intended, Frame, Assign, ReplyFields, MarshalAll, SigOfAll, TypedFields;
    var a := D.Intended(m, secret);
    var h, fs, body := D.AnswerHeader(a, serial), D.AnswerFields(a, m.serial), MarshalAll(D.AnswerBody(a), 0);
    D.IntendedTyped(m, secret);
    match a {
      case Return(values) => TypedReplyFields(m.serial, [], SigOfAll(TypesOf(values)));
      case Error(name, _) => TypedReplyFields(m.serial, name, [115]);
    }
    ReadFrame(h, fs, body, rest, room);
    AssignKeeps(Unread(h, fs, body, room), fs);
  }

  /**
   * The header round trip: whatever the order of the fields and whatever follows the message, the
   * reader finds the text of field 1 as path, of field 2 as interface and of field 3 as member, the
   * type and serial that were sent, and the body at bodyStart.
   */
  lemma HeaderRoundTrip(s: Sent, f: Field, rest: bytes, room: Room)
    requires Sendable(s) && AllKnown(s.fs) && f in s.fs && (f.val.VString? || f.val.VObjPath?)
    requires forall i, j :: 0 <= i < j < |s.fs| ==> s.fs[i].code != s.fs[j].code
    ensures var r := ReadSpec(Frame(s.h, s.fs, s.body) + rest, room);
            r.0.Got? && r.1 == rest && r.0.m.typ == s.h.typ && r.0.m.serial == s.h.serial &&
            (f.code == 1 ==> r.0.m.path == f.val.s) && (f.code == 2 ==> r.0.m.iface == f.val.s) &&
            (f.code == 3 ==> r.0.m.member == f.val.s) &&
            At(r.0.m.raw, r.0.m.bodyStart, s.body) && r.0.m.bodyStart + |s.body| == |r.0.m.raw| &&
            r.0.m.bodyStart % 8 == 0
  {
    hide Assign, Frame, TypedFields, AllKnown, ReadSpec, At;
    ReadFrame(s.h, s.fs, s.body, rest, room);
    var m0 := Unread(s.h, s.fs, s.body, room);
    if f.code in {PATH, INTERFACE, MEMBER} {
      AssignInAnyOrder(m0, s.fs, f.code);
      assert Holds(f, f.code);
    }
    AssignKeeps(m0, s.fs);
    FrameBody(s);
  }

  /** What no field carries is empty. */
  lemma HeaderAbsent(s: Sent, room: Room)
    requires AllKnown(s.fs)
    requires forall i, j :: 0 <= i < j < |s.fs| ==> s.fs[i].code != s.fs[j].code
    ensures var m := Received(s.h, s.fs, s.body, room);
            ((forall f | f in s.fs :: f.code != 1) ==> m.path == []) &&
            ((forall f | f in s.fs :: f.code != 2) ==> m.iface == []) &&
            ((forall f | f in s.fs :: f.code != 3) ==> m.member == [])
  {
    hide Assign, Frame, AllKnown;
    var m0 := Unread(s.h, s.fs, s.body, room);
    AssignInAnyOrder(m0, s.fs, 1);
    AssignInAnyOrder(m0, s.fs, 2);
    AssignInAnyOrder(m0, s.fs, 3);
  }

  lemma FrameBody(s: Sent)
    ensures At(Frame(s.h, s.fs, s.body), BodyStart(s.fs), s.body) && BodyStart(s.fs) % 8 == 0
  {
    hide Frame, FieldArray, At;
    FrameAt(s.h, s.fs, s.body, Frame(s.h, s.fs, s.body));
    FrameParts(s.h, s.fs, s.body, Frame(s.h, s.fs, s.body));
  }

  lemma {:induction false} AssignKeeps(m: InMessage, fs: seq<Field>)
    ensures var r := Assign(m, fs);
            r.typ == m.typ && r.serial == m.serial && r.raw == m.raw && r.bodyStart == m.bodyStart
    decreases |fs|
  {
    if fs != [] && Known(fs[0].val) {
      var m' := if fs[0].val.VString? || fs[0].val.VObjPath? then SetField(m, fs[0].code, fs[0].val.s) else m;
      AssignKeeps(m', fs[1..]);
    }
  }

  /** The body a call was sent with lies at its bodyStart. */
  lemma BodyReceived(s: Sent, first: bytes, extra: bytes, room: Room)
    requires s.body == first + extra
    ensures var m := Received(s.h, s.fs, s.body, room);
            m.bodyStart == BodyStart(s.fs) && At(m.raw, m.bodyStart, first)
  {
    hide Assign, Frame, FieldArray, At;
    AssignKeeps(Unread(s.h, s.fs, s.body, room), s.fs);
    FrameBody(s);
    AtSplit(Frame(s.h, s.fs, s.body), BodyStart(s.fs), first, extra);
  }

  /** Unlock and Lock echo: the paths decoded from the reply are the paths encoded in the call, for any list of them. */
  lemma UnlockEcho(s: Sent, paths: seq<bytes>, extra: bytes, secret: bytes, serial: uint32, room: Room)
    requires Sendable(s) && s.body == Marshal(VArray(TObjPath, PathValues(paths)), 0) + extra
    requires var m := Received(s.h, s.fs, s.body, room);
             m.iface == Ascii("org.freedesktop.Secret.Service") &&
             (m.member == Ascii("Unlock") || m.member == Ascii("Lock")) &&
             |D.ReplyFor(m, secret, serial)| < TWO_TO_THE_32
    ensures var m := Received(s.h, s.fs, s.body, room);
            A.Returns(D.ReplyFor(m, secret, serial), m, serial, Ascii("aoo"),
                      [VArray(TObjPath, PathValues(paths)), VObjPath(Ascii("/"))])
  {
    hide Received, Frame, FieldArray, TypedFields, D.ReplyFor, Marshal, At, ObjPathsOf, Ascii, A.Returns, A.Refuses;
    var m := Received(s.h, s.fs, s.body, room);
    var paths' := VArray(TObjPath, PathValues(paths));
    BodyReceived(s, Marshal(paths', 0), extra, room);
    MarshalShift(paths', 0, BodyStart(s.fs) / 8);
    ObjPathsOfBody(m, paths);
    UnlockNames();
    A.ServiceAnswers(m, secret, serial);
  }

  lemma UnlockNames()
    ensures Ascii("Unlock") != Ascii("OpenSession") && Ascii("Lock") != Ascii("OpenSession")
  {
  }

  /** A Get call for a property is answered with that property's value, whatever follows its two arguments. */
  lemma PropertyServed(s: Sent, iface: bytes, prop: bytes, extra: bytes, secret: bytes, serial: uint32, room: Room)
    requires Sendable(s) && s.body == MarshalAll(TextValues([iface, prop]), 0) + extra
    requires var m := Received(s.h, s.fs, s.body, room);
             m.iface == Ascii("org.freedesktop.DBus.Properties") && m.member == Ascii("Get") &&
             |D.ReplyFor(m, secret, serial)| < TWO_TO_THE_32
    ensures var m := Received(s.h, s.fs, s.body, room);
            A.Returns(D.ReplyFor(m, secret, serial), m, serial, Ascii("v"),
                      [if prop == Ascii("Collections") then
                         VVariant(TArray(TObjPath),
                                  VArray(TObjPath, [VObjPath(Ascii("/org/freedesktop/secrets/collection/login"))]))
                       else if prop == Ascii("Locked") then VVariant(TBool, VBool(false))
                       else if prop == Ascii("Label") then VVariant(TString, VString(Ascii("agy")))
                       else VVariant(TString, VString([]))])
  {
    hide Received, Frame, FieldArray, TypedFields, D.ReplyFor, MarshalAll, At, StringsFrom, Ascii, A.Returns, A.Refuses,
      TextValues;
    var m := Received(s.h, s.fs, s.body, room);
    var args := TextValues([iface, prop]);
    BodyReceived(s, MarshalAll(args, 0), extra, room);
    MarshalBody(args, s.fs);
    StringsWritten(m.raw, [iface, prop], m.bodyStart);
    A.PropertyAnswers(m, secret, serial);
  }
}

/** `IrcClient` (pyrcmemcached.py:53-154) as a class whose methods change its
    fields and its socket in place. Each method is proved to do what the
    function of the same operation in module Session says, read on the state
    before and after the call through `Snapshot`. */
module Connection {
  import opened Base
  import opened Text
  import opened IrcMessage
  import opened Framing
  import opened Session

  /** A connected stream socket whose peer's behaviour is scripted: the
      outcomes its receives will have, and the bytes written to it. */
  class Socket {
    var inbound: seq<Recv>
    var outbox: string
    var closed: bool

    constructor (script: seq<Recv>)
      ensures inbound == script && outbox == "" && !closed
    {
      inbound := script;
      outbox := "";
      closed := false;
    }

    /** `recv(4096)`: the next scripted outcome. */
    method Receive() returns (got: Recv)
      modifies this`inbound
      ensures (got, inbound) == Poll(old(inbound))
    {
      got, inbound := Poll(inbound).0, Poll(inbound).1;
    }

    /** `sendall`: every byte is written, in order. */
    method Write(data: string)
      modifies this`outbox
      ensures outbox == old(outbox) + data
    {
      outbox := outbox + data;
    }

    method Close()
      modifies this`closed
      ensures closed
    {
      closed := true;
    }
  }

  /** The parsing loop of getMessages (lines 96-101): every non-empty line
      between CR LFs, with its CR LF put back, parsed in order; the first line
      that fails to parse fails the call. */
  method ParseBatch(data: string) returns (r: Result<seq<Message>>)
    ensures r == ParseLines(data)
  {
    var lines := Split(data, CRLF);
    var messages: seq<Message> := [];
    var i := 0;
    assert lines[0..] == lines;
    PrependNothing(ParseAll(lines));
    while i < |lines|
      invariant 0 <= i <= |lines|
      invariant ParseAll(lines) == Prepend(messages, ParseAll(lines[i..]))
    {
      if lines[i] == "" {
        ParseAllStep(lines, i);
      } else {
        BatchStep(lines, i, messages);
        var parsed := ParseMessageAsWritten(lines[i] + CRLF);
        if parsed.Failure? {
          return Failure(parsed.error);
        }
        messages := messages + [parsed.value];
      }
      i := i + 1;
    }
    assert lines[i..] == [];
    assert messages + [] == messages;
    return Success(messages);
  }

  class IrcClient {
    const name: string
    var conn: Socket?
    var nick: string
    var inbuffer: seq<Message>

    /** The state of the client as a value. */
    function Snapshot(): Link
      reads this, conn
    {
      Link(if conn == null then None else Some(Wire(conn.inbound, conn.outbox)), inbuffer)
    }

    /** The open socket, if any: what the methods below may read from and
        write to, and nothing else of it. */
    function Sockets(): set<Socket>
      reads this
    {
      if conn == null then {} else {conn}
    }

    /** Lines 54-57. */
    constructor (name: string)
      ensures this.name == name && conn == null && inbuffer == []
    {
      this.name := name;
      conn := null;
      nick := "";
      inbuffer := [];
    }

    /** Lines 58-61 once the socket is open: the socket becomes the connection
        and the nick is chosen; the inbox is kept. */
    method Attach(sock: Socket, nick: string)
      modifies this`conn, this`nick
      ensures conn == sock && this.nick == nick
    {
      conn := sock;
      this.nick := nick;
    }

    /** Lines 64-70. */
    method Disconnect()
      modifies this`conn, conn
      ensures Snapshot() == Session.Disconnect(old(Snapshot()))
      ensures old(conn) != null ==> old(conn).closed
    {
      if conn == null {
        return;
      }
      conn.Close();
      conn := null;
    }

    /** The receive loop of getMessages (lines 75-95). */
    method ReceiveData(assertGetOne: bool) returns (outcome: Gathered)
      requires conn != null
      modifies conn`inbound
      ensures outcome == Gather(old(conn.inbound), "", assertGetOne)
      ensures conn.inbound == outcome.rest
    {
      ghost var start := conn.inbound;
      var data := "";
      while true
        invariant Gather(conn.inbound, data, assertGetOne) == Gather(start, "", assertGetOne)
        decreases |conn.inbound|
      {
        var got := conn.Receive();
        match got
        case Timeout =>
          if !assertGetOne && data == "" {
            return Idle(conn.inbound);
          }
          return Data(data, conn.inbound);
        case Chunk(c) =>
          if c == "" {
            return Closed(conn.inbound);
          }
          data := data + c;
          if EndsWith(c, CRLF) {
            return Data(data, conn.inbound);
          }
      }
    }

    /** Lines 71-102. */
    method GetMessages(assertGetOne: bool) returns (r: Result<seq<Message>>)
      modifies Sockets()`inbound, Sockets()`outbox
      ensures Step(r, Snapshot()) == Receive(old(Snapshot()), assertGetOne)
    {
      if conn == null {
        return Failure(NoSocket);
      }
      var outcome := ReceiveData(assertGetOne);
      match outcome
      case Idle(_) =>
        return Success([]);
      case Closed(_) =>
        return Failure(ConnectionClosed);
      case Data(data, _) =>
        r := ParseBatch(data);
    }

    /** Lines 103-111. */
    method GetMessage(pred: Message -> bool) returns (r: Result<Message>)
      modifies this`inbuffer, Sockets()`inbound, Sockets()`outbox
      ensures Step(r, Snapshot()) == Next(old(Snapshot()), pred)
    {
      while true
        invariant Next(Snapshot(), pred) == Next(old(Snapshot()), pred)
        decreases Pending(Snapshot()), |inbuffer|
      {
        if inbuffer == [] {
          var got := GetMessages(true);
          if got.Failure? {
            return Failure(got.error);
          }
          inbuffer := got.value;
        }
        if inbuffer == [] {
          return Failure(NoMessage);
        }
        var m := inbuffer[0];
        inbuffer := inbuffer[1..];
        if pred(m) {
          return Success(m);
        }
      }
    }

    /** Lines 112-119. */
    method SendLine(line: string) returns (r: Result<()>)
      modifies Sockets()`inbound, Sockets()`outbox
      ensures Step(r, Snapshot()) == Send(old(Snapshot()), line)
    {
      if conn == null {
        return Failure(Disconnected);
      }
      conn.Write(line);
      if !EndsWith(line, CRLF) {
        conn.Write(CRLF);
        assert conn.outbox == old(conn.outbox) + (line + CRLF);
      }
      return Success(());
    }

    /** The loop at lines 128-137: read until the final `CAP * LS` reply,
        collecting the capabilities listed on the way. */
    method AwaitCapList() returns (r: Result<Listing>)
      modifies this`inbuffer, Sockets()`inbound, Sockets()`outbox
      ensures Step(r, Snapshot()) == AwaitCaps(old(Snapshot()), [])
    {
      var capabilities: seq<string> := [];
      while true
        invariant AwaitCaps(Snapshot(), capabilities) == AwaitCaps(old(Snapshot()), [])
        decreases Pending(Snapshot()), |inbuffer|
      {
        var got := GetMessage(Any);
        if got.Failure? {
          return Failure(got.error);
        }
        var m := got.value;
        if m.command != "CAP" {
          continue;
        }
        if |m.params| < 2 {
          return Failure(ProtocolViolation(m));
        }
        if m.params[1] != "LS" {
          continue;
        }
        if |m.params| < 3 {
          return Failure(ProtocolViolation(m));
        }
        if m.params[2] == "*" {
          if |m.params| < 4 {
            return Failure(ProtocolViolation(m));
          }
          capabilities := capabilities + Split(m.params[3], " ");
        } else {
          return Success(Listing(m, capabilities + Split(m.params[2], " ")));
        }
      }
    }

    /** The loops at lines 139-140 and 145-146: from the message in hand, read
        until one has command `c`. */
    method WaitFor(m: Message, c: string) returns (r: Result<Message>)
      modifies this`inbuffer, Sockets()`inbound, Sockets()`outbox
      ensures Step(r, Snapshot()) == Await(old(Snapshot()), m, c)
    {
      var current := m;
      while current.command != c
        invariant Await(Snapshot(), current, c) == Await(old(Snapshot()), m, c)
        decreases Pending(Snapshot()), |inbuffer|
      {
        var got := GetMessage(Any);
        if got.Failure? {
          return Failure(got.error);
        }
        current := got.value;
      }
      return Success(current);
    }

    /** Lines 124-126: the three opening lines. Once the first has gone out
        the connection is open, so the other two cannot raise. */
    method SendOpening() returns (r: Result<()>)
      modifies Sockets()`inbound, Sockets()`outbox
      ensures Step(r, Snapshot()) == SendAll(old(Snapshot()), Opening(nick))
    {
      ghost var l0 := Snapshot();
      var lines := Opening(nick);
      r := SendLine(lines[0]);
      if r.Failure? {
        return;
      }
      r := SendLine(lines[1]);
      r := SendLine(lines[2]);
      SendThree(l0, lines[0], lines[1], lines[2]);
    }

    /** Lines 124-138: the opening lines, the capability listing, `CAP END`. */
    method OpenNegotiation() returns (r: Result<Listing>)
      modifies this`inbuffer, Sockets()`inbound, Sockets()`outbox
      ensures Step(r, Snapshot()) == Negotiate(old(Snapshot()), nick)
    {
      ghost var l0 := Snapshot();
      var sent := SendOpening();
      if sent.Failure? {
        return Failure(sent.error);
      }
      NegotiateOpen(l0, nick);
      r := AwaitCapList();
      if r.Success? {
        ghost var l2 := Snapshot();
        sent := SendLine("CAP END");
        assert Snapshot() == Send(l2, "CAP END").link;
      }
    }

    /** Lines 139-142. */
    method RequireMetadata(m: Message) returns (r: Result<Message>)
      modifies this`inbuffer, Sockets()`inbound, Sockets()`outbox
      ensures Step(r, Snapshot()) == CheckFeatures(old(Snapshot()), m)
    {
      r := WaitFor(m, "005");
      if r.Success? && !AdvertisesMetadata(r.value.params) {
        return Failure(UnsupportedServer);
      }
    }

    /** Lines 144-146. */
    method Ping(m: Message) returns (r: Result<Message>)
      modifies this`inbuffer, Sockets()`inbound, Sockets()`outbox
      ensures Step(r, Snapshot()) == PingPong(old(Snapshot()), m)
    {
      var sent := SendLine("PING");
      if sent.Failure? {
        return Failure(sent.error);
      }
      r := WaitFor(m, "PONG");
    }

    /** Lines 123-146. */
    method Authenticate() returns (r: Result<seq<string>>)
      modifies this`inbuffer, Sockets()`inbound, Sockets()`outbox
      ensures Step(r, Snapshot()) == Handshake(old(Snapshot()), nick)
    {
      var listing := OpenNegotiation();
      if listing.Failure? {
        return Failure(listing.error);
      }
      var isupport := RequireMetadata(listing.value.last);
      if isupport.Failure? {
        return Failure(isupport.error);
      }
      var pong := Ping(isupport.value);
      if pong.Failure? {
        return Failure(pong.error);
      }
      return Success(listing.value.caps);
    }

    /** Lines 148-154. */
    method Join(channel: string) returns (r: Result<()>)
      modifies this`inbuffer, Sockets()`inbound, Sockets()`outbox
      ensures Step(r, Snapshot()) == JoinChannel(old(Snapshot()), channel)
    {
      var sent := SendLine("JOIN " + channel);
      if sent.Failure? {
        return Failure(sent.error);
      }
      var got := GetMessage(Any);
      if got.Failure? {
        return Failure(got.error);
      }
      var m := got.value;
      ghost var l1, m1 := Snapshot(), m;
      while m.command == "NOTICE"
        invariant SkipNotices(Snapshot(), m) == SkipNotices(l1, m1)
        decreases Pending(Snapshot()), |inbuffer|
      {
        got := GetMessage(Any);
        if got.Failure? {
          return Failure(got.error);
        }
        m := got.value;
      }
      if m.command == "366" {
        return Failure(ProtocolViolation(m));
      }
      var drained := GetMessages(false);
      if drained.Failure? {
        return Failure(drained.error);
      }
      return Success(());
    }
  }
}

/** `Client` (pyrcmemcached.py:157-232): the memcached-style facade over one
    `IrcClient`. Every method changes the IRC client in place and is proved to
    do what the function of the same operation in modules Session and Store
    says, read on the client's state before and after. */
module Memcached {
  import opened Base
  import opened Framing
  import opened Session
  import opened Values
  import opened Store
  import opened Connection

  class Client {
    const servers: seq<string>
    const irc: IrcClient

    constructor (servers: seq<string>, irc: IrcClient)
      ensures this.servers == servers && this.irc == irc
    {
      this.servers := servers;
      this.irc := irc;
    }

    /** `Client(servers)` (lines 162-173): no server is a ValueError; the
        first server's address must split into host and port; then the socket
        is opened, the client authenticates and joins the channel. The socket
        the address leads to is given as the script of what it will deliver,
        and the nick `randomnick` would choose is a parameter. */
    static method Open(servers: seq<string>, script: seq<Recv>, nick: string) returns (r: Result<Client>)
      ensures servers == [] ==> r == Failure(NoServer)
      ensures servers != [] && SplitAddress(servers[0]).Failure? ==>
                r == Failure(SplitAddress(servers[0]).error)
      ensures servers != [] && SplitAddress(servers[0]).Success? ==>
                var s := Startup(Link(Some(Wire(script, "")), []), nick, Channel);
                && (r.Success? <==> s.result.Success?)
                && (r.Failure? ==> r.error == s.result.error)
                && (r.Success? ==> fresh(r.value) && fresh(r.value.irc)
                                   && r.value.servers == servers && r.value.irc.Snapshot() == s.link)
    {
      if servers == [] {
        return Failure(NoServer);
      }
      var address := SplitAddress(servers[0]);
      if address.Failure? {
        return Failure(address.error);
      }
      var irc := new IrcClient("irc");
      var sock := new Socket(script);
      irc.Attach(sock, nick);
      ghost var l0 := irc.Snapshot();
      assert l0 == Link(Some(Wire(script, "")), []);
      var hello := irc.Authenticate();
      if hello.Failure? {
        return Failure(hello.error);
      }
      var joined := irc.Join(Channel);
      if joined.Failure? {
        return Failure(joined.error);
      }
      var client := new Client(servers, irc);
      return Success(client);
    }

    /** Lines 175-176. */
    method DisconnectAll()
      modifies irc`conn, irc.conn
      ensures irc.Snapshot() == Session.Disconnect(old(irc.Snapshot()))
    {
      irc.Disconnect();
    }

    /** Lines 178-179: the reason is ignored. */
    method MarkDead(reason: string)
      modifies irc`conn, irc.conn
      ensures irc.Snapshot() == Session.Disconnect(old(irc.Snapshot()))
    {
      irc.Disconnect();
    }

    /** `m = self.irc.getMessage(); assert m.command == c, m`. */
    method AwaitReply(c: string) returns (r: Result<Message>)
      modifies irc`inbuffer, irc.Sockets()`inbound, irc.Sockets()`outbox
      ensures Step(r, irc.Snapshot()) == Expect(old(irc.Snapshot()), c)
    {
      var got := irc.GetMessage(Any);
      if got.Failure? {
        return got;
      }
      if got.value.command != c {
        return Failure(ProtocolViolation(got.value));
      }
      return got;
    }

    /** The 761 then 762 that acknowledge one METADATA SET. */
    method AwaitPair() returns (r: Result<()>)
      modifies irc`inbuffer, irc.Sockets()`inbound, irc.Sockets()`outbox
      ensures Step(r, irc.Snapshot()) == ExpectPair(old(irc.Snapshot()))
    {
      var ack := AwaitReply("761");
      if ack.Failure? {
        return Failure(ack.error);
      }
      var end := AwaitReply("762");
      if end.Failure? {
        return Failure(end.error);
      }
      return Success(());
    }

    /** Lines 181-199. */
    method Set(key: string, v: Value) returns (r: Result<()>)
      modifies irc`inbuffer, irc.Sockets()`inbound, irc.Sockets()`outbox
      ensures Step(r, irc.Snapshot()) == StoreValue(old(irc.Snapshot()), key, v)
    {
      if !IsValidKey(key) {
        return Failure(InvalidKey(key));
      }
      var sent := irc.SendLine(SetLine(key, v));
      if sent.Failure? {
        return Failure(sent.error);
      }
      r := AwaitPair();
    }

    /** Lines 201-218. */
    method Get(key: string) returns (r: Result<Option<Value>>)
      modifies irc`inbuffer, irc.Sockets()`inbound, irc.Sockets()`outbox
      ensures Step(r, irc.Snapshot()) == FetchValue(old(irc.Snapshot()), key)
    {
      if !IsValidKey(key) {
        return Failure(InvalidKey(key));
      }
      var sent := irc.SendLine(GetLine(key));
      if sent.Failure? {
        return Failure(sent.error);
      }
      var got := irc.GetMessage(Any);
      if got.Failure? {
        return Failure(got.error);
      }
      r := Interpret(got.value, key);
    }

    /** Lines 220-221. */
    method Delete(key: string) returns (r: Result<()>)
      modifies irc`inbuffer, irc.Sockets()`inbound, irc.Sockets()`outbox
      ensures Step(r, irc.Snapshot()) == Store.Delete(old(irc.Snapshot()), key)
    {
      r := DeleteMulti([key]);
    }

    /** Lines 222-232: all the clearing lines go out, then one acknowledgement
        is read per key, in the order the keys were sent. */
    method DeleteMulti(keys: seq<string>) returns (r: Result<()>)
      modifies irc`inbuffer, irc.Sockets()`inbound, irc.Sockets()`outbox
      ensures Step(r, irc.Snapshot()) == DeleteKeys(old(irc.Snapshot()), keys)
    {
      ghost var l0 := irc.Snapshot();
      ghost var lines := ClearLines(keys);
      var i := 0;
      while i < |keys|
        invariant 0 <= i <= |keys|
        invariant irc.inbuffer == l0.inbuffer
        invariant SendAll(irc.Snapshot(), lines[i..]) == SendAll(l0, lines)
      {
        var sent := irc.SendLine(ClearLine(keys[i]));
        assert lines[i..][1..] == lines[i + 1..];
        if sent.Failure? {
          return Failure(sent.error);
        }
        i := i + 1;
      }
      ghost var l1 := irc.Snapshot();
      var j := 0;
      while j < |keys|
        invariant 0 <= j <= |keys|
        invariant ExpectPairs(irc.Snapshot(), |keys| - j) == ExpectPairs(l1, |keys|)
      {
        var pair := AwaitPair();
        if pair.Failure? {
          return pair;
        }
        j := j + 1;
      }
      return Success(());
    }
  }
}

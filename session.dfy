/** The state of an `IrcClient` (pyrcmemcached.py:53-154) as a value, and each of
    its operations as a function from that value to a result and a new value.
    The class in module Connection runs the same operations in place and is
    proved to agree with these functions. */
module Session {
  import opened Base
  import opened Text
  import opened Framing

  /** The socket as the client sees it: what the peer will still deliver, and
      every byte the client has written to it so far. */
  datatype Wire = Wire(inbound: seq<Recv>, outbox: string)

  /** `conn` (None once disconnected) and the FIFO `inbuffer`. */
  datatype Link = Link(conn: Option<Wire>, inbuffer: seq<Message>)

  /** What an operation returns (or raises) and the state it leaves. */
  datatype Step<+T> = Step(result: Result<T>, link: Link)

  /** Receive outcomes still scripted; a read that yields a message uses one up. */
  function Pending(l: Link): nat {
    if l.conn.Some? then |l.conn.value.inbound| else 0
  }

  /** Everything written to the current connection. */
  function Sent(l: Link): string {
    if l.conn.Some? then l.conn.value.outbox else ""
  }

  /** Same connection state, same inbox, same bytes written: only the inbound
      script may have moved on. */
  predicate SameExceptInbound(a: Link, b: Link) {
    a.conn.Some? == b.conn.Some? && Sent(a) == Sent(b)
  }

  // ---------------------------------------------------------------------------
  // disconnect (lines 64-70)

  function Disconnect(l: Link): (r: Link)
    ensures r.conn == None && r.inbuffer == l.inbuffer
  {
    l.(conn := None)
  }

  /** Disconnecting twice is disconnecting once. */
  lemma DisconnectIdempotent(l: Link)
    ensures Disconnect(Disconnect(l)) == Disconnect(l)
    ensures l.conn == None ==> Disconnect(l) == l
  {
  }

  // ---------------------------------------------------------------------------
  // getMessages (lines 71-102)

  /** One call of getMessages: with no connection the receive fails; otherwise
      the framed read, the inbox untouched. */
  function Receive(l: Link, assertGetOne: bool): (s: Step<seq<Message>>)
    ensures s.link.inbuffer == l.inbuffer && SameExceptInbound(l, s.link)
    ensures l.conn.None? ==> s == Step(Failure(NoSocket), l)
    ensures Pending(s.link) <= Pending(l)
    ensures s.result.Success? && s.result.value != [] ==> Pending(s.link) < Pending(l)
  {
    match l.conn
    case None => Step(Failure(NoSocket), l)
    case Some(w) =>
      var r := ReadMessages(w.inbound, assertGetOne);
      Step(r.result, l.(conn := Some(w.(inbound := r.rest))))
  }

  // ---------------------------------------------------------------------------
  // getMessage (lines 103-111)

  /** The default filter (`filter_pred=None`): every message is accepted. */
  predicate Any(m: Message) { true }

  /** Pops messages from the front of the inbox until one satisfies `pred`,
      refilling with a blocking read only when the inbox is empty; a refill that
      brings nothing fails. Each message returned or skipped uses up the inbox
      or the script, so the search ends. */
  function Next(l: Link, pred: Message -> bool): (s: Step<Message>)
    ensures SameExceptInbound(l, s.link)
    ensures Pending(s.link) <= Pending(l)
    ensures s.result.Success? ==>
              pred(s.result.value)
              && (Pending(s.link) < Pending(l)
                  || (Pending(s.link) == Pending(l) && |s.link.inbuffer| < |l.inbuffer|))
    decreases Pending(l), |l.inbuffer|
  {
    var refill := if l.inbuffer == [] then Receive(l, true) else Step(Success(l.inbuffer), l);
    match refill.result
    case Failure(e) => Step(Failure(e), refill.link)
    case Success(buffer) =>
      if buffer == [] then Step(Failure(NoMessage), refill.link)
      else
        var rest := refill.link.(inbuffer := buffer[1..]);
        if pred(buffer[0]) then Step(Success(buffer[0]), rest) else Next(rest, pred)
  }

  /** The first buffered message that satisfies the filter is returned; it and
      every message before it leave the inbox, later ones stay in order, and
      nothing is received. */
  lemma {:induction false} NextFirstMatch(l: Link, pred: Message -> bool, k: nat)
    requires k < |l.inbuffer| && pred(l.inbuffer[k])
    requires forall j :: 0 <= j < k ==> !pred(l.inbuffer[j])
    ensures Next(l, pred) == Step(Success(l.inbuffer[k]), l.(inbuffer := l.inbuffer[k + 1..]))
    decreases k
  {
    if k > 0 {
      var rest := l.(inbuffer := l.inbuffer[1..]);
      NextFirstMatch(rest, pred, k - 1);
      assert rest.inbuffer[k - 1 + 1..] == l.inbuffer[k + 1..];
    }
  }

  /** When no buffered message satisfies the filter, all of them are dropped
      and the search goes on with a refill. */
  lemma {:induction false} NextSkipsAll(l: Link, pred: Message -> bool)
    requires forall j :: 0 <= j < |l.inbuffer| ==> !pred(l.inbuffer[j])
    ensures Next(l, pred) == Next(l.(inbuffer := []), pred)
    decreases |l.inbuffer|
  {
    if l.inbuffer != [] {
      var rest := l.(inbuffer := l.inbuffer[1..]);
      NextSkipsAll(rest, pred);
      assert rest.(inbuffer := []) == l.(inbuffer := []);
    }
  }

  /** With an empty inbox, a blocking read that brings nothing (the peer is
      silent) fails with NoMessage; one that brings messages becomes the new
      inbox. */
  lemma NextRefills(l: Link, pred: Message -> bool)
    requires l.conn.Some? && l.inbuffer == []
    ensures var r := ReadMessages(l.conn.value.inbound, true);
            var after := l.(conn := Some(l.conn.value.(inbound := r.rest)));
            Next(l, pred)
              == match r.result
                 case Failure(e) => Step(Failure(e), after)
                 case Success(ms) =>
                   if ms == [] then Step(Failure(NoMessage), after)
                   else Next(after.(inbuffer := ms), pred)
  {
    var r := ReadMessages(l.conn.value.inbound, true);
    var after := l.(conn := Some(l.conn.value.(inbound := r.rest)));
    if r.result.Success? && r.result.value != [] {
      var ms := r.result.value;
      if !pred(ms[0]) {
        assert after.(inbuffer := ms[1..]) == after.(inbuffer := ms).(inbuffer := ms[1..]);
      }
    }
  }

  /** An empty inbox and a silent peer: getMessage fails and nothing changes. */
  lemma NextSilent(l: Link, pred: Message -> bool)
    requires l.inbuffer == [] && l.conn.Some? && l.conn.value.inbound == []
    ensures Next(l, pred) == Step(Failure(NoMessage), l)
  {
  }

  /** The `while m.command != c: m = self.getMessage()` loops (lines 139-140,
      145-146): starting from the message in hand, read until one has command
      `c`. */
  function Await(l: Link, m: Message, c: string): (s: Step<Message>)
    ensures SameExceptInbound(l, s.link)
    ensures s.result.Success? ==> s.result.value.command == c
    decreases Pending(l), |l.inbuffer|
  {
    if m.command == c then Step(Success(m), l)
    else
      var got := Next(l, Any);
      match got.result
      case Failure(e) => Step(Failure(e), got.link)
      case Success(m') => Await(got.link, m', c)
  }

  /** The filter that `getMessage` could have been given instead. */
  function Named(c: string): Message -> bool {
    (m: Message) => m.command == c
  }

  /** Spinning on getMessage until a command shows up is the same as asking
      getMessage for that command: the same message, the same state. */
  lemma {:induction false} AwaitIsNext(l: Link, m: Message, c: string)
    requires m.command != c
    ensures Await(l, m, c) == Next(l, Named(c))
    decreases Pending(l), |l.inbuffer|, 1
  {
    if l.inbuffer == [] {
      if l.conn.Some? {
        NextRefills(l, Any);
        NextRefills(l, Named(c));
        var r := ReadMessages(l.conn.value.inbound, true);
        if r.result.Success? && r.result.value != [] {
          var after := l.(conn := Some(l.conn.value.(inbound := r.rest))).(inbuffer := r.result.value);
          AwaitFromBuffer(after, c);
        }
      }
    } else {
      AwaitFromBuffer(l, c);
    }
  }

  lemma {:induction false} AwaitFromBuffer(l: Link, c: string)
    requires l.inbuffer != []
    ensures var got := Next(l, Any);
            got.result.Success?
            && (if got.result.value.command == c then Step(Success(got.result.value), got.link)
                else Await(got.link, got.result.value, c)) == Next(l, Named(c))
    decreases Pending(l), |l.inbuffer|, 0
  {
    var rest := l.(inbuffer := l.inbuffer[1..]);
    if l.inbuffer[0].command != c {
      AwaitIsNext(rest, l.inbuffer[0], c);
    }
  }

  // ---------------------------------------------------------------------------
  // sendLine (lines 112-119)

  /** The bytes sendLine writes: the line, and CR LF unless it already ends so. */
  function Terminated(line: string): (t: string)
    ensures EndsWith(t, CRLF)
    ensures EndsWith(line, CRLF) ==> t == line
    ensures !EndsWith(line, CRLF) ==> t == line + CRLF
  {
    if EndsWith(line, CRLF) then line else line + CRLF
  }

  function Send(l: Link, line: string): (s: Step<()>)
    ensures l.conn.None? ==> s == Step(Failure(Disconnected), l)
    ensures l.conn.Some? ==>
              s.result.Success? && s.link.inbuffer == l.inbuffer
              && s.link.conn == Some(l.conn.value.(outbox := l.conn.value.outbox + Terminated(line)))
  {
    match l.conn
    case None => Step(Failure(Disconnected), l)
    case Some(w) => Step(Success(()), l.(conn := Some(w.(outbox := w.outbox + Terminated(line)))))
  }

  /** Several sendLine calls in a row. */
  function SendAll(l: Link, lines: seq<string>): (s: Step<()>)
    ensures s.link.inbuffer == l.inbuffer && s.link.conn.Some? == l.conn.Some?
    ensures l.conn.Some? ==> s.result.Success?
    decreases |lines|
  {
    if lines == [] then Step(Success(()), l)
    else
      var first := Send(l, lines[0]);
      if first.result.Failure? then Step(Failure(first.result.error), first.link)
      else SendAll(first.link, lines[1..])
  }

  function Lines(lines: seq<string>): string {
    if lines == [] then "" else Terminated(lines[0]) + Lines(lines[1..])
  }

  /** On an open connection every line goes out, each terminated, in order and
      nothing else changes; with no connection nothing goes out unless there was
      nothing to send. */
  lemma SendAllWrites(l: Link, lines: seq<string>)
    ensures l.conn.Some? ==>
              SendAll(l, lines)
                == Step(Success(()), l.(conn := Some(l.conn.value.(outbox := l.conn.value.outbox + Lines(lines)))))
    ensures l.conn.None? ==>
              SendAll(l, lines) == if lines == [] then Step(Success(()), l) else Step(Failure(Disconnected), l)
  {
    if l.conn.Some? {
      var w := l.conn.value;
      SendAllOpen(w.inbound, w.outbox, l.inbuffer, lines);
    }
  }

  /** The induction behind SendAllWrites, on the fields of the state. */
  lemma {:induction false} SendAllOpen(inbound: seq<Recv>, outbox: string, inbuffer: seq<Message>,
                                       lines: seq<string>)
    ensures SendAll(Link(Some(Wire(inbound, outbox)), inbuffer), lines)
              == Step(Success(()), Link(Some(Wire(inbound, outbox + Lines(lines))), inbuffer))
    decreases |lines|
  {
    if lines == [] {
      assert outbox + Lines(lines) == outbox;
    } else {
      var line := Terminated(lines[0]);
      assert Send(Link(Some(Wire(inbound, outbox)), inbuffer), lines[0]).link
               == Link(Some(Wire(inbound, outbox + line)), inbuffer);
      SendAllOpen(inbound, outbox + line, inbuffer, lines[1..]);
      assert Lines(lines) == line + Lines(lines[1..]);
      Regroup(outbox, line, Lines(lines[1..]));
    }
  }

  // ---------------------------------------------------------------------------
  // authenticate (lines 123-146)

  /** The lines authenticate opens with (lines 124-126). */
  function Opening(nick: string): seq<string> {
    ["CAP LS 302", "USER pyrcmemcached * * :pyrcmemcached", "NICK " + nick]
  }

  /** The capability listing that ends negotiation, and the capabilities
      gathered from it and the continuation lines before it. */
  datatype Listing = Listing(last: Message, caps: seq<string>)

  /** A `CAP <nick> LS` reply, the kind the loop at lines 129-137 acts on. */
  predicate IsCapLs(m: Message) {
    m.command == "CAP" && |m.params| >= 2 && m.params[1] == "LS"
  }

  /** What the loop at lines 129-137 makes of one message. */
  datatype CapReply =
    | Skip                            // not a `CAP * LS` reply
    | Continued(more: seq<string>)    // a continuation line (`*` as third parameter)
    | Final(more: seq<string>)        // the last line of the listing
    | TooShort                        // a CAP reply too short to index: IndexError

  function ClassifyCap(m: Message): (c: CapReply)
    ensures c.Final? ==> IsCapLs(m) && |m.params| >= 3 && m.params[2] != "*"
    ensures c.Skip? <==> m.command != "CAP" || (|m.params| >= 2 && m.params[1] != "LS")
  {
    if m.command != "CAP" then Skip
    else if |m.params| < 2 then TooShort
    else if m.params[1] != "LS" then Skip
    else if |m.params| < 3 then TooShort
    else if m.params[2] == "*" then
      if |m.params| < 4 then TooShort else Continued(Split(m.params[3], " "))
    else Final(Split(m.params[2], " "))
  }

  /** The loop at lines 129-137: skip everything but `CAP * LS` replies,
      collect the capabilities of each continuation line and stop after the
      first final one. */
  function AwaitCaps(l: Link, caps: seq<string>): (s: Step<Listing>)
    ensures SameExceptInbound(l, s.link)
    ensures s.result.Success? ==>
              var m := s.result.value.last;
              IsCapLs(m) && |m.params| >= 3 && m.params[2] != "*"
              && caps <= s.result.value.caps
    decreases Pending(l), |l.inbuffer|
  {
    var got := Next(l, Any);
    match got.result
    case Failure(e) => Step(Failure(e), got.link)
    case Success(m) =>
      match ClassifyCap(m)
      case Skip => AwaitCaps(got.link, caps)
      case TooShort => Step(Failure(ProtocolViolation(m)), got.link)
      case Continued(more) => AwaitCaps(got.link, caps + more)
      case Final(more) => Step(Success(Listing(m, caps + more)), got.link)
  }

  /** Line 141: some ISUPPORT token other than the first parameter (the nick)
      and the last (the human-readable trailer) is named METADATA, with or
      without a value after `=`. */
  predicate AdvertisesMetadata(params: seq<string>) {
    exists i :: 1 <= i < |params| - 1 && Split(params[i], "=")[0] == "METADATA"
  }

  /** Lines 124-138: the opening lines, the capability listing, `CAP END`.
      On an open connection the three opening lines always go out, and
      `CAP END` follows exactly when a final `CAP * LS` reply arrived. */
  function Negotiate(l: Link, nick: string): (s: Step<Listing>)
    ensures s.link.conn.Some? == l.conn.Some?
    ensures l.conn.None? ==> s == Step(Failure(Disconnected), l)
    ensures s.result.Success? ==>
              var m := s.result.value.last;
              IsCapLs(m) && |m.params| >= 3 && m.params[2] != "*"
  {
    var greeted := SendAll(l, Opening(nick));
    if greeted.result.Failure? then Step(Failure(greeted.result.error), greeted.link)
    else
      var listing := AwaitCaps(greeted.link, []);
      match listing.result
      case Failure(e) => Step(Failure(e), listing.link)
      case Success(found) =>
        // the connection that carried the opening lines is still open, so
        // this sendLine cannot raise
        Step(Success(found), Send(listing.link, "CAP END").link)
  }

  /** On an open connection negotiation is: the opening lines, the listing
      loop, and `CAP END` once the listing is complete. */
  lemma NegotiateOpen(l: Link, nick: string)
    requires l.conn.Some?
    ensures var listing := AwaitCaps(SendAll(l, Opening(nick)).link, []);
            Negotiate(l, nick)
              == if listing.result.Success? then Step(listing.result, Send(listing.link, "CAP END").link)
                 else listing
  {
    var listing := AwaitCaps(SendAll(l, Opening(nick)).link, []);
    if listing.result.Failure? {
      assert listing == Step(Failure(listing.result.error), listing.link);
    }
  }

  /** On an open connection the three opening lines always go out, and
      `CAP END` follows exactly when a final `CAP * LS` reply arrived. */
  lemma NegotiateWrites(l: Link, nick: string)
    requires l.conn.Some?
    ensures var s := Negotiate(l, nick);
            Sent(s.link) == Sent(l) + Lines(Opening(nick)) + (if s.result.Success? then Terminated("CAP END") else "")
  {
    SendAllWrites(l, Opening(nick));
    var greeted := SendAll(l, Opening(nick));
    var listing := AwaitCaps(greeted.link, []);
    var out := Sent(l) + Lines(Opening(nick));
    assert Sent(listing.link) == out;
    if listing.result.Success? {
      SendOpenWrites(listing.link, "CAP END");
    } else {
      assert out + "" == out;
    }
  }

  /** On an open connection a line goes out terminated, after what was sent. */
  lemma SendOpenWrites(l: Link, line: string)
    requires l.conn.Some?
    ensures Sent(Send(l, line).link) == Sent(l) + Terminated(line)
  {
  }


  /** Lines 139-142: read on to the ISUPPORT (005) reply and insist that it
      advertises METADATA. */
  function CheckFeatures(l: Link, m: Message): (s: Step<Message>)
    ensures SameExceptInbound(l, s.link)
    ensures s.result.Success? ==>
              s.result.value.command == "005" && AdvertisesMetadata(s.result.value.params)
  {
    var isupport := Await(l, m, "005");
    match isupport.result
    case Failure(e) => Step(Failure(e), isupport.link)
    case Success(features) =>
      if AdvertisesMetadata(features.params) then isupport
      else Step(Failure(UnsupportedServer), isupport.link)
  }

  /** Lines 144-146: send `PING` and read on to the first `PONG`. */
  function PingPong(l: Link, m: Message): (s: Step<Message>)
    ensures l.conn.None? ==> s == Step(Failure(Disconnected), l)
    ensures l.conn.Some? ==> s.link.conn.Some? && Sent(s.link) == Sent(l) + Terminated("PING")
    ensures s.result.Success? ==> s.result.value.command == "PONG"
  {
    var pinged := Send(l, "PING");
    if pinged.result.Failure? then Step(Failure(pinged.result.error), pinged.link)
    else Await(pinged.link, m, "PONG")
  }

  /** The whole of authenticate. What it returns is the list of capabilities
      the server offered, which the source gathers into a local and never
      uses. On an open connection the opening lines always go out first; a
      handshake that gets through has written exactly those, `CAP END` and
      `PING`. */
  function Handshake(l: Link, nick: string): (s: Step<seq<string>>)
    ensures s.link.conn.Some? == l.conn.Some?
    ensures l.conn.None? ==> s == Step(Failure(Disconnected), l)
  {
    var negotiated := Negotiate(l, nick);
    if negotiated.result.Failure? then Step(Failure(negotiated.result.error), negotiated.link)
    else
      var features := CheckFeatures(negotiated.link, negotiated.result.value.last);
      if features.result.Failure? then Step(Failure(features.result.error), features.link)
      else
        var pong := PingPong(features.link, features.result.value);
        if pong.result.Failure? then Step(Failure(pong.result.error), pong.link)
        else Step(Success(negotiated.result.value.caps), pong.link)
  }

  /** Three sendLine calls in a row are SendAll of the three lines. */
  lemma SendThree(l: Link, a: string, b: string, c: string)
    requires l.conn.Some?
    ensures SendAll(l, [a, b, c]) == Step(Success(()), Send(Send(Send(l, a).link, b).link, c).link)
  {
    var s1 := Send(l, a).link;
    var s2 := Send(s1, b).link;
    assert [a, b, c][1..] == [b, c] && [b, c][1..] == [c] && [c][1..] == [];
    assert SendAll(s2, [c]) == Step(Success(()), Send(s2, c).link);
  }

  lemma OpeningLines(nick: string)
    ensures Lines(Opening(nick))
              == Terminated("CAP LS 302") + Terminated("USER pyrcmemcached * * :pyrcmemcached")
                 + Terminated("NICK " + nick)
  {
    var ls, last := Opening(nick), "NICK " + nick;
    assert ls[1..][1..] == [last];
    assert [last][1..] == ls[..0];
    assert Lines([last]) == Terminated(last);
    assert Lines(ls[1..]) == Terminated(ls[1]) + Terminated(last);
    assert Lines(ls) == Terminated(ls[0]) + Terminated(ls[1]) + Terminated(last);
  }

  /** On an open connection authenticate writes the three opening lines
      first, whatever the server then says. */
  lemma HandshakeOpens(l: Link, nick: string)
    requires l.conn.Some?
    ensures StartsWith(Sent(Handshake(l, nick).link), Sent(l) + Lines(Opening(nick)))
  {
    var tail := HandshakeTail(l, nick);
    PrefixOfConcat(Sent(l) + Lines(Opening(nick)), tail);
  }

  /** What authenticate writes after the opening lines: nothing, `CAP END`,
      or `CAP END` and `PING`, depending on how far it gets. */
  lemma HandshakeTail(l: Link, nick: string) returns (tail: string)
    requires l.conn.Some?
    ensures Sent(Handshake(l, nick).link) == Sent(l) + Lines(Opening(nick)) + tail
  {
    var negotiated := Negotiate(l, nick);
    if negotiated.result.Failure? {
      tail := "";
      NegotiateWrites(l, nick);
      assert Handshake(l, nick).link == negotiated.link;
    } else if CheckFeatures(negotiated.link, negotiated.result.value.last).result.Failure? {
      tail := Terminated("CAP END");
      NegotiatedOnly(l, nick);
    } else {
      tail := Terminated("CAP END") + Terminated("PING");
      HandshakeWrites(l, nick);
      Regroup(Sent(l) + Lines(Opening(nick)), Terminated("CAP END"), Terminated("PING"));
    }
  }

  /** A handshake stopped by the ISUPPORT check has written the opening
      lines and `CAP END`. */
  lemma NegotiatedOnly(l: Link, nick: string)
    requires l.conn.Some? && Negotiate(l, nick).result.Success?
    requires CheckFeatures(Negotiate(l, nick).link, Negotiate(l, nick).result.value.last).result.Failure?
    ensures Sent(Handshake(l, nick).link) == Sent(l) + Lines(Opening(nick)) + Terminated("CAP END")
  {
    NegotiateWrites(l, nick);
  }

  /** A handshake that gets past the ISUPPORT check has written exactly the
      opening lines, `CAP END` and `PING`, whether or not a PONG follows. */
  lemma HandshakeWrites(l: Link, nick: string)
    requires l.conn.Some? && Negotiate(l, nick).result.Success?
    requires CheckFeatures(Negotiate(l, nick).link, Negotiate(l, nick).result.value.last).result.Success?
    ensures Sent(Handshake(l, nick).link)
              == Sent(l) + Lines(Opening(nick)) + Terminated("CAP END") + Terminated("PING")
  {
    var negotiated := Negotiate(l, nick);
    NegotiateWrites(l, nick);
    var features := CheckFeatures(negotiated.link, negotiated.result.value.last);
    var pong := PingPong(features.link, features.result.value);
    assert Handshake(l, nick).link == pong.link;
  }

  /** In particular, a handshake that succeeds has written exactly those. */
  lemma HandshakeSucceeded(l: Link, nick: string)
    requires Handshake(l, nick).result.Success?
    ensures Sent(Handshake(l, nick).link)
              == Sent(l) + Lines(Opening(nick)) + Terminated("CAP END") + Terminated("PING")
  {
    HandshakeWrites(l, nick);
  }

  /** A METADATA token, bare or with a value, anywhere between the first and
      the last parameter of the 005 reply is enough. */
  lemma MetadataAdvertised(params: seq<string>, i: nat, value: string)
    requires 1 <= i < |params| - 1
    requires params[i] == "METADATA" || params[i] == "METADATA=" + value
    ensures AdvertisesMetadata(params)
  {
    assert NoChar("METADATA", '=');
    if params[i] == "METADATA" {
      NoCharNotContains("METADATA", '=');
      assert "=" == ['='];
    } else {
      FirstChar("METADATA", '=', value);
      assert "METADATA=" + value == "METADATA" + ['='] + value;
    }
    assert Split(params[i], "=")[0] == "METADATA";
  }

  /** The first parameter (the client's nick) and the last (the trailer) are
      never taken for a token: a reply with no parameter in between never
      advertises METADATA, whatever those two say. */
  lemma MetadataIgnoresEnds(nick: string, trailer: string)
    ensures !AdvertisesMetadata([nick, trailer])
    ensures !AdvertisesMetadata([nick])
  {
  }

  // ---------------------------------------------------------------------------
  // join (lines 148-154)

  /** The loop at lines 151-152: skip NOTICE messages. */
  function SkipNotices(l: Link, m: Message): (s: Step<Message>)
    ensures SameExceptInbound(l, s.link)
    ensures s.result.Success? ==> s.result.value.command != "NOTICE"
    decreases Pending(l), |l.inbuffer|
  {
    if m.command != "NOTICE" then Step(Success(m), l)
    else
      var got := Next(l, Any);
      match got.result
      case Failure(e) => Step(Failure(e), got.link)
      case Success(m') => SkipNotices(got.link, m')
  }

  /** join: send JOIN, skip notices, refuse an end-of-names (366) reply as the
      first other message, then read once more without blocking and throw
      away what was read. */
  function JoinChannel(l: Link, channel: string): (s: Step<()>)
    ensures s.link.conn.Some? == l.conn.Some?
    ensures l.conn.None? ==> s == Step(Failure(Disconnected), l)
  {
    var sent := Send(l, "JOIN " + channel);
    if sent.result.Failure? then Step(Failure(sent.result.error), sent.link)
    else
      var first := Next(sent.link, Any);
      match first.result
      case Failure(e) => Step(Failure(e), first.link)
      case Success(m) =>
        var reply := SkipNotices(first.link, m);
        match reply.result
        case Failure(e) => Step(Failure(e), reply.link)
        case Success(r) =>
          if r.command == "366" then Step(Failure(ProtocolViolation(r)), reply.link)
          else
            var drained := Receive(reply.link, false);
            match drained.result
            case Failure(e) => Step(Failure(e), drained.link)
            case Success(_) => Step(Success(()), drained.link)
  }

  predicate Notices(ms: seq<Message>) {
    forall k :: 0 <= k < |ms| ==> ms[k].command == "NOTICE"
  }

  /** Buffered notices before the real reply are skipped. */
  lemma {:induction false} SkipBufferedNotices(l: Link, m: Message, k: nat)
    requires k < |l.inbuffer| && l.inbuffer[k].command != "NOTICE"
    requires m.command == "NOTICE" && Notices(l.inbuffer[..k])
    ensures SkipNotices(l, m) == Step(Success(l.inbuffer[k]), l.(inbuffer := l.inbuffer[k + 1..]))
    decreases k
  {
    var rest := l.(inbuffer := l.inbuffer[1..]);
    NextFirstMatch(l, Any, 0);
    if k > 0 {
      assert l.inbuffer[0] == l.inbuffer[..k][0];
      assert rest.inbuffer[..k - 1] == l.inbuffer[1..k];
      SkipBufferedNotices(rest, l.inbuffer[0], k - 1);
      assert rest.inbuffer[k - 1 + 1..] == l.inbuffer[k + 1..];
    }
  }

  /** The server's replies to JOIN, already buffered: any NOTICEs, then the
      first other reply. A 366 there fails the join; anything else is followed
      by one more read, whose messages are lost. */
  lemma JoinAfterNotices(l: Link, channel: string, k: nat)
    requires l.conn.Some? && k < |l.inbuffer| && l.inbuffer[k].command != "NOTICE"
    requires Notices(l.inbuffer[..k])
    ensures var sent := l.(conn := Some(l.conn.value.(outbox := l.conn.value.outbox + Terminated("JOIN " + channel))));
            var after := sent.(inbuffer := l.inbuffer[k + 1..]);
            JoinChannel(l, channel)
              == if l.inbuffer[k].command == "366" then Step(Failure(ProtocolViolation(l.inbuffer[k])), after)
                 else var drained := Receive(after, false);
                      Step(if drained.result.Success? then Success(()) else Failure(drained.result.error),
                           drained.link)
  {
    var sent := Send(l, "JOIN " + channel);
    NextFirstMatch(sent.link, Any, 0);
    var first := Next(sent.link, Any);
    if k > 0 {
      assert l.inbuffer[0] == l.inbuffer[..k][0];
      assert first.link.inbuffer[..k - 1] == l.inbuffer[1..k];
      SkipBufferedNotices(first.link, l.inbuffer[0], k - 1);
      assert first.link.inbuffer[k - 1 + 1..] == l.inbuffer[k + 1..];
    }
  }

  /** connect, authenticate, join: what `Client._connect` does once the
      socket is open (lines 171-173). */
  function Startup(l: Link, nick: string, channel: string): (s: Step<()>)
    ensures s.link.conn.Some? == l.conn.Some?
  {
    var hello := Handshake(l, nick);
    if hello.result.Failure? then Step(Failure(hello.result.error), hello.link)
    else JoinChannel(hello.link, channel)
  }
}

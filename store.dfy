/** The memcached operations of `Client` (pyrcmemcached.py:156-232) over the
    session value of module Session: each request is a METADATA line on the
    shared channel, and each reply sequence is checked strictly in order. The
    class in module Memcached runs the same operations in place. */
module Store {
  import opened Base
  import opened Session
  import opened Values

  /** `Client.channel` (line 158): every key lives on this channel. */
  const Channel: string := "#foo"

  // ---------------------------------------------------------------------------
  // Request lines

  /** The request `set` sends (lines 190-195): the payload is the trailing
      parameter. */
  function SetLine(key: string, v: Value): string {
    "METADATA " + Channel + " SET " + key + " :" + Encode(v)
  }

  /** The request `get` sends (lines 204-207). */
  function GetLine(key: string): string {
    "METADATA " + Channel + " GET " + key
  }

  /** The request `delete_multi` sends per key (lines 224-227): a SET with no
      value clears the key. */
  function ClearLine(key: string): string {
    "METADATA " + Channel + " SET " + key
  }

  function ClearLines(keys: seq<string>): seq<string>
  {
    seq(|keys|, i requires 0 <= i < |keys| => ClearLine(keys[i]))
  }

  // ---------------------------------------------------------------------------
  // Reading replies

  /** `m = self.irc.getMessage(); assert m.command == c, m`: the next message,
      which must carry the numeric `c`; any other message is a protocol
      violation, and it is consumed either way. */
  function Expect(l: Link, c: string): (s: Step<Message>)
    ensures SameExceptInbound(l, s.link)
    ensures s.result.Success? ==> s.result.value.command == c
  {
    var got := Next(l, Any);
    match got.result
    case Failure(e) => Step(Failure(e), got.link)
    case Success(m) => if m.command == c then got else Step(Failure(ProtocolViolation(m)), got.link)
  }

  /** With the reply already buffered, `Expect` takes it off the front and
      succeeds exactly when it carries `c`. */
  lemma ExpectBuffered(l: Link, c: string)
    requires l.inbuffer != []
    ensures Expect(l, c)
              == if l.inbuffer[0].command == c
                 then Step(Success(l.inbuffer[0]), l.(inbuffer := l.inbuffer[1..]))
                 else Step(Failure(ProtocolViolation(l.inbuffer[0])), l.(inbuffer := l.inbuffer[1..]))
  {
    NextFirstMatch(l, Any, 0);
  }

  /** The acknowledgement of one METADATA SET: RPL_KEYVALUE (761), then
      RPL_METADATAEND (762). */
  function ExpectPair(l: Link): (s: Step<()>)
    ensures SameExceptInbound(l, s.link)
  {
    var ack := Expect(l, "761");
    if ack.result.Failure? then Step(Failure(ack.result.error), ack.link)
    else
      var end := Expect(ack.link, "762");
      if end.result.Failure? then Step(Failure(end.result.error), end.link)
      else Step(Success(()), end.link)
  }

  /** `n` acknowledgements in a row, the first failure ending the run. */
  function ExpectPairs(l: Link, n: nat): (s: Step<()>)
    ensures SameExceptInbound(l, s.link)
    decreases n
  {
    if n == 0 then Step(Success(()), l)
    else
      var first := ExpectPair(l);
      if first.result.Failure? then first
      else ExpectPairs(first.link, n - 1)
  }

  /** Buffered replies in 761, 762 order. */
  predicate Acknowledgements(ms: seq<Message>, n: nat) {
    && |ms| >= 2 * n
    && forall k :: 0 <= k < 2 * n ==> ms[k].command == (if k % 2 == 0 then "761" else "762")
  }

  /** A buffered 761 then 762 is one acknowledgement; anything else in either
      place fails with that message. */
  lemma ExpectPairBuffered(l: Link)
    requires |l.inbuffer| >= 2
    ensures var ms := l.inbuffer;
            ExpectPair(l)
              == if ms[0].command != "761" then Step(Failure(ProtocolViolation(ms[0])), l.(inbuffer := ms[1..]))
                 else if ms[1].command != "762" then Step(Failure(ProtocolViolation(ms[1])), l.(inbuffer := ms[2..]))
                 else Step(Success(()), l.(inbuffer := ms[2..]))
  {
    ExpectBuffered(l, "761");
    var rest := l.(inbuffer := l.inbuffer[1..]);
    ExpectBuffered(rest, "762");
    assert rest.inbuffer[1..] == l.inbuffer[2..];
  }

  /** `n` buffered acknowledgements in order are taken off the front of the
      inbox, whatever the socket would deliver. */
  lemma {:induction false} ExpectPairsBuffered(l: Link, n: nat)
    requires Acknowledgements(l.inbuffer, n)
    ensures ExpectPairs(l, n) == Step(Success(()), l.(inbuffer := l.inbuffer[2 * n..]))
    decreases n
  {
    if n > 0 {
      ExpectPairBuffered(l);
      var rest := l.(inbuffer := l.inbuffer[2..]);
      assert ExpectPair(l) == Step(Success(()), rest) by {
        assert l.inbuffer[0].command == "761" && l.inbuffer[1].command == "762";
      }
      assert Acknowledgements(rest.inbuffer, n - 1) by {
        forall k | 0 <= k < 2 * (n - 1)
          ensures rest.inbuffer[k].command == (if k % 2 == 0 then "761" else "762")
        {
          assert rest.inbuffer[k] == l.inbuffer[k + 2];
        }
      }
      ExpectPairsBuffered(rest, n - 1);
      assert rest.inbuffer[2 * (n - 1)..] == l.inbuffer[2 * n..];
    }
  }

  // ---------------------------------------------------------------------------
  // set (lines 181-199)

  function StoreValue(l: Link, key: string, v: Value): (s: Step<()>)
    ensures !IsValidKey(key) ==> s == Step(Failure(InvalidKey(key)), l)
    ensures IsValidKey(key) && l.conn.None? ==> s == Step(Failure(Disconnected), l)
    ensures s.link.conn.Some? == l.conn.Some?
    ensures IsValidKey(key) && l.conn.Some? ==> Sent(s.link) == Sent(l) + Terminated(SetLine(key, v))
  {
    if !IsValidKey(key) then Step(Failure(InvalidKey(key)), l)
    else
      var sent := Send(l, SetLine(key, v));
      if sent.result.Failure? then Step(Failure(sent.result.error), sent.link)
      else ExpectPair(sent.link)
  }

  /** With the acknowledgement buffered, `set` succeeds and consumes exactly
      those two replies; a wrong first or second reply fails with it. */
  lemma StoreAcknowledged(l: Link, key: string, v: Value)
    requires l.conn.Some? && IsValidKey(key) && |l.inbuffer| >= 2
    ensures var w := l.conn.value;
            var sent := l.(conn := Some(w.(outbox := w.outbox + Terminated(SetLine(key, v)))));
            var ms := l.inbuffer;
            StoreValue(l, key, v)
              == if ms[0].command != "761" then Step(Failure(ProtocolViolation(ms[0])), sent.(inbuffer := ms[1..]))
                 else if ms[1].command != "762" then Step(Failure(ProtocolViolation(ms[1])), sent.(inbuffer := ms[2..]))
                 else Step(Success(()), sent.(inbuffer := ms[2..]))
  {
    ExpectPairBuffered(Send(l, SetLine(key, v)).link);
  }

  // ---------------------------------------------------------------------------
  // get (lines 201-218)

  /** What `get` makes of its reply: ERR_NOMATCHINGKEY (766) is an absent key;
      otherwise it must be RPL_KEYVALUE (761) naming the key in its second
      parameter, and the fourth parameter is the payload to decode. A missing
      parameter (an IndexError) is a protocol violation like a failed assert. */
  function Interpret(m: Message, key: string): (r: Result<Option<Value>>)
    ensures r == Success(None) <==> m.command == "766"
    ensures r.Success? && r.value.Some? ==>
              m.command == "761" && |m.params| >= 4 && m.params[1] == key
              && DecodeAsWritten(m.params[3]) == Success(r.value.value)
    ensures r.Failure? && r.error.ProtocolViolation? ==> r.error.reply == m
  {
    if m.command == "766" then Success(None)
    else if m.command != "761" || |m.params| < 2 || m.params[1] != key || |m.params| < 4 then
      Failure(ProtocolViolation(m))
    else
      match DecodeAsWritten(m.params[3])
      case Failure(e) => Failure(e)
      case Success(v) => Success(Some(v))
  }

  function FetchValue(l: Link, key: string): (s: Step<Option<Value>>)
    ensures !IsValidKey(key) ==> s == Step(Failure(InvalidKey(key)), l)
    ensures IsValidKey(key) && l.conn.None? ==> s == Step(Failure(Disconnected), l)
    ensures s.link.conn.Some? == l.conn.Some?
    ensures IsValidKey(key) && l.conn.Some? ==> Sent(s.link) == Sent(l) + Terminated(GetLine(key))
  {
    if !IsValidKey(key) then Step(Failure(InvalidKey(key)), l)
    else
      var sent := Send(l, GetLine(key));
      if sent.result.Failure? then Step(Failure(sent.result.error), sent.link)
      else
        var got := Next(sent.link, Any);
        match got.result
        case Failure(e) => Step(Failure(e), got.link)
        case Success(m) => Step(Interpret(m, key), got.link)
  }

  /** With the reply buffered, `get` interprets it and consumes only it: a
      762 that may follow stays in the inbox. */
  lemma FetchBuffered(l: Link, key: string)
    requires l.conn.Some? && IsValidKey(key) && l.inbuffer != []
    ensures var w := l.conn.value;
            var sent := l.(conn := Some(w.(outbox := w.outbox + Terminated(GetLine(key)))));
            FetchValue(l, key) == Step(Interpret(l.inbuffer[0], key), sent.(inbuffer := l.inbuffer[1..]))
  {
    NextFirstMatch(Send(l, GetLine(key)).link, Any, 0);
  }

  /** A 761 reply carrying the key and the payload `set` wrote reads back as
      the value that was set, except that a stored `False` reads back as
      `True` (`bool` of a non-empty text, line 215). */
  lemma FetchStored(m: Message, key: string, v: Value)
    requires m.command == "761" && |m.params| >= 4 && m.params[1] == key && m.params[3] == Encode(v)
    ensures Interpret(m, key) == Success(Some(if v == Bool(false) then Bool(true) else v))
  {
    if v == Bool(false) {
      FalseReadsBackTrue();
    } else {
      EncodeDecodeAsWritten(v);
    }
  }

  // ---------------------------------------------------------------------------
  // delete and delete_multi (lines 220-232)

  /** Every clearing line goes out first, keys unchecked, then one
      acknowledgement per key is read, correlated by order alone. */
  function DeleteKeys(l: Link, keys: seq<string>): (s: Step<()>)
    ensures s.link.conn.Some? == l.conn.Some?
    ensures l.conn.None? && keys != [] ==> s == Step(Failure(Disconnected), l)
    ensures keys == [] ==> s == Step(Success(()), l)
  {
    var sent := SendAll(l, ClearLines(keys));
    if sent.result.Failure? then Step(Failure(sent.result.error), sent.link)
    else ExpectPairs(sent.link, |keys|)
  }

  /** `delete(key)` is `delete_multi([key])`. */
  function Delete(l: Link, key: string): (s: Step<()>)
    ensures s.link.conn.Some? == l.conn.Some?
    ensures l.conn.None? ==> s == Step(Failure(Disconnected), l)
  {
    DeleteKeys(l, [key])
  }

  /** On an open connection every clearing line is written, in key order,
      before any reply is read, and the reads write nothing. */
  lemma DeleteWritesAll(l: Link, keys: seq<string>)
    requires l.conn.Some?
    ensures Sent(DeleteKeys(l, keys).link) == Sent(l) + Lines(ClearLines(keys))
  {
    SendAllWrites(l, ClearLines(keys));
  }

  /** With one acknowledgement per key buffered, `delete_multi` succeeds and
      consumes exactly those replies. */
  lemma DeleteAcknowledged(l: Link, keys: seq<string>)
    requires l.conn.Some? && Acknowledgements(l.inbuffer, |keys|)
    ensures var w := l.conn.value;
            DeleteKeys(l, keys)
              == Step(Success(()), Link(Some(w.(outbox := w.outbox + Lines(ClearLines(keys)))),
                                        l.inbuffer[2 * |keys|..]))
  {
    SendAllWrites(l, ClearLines(keys));
    var w := l.conn.value;
    ExpectPairsBuffered(l.(conn := Some(w.(outbox := w.outbox + Lines(ClearLines(keys))))), |keys|);
  }

}

/** The framing done by `IrcClient.getMessages` (pyrcmemcached.py:71-102), as
    functions of the socket's scripted receive outcomes: chunks are accumulated
    until a chunk ends in CR LF or a receive times out, the data is split on
    CR LF, and every non-empty line is parsed by `parse_message` as written. */
module Framing {
  import opened Base
  import opened Text
  import opened IrcMessage

  /** One outcome of `conn.recv(4096)`: the bytes received (none at all when the
      peer has closed the stream) or a timeout. */
  datatype Recv = Chunk(data: string) | Timeout

  /** The next receive outcome and what remains of the script. A script that has
      run out is a peer that stays silent: its receives time out. */
  function Poll(script: seq<Recv>): (r: (Recv, seq<Recv>))
    ensures script == [] ==> r == (Timeout, [])
    ensures script != [] ==> r == (script[0], script[1..])
  {
    if script == [] then (Timeout, []) else (script[0], script[1..])
  }

  /** How the receive loop (lines 75-95) ends. */
  datatype Gathered =
    | Idle(rest: seq<Recv>)                // line 81: a timeout before any data
    | Closed(rest: seq<Recv>)              // line 89: a zero-length receive
    | Data(data: string, rest: seq<Recv>)  // lines 85 and 92: parse what is buffered

  /** The receive loop, from the data buffered so far. */
  function Gather(script: seq<Recv>, data: string, assertGetOne: bool): (g: Gathered)
    ensures script == [] ==> g == if !assertGetOne && data == "" then Idle([]) else Data(data, [])
    ensures script != [] ==> |g.rest| < |script|
    decreases |script|
  {
    var (got, rest) := Poll(script);
    match got
    case Timeout =>
      if !assertGetOne && data == "" then Idle(rest) else Data(data, rest)
    case Chunk(c) =>
      if c == "" then Closed(rest)
      else if EndsWith(c, CRLF) then Data(data + c, rest)
      else Gather(rest, data + c, assertGetOne)
  }

  /** Lines 96-101: every non-empty line, with its CR LF put back, parsed in
      order; the first line that fails to parse fails the whole batch. */
  function ParseAll(lines: seq<string>): Result<seq<Message>>
  {
    if lines == [] then Success([])
    else if lines[0] == "" then ParseAll(lines[1..])
    else
      var m :- ParseMessageAsWritten(lines[0] + CRLF);
      var ms :- ParseAll(lines[1..]);
      Success([m] + ms)
  }

  /** Messages already parsed, in front of the outcome of parsing the rest. */
  function Prepend(ms: seq<Message>, r: Result<seq<Message>>): Result<seq<Message>>
  {
    match r
    case Failure(e) => Failure(e)
    case Success(rest) => Success(ms + rest)
  }

  function ParseLines(data: string): Result<seq<Message>>
  {
    ParseAll(Split(data, CRLF))
  }

  /** One line of the batch: skipped when empty, otherwise parsed in front of
      the rest. */
  lemma ParseAllStep(lines: seq<string>, i: nat)
    requires i < |lines|
    ensures lines[i] == "" ==> ParseAll(lines[i..]) == ParseAll(lines[i + 1..])
    ensures lines[i] != "" ==>
              var parsed := ParseMessageAsWritten(lines[i] + CRLF);
              ParseAll(lines[i..])
                == if parsed.Failure? then Failure(parsed.error)
                   else Prepend([parsed.value], ParseAll(lines[i + 1..]))
  {
    assert lines[i..][0] == lines[i] && lines[i..][1..] == lines[i + 1..];
  }


  lemma PrependTwice(ms: seq<Message>, m: Message, r: Result<seq<Message>>)
    ensures Prepend(ms, Prepend([m], r)) == Prepend(ms + [m], r)
  {
    if r.Success? {
      assert ms + ([m] + r.value) == ms + [m] + r.value;
    }
  }

  /** One step of reading a batch line by line: `ms` holds the messages of
      the lines before `i`. A line that does not parse fails the batch with
      its error; one that parses joins the messages read. */
  lemma BatchStep(lines: seq<string>, i: nat, ms: seq<Message>)
    requires i < |lines| && lines[i] != ""
    requires ParseAll(lines) == Prepend(ms, ParseAll(lines[i..]))
    ensures var parsed := ParseMessageAsWritten(lines[i] + CRLF);
            && (parsed.Failure? ==> ParseAll(lines) == Failure(parsed.error))
            && (parsed.Success? ==> ParseAll(lines) == Prepend(ms + [parsed.value], ParseAll(lines[i + 1..])))
  {
    ParseAllStep(lines, i);
    var parsed := ParseMessageAsWritten(lines[i] + CRLF);
    if parsed.Success? {
      PrependTwice(ms, parsed.value, ParseAll(lines[i + 1..]));
    }
  }

  /** Nothing read in front of a result leaves it as it is. */
  lemma PrependNothing(r: Result<seq<Message>>)
    ensures Prepend([], r) == r
  {
    if r.Success? {
      assert [] + r.value == r.value;
    }
  }

  /** What one call of getMessages returns, and the script left after it. */
  datatype Read = Read(result: Result<seq<Message>>, rest: seq<Recv>)

  function ReadMessages(script: seq<Recv>, assertGetOne: bool): (r: Read)
    ensures script == [] ==> r == Read(Success([]), [])
    ensures script != [] ==> |r.rest| < |script|
  {
    ParseLinesEmpty();
    match Gather(script, "", assertGetOne)
    case Idle(rest) => Read(Success([]), rest)
    case Closed(rest) => Read(Failure(ConnectionClosed), rest)
    case Data(data, rest) => Read(ParseLines(data), rest)
  }

  // ---------------------------------------------------------------------------
  // Accumulation

  /** A chunk after which the loop keeps receiving. */
  predicate Partial(c: string) {
    c != "" && !EndsWith(c, CRLF)
  }

  function Chunks(cs: seq<string>): seq<Recv>
  {
    if cs == [] then [] else [Chunk(cs[0])] + Chunks(cs[1..])
  }

  function Concat(cs: seq<string>): string
  {
    if cs == [] then "" else cs[0] + Concat(cs[1..])
  }

  /** Partial chunks are accumulated in order; the loop then stops at the first
      outcome that is not a partial chunk: a chunk ending in CR LF (kept), a
      zero-length receive (the call fails), or a timeout. */
  lemma {:induction false} GatherUntil(cs: seq<string>, last: Recv, rest: seq<Recv>, data: string,
                                       assertGetOne: bool)
    requires forall k :: 0 <= k < |cs| ==> Partial(cs[k])
    ensures last.Chunk? && EndsWith(last.data, CRLF) ==>
              Gather(Chunks(cs) + [last] + rest, data, assertGetOne)
                == Data(data + Concat(cs) + last.data, rest)
    ensures last == Chunk("") ==>
              Gather(Chunks(cs) + [last] + rest, data, assertGetOne) == Closed(rest)
    ensures last == Timeout ==>
              Gather(Chunks(cs) + [last] + rest, data, assertGetOne)
                == if !assertGetOne && data + Concat(cs) == "" then Idle(rest)
                   else Data(data + Concat(cs), rest)
  {
    if cs == [] {
      assert Chunks(cs) + [last] + rest == [last] + rest;
    } else {
      GatherUntil(cs[1..], last, rest, data + cs[0], assertGetOne);
      assert Chunks(cs) + [last] + rest == [Chunk(cs[0])] + (Chunks(cs[1..]) + [last] + rest);
      assert data + cs[0] + Concat(cs[1..]) == data + Concat(cs);
    }
  }

  lemma {:induction false} GatherFlag(script: seq<Recv>, data: string)
    ensures Gather(script, data, false) == Gather(script, data, true)
            || (Gather(script, data, false).Idle? && data == ""
                && Gather(script, data, true) == Data("", Gather(script, data, false).rest))
    decreases |script|
  {
    var (got, rest) := Poll(script);
    if got.Chunk? && Partial(got.data) {
      GatherFlag(rest, data + got.data);
      assert data + got.data != "";
    }
  }

  /** Empty data holds no message. */
  lemma ParseLinesEmpty()
    ensures ParseLines("") == Success([])
  {
    assert Split("", CRLF) == [""];
    assert ParseAll([""]) == ParseAll([]);
  }

  /** `assert_get_one` makes no difference to what getMessages returns or
      consumes: a timeout with nothing buffered yields no message either way. */
  lemma ReadFlagIrrelevant(script: seq<Recv>)
    ensures ReadMessages(script, true) == ReadMessages(script, false)
  {
    GatherFlag(script, "");
    ParseLinesEmpty();
  }

  // ---------------------------------------------------------------------------
  // Splitting and parsing

  /** The parsed batch is the parse of each non-empty line, in order; it fails
      exactly when some non-empty line fails to parse. */
  lemma ParseAllLines(lines: seq<string>)
    ensures ParseAll(lines).Success? <==>
              forall k :: 0 <= k < |NonEmpty(lines)| ==> ParseMessageAsWritten(NonEmpty(lines)[k] + CRLF).Success?
    ensures ParseAll(lines).Success? ==>
              |ParseAll(lines).value| == |NonEmpty(lines)|
              && forall k :: 0 <= k < |NonEmpty(lines)| ==>
                   ParseAll(lines).value[k] == ParseMessageAsWritten(NonEmpty(lines)[k] + CRLF).value
  {
    ParseAllEach(lines);
  }

  /** The two conclusions of `ParseAllLines`, gathered for the induction. */
  ghost predicate ReadsEach(lines: seq<string>)
  {
    && (ParseAll(lines).Success? <==>
          forall k :: 0 <= k < |NonEmpty(lines)| ==> ParseMessageAsWritten(NonEmpty(lines)[k] + CRLF).Success?)
    && (ParseAll(lines).Success? ==>
          |ParseAll(lines).value| == |NonEmpty(lines)|
          && forall k :: 0 <= k < |NonEmpty(lines)| ==>
               ParseAll(lines).value[k] == ParseMessageAsWritten(NonEmpty(lines)[k] + CRLF).value)
  }

  lemma {:induction false} ParseAllEach(lines: seq<string>)
    ensures ReadsEach(lines)
  {
    if lines != [] {
      ParseAllEach(lines[1..]);
      if lines[0] == "" {
        assert NonEmpty(lines) == NonEmpty(lines[1..]);
      } else {
        ParseAllCons(lines);
      }
    }
  }

  /** One inductive step: a non-empty first line in front of lines that are
      read one by one. */
  lemma ParseAllCons(lines: seq<string>)
    requires lines != [] && lines[0] != "" && ReadsEach(lines[1..])
    ensures ReadsEach(lines)
  {
    var ne, tail := NonEmpty(lines), NonEmpty(lines[1..]);
    assert ne == [lines[0]] + tail;
    if ParseMessageAsWritten(lines[0] + CRLF).Failure? {
      assert ne[0] == lines[0];
    } else if ParseAll(lines[1..]).Failure? {
      ConsFailsLater(lines[0], lines[1..]);
    } else {
      ConsSucceeds(lines[0], lines[1..]);
    }
  }

  /** A later line that does not parse fails the whole batch. */
  lemma ConsFailsLater(line: string, rest: seq<string>)
    requires line != "" && ReadsEach(rest) && ParseAll(rest).Failure?
    ensures var ne := NonEmpty([line] + rest);
            ParseAll([line] + rest).Failure?
            && exists k :: 0 <= k < |ne| && !ParseMessageAsWritten(ne[k] + CRLF).Success?
  {
    var lines, tail := [line] + rest, NonEmpty(rest);
    assert lines[1..] == rest;
    assert NonEmpty(lines) == [line] + tail;
    var k :| 0 <= k < |tail| && !ParseMessageAsWritten(tail[k] + CRLF).Success?;
    assert NonEmpty(lines)[k + 1] == tail[k];
  }

  /** A first line that parses in front of a batch that parses. */
  lemma ConsSucceeds(line: string, rest: seq<string>)
    requires line != "" && ReadsEach(rest) && ParseAll(rest).Success?
    requires ParseMessageAsWritten(line + CRLF).Success?
    ensures ReadsEach([line] + rest)
  {
    var lines, tail := [line] + rest, NonEmpty(rest);
    assert lines[1..] == rest;
    var ne, first, vs := NonEmpty(lines), ParseMessageAsWritten(line + CRLF), ParseAll(rest).value;
    assert ne == [line] + tail;
    var v := [first.value] + vs;
    assert ParseAll(lines) == Success(v);
    forall k | 0 <= k < |ne|
      ensures ParseMessageAsWritten(ne[k] + CRLF).Success? && v[k] == ParseMessageAsWritten(ne[k] + CRLF).value
    {
      if k > 0 {
        assert ne[k] == tail[k - 1] && v[k] == vs[k - 1];
      }
    }
  }



  /** A message that can travel on one line and that `parse_message` reads
      back: well formed, no CR LF inside, and no " :" in a trailing parameter
      (the unpack of line 36 rejects a second one). */
  predicate Transmittable(m: Message) {
    && WellFormed(m) && !Contains(FormatBody(m), CRLF)
    && (m.params == [] || !Contains(m.params[|m.params| - 1], Mark))
  }

  function Formats(ms: seq<Message>): string
  {
    if ms == [] then "" else Format(ms[0]) + Formats(ms[1..])
  }

  /** The lines of several messages written back to back parse to those
      messages. */
  lemma {:induction false} ParseFormats(ms: seq<Message>)
    requires forall k :: 0 <= k < |ms| ==> Transmittable(ms[k])
    ensures ParseLines(Formats(ms)) == Success(ms)
  {
    if ms == [] {
      ParseLinesEmpty();
    } else {
      var body, rest := FormatBody(ms[0]), Formats(ms[1..]);
      assert Formats(ms) == body + CRLF + rest;
      IndexAfter(body, CRLF, rest);
      SplitAfter(body, CRLF, rest);
      ParseFormats(ms[1..]);
      TransmittableReadsBack(ms[0]);
      FormatBodyNonEmpty(ms[0]);
      ParseAllFront(body, Split(rest, CRLF), ms[0]);
      assert [ms[0]] + ms[1..] == ms;
    }
  }

  /** `parse_message` reads a transmittable message's line back as it. */
  lemma TransmittableReadsBack(m: Message)
    requires Transmittable(m)
    ensures ParseMessageAsWritten(Format(m)) == Success(m)
  {
    FormatParse(m);
    FormatAsWrittenAgrees(m);
  }

  /** A well-formed message's line is never blank. */
  lemma FormatBodyNonEmpty(m: Message)
    requires WellFormed(m)
    ensures FormatBody(m) != ""
  {
    var head := Join(Head(m), " ");
    JoinStartsWith(Head(m), " ");
    assert FormatBody(m)[..|head|] == head;
  }

  /** A non-empty line that parses goes in front of the rest of the batch. */
  lemma ParseAllFront(line: string, lines: seq<string>, m: Message)
    requires line != "" && ParseMessageAsWritten(line + CRLF) == Success(m)
    ensures ParseAll([line] + lines) == Prepend([m], ParseAll(lines))
  {
    assert ([line] + lines)[1..] == lines;
  }


  /** Framing delivers exactly the messages the peer wrote, however their lines
      were cut into chunks, provided only the last chunk ends in CR LF: one
      packet may carry several lines and one line may span several packets. */
  lemma FramingRoundTrip(ms: seq<Message>, cs: seq<string>, c: string, rest: seq<Recv>,
                         assertGetOne: bool)
    requires forall k :: 0 <= k < |ms| ==> Transmittable(ms[k])
    requires forall k :: 0 <= k < |cs| ==> Partial(cs[k])
    requires EndsWith(c, CRLF) && Concat(cs) + c == Formats(ms)
    ensures ReadMessages(Chunks(cs) + [Chunk(c)] + rest, assertGetOne) == Read(Success(ms), rest)
  {
    ReadComplete(cs, c, rest, assertGetOne);
    ParseFormats(ms);
  }

  /** The other side of the round trip: a message whose trailing parameter
      holds " :" makes the whole read fail, as `parse_message` raises on it,
      and the outcomes after its chunk stay unread. */
  lemma TrailingMarkRejected(m: Message, rest: seq<Recv>, assertGetOne: bool)
    requires WellFormed(m) && !Contains(FormatBody(m), CRLF)
    requires m.params != [] && Contains(m.params[|m.params| - 1], Mark)
    ensures var r := ReadMessages([Chunk(Format(m))] + rest, assertGetOne);
            r.rest == rest && r.result.Failure?
  {
    var body := FormatBody(m);
    FormatBodyNonEmpty(m);
    OneLineBatch(body);
    FormatAsWrittenFails(m);
    assert EndsWith(Format(m), CRLF) by {
      assert Format(m)[|body|..] == CRLF;
    }
    ReadOneChunk(Format(m), rest, assertGetOne);
  }

  /** Data holding one non-empty line is read as that line's message, or
      fails with its error. */
  lemma OneLineBatch(body: string)
    requires body != "" && !Contains(body, CRLF)
    ensures var parsed := ParseMessageAsWritten(body + CRLF);
            ParseLines(body + CRLF)
              == if parsed.Failure? then Failure(parsed.error) else Success([parsed.value])
  {
    IndexAfter(body, CRLF, "");
    SplitAfter(body, CRLF, "");
    assert body + CRLF + "" == body + CRLF;
    assert Split("", CRLF) == [""];
    var lines := [body, ""];
    assert Split(body + CRLF, CRLF) == lines;
    assert [""][1..] == [];
    assert lines[1..] == [""] && ParseAll(lines[1..]) == Success([]);
    var parsed := ParseMessageAsWritten(body + CRLF);
    if parsed.Success? {
      assert ParseAll(lines) == Success([parsed.value] + []);
      assert [parsed.value] + [] == [parsed.value];
    }
  }

  /** A single chunk ending in CR LF is read as the parse of its data. */
  lemma ReadOneChunk(c: string, rest: seq<Recv>, assertGetOne: bool)
    requires EndsWith(c, CRLF)
    ensures ReadMessages([Chunk(c)] + rest, assertGetOne) == Read(ParseLines(c), rest)
  {
    ReadComplete([], c, rest, assertGetOne);
    assert Chunks([]) + [Chunk(c)] + rest == [Chunk(c)] + rest;
    assert Concat([]) + c == c;
  }


  /** A run of partial chunks closed by a chunk ending in CR LF is read as one
      batch: the parse of their concatenation. */
  lemma ReadComplete(cs: seq<string>, c: string, rest: seq<Recv>, assertGetOne: bool)
    requires forall k :: 0 <= k < |cs| ==> Partial(cs[k])
    requires EndsWith(c, CRLF)
    ensures ReadMessages(Chunks(cs) + [Chunk(c)] + rest, assertGetOne)
              == Read(ParseLines(Concat(cs) + c), rest)
  {
    var script := Chunks(cs) + [Chunk(c)] + rest;
    GatherComplete(cs, c, rest, assertGetOne);
    ReadData(script, assertGetOne, Concat(cs) + c, rest);
  }

  lemma GatherComplete(cs: seq<string>, c: string, rest: seq<Recv>, assertGetOne: bool)
    requires forall k :: 0 <= k < |cs| ==> Partial(cs[k])
    requires EndsWith(c, CRLF)
    ensures Gather(Chunks(cs) + [Chunk(c)] + rest, "", assertGetOne) == Data(Concat(cs) + c, rest)
  {
    GatherUntil(cs, Chunk(c), rest, "", assertGetOne);
    assert "" + Concat(cs) + c == Concat(cs) + c;
  }

  lemma ReadData(script: seq<Recv>, assertGetOne: bool, data: string, rest: seq<Recv>)
    requires Gather(script, "", assertGetOne) == Data(data, rest)
    ensures ReadMessages(script, assertGetOne) == Read(ParseLines(data), rest)
  {
  }
}

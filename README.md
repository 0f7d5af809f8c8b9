# pyrcmemcached in Dafny

pyrcmemcached is a memcached-style key/value client. Its store is the
METADATA of one IRC channel (`#foo`). `set`, `get` and `delete` become
`METADATA` commands sent over one IRC connection, and the numeric replies
761 (RPL_KEYVALUE), 762 (RPL_METADATAEND) and 766 (ERR_NOMATCHINGKEY) are
checked strictly in order. This project models the client's core in
`pyrcmemcached.py`:

- `parse_message`: the line grammar of section 2.3.1 of RFC 1459, with the
  tag prefix of IRCv3 message-tags 3.2 dropped (module `IrcMessage`).
- The framing done by `getMessages`: receives accumulate until a chunk ends in
  CR LF or a receive times out, and every non-empty line is parsed (module
  `Framing`).
- `IrcClient`: its connection, its FIFO inbox, `getMessage`, `sendLine`, the
  `authenticate` handshake (capability listing, ISUPPORT check, PING/PONG)
  and `join`.
- The `Client` facade: the key alphabet, the `type:value` payload encoding, the
  host/port split, `set`, `get`, `delete` and `delete_multi`.

The project has two layers.

- **Values.** Modules `Session` and `Store` hold the client's state as a value:
  `Link`, the connection (if any) plus the inbox. Every operation is a
  function from a `Link` to a result and a new `Link`.
- **Classes.** The socket and the connection are modelled in place.
  `Connection.Socket` holds the scripted receive outcomes still to come and
  every byte written so far. `Connection.IrcClient` and `Memcached.Client`
  have the source's fields and run the source's loops as `while` loops. Each
  of their methods is proved equal to its function, read on the state before
  and after (`Snapshot`). What the source promises is proved as lemmas about
  those functions. Only `disconnect` may close the socket: every other
  method's frame covers just the socket's script and its written bytes.

The peer is modelled as a script of receive outcomes:

- `Chunk(data)`: bytes arrive.
- `Chunk("")`: the peer closed the stream.
- `Timeout`: nothing arrived. A script that has run out behaves the same way.

The client's operations use `parse_message` and the payload decoding as the
code writes them (`IrcMessage.ParseMessageAsWritten`,
`Values.DecodeAsWritten`). The two places where the code departs from what it
evidently intends are listed under "## Findings". For each, a corrected
definition (`IrcMessage.ParseMessage`, `Values.Decode`) is stated beside the
code's own, with the intended round trip proved about it.

Python exceptions become `Failure` values of `Base.Error`:

- A failed `assert` on a reply, or an `IndexError` on a reply that is too
  short, is `ProtocolViolation(m)`.
- A `ValueError` in decoding is `BadValue`.
- A `ValueError` in address splitting is `BadAddress`.

## Model

| member | source | states |
|---|---|---|
| IrcMessage.FromTokens | pyrcmemcached.py:40-51 | the tokens succeed as a message exactly when there is a command after the optional `:prefix`; the message's prefix/command/params layout is the token list, tags are empty, and a failure is `Malformed` |
| IrcMessage.ParseMessageAsWritten | pyrcmemcached.py:26-51 | `parse_message` as written: a line not ending in CR LF is rejected; a parsed message carries no tags |
| IrcMessage.ParseMessage | pyrcmemcached.py:26-51 | the corrected parser (trailing parameter after the first " :"): same rejection of unterminated lines, tags always empty |
| IrcMessage.TagsNeedSpace | pyrcmemcached.py:33-34 | an `@tags` segment with no space after it makes both parsers fail |
| IrcMessage.ParsePlainLine | pyrcmemcached.py:38-45 | with no " :", both parsers agree, succeed exactly when the line has a word (two when the first is a prefix), and the tokens are its space-separated words |
| IrcMessage.ParseOneMark | pyrcmemcached.py:35-37 | with exactly one " :", both parsers agree and the last parameter is the text after it, verbatim |
| IrcMessage.ParseFirstMark | pyrcmemcached.py:35-37 | the corrected parser takes the words before the first " :" and everything after it as the trailing parameter |
| IrcMessage.ParseTwoMarksFails | pyrcmemcached.py:35-36 | as written, a second " :" anywhere makes the line fail |
| IrcMessage.EmptyCommandAccepted | pyrcmemcached.py:35-44 | the line " :" parses as a message with an empty command |
| IrcMessage.NoSpaceNoMark | pyrcmemcached.py:35 | a word without spaces holds no " :" |
| IrcMessage.NoMarkInJoin | pyrcmemcached.py:35 | words joined by single spaces hold no " :" when no word but the first starts with `:` |
| IrcMessage.HeadWords | pyrcmemcached.py:37-39 | every head token of a well-formed message is one word, and none but the first starts with `:` |
| IrcMessage.FormatTokens | pyrcmemcached.py:35-39 | the corrected tokeniser reads a well-formed message's line as the message's layout |
| IrcMessage.TrailingTokens | pyrcmemcached.py:35-37 | the corrected tokeniser splits a head free of " :", the mark and a trailing parameter into the head's words and that parameter, verbatim |
| IrcMessage.FormatNoTags | pyrcmemcached.py:33-34 | a well-formed message's line has no tag segment |
| IrcMessage.FormatParse | pyrcmemcached.py:26-51 | the corrected parser reads the line written for a well-formed message back as that message |
| IrcMessage.FormatParseAsWritten | pyrcmemcached.py:35-37 | as written, that round trip holds exactly when the last parameter holds no " :" |
| IrcMessage.FormatAsWrittenAgrees | pyrcmemcached.py:35-37 | when the last parameter holds no " :", both parsers read a well-formed message's line the same way |
| IrcMessage.FormatAsWrittenFails | pyrcmemcached.py:35-36 | when it does, the parser as written rejects the line |
| IrcMessage.LayoutDetermines | pyrcmemcached.py:40-51 | a tag-free message is determined by its layout and whether it has a prefix |
| IrcMessage.SingleWordLine | pyrcmemcached.py:39-45 | a one-word line is a bare command, for the parser as written and the corrected one |
| IrcMessage.TrailingMarkExample | pyrcmemcached.py:36 | the line for `PRIVMSG #c :a :b` reads back with the corrected parser and fails as written |
| Framing.Poll | pyrcmemcached.py:77 | a receive takes the next scripted outcome; an exhausted script times out |
| Framing.Gather | pyrcmemcached.py:75-95 | with the script exhausted, the loop ends idle (nothing buffered, no insistence) or with the buffered data; otherwise every call consumes at least one outcome |
| Framing.ParseAllStep | pyrcmemcached.py:96-101 | an empty line is skipped; a non-empty one is read by `parse_message` as written, and its error ends the batch or its message goes in front of the rest |
| Framing.BatchStep | pyrcmemcached.py:98-101 | with the lines before `i` read, a non-empty line that `parse_message` as written rejects fails the batch with its error, and one it accepts is appended to the messages read |
| Framing.PrependTwice | pyrcmemcached.py:101 | appending parsed messages one by one keeps their order |
| Framing.ReadMessages | pyrcmemcached.py:71-102 | an exhausted script yields no message and leaves nothing; otherwise a read consumes at least one outcome |
| Framing.GatherUntil | pyrcmemcached.py:75-95 | partial chunks accumulate in order until a chunk ending in CR LF (kept), a zero-length receive (Closed) or a timeout (Idle only when nothing is buffered and `assert_get_one` is off) |
| Framing.GatherFlag | pyrcmemcached.py:78-85 | `assert_get_one` only turns an idle end with nothing buffered into an empty data end |
| Framing.ParseLinesEmpty | pyrcmemcached.py:96-97 | empty data holds no message |
| Framing.ReadFlagIrrelevant | pyrcmemcached.py:78-85 | `assert_get_one` changes neither the messages returned nor the outcomes consumed |
| Framing.ParseAllLines | pyrcmemcached.py:96-101 | a batch succeeds exactly when `parse_message` as written accepts every non-empty line, and then holds one message per non-empty line, in order |
| Framing.ParseFormats | pyrcmemcached.py:96-101 | the lines of several transmittable messages (no " :" in a trailing parameter) written back to back are read back as those messages |
| Framing.FormatBodyNonEmpty | pyrcmemcached.py:97-98 | the line written for a well-formed message is never blank, so it is never skipped |
| Framing.ParseAllFront | pyrcmemcached.py:98-101 | a non-empty line that `parse_message` accepts goes in front of the messages of the lines after it |
| Framing.TransmittableReadsBack | pyrcmemcached.py:26-51 | `parse_message` as written reads a transmittable message's line back as that message |
| Framing.OneLineBatch | pyrcmemcached.py:96-101 | data holding one non-empty line is that line's message, or fails with the error `parse_message` raises |
| Framing.FramingRoundTrip | pyrcmemcached.py:71-102 | transmittable messages sent in partial chunks ending with a CR LF-terminated chunk are read back in one call, and the rest of the script is untouched |
| Framing.TrailingMarkRejected | pyrcmemcached.py:71-102 | a message whose trailing parameter holds " :" makes getMessages fail, and the outcomes after its chunk stay unread |
| Framing.ReadOneChunk | pyrcmemcached.py:75-102 | a single chunk ending in CR LF is read as the parse of its data, and the rest of the script is untouched |
| Framing.ReadComplete | pyrcmemcached.py:75-102 | a run of partial chunks closed by a CR LF chunk is read as the parse, by `parse_message` as written, of their concatenation |
| Framing.GatherComplete | pyrcmemcached.py:75-92 | such a run is gathered as the concatenation of its chunks |
| Framing.ReadData | pyrcmemcached.py:96-102 | gathered data is parsed line by line with `parse_message` as written, and the script left is what the loop left |
| Session.Disconnect | pyrcmemcached.py:64-70 | the connection is gone and the inbox kept |
| Session.DisconnectIdempotent | pyrcmemcached.py:65-66 | disconnecting twice is disconnecting once, and with no connection it changes nothing |
| Session.Receive | pyrcmemcached.py:71-102 | getMessages leaves the inbox and the bytes written alone, fails with NoSocket without a connection, and uses up a scripted outcome when it returns a message |
| Session.Next | pyrcmemcached.py:103-111 | getMessage writes nothing, returns only a message its filter accepts, and consumes an outcome or an inbox entry to do so |
| Session.NextFirstMatch | pyrcmemcached.py:104-111 | the first buffered match is returned; it and the messages before it leave the inbox, and later ones stay in order |
| Session.NextSkipsAll | pyrcmemcached.py:109-111 | with no buffered match, every buffered message is dropped before a refill |
| Session.NextRefills | pyrcmemcached.py:105-108 | with an empty inbox, a blocking read becomes the new inbox; a read that brings nothing fails with NoMessage |
| Session.NextSilent | pyrcmemcached.py:105-108 | an empty inbox and a silent peer make getMessage fail and change nothing |
| Session.Await | pyrcmemcached.py:139-140 | reading on until command `c` writes nothing and returns a message with command `c` |
| Session.AwaitIsNext | pyrcmemcached.py:139-140 | spinning on getMessage until command `c` gives the same message and state as getMessage filtered on `c` |
| Session.AwaitFromBuffer | pyrcmemcached.py:139-140 | with the inbox non-empty, one unfiltered read followed by that loop is the filtered read |
| Session.Terminated | pyrcmemcached.py:112-119 | what sendLine writes always ends in CR LF, and CR LF is added only when the line lacks it |
| Session.Send | pyrcmemcached.py:112-119 | without a connection sendLine raises Disconnected and changes nothing; with one it appends exactly the terminated line |
| Session.SendAll | pyrcmemcached.py:124-126 | several sendLine calls keep the inbox and the connection, and succeed on an open connection |
| Session.SendAllWrites | pyrcmemcached.py:124-126 | on an open connection every line goes out terminated and in order; without one nothing is written |
| Session.SendOpenWrites | pyrcmemcached.py:112-116 | on an open connection a line goes out terminated, after everything already written |
| Session.AwaitCaps | pyrcmemcached.py:128-137 | the listing loop writes nothing, ends only on a final `CAP * LS` reply, and extends the capabilities gathered so far |
| Session.ClassifyCap | pyrcmemcached.py:131-137 | a reply is skipped exactly when it is not a CAP reply or its second parameter is not `LS`; the listing ends only on a `CAP * LS` reply whose third parameter is not `*` |
| Session.Negotiate | pyrcmemcached.py:124-138 | negotiation fails with Disconnected on no connection and otherwise keeps it; success means a final `CAP * LS` reply arrived |
| Session.NegotiateOpen | pyrcmemcached.py:124-138 | on an open connection negotiation is the opening lines, the listing loop, and `CAP END` only when the listing completed |
| Session.NegotiateWrites | pyrcmemcached.py:124-138 | the three opening lines always go out, and `CAP END` follows exactly when negotiation succeeded |
| Session.CheckFeatures | pyrcmemcached.py:139-142 | a successful check stops on a 005 reply that advertises METADATA between its first and last parameters |
| Session.PingPong | pyrcmemcached.py:144-146 | `PING` is written, and a successful wait returns a PONG |
| Session.Handshake | pyrcmemcached.py:123-146 | authenticate keeps the connection state and fails with Disconnected when there is none |
| Session.SendThree | pyrcmemcached.py:124-126 | three sendLine calls are SendAll of the three lines |
| Session.OpeningLines | pyrcmemcached.py:124-126 | the opening bytes are the three terminated lines, in order |
| Session.HandshakeOpens | pyrcmemcached.py:123-126 | on an open connection authenticate's first bytes are the opening lines, whatever the server says |
| Session.HandshakeTail | pyrcmemcached.py:123-146 | on an open connection everything authenticate writes comes after the opening lines |
| Session.NegotiatedOnly | pyrcmemcached.py:138-142 | a handshake stopped by the ISUPPORT check has written the opening lines and `CAP END`, and no `PING` |
| Session.HandshakeWrites | pyrcmemcached.py:123-146 | once negotiation and the ISUPPORT check have passed, authenticate has written exactly the opening lines, `CAP END` and `PING`, whether or not a PONG comes |
| Session.HandshakeSucceeded | pyrcmemcached.py:123-146 | a handshake that succeeds has written exactly the opening lines, `CAP END` and `PING` |
| Session.MetadataAdvertised | pyrcmemcached.py:141 | a bare `METADATA` token, or one with a value, in a middle parameter is enough |
| Session.MetadataIgnoresEnds | pyrcmemcached.py:141 | the first and last parameters never count, so a reply with no middle parameter never advertises METADATA |
| Session.SkipNotices | pyrcmemcached.py:151-152 | skipping NOTICEs writes nothing and returns a message that is not a NOTICE |
| Session.JoinChannel | pyrcmemcached.py:148-154 | join fails with Disconnected on no connection and otherwise keeps it |
| Session.SkipBufferedNotices | pyrcmemcached.py:150-152 | buffered NOTICEs before the real reply are consumed and that reply is returned |
| Session.JoinAfterNotices | pyrcmemcached.py:148-154 | with the replies buffered, `JOIN` is written, a 366 fails the join, and anything else is followed by one non-blocking read whose messages are dropped |
| Session.Startup | pyrcmemcached.py:171-173 | authenticate then join keeps the connection state |
| Connection.Socket.Receive | pyrcmemcached.py:77 | a receive takes the next scripted outcome off the socket |
| Connection.Socket.Write | pyrcmemcached.py:115 | `sendall` appends every byte, in order |
| Connection.Socket.Close | pyrcmemcached.py:69 | the socket is closed |
| Connection.ParseBatch | pyrcmemcached.py:96-101 | the parsing loop, which calls `parse_message` as written, returns the batch the framing specification gives |
| Connection.IrcClient.Disconnect | pyrcmemcached.py:64-70 | the new state is `Session.Disconnect` of the old one, and an open socket is closed |
| Connection.IrcClient.Attach | pyrcmemcached.py:58-61 | `connect` leaves the client on the new socket with the given nick |
| Connection.IrcClient.ReceiveData | pyrcmemcached.py:75-95 | the receive loop returns what `Framing.Gather` gives and leaves the socket where it says |
| Connection.IrcClient.GetMessages | pyrcmemcached.py:71-102 | result and new state are `Session.Receive` of the old state |
| Connection.IrcClient.GetMessage | pyrcmemcached.py:103-111 | result and new state are `Session.Next` of the old state |
| Connection.IrcClient.SendLine | pyrcmemcached.py:112-119 | result and new state are `Session.Send` of the old state |
| Connection.IrcClient.AwaitCapList | pyrcmemcached.py:128-137 | result and new state are `Session.AwaitCaps` from no capabilities |
| Connection.IrcClient.SendOpening | pyrcmemcached.py:124-126 | result and new state are `Session.SendAll` of the three opening lines |
| Connection.IrcClient.WaitFor | pyrcmemcached.py:139-140 | result and new state are `Session.Await` |
| Connection.IrcClient.OpenNegotiation | pyrcmemcached.py:124-138 | result and new state are `Session.Negotiate` |
| Connection.IrcClient.RequireMetadata | pyrcmemcached.py:139-142 | result and new state are `Session.CheckFeatures` |
| Connection.IrcClient.Ping | pyrcmemcached.py:144-146 | result and new state are `Session.PingPong` |
| Connection.IrcClient.Authenticate | pyrcmemcached.py:123-146 | result and new state are `Session.Handshake` |
| Connection.IrcClient.Join | pyrcmemcached.py:148-154 | result and new state are `Session.JoinChannel` |
| Values.IsValidKey | pyrcmemcached.py:15-17 | a key is valid exactly when every character is a letter, a digit, `_`, `.` or `:` |
| Values.ValidKeyConcat | pyrcmemcached.py:15-17 | the empty key is valid, and a concatenation is valid exactly when both parts are |
| Values.ValidKeyIsOneWord | pyrcmemcached.py:15-17 | a valid key holds no space, so it stays one parameter of the request |
| Values.TypeTag | pyrcmemcached.py:184-189 | the type tag is non-empty and holds no colon |
| Values.DecodeAsWritten | pyrcmemcached.py:213-218 | the decoding as written; a payload without a colon is a ValueError |
| Values.Decode | pyrcmemcached.py:213-218 | the corrected decoding; a payload without a colon is a ValueError |
| Values.SplitPayload | pyrcmemcached.py:213 | a payload splits at the colon after its tag, whatever the value's text holds |
| Values.EncodeDecode | pyrcmemcached.py:184-218 | every value reads back as itself with the corrected decoding |
| Values.EncodeDecodeAsWritten | pyrcmemcached.py:184-218 | as written, every value except `False` reads back as itself |
| Values.FalseReadsBackTrue | pyrcmemcached.py:215 | as written a stored `False` reads back as `True`; corrected it reads back as `False` |
| Values.UnknownTagKeepsText | pyrcmemcached.py:213-218 | an unknown tag yields the text after the colon under both decodings |
| Values.LastIndex | pyrcmemcached.py:170 | the position found holds the character and no later one does; none found means the character is absent |
| Values.SplitAddress | pyrcmemcached.py:170-171 | an address without a colon is a ValueError |
| Values.SplitAddressRoundTrip | pyrcmemcached.py:170-171 | `host:port` splits back into that host and port, even when the host holds colons |
| Store.Expect | pyrcmemcached.py:196-199 | reading a reply writes nothing and succeeds only with the expected numeric |
| Store.ExpectBuffered | pyrcmemcached.py:196-199 | a buffered reply is consumed, and the read succeeds exactly when it carries the expected numeric; otherwise it fails with that reply |
| Store.ExpectPair | pyrcmemcached.py:196-199 | reading one acknowledgement writes nothing |
| Store.ExpectPairs | pyrcmemcached.py:228-232 | reading the acknowledgements writes nothing |
| Store.ExpectPairBuffered | pyrcmemcached.py:228-232 | a buffered 761 then 762 is one acknowledgement; a wrong reply in either place fails with that reply |
| Store.ExpectPairsBuffered | pyrcmemcached.py:228-232 | `n` buffered acknowledgements are consumed in order and nothing is received |
| Store.StoreValue | pyrcmemcached.py:181-199 | an invalid key fails before anything is written; on an open connection exactly the SET line is written |
| Store.StoreAcknowledged | pyrcmemcached.py:190-199 | with two replies buffered, `set` succeeds exactly on 761 then 762 and consumes exactly those two; otherwise it fails with the offending reply |
| Store.Interpret | pyrcmemcached.py:208-218 | the reply means "absent" exactly when it is 766; a value is returned only from a 761 naming the key, decoded from its fourth parameter as the code decodes it (`bool` of the text) |
| Store.FetchValue | pyrcmemcached.py:201-218 | an invalid key fails before anything is written; on an open connection exactly the GET line is written |
| Store.FetchBuffered | pyrcmemcached.py:204-218 | with the reply buffered, `get` consumes only that reply and returns what it means |
| Store.FetchStored | pyrcmemcached.py:190-218 | a 761 naming the key with the payload `set` wrote reads back as the value that was set, except that `False` reads back as `True` |
| Store.DeleteKeys | pyrcmemcached.py:222-232 | without a connection a non-empty deletion fails with Disconnected and changes nothing; with no keys nothing happens |
| Store.Delete | pyrcmemcached.py:220-221 | `delete` keeps the connection state and fails with Disconnected without one |
| Store.DeleteWritesAll | pyrcmemcached.py:222-227 | every clearing line is written, in key order, whatever the replies |
| Store.DeleteAcknowledged | pyrcmemcached.py:222-232 | with one acknowledgement per key buffered, `delete_multi` succeeds and consumes exactly those replies, keys unchecked |
| Memcached.Client.Open | pyrcmemcached.py:162-173 | no server is a ValueError, a bad address fails, and otherwise the client is what authenticate then join leave on a fresh connection |
| Memcached.Client.DisconnectAll | pyrcmemcached.py:175-176 | the IRC client's new state is `Session.Disconnect` of the old one |
| Memcached.Client.MarkDead | pyrcmemcached.py:178-179 | the same, whatever the reason |
| Memcached.Client.AwaitReply | pyrcmemcached.py:196-197 | result and new state are `Store.Expect` |
| Memcached.Client.AwaitPair | pyrcmemcached.py:196-199 | result and new state are `Store.ExpectPair` |
| Memcached.Client.Set | pyrcmemcached.py:181-199 | result and new state are `Store.StoreValue` |
| Memcached.Client.Get | pyrcmemcached.py:201-218 | result and new state are `Store.FetchValue`, which decodes the payload as the code does |
| Memcached.Client.Delete | pyrcmemcached.py:220-221 | result and new state are `Store.Delete` |
| Memcached.Client.DeleteMulti | pyrcmemcached.py:222-232 | result and new state are `Store.DeleteKeys`: all sends first, then one acknowledgement per key in send order |

Some definitions are the source's expressions written out, with no contract
of their own. Lemmas in the table state their properties:

- `IrcMessage.StripTags` (pyrcmemcached.py:33-34): `TagsNeedSpace`,
  `FormatNoTags`.
- `IrcMessage.TokensAsWritten` and `IrcMessage.Tokens` (pyrcmemcached.py:35-39):
  `ParsePlainLine`, `ParseOneMark`, `ParseFirstMark`, `ParseTwoMarksFails`,
  `FormatTokens`, `TrailingTokens`.
- `Framing.ParseAll` and `Framing.ParseLines` (pyrcmemcached.py:96-101):
  `ParseAllStep`, `ParseAllLines`, `ParseFormats`, `OneLineBatch`.
- `Values.Encode` and `Values.Render` (pyrcmemcached.py:184-195):
  `SplitPayload`, `EncodeDecode`, `EncodeDecodeAsWritten`, `FalseReadsBackTrue`.
- `Store.SetLine`, `Store.GetLine`, `Store.ClearLine` and `Store.ClearLines`
  (pyrcmemcached.py:190-227): `StoreValue`, `FetchValue`, `DeleteWritesAll`.
- `Session.Opening` (pyrcmemcached.py:124-126): `OpeningLines`,
  `HandshakeOpens`.
- `Session.AdvertisesMetadata` (pyrcmemcached.py:141): `MetadataAdvertised`,
  `MetadataIgnoresEnds`.

## Left out

- Opening the socket (`socket.socket`, `connect`), `time.sleep`, the 4096-byte
  receive size and every `show_io` print are outside the model. The peer is a
  script of receive outcomes, and what the client writes is one string.
- Bytes are not modelled. `str.encode` and `bytes.decode` are identities on
  `seq<char>`, so invalid UTF-8 is not modelled.
- `randomnick` is random, so the nick is a parameter of `Memcached.Client.Open`.
- The address split is checked, but the host and port go to `connect`, so they
  are not used further. The port range is not checked.
- `int()` is modelled only for ASCII `[+-]digits`. Surrounding whitespace and
  underscores, which Python also accepts, are not.
- `SERVER_MAX_KEY_LENGTH` and `SERVER_MAX_VALUE_LENGTH` are unused by the
  source and are not modelled.
- The `__main__` block is not modelled.
- The `debug` argument of `Client`, `noreply` of `set` and `synchronize` of
  `getMessage` are unused by the source and are left out.
- `getMessage` is always called without `filter_pred`, so the model's
  callers use the filter that accepts everything (`Session.Any`).
- `IrcClient.conn` does not exist before `connect`, so `disconnect` or
  `sendLine` called then raises AttributeError. The model starts with a null
  connection instead: `disconnect` then does nothing and `sendLine` fails with
  Disconnected. `Client` calls `connect` in its constructor, so this state is
  never reached through `Client`.
- The source never sets a socket timeout. The `socket.timeout` it catches
  can only come from a process-wide default set outside this file. With a
  blocking socket, a silent peer makes `recv` wait forever. The model gives
  every receive an outcome: `Timeout`, or `Timeout` again once the script has
  run out (`Framing.Poll`, `Session.NextSilent`). It does not model waiting
  forever.
- Several exception names are undefined: `ConnectionClosed`
  (line 89), `NoMessageException` (line 108) and the unqualified
  `MemcachedKeyCharacterError` (line 203). Raising them is a NameError.
  The model gives each its own error (`ConnectionClosed`, `NoMessage`,
  `InvalidKey`). In every case the operation fails at that point, as in the
  source.
- A failed `assert` and an `IndexError` on a reply are both `ProtocolViolation`.
  The model does not tell them apart.
- Session.Handshake: the model returns the capabilities that `authenticate`
  gathers. The source collects them in a local variable and drops it.
- Connection.IrcClient.Authenticate is split into stage methods
  (`SendOpening`, `OpenNegotiation`, `AwaitCapList`, `RequireMetadata`, `WaitFor`, `Ping`).
  They run the same statements in the same order.
- Session.Handshake and Session.JoinChannel state their effects through lemmas
  (`HandshakeOpens`, `HandshakeTail`, `NegotiatedOnly`, `HandshakeWrites`,
  `HandshakeSucceeded`, `JoinAfterNotices`). Their own
  `ensures` only says that the connection state is kept.
- Values.Decode and Values.DecodeAsWritten state only the colon-less error in
  their own `ensures`. The round trips are the lemmas `EncodeDecode`,
  `EncodeDecodeAsWritten` and `FalseReadsBackTrue`.
- Nothing is modelled of what a server stores. "A `get` after a `delete`
  returns absent" is a property of the server, not of this client.

Where the code and the system's description differ, the model follows the
code:

- The description puts the `NoMessage` failure in the framed read. The code
  raises it in `getMessage`, when a blocking refill brings nothing.
  `assert_get_one` itself has no visible effect (`Framing.ReadFlagIrrelevant`).
- A line whose trailing parameter is the only token (" :") is accepted, with
  an empty command (`IrcMessage.EmptyCommandAccepted`).
- `get` takes the key from the second parameter of the 761 reply and the
  payload from the fourth, as the code indexes them.
- `get` reads only the 761 reply. A 762 that may follow is left in the inbox
  (`Store.FetchBuffered`).

## Findings

| source | as written | input that shows it | evidently intended | confidence | as-written member | corrected member |
|---|---|---|---|---|---|---|
| pyrcmemcached.py:36 | `s.split(' :')` without a limit must give exactly two pieces, so a line whose trailing parameter contains " :" fails to unpack | `PRIVMSG #c :a :b` + CR LF | the trailing parameter is everything after the first " :" (section 2.3.1 of RFC 1459) | high, not executed | IrcMessage.TrailingMarkExample | IrcMessage.FormatParse |
| pyrcmemcached.py:215 | `bool(value)` on the text after the tag is Python truthiness, so the stored text "False" reads back as `True` | `set(k, False)` then a 761 reply with payload `bool:False` | the text "True" means true and "False" means false | high, not executed | Values.FalseReadsBackTrue | Values.EncodeDecode |

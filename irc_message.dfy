/** `parse_message` (pyrcmemcached.py:26-51): one CR LF terminated IRC line to a
    `Message`, following the grammar of section 2.3.1 of RFC 1459 with the leading
    `@tags` segment of the IRCv3 message-tags specification.

    Two versions are kept. `ParseMessageAsWritten` is the code as it stands: the
    trailing parameter is cut out with `split(' :')` and no limit, so a line whose
    trailing parameter itself contains " :" is rejected. `ParseMessage` splits at
    the first " :" only, as RFC 1459 intends: it is the corrected definition
    that goes with that finding. The client's operations call
    `ParseMessageAsWritten`. */
module IrcMessage {
  import opened Base
  import opened Text

  /** The separator that introduces the trailing parameter. */
  const Mark: string := " :"

  /** The line without its CR LF terminator (line 32). */
  function Body(line: string): string
    requires EndsWith(line, CRLF)
  {
    line[..|line| - 2]
  }

  /** Lines 33-34: a leading `@tags` segment is cut off at the first space and
      dropped; a tag segment with no space after it makes the unpacking fail. */
  function StripTags(body: string, line: string): Result<string>
  {
    if StartsWith(body, "@") then
      var parts := SplitOnce(body, " ");
      if |parts| != 2 then Failure(Malformed(line)) else Success(parts[1])
    else Success(body)
  }

  /** Lines 35-39 as written: with a " :" present, `split(' :')` must give exactly
      two pieces; the words before it are followed by the trailing parameter. */
  function TokensAsWritten(rest: string, line: string): Result<seq<string>>
  {
    if Contains(rest, Mark) then
      var parts := Split(rest, Mark);
      if |parts| != 2 then Failure(Malformed(line))
      else Success(Words(parts[0]) + [parts[1]])
    else Success(Words(rest))
  }

  /** Lines 35-39 as RFC 1459 intends: everything after the first " :" is the
      trailing parameter. */
  function Tokens(rest: string): seq<string>
  {
    if Contains(rest, Mark) then
      var parts := SplitOnce(rest, Mark);
      Words(parts[0]) + [parts[1]]
    else Words(rest)
  }

  /** The tokens a message is read from: the prefix token (with its colon), the
      command, then the parameters. */
  function Layout(m: Message): seq<string>
  {
    (if m.prefix.Some? then [":" + m.prefix.value] else []) + [m.command] + m.params
  }

  /** Lines 40-51: an optional `:prefix` token, then the command, then the
      parameters; tags are always returned empty. */
  function FromTokens(tokens: seq<string>, line: string): (r: Result<Message>)
    ensures r.Success? <==> tokens != [] && (StartsWith(tokens[0], ":") ==> |tokens| >= 2)
    ensures r.Success? ==> r.value.tags == [] && Layout(r.value) == tokens
    ensures r.Success? ==> (r.value.prefix.Some? <==> StartsWith(tokens[0], ":"))
    ensures r.Failure? ==> r.error == Malformed(line)
  {
    if tokens == [] then Failure(Malformed(line))
    else if StartsWith(tokens[0], ":") then
      if |tokens| < 2 then Failure(Malformed(line))
      else
        assert ":" + tokens[0][1..] == tokens[0];
        assert [tokens[0]] + [tokens[1]] + tokens[2..] == tokens;
        Success(Message([], Some(tokens[0][1..]), tokens[1], tokens[2..]))
    else
      assert [tokens[0]] + tokens[1..] == tokens;
      Success(Message([], None, tokens[0], tokens[1..]))
  }

  /** `parse_message` exactly as written (line 31's assertion, then lines 32-51). */
  function ParseMessageAsWritten(line: string): (r: Result<Message>)
    ensures !EndsWith(line, CRLF) ==> r == Failure(Malformed(line))
    ensures r.Success? ==> r.value.tags == []
  {
    if !EndsWith(line, CRLF) then Failure(Malformed(line))
    else
      var rest :- StripTags(Body(line), line);
      var tokens :- TokensAsWritten(rest, line);
      FromTokens(tokens, line)
  }

  /** `parse_message` with the trailing parameter taken after the first " :". */
  function ParseMessage(line: string): (r: Result<Message>)
    ensures !EndsWith(line, CRLF) ==> r == Failure(Malformed(line))
    ensures r.Success? ==> r.value.tags == []
  {
    if !EndsWith(line, CRLF) then Failure(Malformed(line))
    else
      var rest :- StripTags(Body(line), line);
      FromTokens(Tokens(rest), line)
  }

  // ---------------------------------------------------------------------------
  // What the parser reads from a line

  /** A tag segment that runs to the end of the line is rejected. */
  lemma TagsNeedSpace(line: string)
    requires EndsWith(line, CRLF) && StartsWith(Body(line), "@") && NoChar(Body(line), ' ')
    ensures ParseMessageAsWritten(line) == Failure(Malformed(line))
    ensures ParseMessage(line) == Failure(Malformed(line))
  {
    NoCharNotContains(Body(line), ' ');
    assert " " == [' '];
  }

  /** Without a " :", the prefix token, the command and the parameters are
      exactly the non-empty space-separated words of the line, in order; the line
      is rejected when it has no word, or only a prefix. */
  lemma ParsePlainLine(line: string, rest: string)
    requires EndsWith(line, CRLF) && StripTags(Body(line), line) == Success(rest)
    requires !Contains(rest, Mark)
    ensures ParseMessageAsWritten(line) == ParseMessage(line)
    ensures ParseMessage(line).Success? <==>
              Words(rest) != [] && (StartsWith(Words(rest)[0], ":") ==> |Words(rest)| >= 2)
    ensures ParseMessage(line).Success? ==> Layout(ParseMessage(line).value) == Words(rest)
  {
  }

  /** With exactly one " :", the last token is the text after it, verbatim
      (spaces kept, possibly empty), and both parsers agree. */
  lemma ParseOneMark(line: string, rest: string, i: nat)
    requires EndsWith(line, CRLF) && StripTags(Body(line), line) == Success(rest)
    requires OccursAt(rest, Mark, i) && forall j :: OccursAt(rest, Mark, j) ==> j == i
    ensures ParseMessageAsWritten(line) == ParseMessage(line)
    ensures ParseMessage(line) == FromTokens(Words(rest[..i]) + [rest[i + 2..]], line)
    ensures ParseMessage(line).Success? ==>
              Layout(ParseMessage(line).value) == Words(rest[..i]) + [rest[i + 2..]]
  {
    SplitSingle(rest, Mark, i);
    FirstOccurrence(rest, Mark, i);
  }

  /** The corrected parser takes everything after the first " :" as the
      trailing parameter, whatever follows it. */
  lemma ParseFirstMark(line: string, rest: string, i: nat)
    requires EndsWith(line, CRLF) && StripTags(Body(line), line) == Success(rest)
    requires OccursAt(rest, Mark, i) && forall j :: 0 <= j < i ==> !OccursAt(rest, Mark, j)
    ensures ParseMessage(line) == FromTokens(Words(rest[..i]) + [rest[i + 2..]], line)
    ensures ParseMessage(line).Success? ==>
              Layout(ParseMessage(line).value) == Words(rest[..i]) + [rest[i + 2..]]
  {
    FirstOccurrence(rest, Mark, i);
  }

  /** As written, a second " :" anywhere after the tags makes the line fail. */
  lemma ParseTwoMarksFails(line: string, rest: string, i: nat, j: nat)
    requires EndsWith(line, CRLF) && StripTags(Body(line), line) == Success(rest)
    requires OccursAt(rest, Mark, i) && OccursAt(rest, Mark, j) && i < j
    ensures ParseMessageAsWritten(line) == Failure(Malformed(line))
  {
    SplitTwice(rest, Mark, i, j);
    FirstOccurrence(rest, Mark, IndexOf(rest, Mark).value);
  }

  /** An empty trailing parameter can become the command: the parse succeeds
      with an empty command. */
  lemma EmptyCommandAccepted()
    ensures ParseMessageAsWritten(" :\r\n") == Success(Message([], None, "", []))
  {
    var rest := " :";
    assert Body(" :\r\n") == rest;
    assert OccursAt(rest, Mark, 0);
    ParseOneMark(" :\r\n", rest, 0);
    assert IndexOf("", " ") == None;
  }

  // ---------------------------------------------------------------------------
  // Writing a message and reading it back

  /** A middle parameter (or command): one word that does not start with ':'. */
  predicate IsMiddle(w: string) {
    IsWord(w) && !StartsWith(w, ":")
  }

  /** Messages a line can carry: no tags, a prefix without spaces, a command that
      is a middle word not starting with '@', and middle words for every parameter
      but the last, which may be any text. */
  predicate WellFormed(m: Message) {
    && m.tags == []
    && (m.prefix.Some? ==> NoChar(m.prefix.value, ' '))
    && IsMiddle(m.command) && !StartsWith(m.command, "@")
    && (forall k :: 0 <= k < |m.params| - 1 ==> IsMiddle(m.params[k]))
  }

  /** Every token before the trailing parameter. */
  function Head(m: Message): seq<string>
  {
    (if m.prefix.Some? then [":" + m.prefix.value] else []) + [m.command]
      + (if m.params == [] then [] else m.params[..|m.params| - 1])
  }

  /** The line for `m` without its CR LF: the head tokens separated by single
      spaces, then the last parameter after " :". */
  function FormatBody(m: Message): string
  {
    Join(Head(m), " ") + (if m.params == [] then "" else Mark + m.params[|m.params| - 1])
  }

  function Format(m: Message): string
  {
    FormatBody(m) + CRLF
  }

  lemma {:induction false} JoinStartsWith(ws: seq<string>, sep: string)
    requires |ws| >= 1
    ensures StartsWith(Join(ws, sep), ws[0])
  {
    if |ws| > 1 {
      assert Join(ws, sep) == ws[0] + (sep + Join(ws[1..], sep));
    }
  }

  lemma NoSpaceNoMark(s: string)
    requires NoChar(s, ' ')
    ensures !Contains(s, Mark)
  {
    forall j ensures !OccursAt(s, Mark, j) {
      if 0 <= j && j + 2 <= |s| {
        assert s[j..j + 2][0] == s[j];
      }
    }
  }

  /** Words joined by spaces contain no " :" when no word but the first starts
      with ':'. */
  lemma {:induction false} NoMarkInJoin(ws: seq<string>)
    requires forall k :: 0 <= k < |ws| ==> IsWord(ws[k])
    requires forall k :: 1 <= k < |ws| ==> !StartsWith(ws[k], ":")
    ensures !Contains(Join(ws, " "), Mark)
  {
    if |ws| == 0 {
      NoSpaceNoMark("");
    } else if |ws| == 1 {
      NoSpaceNoMark(ws[0]);
    } else {
      var w, rest := ws[0], Join(ws[1..], " ");
      NoMarkInJoin(ws[1..]);
      JoinStartsWith(ws[1..], " ");
      assert rest[0] == ws[1][0] by {
        assert rest[..|ws[1]|] == ws[1];
      }
      assert ws[1][0] != ':' by {
        assert ws[1][..1] == [ws[1][0]];
      }
      var s := w + " " + rest;
      assert Join(ws, " ") == s;
      forall j ensures !OccursAt(s, Mark, j) {
        if 0 <= j && j + 2 <= |s| {
          assert s[j..j + 2][0] == s[j] && s[j..j + 2][1] == s[j + 1];
          if j < |w| {
            assert s[j] == w[j];
          } else if j == |w| {
            assert s[j + 1] == rest[0];
          } else {
            OccursInConcat(w + " ", rest, Mark, j);
          }
        }
      }
    }
  }

  lemma HeadWords(m: Message)
    requires WellFormed(m)
    ensures forall k :: 0 <= k < |Head(m)| ==> IsWord(Head(m)[k])
    ensures forall k :: 1 <= k < |Head(m)| ==> !StartsWith(Head(m)[k], ":")
  {
    var h := Head(m);
    var pre := if m.prefix.Some? then 1 else 0;
    if m.prefix.Some? {
      var p := ":" + m.prefix.value;
      assert h[0] == p;
      forall i | 0 <= i < |p| ensures p[i] != ' ' {
        if i > 0 { assert p[i] == m.prefix.value[i - 1]; }
      }
    }
    forall k | pre <= k < |h| ensures IsMiddle(h[k]) {
      if k == pre {
        assert h[k] == m.command;
      } else {
        assert h[k] == m.params[k - pre - 1];
      }
    }
  }

  /** The tokens of a well-formed message's line are its layout. */
  lemma FormatTokens(m: Message)
    requires WellFormed(m)
    ensures Tokens(FormatBody(m)) == Layout(m)
  {
    var head := Join(Head(m), " ");
    HeadWords(m);
    NoMarkInJoin(Head(m));
    WordsOfJoin(Head(m));
    if m.params == [] {
      assert FormatBody(m) == head;
      assert Layout(m) == Head(m);
    } else {
      var last := m.params[|m.params| - 1];
      assert FormatBody(m) == head + Mark + last;
      TrailingTokens(head, last);
      LayoutOfHead(m);
    }
  }

  /** A head free of " :" followed by the mark and a trailing parameter
      tokenises into the head's words and the trailing parameter. */
  lemma TrailingTokens(head: string, last: string)
    requires !Contains(head, Mark)
    ensures Tokens(head + Mark + last) == Words(head) + [last]
  {
    var body := head + Mark + last;
    IndexAfter(head, Mark, last);
    assert body[..|head|] == head && body[|head| + 2..] == last;
  }

  /** The layout is the head followed by the last parameter. */
  lemma LayoutOfHead(m: Message)
    requires m.params != []
    ensures Layout(m) == Head(m) + [m.params[|m.params| - 1]]
  {
    var lead := (if m.prefix.Some? then [":" + m.prefix.value] else []) + [m.command];
    var init, last := m.params[..|m.params| - 1], m.params[|m.params| - 1];
    assert init + [last] == m.params;
    assert lead + init + [last] == lead + (init + [last]);
  }


  /** A well-formed message's line has no tag segment to strip. */
  lemma FormatNoTags(m: Message, line: string)
    requires WellFormed(m)
    ensures StripTags(FormatBody(m), line) == Success(FormatBody(m))
  {
    var body, head := FormatBody(m), Join(Head(m), " ");
    JoinStartsWith(Head(m), " ");
    assert body[..|head|] == head;
    assert body[0] == head[0] == Head(m)[0][0] by {
      assert head[..|Head(m)[0]|] == Head(m)[0];
    }
    if m.prefix.None? {
      assert Head(m)[0] == m.command;
    }
    assert body[..1] == [body[0]];
  }

  /** Reading back a well-formed message's line gives the message: the parser
      and `Format` are inverse on well-formed messages. */
  lemma FormatParse(m: Message)
    requires WellFormed(m)
    ensures ParseMessage(Format(m)) == Success(m)
  {
    var line := Format(m);
    assert Body(line) == FormatBody(m);
    FormatNoTags(m, line);
    FormatTokens(m);
    var tokens := Layout(m);
    if m.prefix.None? {
      assert tokens[0] == m.command;
    } else {
      assert tokens[0] == ":" + m.prefix.value;
      assert tokens[0][..1] == ":";
    }
    LayoutDetermines(FromTokens(tokens, line).value, m);
  }

  /** As written, the round trip holds exactly when the last parameter holds no
      " :". */
  lemma FormatParseAsWritten(m: Message)
    requires WellFormed(m)
    ensures ParseMessageAsWritten(Format(m)) == Success(m) <==>
              m.params == [] || !Contains(m.params[|m.params| - 1], Mark)
  {
    FormatParse(m);
    if m.params == [] || !Contains(m.params[|m.params| - 1], Mark) {
      FormatAsWrittenAgrees(m);
    } else {
      FormatAsWrittenFails(m);
    }
  }

  /** Without a " :" in the last parameter, both parsers read a formatted line
      alike. */
  lemma FormatAsWrittenAgrees(m: Message)
    requires WellFormed(m)
    requires m.params == [] || !Contains(m.params[|m.params| - 1], Mark)
    ensures ParseMessageAsWritten(Format(m)) == ParseMessage(Format(m))
  {
    var line, body, head := Format(m), FormatBody(m), Join(Head(m), " ");
    assert Body(line) == body;
    FormatNoTags(m, line);
    HeadWords(m);
    NoMarkInJoin(Head(m));
    if m.params != [] {
      var last := m.params[|m.params| - 1];
      assert body == head + Mark + last;
      IndexAfter(head, Mark, last);
      SplitAfter(head, Mark, last);
      assert Split(last, Mark) == [last];
      assert body[..|head|] == head && body[|head| + 2..] == last;
      assert Split(body, Mark) == [head, last];
      assert SplitOnce(body, Mark) == [head, last];
      assert Tokens(body) == Words(head) + [last];
      assert TokensAsWritten(body, line) == Success(Words(head) + [last]);
    } else {
      assert body == head;
      assert Tokens(body) == Words(head);
      assert TokensAsWritten(body, line) == Success(Words(head));
    }
  }

  /** A " :" in the last parameter makes the formatted line fail as written. */
  lemma FormatAsWrittenFails(m: Message)
    requires WellFormed(m)
    requires m.params != [] && Contains(m.params[|m.params| - 1], Mark)
    ensures ParseMessageAsWritten(Format(m)).Failure?
  {
    var line, body, head := Format(m), FormatBody(m), Join(Head(m), " ");
    var last := m.params[|m.params| - 1];
    assert Body(line) == body;
    FormatNoTags(m, line);
    HeadWords(m);
    NoMarkInJoin(Head(m));
    assert body == (head + Mark) + last;
    IndexAfter(head, Mark, last);
    var k := IndexOf(last, Mark).value;
    OccursInConcat(head + Mark, last, Mark, |head| + 2 + k);
    ParseTwoMarksFails(line, body, |head|, |head| + 2 + k);
  }

  /** Two tag-free messages with the same layout and the same prefix presence
      are equal. */
  lemma LayoutDetermines(a: Message, b: Message)
    requires a.tags == [] && b.tags == [] && Layout(a) == Layout(b)
    requires a.prefix.Some? == b.prefix.Some?
    ensures a == b
  {
    if a.prefix.Some? {
      assert Layout(a)[0] == ":" + a.prefix.value;
      assert a.prefix.value == Layout(a)[0][1..];
      assert Layout(a)[1] == a.command;
      assert a.params == Layout(a)[2..];
      assert b.params == Layout(b)[2..];
    } else {
      assert Layout(a)[0] == a.command && Layout(b)[0] == b.command;
      assert a.params == Layout(a)[1..];
      assert b.params == Layout(b)[1..];
    }
  }

  /** A line made of one word that does not start with '@' or ':' reads back as
      a command with no prefix and no parameters, under both parsers. */
  lemma SingleWordLine(w: string)
    requires IsMiddle(w) && !StartsWith(w, "@")
    ensures ParseMessageAsWritten(w + CRLF) == Success(Message([], None, w, []))
    ensures ParseMessage(w + CRLF) == Success(Message([], None, w, []))
  {
    var m := Message([], None, w, []);
    assert Head(m) == [w];
    assert FormatBody(m) == w;
    assert Format(m) == w + CRLF;
    FormatParse(m);
    FormatAsWrittenAgrees(m);
  }

  /** The discrepancy on one message: a trailing parameter "a :b" is read back
      by the corrected parser and rejected as written. */
  lemma TrailingMarkExample()
    ensures ParseMessage(Format(Message([], None, "PRIVMSG", ["#c", "a :b"])))
              == Success(Message([], None, "PRIVMSG", ["#c", "a :b"]))
    ensures ParseMessageAsWritten(Format(Message([], None, "PRIVMSG", ["#c", "a :b"]))).Failure?
  {
    var m := Message([], None, "PRIVMSG", ["#c", "a :b"]);
    assert OccursAt("a :b", Mark, 1);
    assert IsMiddle("PRIVMSG") by {
      assert "PRIVMSG"[..1] == "P";
      forall i | 0 <= i < 7 ensures "PRIVMSG"[i] != ' ' {
        assert "PRIVMSG"[i] in {'P', 'R', 'I', 'V', 'M', 'S', 'G'};
      }
    }
    assert IsMiddle("#c") by { assert "#c"[..1] == "#"; }
    assert !StartsWith("PRIVMSG", "@") by { assert "PRIVMSG"[..1] == "P"; }
    FormatParse(m);
    FormatParseAsWritten(m);
  }
}

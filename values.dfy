/** The pure parts of the memcached facade: which keys may be stored
    (`isvalidkey`, pyrcmemcached.py:15-17), how a value travels as a typed
    payload (`set` and `get`, lines 184-195 and 213-218), and how a server
    address is cut into host and port (`_connect`, lines 170-171). */
module Values {
  import opened Base
  import opened Text

  // ---------------------------------------------------------------------------
  // isvalidkey (lines 15-17)

  /** A character of the key alphabet of line 16: ASCII letters, digits,
      `_`, `.` and `:`. */
  predicate IsKeyChar(c: char) {
    ('a' <= c <= 'z') || ('A' <= c <= 'Z') || ('0' <= c <= '9') || c == '_' || c == '.' || c == ':'
  }

  /** `all(map(chars.__contains__, key))`, checked character by character. */
  function IsValidKey(key: string): (ok: bool)
    ensures ok <==> forall i :: 0 <= i < |key| ==> IsKeyChar(key[i])
    decreases |key|
  {
    if key == [] then true
    else IsKeyChar(key[0]) && IsValidKey(key[1..])
  }

  /** The empty key is valid, and a concatenation is valid exactly when both
      parts are. */
  lemma ValidKeyConcat(a: string, b: string)
    ensures IsValidKey("")
    ensures IsValidKey(a + b) <==> IsValidKey(a) && IsValidKey(b)
  {
    if IsValidKey(a) && IsValidKey(b) {
      forall i | 0 <= i < |a + b|
        ensures IsKeyChar((a + b)[i])
      {
        if i >= |a| {
          assert (a + b)[i] == b[i - |a|];
        }
      }
    }
    if IsValidKey(a + b) {
      forall i | 0 <= i < |a|
        ensures IsKeyChar(a[i])
      {
        assert (a + b)[i] == a[i];
      }
      forall i | 0 <= i < |b|
        ensures IsKeyChar(b[i])
      {
        assert (a + b)[|a| + i] == b[i];
      }
    }
  }

  /** A valid key holds no space, so it stays one parameter on the wire. */
  lemma ValidKeyIsOneWord(key: string)
    requires IsValidKey(key)
    ensures NoChar(key, ' ')
  {
  }

  // ---------------------------------------------------------------------------
  // Values and their payloads (lines 184-195, 213-218)

  /** The values `set` distinguishes: a `bool`, an `int`, anything else as
      its string form. */
  datatype Value = Bool(b: bool) | Int(i: int) | Str(s: string)

  /** The type tag of lines 184-189; a bool is tested before an int, since in
      Python every bool is also an int. */
  function TypeTag(v: Value): (tag: string)
    ensures NoChar(tag, ':') && tag != ""
  {
    match v
    case Bool(_) => "bool"
    case Int(_) => "int"
    case Str(_) => "str"
  }

  /** `'{value}'.format(value=v)`. */
  function Render(v: Value): string
  {
    match v
    case Bool(b) => if b then "True" else "False"
    case Int(i) => IntToString(i)
    case Str(s) => s
  }

  /** The payload `set` stores (line 190): tag, colon, rendered value. */
  function Encode(v: Value): string
  {
    TypeTag(v) + ":" + Render(v)
  }

  /** The decoding of lines 213-218 as written: split at the first colon (no
      colon is a ValueError); a `bool` payload decodes to the truthiness of the
      text after the colon, an `int` payload through `int()`, and any other tag
      yields the text itself. */
  function DecodeAsWritten(payload: string): (r: Result<Value>)
    ensures !Contains(payload, ":") ==> r == Failure(BadValue(payload))
  {
    var parts := SplitOnce(payload, ":");
    if |parts| != 2 then Failure(BadValue(payload))
    else
      var (tag, raw) := (parts[0], parts[1]);
      if tag == "bool" then Success(Bool(raw != ""))
      else if tag == "int" then
        match ParseInt(raw)
        case None => Failure(BadValue(payload))
        case Some(n) => Success(Int(n))
      else Success(Str(raw))
  }

  /** The decoding with a `bool` payload read back as the text `set` wrote for
      it: only "True" is true. */
  function Decode(payload: string): (r: Result<Value>)
    ensures !Contains(payload, ":") ==> r == Failure(BadValue(payload))
  {
    var parts := SplitOnce(payload, ":");
    if |parts| != 2 then Failure(BadValue(payload))
    else
      var (tag, raw) := (parts[0], parts[1]);
      if tag == "bool" then Success(Bool(raw == "True"))
      else if tag == "int" then
        match ParseInt(raw)
        case None => Failure(BadValue(payload))
        case Some(n) => Success(Int(n))
      else Success(Str(raw))
  }

  /** A payload splits at the colon after its tag, whatever the rendered value
      contains. */
  lemma SplitPayload(v: Value)
    ensures SplitOnce(Encode(v), ":") == [TypeTag(v), Render(v)]
  {
    var tag := TypeTag(v);
    FirstChar(tag, ':', Render(v));
    assert ":" == [':'];
    assert (tag + ":" + Render(v))[..|tag|] == tag;
    assert (tag + ":" + Render(v))[|tag| + 1..] == Render(v);
  }

  /** Every value reads back as itself. */
  lemma EncodeDecode(v: Value)
    ensures Decode(Encode(v)) == Success(v)
  {
    SplitPayload(v);
    if v.Int? {
      ParseIntToString(v.i);
    }
  }

  /** As written, every value but `False` reads back as itself. */
  lemma EncodeDecodeAsWritten(v: Value)
    requires v != Bool(false)
    ensures DecodeAsWritten(Encode(v)) == Success(v)
  {
    SplitPayload(v);
    if v.Int? {
      ParseIntToString(v.i);
    }
  }

  /** As written, a stored `False` reads back as `True`: "False" is a
      non-empty string. */
  lemma FalseReadsBackTrue()
    ensures DecodeAsWritten(Encode(Bool(false))) == Success(Bool(true))
    ensures Decode(Encode(Bool(false))) == Success(Bool(false))
  {
    SplitPayload(Bool(false));
  }

  /** A payload with an unknown tag reads back as the text after the colon:
      the tag is dropped. */
  lemma UnknownTagKeepsText(tag: string, raw: string)
    requires NoChar(tag, ':') && tag != "bool" && tag != "int"
    ensures Decode(tag + ":" + raw) == Success(Str(raw))
    ensures DecodeAsWritten(tag + ":" + raw) == Success(Str(raw))
  {
    FirstChar(tag, ':', raw);
    assert ":" == [':'];
    assert (tag + ":" + raw)[..|tag|] == tag;
    assert (tag + ":" + raw)[|tag| + 1..] == raw;
  }

  // ---------------------------------------------------------------------------
  // The server address (lines 170-171)

  datatype Address = Address(host: string, port: int)

  /** The position of the last `c` in `s`. */
  function LastIndex(s: string, c: char): (r: Option<nat>)
    ensures r.Some? ==> r.value < |s| && s[r.value] == c
                        && forall j :: r.value < j < |s| ==> s[j] != c
    ensures r.None? ==> NoChar(s, c)
    decreases |s|
  {
    if s == [] then None
    else if s[|s| - 1] == c then Some(|s| - 1)
    else LastIndex(s[..|s| - 1], c)
  }

  /** `host, port = address.rsplit(':', 1)` then `int(port)`: the host is
      everything before the last colon, the port what follows it. No colon, or
      a port that is not a decimal number, is a ValueError. */
  function SplitAddress(address: string): (r: Result<Address>)
    ensures NoChar(address, ':') ==> r == Failure(BadAddress(address))
  {
    match LastIndex(address, ':')
    case None => Failure(BadAddress(address))
    case Some(i) =>
      match ParseInt(address[i + 1..])
      case None => Failure(BadAddress(address))
      case Some(port) => Success(Address(address[..i], port))
  }

  /** Host and port written as `host:port` come back apart, even when the host
      itself contains colons. */
  lemma SplitAddressRoundTrip(host: string, port: int)
    ensures SplitAddress(host + ":" + IntToString(port)) == Success(Address(host, port))
  {
    var digits := IntToString(port);
    var address := host + ":" + digits;
    assert NoChar(digits, ':') by {
      if port < 0 {
        assert digits == "-" + NatToString(-port);
        assert forall j :: 1 <= j < |digits| ==> digits[j] == NatToString(-port)[j - 1];
      }
    }
    assert address[|host|] == ':';
    assert forall j :: |host| < j < |address| ==> address[j] == digits[j - |host| - 1];
    var i := LastIndex(address, ':').value;
    assert i == |host|;
    assert address[i + 1..] == digits;
    assert address[..i] == host;
    ParseIntToString(port);
  }
}

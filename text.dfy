/** The pieces of Python's `str` behaviour the client relies on: `find`,
    `split` (with and without a limit of one split), `' '.join`, `filter(bool, ...)`
    over split pieces, and the decimal `str(int)` / `int(str)` conversions. */
module Text {
  import opened Base

  const CRLF: string := "\r\n"

  predicate StartsWith(s: string, p: string) {
    |p| <= |s| && s[..|p|] == p
  }

  predicate EndsWith(s: string, p: string) {
    |p| <= |s| && s[|s| - |p|..] == p
  }

  /** Concatenation regroups freely. */
  lemma Regroup(a: string, b: string, c: string)
    ensures a + b + c == a + (b + c)
  {
  }

  lemma PrefixOfConcat(a: string, b: string)
    ensures StartsWith(a + b, a)
  {
    assert (a + b)[..|a|] == a;
  }

  lemma PrefixOfPrefix(s: string, a: string, b: string)
    requires StartsWith(s, a + b)
    ensures StartsWith(s, a)
  {
    assert s[..|a|] == (a + b)[..|a|] == a;
  }

  /** `sep` occurs in `s` starting at index `i`. */
  predicate OccursAt(s: string, sep: string, i: int) {
    0 <= i && i + |sep| <= |s| && s[i..i + |sep|] == sep
  }

  /** The first occurrence of `sep` in `s` at or after `from`. */
  function Find(s: string, sep: string, from: nat): (r: Option<nat>)
    requires |sep| > 0 && from <= |s|
    ensures r.Some? ==> from <= r.value && OccursAt(s, sep, r.value)
    ensures r.Some? ==> forall j :: from <= j < r.value ==> !OccursAt(s, sep, j)
    ensures r.None? ==> forall j :: from <= j ==> !OccursAt(s, sep, j)
    decreases |s| - from
  {
    if from + |sep| > |s| then None
    else if OccursAt(s, sep, from) then Some(from)
    else Find(s, sep, from + 1)
  }

  /** Python's `s.find(sep)`, with None for -1. */
  function IndexOf(s: string, sep: string): (r: Option<nat>)
    requires |sep| > 0
    ensures r.Some? ==> OccursAt(s, sep, r.value)
    ensures r.Some? ==> forall j :: 0 <= j < r.value ==> !OccursAt(s, sep, j)
    ensures r.None? ==> forall j :: !OccursAt(s, sep, j)
  {
    Find(s, sep, 0)
  }

  /** Python's `sep in s`. */
  predicate Contains(s: string, sep: string)
    requires |sep| > 0
  {
    IndexOf(s, sep).Some?
  }

  /** Python's `s.split(sep)`: the pieces between successive occurrences of `sep`,
      found left to right. */
  function Split(s: string, sep: string): (parts: seq<string>)
    requires |sep| > 0
    ensures |parts| >= 1
    decreases |s|
  {
    match IndexOf(s, sep)
    case None => [s]
    case Some(i) => [s[..i]] + Split(s[i + |sep|..], sep)
  }

  /** Python's `s.split(sep, 1)`. */
  function SplitOnce(s: string, sep: string): (parts: seq<string>)
    requires |sep| > 0
  {
    match IndexOf(s, sep)
    case None => [s]
    case Some(i) => [s[..i], s[i + |sep|..]]
  }

  /** Python's `sep.join(parts)`. */
  function Join(parts: seq<string>, sep: string): string
  {
    if |parts| == 0 then ""
    else if |parts| == 1 then parts[0]
    else parts[0] + sep + Join(parts[1..], sep)
  }

  /** `list(filter(bool, parts))`: the non-empty pieces, in order. */
  function NonEmpty(parts: seq<string>): (r: seq<string>)
  {
    if parts == [] then []
    else (if parts[0] == "" then [] else [parts[0]]) + NonEmpty(parts[1..])
  }

  /** The non-empty space-separated tokens of `s`. */
  function Words(s: string): seq<string>
  {
    NonEmpty(Split(s, " "))
  }

  predicate NoChar(s: string, c: char) {
    forall i :: 0 <= i < |s| ==> s[i] != c
  }

  /** A token as `Words` produces it: non-empty and free of spaces. */
  predicate IsWord(w: string) {
    w != "" && NoChar(w, ' ')
  }

  // ---------------------------------------------------------------------------
  // Occurrences under slicing and concatenation

  lemma OccursInSuffix(s: string, sep: string, k: nat, j: nat)
    requires k <= |s|
    ensures OccursAt(s[k..], sep, j) <==> OccursAt(s, sep, k + j)
  {
    if j + |sep| <= |s| - k {
      assert s[k..][j..j + |sep|] == s[k + j..k + j + |sep|];
    }
  }

  lemma OccursInConcat(a: string, b: string, sep: string, j: int)
    ensures 0 <= j && j + |sep| <= |a| ==> (OccursAt(a + b, sep, j) <==> OccursAt(a, sep, j))
    ensures j >= |a| ==> (OccursAt(a + b, sep, j) <==> OccursAt(b, sep, j - |a|))
  {
    if 0 <= j && j + |sep| <= |a| {
      assert (a + b)[j..j + |sep|] == a[j..j + |sep|];
    }
    if j >= |a| && j + |sep| <= |a| + |b| {
      assert (a + b)[j..j + |sep|] == b[j - |a|..j - |a| + |sep|];
    }
  }

  lemma OccursChar(s: string, c: char, j: int)
    ensures OccursAt(s, [c], j) <==> 0 <= j < |s| && s[j] == c
  {
    if 0 <= j < |s| {
      assert s[j..j + 1] == [s[j]];
    }
  }

  /** A string without the character `c` does not contain `[c]`. */
  lemma NoCharNotContains(s: string, c: char)
    requires NoChar(s, c)
    ensures !Contains(s, [c])
  {
    if Contains(s, [c]) {
      OccursChar(s, c, IndexOf(s, [c]).value);
    }
  }

  /** The index of the first occurrence determines `IndexOf`. */
  lemma FirstOccurrence(s: string, sep: string, i: nat)
    requires |sep| > 0 && OccursAt(s, sep, i)
    requires forall j :: 0 <= j < i ==> !OccursAt(s, sep, j)
    ensures IndexOf(s, sep) == Some(i)
  {
  }

  /** A two-character separator whose two characters differ cannot overlap a
      boundary: if `a` does not contain it, its first occurrence in
      `a + sep + b` is right after `a`. */
  lemma IndexAfter(a: string, sep: string, b: string)
    requires |sep| == 2 && sep[0] != sep[1] && !Contains(a, sep)
    ensures IndexOf(a + sep + b, sep) == Some(|a|)
  {
    var s := a + sep + b;
    assert s == a + (sep + b);
    forall j | 0 <= j < |a|
      ensures !OccursAt(s, sep, j)
    {
      OccursInConcat(a, sep + b, sep, j);
      if j + 2 > |a| {
        assert s[j + 1] == sep[0];
      }
    }
    OccursInConcat(a, sep + b, sep, |a|);
    assert (sep + b)[..2] == sep;
    FirstOccurrence(s, sep, |a|);
  }

  /** Splitting after a piece that holds no separator peels that piece off. */
  lemma SplitAfter(a: string, sep: string, b: string)
    requires |sep| > 0
    requires IndexOf(a + sep + b, sep) == Some(|a|)
    ensures Split(a + sep + b, sep) == [a] + Split(b, sep)
  {
    var s := a + sep + b;
    assert s[..|a|] == a;
    assert s[|a| + |sep|..] == b;
  }

  // ---------------------------------------------------------------------------
  // split / join

  /** Joining the pieces of a split with the same separator gives back the
      original string. */
  lemma {:induction false} JoinSplit(s: string, sep: string)
    requires |sep| > 0
    ensures Join(Split(s, sep), sep) == s
    decreases |s|
  {
    match IndexOf(s, sep)
    case None =>
    case Some(i) =>
      var rest := s[i + |sep|..];
      var tail := Split(rest, sep);
      JoinSplit(rest, sep);
      JoinCons(s[..i], tail, sep);
      assert s[i..i + |sep|] == sep;
      assert s == s[..i] + s[i..i + |sep|] + rest;
  }

  /** Joining a first piece in front of at least one more. */
  lemma JoinCons(first: string, tail: seq<string>, sep: string)
    requires |tail| >= 1
    ensures Join([first] + tail, sep) == first + sep + Join(tail, sep)
  {
    assert ([first] + tail)[1..] == tail;
  }

  /** No piece of a split contains the separator. */
  lemma {:induction false} SplitPiecesClean(s: string, sep: string)
    requires |sep| > 0
    ensures forall k :: 0 <= k < |Split(s, sep)| ==> !Contains(Split(s, sep)[k], sep)
    decreases |s|
  {
    match IndexOf(s, sep)
    case None =>
    case Some(i) =>
      var rest := s[i + |sep|..];
      SplitPiecesClean(rest, sep);
      assert s[..i] + s[i..] == s;
      if Contains(s[..i], sep) {
        OccursInConcat(s[..i], s[i..], sep, IndexOf(s[..i], sep).value);
        assert false;
      }
      assert Split(s, sep) == [s[..i]] + Split(rest, sep);
  }

  /** A string with one occurrence of `sep` splits into exactly the text
      before and the text after it. */
  lemma SplitSingle(s: string, sep: string, i: nat)
    requires |sep| > 0 && OccursAt(s, sep, i)
    requires forall j :: OccursAt(s, sep, j) ==> j == i
    ensures Split(s, sep) == [s[..i], s[i + |sep|..]]
  {
    FirstOccurrence(s, sep, i);
    var rest := s[i + |sep|..];
    if Contains(rest, sep) {
      var j := IndexOf(rest, sep).value;
      OccursInSuffix(s, sep, i + |sep|, j);
      assert false;
    }
  }

  /** Two distinct occurrences of a separator that cannot overlap itself make
      `split` return at least three pieces. */
  lemma SplitTwice(s: string, sep: string, i: nat, j: nat)
    requires |sep| == 2 && sep[0] != sep[1]
    requires OccursAt(s, sep, i) && OccursAt(s, sep, j) && i < j
    ensures |Split(s, sep)| >= 3
  {
    var k := IndexOf(s, sep).value;
    assert k <= i;
    assert s[k + 1] == s[k..k + 2][1] == sep[1];
    assert s[j] == s[j..j + 2][0] == sep[0];
    var rest := s[k + 2..];
    OccursInSuffix(s, sep, k + 2, j - (k + 2));
    assert OccursAt(rest, sep, j - (k + 2));
    assert Split(s, sep) == [s[..k]] + Split(rest, sep);
    assert Contains(rest, sep);
  }

  /** The words of a space-joined list of words are those words. */
  lemma {:induction false} WordsOfJoin(ws: seq<string>)
    requires forall k :: 0 <= k < |ws| ==> IsWord(ws[k])
    ensures Words(Join(ws, " ")) == ws
  {
    if |ws| == 0 {
      assert IndexOf("", " ") == None;
    } else if |ws| == 1 {
      NoCharNotContains(ws[0], ' ');
      assert " " == [' '];
      assert Split(ws[0], " ") == [ws[0]];
      assert NonEmpty([ws[0]]) == [ws[0]] + NonEmpty([]);
    } else {
      var w, rest := ws[0], Join(ws[1..], " ");
      NoCharNotContains(w, ' ');
      assert " " == [' '];
      FirstSpace(w, rest);
      SplitAfter(w, " ", rest);
      WordsOfJoin(ws[1..]);
      assert Split(w + " " + rest, " ") == [w] + Split(rest, " ");
    }
  }

  /** The first occurrence of a character that `w` lacks, in `w + [c] + rest`,
      is right after `w`. */
  lemma FirstChar(w: string, c: char, rest: string)
    requires NoChar(w, c)
    ensures IndexOf(w + [c] + rest, [c]) == Some(|w|)
  {
    var s := w + [c] + rest;
    forall j | 0 <= j < |w|
      ensures !OccursAt(s, [c], j)
    {
      OccursChar(s, c, j);
      assert s[j] == w[j];
    }
    OccursChar(s, c, |w|);
    FirstOccurrence(s, [c], |w|);
  }

  lemma FirstSpace(w: string, rest: string)
    requires NoChar(w, ' ')
    ensures IndexOf(w + " " + rest, " ") == Some(|w|)
  {
    FirstChar(w, ' ', rest);
  }

  // ---------------------------------------------------------------------------
  // Decimal integers: str(n) and int(s)

  predicate IsDigit(c: char) { '0' <= c <= '9' }

  predicate AllDigits(s: string) {
    forall i :: 0 <= i < |s| ==> IsDigit(s[i])
  }

  function DigitChar(d: nat): (c: char)
    requires d < 10
    ensures IsDigit(c)
  {
    ('0' as int + d) as char
  }

  /** `str(n)` for a natural number: its decimal digits, most significant first. */
  function NatToString(n: nat): (s: string)
    ensures s != [] && AllDigits(s)
    decreases n
  {
    if n < 10 then [DigitChar(n)] else NatToString(n / 10) + [DigitChar(n % 10)]
  }

  /** `str(n)` for any integer. */
  function IntToString(n: int): string
  {
    if n < 0 then "-" + NatToString(-n) else NatToString(n)
  }

  /** The number a string of decimal digits denotes. */
  function DigitsValue(s: string): nat
    requires AllDigits(s)
    decreases |s|
  {
    if s == [] then 0 else DigitsValue(s[..|s| - 1]) * 10 + (s[|s| - 1] as int - '0' as int)
  }

  /** Python's `int(s)`, restricted to an optional sign followed by decimal digits. */
  function ParseInt(s: string): Option<int>
  {
    if |s| > 0 && (s[0] == '-' || s[0] == '+') then
      var digits := s[1..];
      if digits != [] && AllDigits(digits) then
        var v: int := if s[0] == '-' then -(DigitsValue(digits) as int) else DigitsValue(digits);
        Some(v)
      else None
    else if s != [] && AllDigits(s) then Some(DigitsValue(s))
    else None
  }

  lemma {:induction false} DigitsOfNat(n: nat)
    ensures DigitsValue(NatToString(n)) == n
    decreases n
  {
    if n >= 10 {
      DigitsOfNat(n / 10);
      var p := NatToString(n / 10);
      assert (p + [DigitChar(n % 10)])[..|p|] == p;
    }
  }

  /** `int(str(n)) == n` for every integer. */
  lemma ParseIntToString(n: int)
    ensures ParseInt(IntToString(n)) == Some(n)
  {
    if n < 0 {
      DigitsOfNat(-n);
      assert IntToString(n)[1..] == NatToString(-n);
    } else {
      DigitsOfNat(n);
    }
  }
}

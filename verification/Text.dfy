/** The string operations the parsers are built from, on Unicode scalar values. */
module Text {

  import opened Wrappers

  /** Bytes of one character in UTF-8. */
  function CharBytes(c: char): nat {
    if c as int < 0x80 then 1 else if c as int < 0x800 then 2 else if c as int < 0x1_0000 then 3 else 4
  }

  function Bytes(s: string): nat {
    if s == "" then 0 else CharBytes(s[0]) + Bytes(s[1..])
  }

  function TotalBytes(items: seq<string>): nat {
    if items == [] then 0 else Bytes(items[0]) + TotalBytes(items[1..])
  }

  /** The Unicode White_Space property. */
  predicate IsSpace(c: char) {
    var n := c as int;
    || 0x09 <= n <= 0x0d || n == 0x20 || n == 0x85 || n == 0xa0 || n == 0x1680
    || 0x2000 <= n <= 0x200a || n == 0x2028 || n == 0x2029 || n == 0x202f || n == 0x205f || n == 0x3000
  }

  predicate IsDigit(c: char) {
    '0' <= c <= '9'
  }

  function TrimStart(s: string): string {
    if s != "" && IsSpace(s[0]) then TrimStart(s[1..]) else s
  }

  function TrimEnd(s: string): string {
    if s != "" && IsSpace(s[|s| - 1]) then TrimEnd(s[..|s| - 1]) else s
  }

  function Trim(s: string): string {
    TrimEnd(TrimStart(s))
  }

  /** The pieces between separators; there is always at least one. */
  function Split(s: string, separators: set<char>): (pieces: seq<string>)
    ensures |pieces| >= 1
  {
    if s == "" then [""]
    else
      var rest := Split(s[1..], separators);
      if s[0] in separators then [""] + rest else [[s[0]] + rest[0]] + rest[1..]
  }

  function SplitOnce(s: string, separator: char): (r: Option<(string, string)>)
    ensures r.Some? ==> |r.value.1| < |s|
  {
    if s == "" then None
    else if s[0] == separator then Some(("", s[1..]))
    else match SplitOnce(s[1..], separator)
         case None => None
         case Some((before, after)) => Some(([s[0]] + before, after))
  }

  function Join(pieces: seq<string>, separator: char): string {
    if pieces == [] then "" else if |pieces| == 1 then pieces[0]
    else pieces[0] + [separator] + Join(pieces[1..], separator)
  }

  /** The lines of a text: a line feed ends a line, together with one carriage return before it. */
  function Lines(s: string): seq<string>
    decreases |s|
  {
    if s == "" then []
    else match SplitOnce(s, '\n')
         case None => [s]
         case Some((line, rest)) => [DropReturn(line)] + Lines(rest)
  }

  function DropReturn(line: string): string {
    if line != "" && line[|line| - 1] == '\r' then line[..|line| - 1] else line
  }

  predicate Free(s: string, chars: set<char>) {
    forall c | c in s :: c !in chars
  }

  predicate NoSpaces(s: string) {
    forall c | c in s :: !IsSpace(c)
  }

  lemma {:induction false} SplitFree(s: string, separators: set<char>)
    requires Free(s, separators)
    ensures Split(s, separators) == [s]
  {
    if s != "" {
      SplitFree(s[1..], separators);
      assert s == [s[0]] + s[1..];
    }
  }

  lemma {:induction false} SplitAtSeparator(s: string, separator: char, rest: string)
    requires Free(s, {separator})
    ensures Split(s + [separator] + rest, {separator}) == [s] + Split(rest, {separator})
  {
    var whole := s + [separator] + rest;
    if s == "" {
      assert whole[1..] == rest;
    } else {
      SplitAtSeparator(s[1..], separator, rest);
      assert whole[1..] == s[1..] + [separator] + rest;
      assert [s[0]] + s[1..] == s;
    }
  }

  lemma {:induction false} SplitJoin(pieces: seq<string>, separator: char)
    requires pieces != [] && forall piece | piece in pieces :: Free(piece, {separator})
    ensures Split(Join(pieces, separator), {separator}) == pieces
  {
    if |pieces| == 1 {
      SplitFree(pieces[0], {separator});
    } else {
      SplitAtSeparator(pieces[0], separator, Join(pieces[1..], separator));
      SplitJoin(pieces[1..], separator);
    }
  }

  lemma {:induction false} SplitHolds(s: string, separator: char, c: char)
    requires c in s && c != separator
    ensures exists i :: 0 <= i < |Split(s, {separator})| && c in Split(s, {separator})[i]
  {
    var rest := Split(s[1..], {separator});
    if c == s[0] {
      assert c in Split(s, {separator})[0];
    } else {
      assert s == [s[0]] + s[1..];
      SplitHolds(s[1..], separator, c);
      var i :| 0 <= i < |rest| && c in rest[i];
      if s[0] == separator {
        assert Split(s, {separator})[i + 1] == rest[i];
      } else if i == 0 {
        assert c in Split(s, {separator})[0];
      } else {
        assert Split(s, {separator})[i] == rest[i];
      }
    }
  }

  /** The first and last pieces, when not empty, hold the ends of the text. */
  lemma {:induction false} SplitEnds(s: string, separator: char)
    requires s != ""
    ensures var pieces := Split(s, {separator});
            && (pieces[0] != "" ==> s[0] == pieces[0][0])
            && (pieces[|pieces| - 1] != "" ==> s[|s| - 1] == pieces[|pieces| - 1][|pieces[|pieces| - 1]| - 1])
  {
    if |s| > 1 {
      SplitEnds(s[1..], separator);
    }
  }

  lemma {:induction false} SplitOnceFree(s: string, separator: char)
    requires separator !in s
    ensures SplitOnce(s, separator) == None
  {
    if s != "" {
      SplitOnceFree(s[1..], separator);
    }
  }

  lemma {:induction false} SplitOnceAt(before: string, separator: char, after: string)
    requires separator !in before
    ensures SplitOnce(before + [separator] + after, separator) == Some((before, after))
  {
    var whole := before + [separator] + after;
    if before == "" {
      assert whole[1..] == after;
    } else {
      SplitOnceAt(before[1..], separator, after);
      assert whole[1..] == before[1..] + [separator] + after;
      assert [before[0]] + before[1..] == before;
    }
  }

  lemma LinesStep(line: string, rest: string)
    requires '\n' !in line
    ensures Lines(line + ['\n'] + rest) == [DropReturn(line)] + Lines(rest)
  {
    SplitOnceAt(line, '\n', rest);
  }

  lemma TrimNoSpaces(s: string)
    requires NoSpaces(s)
    ensures Trim(s) == s
  {
  }

  lemma {:induction false} BytesOfConcat(a: string, b: string)
    ensures Bytes(a + b) == Bytes(a) + Bytes(b)
  {
    if a == "" {
      assert a + b == b;
    } else {
      BytesOfConcat(a[1..], b);
      assert (a + b)[1..] == a[1..] + b;
    }
  }

  /** ASCII text has one byte per character. */
  lemma {:induction false} BytesOfAscii(s: string)
    requires forall i | 0 <= i < |s| :: s[i] as int < 0x80
    ensures Bytes(s) == |s|
  {
    if s != "" {
      BytesOfAscii(s[1..]);
    }
  }

  lemma {:induction false} TotalOfConcat(a: seq<string>, b: seq<string>)
    ensures TotalBytes(a + b) == TotalBytes(a) + TotalBytes(b)
  {
    if a == [] {
      assert a + b == b;
    } else {
      TotalOfConcat(a[1..], b);
      assert (a + b)[1..] == a[1..] + b;
    }
  }

  // ------------------------------------------------ cutting at a number of bytes

  /** The longest beginning of at most `limit` bytes. */
  function Clipped(s: string, limit: nat): string {
    if s == "" || CharBytes(s[0]) > limit then "" else [s[0]] + Clipped(s[1..], limit - CharBytes(s[0]))
  }

  /** The number of characters before byte `end`, where that is the end of a character or the start. */
  function CharsAt(s: string, end: nat): (r: Option<nat>)
    ensures r.Some? ==> r.value <= |s|
    ensures end == 0 ==> r == Some(0)
  {
    if end == 0 then Some(0)
    else if s == "" || CharBytes(s[0]) > end then None
    else
      var rest := CharsAt(s[1..], end - CharBytes(s[0]));
      if rest.None? then None else Some(rest.value + 1)
  }

  /** It is a beginning within the limit, and one more character would exceed that. */
  lemma {:induction false} ClippedIsLongest(s: string, limit: nat)
    ensures var clipped := Clipped(s, limit);
            && clipped <= s && Bytes(clipped) <= limit && Bytes(clipped) <= Bytes(s)
            && (clipped == s || (|clipped| < |s| && Bytes(clipped) + CharBytes(s[|clipped|]) > limit))
  {
    if s != "" && CharBytes(s[0]) <= limit {
      ClippedIsLongest(s[1..], limit - CharBytes(s[0]));
      assert Clipped(s, limit)[1..] == Clipped(s[1..], limit - CharBytes(s[0]));
      assert s == [s[0]] + s[1..];
    }
  }

  lemma {:induction false} ClippedEndsAtBoundary(s: string, limit: nat)
    ensures CharsAt(s, Bytes(Clipped(s, limit))) == Some(|Clipped(s, limit)|)
  {
    if s != "" && CharBytes(s[0]) <= limit {
      ClippedEndsAtBoundary(s[1..], limit - CharBytes(s[0]));
      assert Clipped(s, limit)[1..] == Clipped(s[1..], limit - CharBytes(s[0]));
    }
  }

  /** No end of a character within the limit lies beyond the longest beginning. */
  lemma {:induction false} BoundaryIsInside(s: string, end: nat, limit: nat)
    requires CharsAt(s, end).Some? && end <= limit
    ensures end <= Bytes(Clipped(s, limit))
    ensures end == Bytes(Clipped(s, limit)) ==> s[..CharsAt(s, end).value] == Clipped(s, limit)
  {
    if end > 0 {
      BoundaryIsInside(s[1..], end - CharBytes(s[0]), limit - CharBytes(s[0]));
      assert Clipped(s, limit)[1..] == Clipped(s[1..], limit - CharBytes(s[0]));
    } else if Clipped(s, limit) != "" {
      assert Bytes(Clipped(s, limit)) >= CharBytes(s[0]);
    }
  }

  lemma {:induction false} TotalExactly(texts: seq<string>, each: nat)
    requires forall i | 0 <= i < |texts| :: Bytes(texts[i]) == each
    ensures TotalBytes(texts) == each * |texts|
  {
    if texts != [] {
      TotalExactly(texts[1..], each);
      OneMoreTimes(each, |texts| - 1);
    }
  }

  lemma OneMoreTimes(each: nat, n: nat)
    ensures each * (n + 1) == each + each * n
  {
  }

  lemma BytesAround(before: string, separator: char, after: string)
    requires separator as int < 0x80
    ensures Bytes(before + [separator] + after) == Bytes(before) + 1 + Bytes(after)
  {
    BytesOfAscii([separator]);
    BytesOfConcat(before, [separator]);
    BytesOfConcat(before + [separator], after);
  }

  lemma {:induction false} JoinBytes(texts: seq<string>, separator: char)
    requires texts != [] && separator as int < 0x80
    ensures Bytes(Join(texts, separator)) == TotalBytes(texts) + |texts| - 1
  {
    assert TotalBytes(texts) == Bytes(texts[0]) + TotalBytes(texts[1..]);
    if |texts| > 1 {
      JoinBytes(texts[1..], separator);
      BytesAround(texts[0], separator, Join(texts[1..], separator));
    }
  }

  lemma {:induction false} TotalAtMost(texts: seq<string>, each: nat)
    requires forall i | 0 <= i < |texts| :: Bytes(texts[i]) <= each
    ensures TotalBytes(texts) <= each * |texts|
  {
    if texts != [] {
      TotalAtMost(texts[1..], each);
      OneMoreTimes(each, |texts| - 1);
    }
  }

  // ------------------------------------------------------ decimal numbers

  function Digit(d: nat): char
    requires d < 10
  {
    (48 + d) as char
  }

  function DigitValue(c: char): nat
    requires IsDigit(c)
  {
    c as int - 48
  }

  predicate AllDigits(s: string) {
    forall c | c in s :: IsDigit(c)
  }

  function Decimal(n: nat): string {
    if n < 10 then [Digit(n)] else Decimal(n / 10) + [Digit(n % 10)]
  }

  function Value(s: string): nat
    requires AllDigits(s)
  {
    if s == "" then 0 else 10 * Value(s[..|s| - 1]) + DigitValue(s[|s| - 1])
  }

  lemma {:induction false} DecimalRoundTrip(n: nat)
    ensures AllDigits(Decimal(n)) && Decimal(n) != "" && Value(Decimal(n)) == n
  {
    if n >= 10 {
      DecimalRoundTrip(n / 10);
      assert Decimal(n)[..|Decimal(n)| - 1] == Decimal(n / 10);
    }
  }

  lemma {:induction false} DecimalLength(n: nat, digits: nat)
    requires digits >= 1 && n < Power10(digits)
    ensures |Decimal(n)| <= digits
    ensures digits >= 2 && n >= Power10(digits - 1) ==> |Decimal(n)| == digits
    decreases digits
  {
    if n >= 10 {
      DecimalLength(n / 10, digits - 1);
    }
  }

  function Power10(n: nat): nat {
    if n == 0 then 1 else 10 * Power10(n - 1)
  }
}

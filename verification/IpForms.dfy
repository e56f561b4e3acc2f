/**
 * The canonical address texts: dotted decimal for IPv4, and for IPv6 those of sections 4 and 5 of RFC 5952.
 * Groups are written without leading zeros, the first longest run of two or more zero groups becomes a double
 * colon, and addresses that map an IPv4 address end in that.
 */
module IpForms {

  import opened Cidr
  import opened NetworkText
  import opened Text
  import opened Wrappers

  // ------------------------------------------------ positional notation

  /** A place is an octet, or a group of sixteen bits. */
  datatype Place = Octet | Group {
    function Radix(): nat {
      if Octet? then 256 else 65536
    }

    function Upper(v: nat): nat {
      if Octet? then v / 256 else v / 65536
    }

    function Lower(v: nat): (r: nat)
      ensures r < Radix()
    {
      if Octet? then v % 256 else v % 65536
    }
  }

  /** The lowest `count` places of a number, highest first. */
  function Places(v: nat, place: Place, count: nat): (places: seq<nat>)
    ensures |places| == count && forall i | 0 <= i < count :: places[i] < place.Radix()
  {
    if count == 0 then [] else Places(place.Upper(v), place, count - 1) + [place.Lower(v)]
  }

  /** How many numbers have that many places. */
  function Range(place: Place, count: nat): nat {
    if count == 0 then 1 else (if place.Octet? then 256 * Range(place, count - 1) else 65536 * Range(place, count - 1))
  }

  lemma {:induction false} PlacesDiffer(v: nat, w: nat, place: Place, count: nat)
    requires v < Range(place, count) && w < Range(place, count)
    requires Places(v, place, count) == Places(w, place, count)
    ensures v == w
  {
    if count > 0 {
      var a, b := Places(v, place, count), Places(w, place, count);
      assert a[..count - 1] == Places(place.Upper(v), place, count - 1) && a[count - 1] == place.Lower(v);
      assert b[..count - 1] == Places(place.Upper(w), place, count - 1) && b[count - 1] == place.Lower(w);
      PlacesDiffer(place.Upper(v), place.Upper(w), place, count - 1);
    }
  }

  // ------------------------------------------------ one place as text

  function HexDigit(d: nat): char
    requires d < 16
  {
    if d < 10 then Digit(d) else (d + 87) as char
  }

  function Hex(n: nat): string {
    if n < 16 then [HexDigit(n)] else Hex(n / 16) + [HexDigit(n % 16)]
  }

  lemma HexDigitsDiffer(m: nat, n: nat)
    requires m < 16 && n < 16 && HexDigit(m) == HexDigit(n)
    ensures m == n
  {
  }

  lemma HexEnds(n: nat)
    ensures Hex(n) != "" && Hex(n)[|Hex(n)| - 1] == HexDigit(n % 16)
    ensures |Hex(n)| == 1 <==> n < 16
    ensures n >= 16 ==> Hex(n)[..|Hex(n)| - 1] == Hex(n / 16)
  {
  }

  lemma {:induction false} HexDiffers(m: nat, n: nat)
    requires Hex(m) == Hex(n)
    ensures m == n
  {
    HexEnds(m);
    HexEnds(n);
    HexDigitsDiffer(m % 16, n % 16);
    if m >= 16 {
      HexDiffers(m / 16, n / 16);
    }
  }

  lemma DecimalDiffers(m: nat, n: nat)
    requires Decimal(m) == Decimal(n)
    ensures m == n
  {
    DecimalRoundTrip(m);
    DecimalRoundTrip(n);
  }

  // ------------------------------------------------ addresses as text

  function Groups(places: seq<nat>): (texts: seq<string>)
    ensures |texts| == |places| && forall i | 0 <= i < |places| :: texts[i] == Hex(places[i])
  {
    seq(|places|, i requires 0 <= i < |places| => Hex(places[i]))
  }

  function Octets(places: seq<nat>): (texts: seq<string>)
    ensures |texts| == |places| && forall i | 0 <= i < |places| :: texts[i] == Decimal(places[i])
  {
    seq(|places|, i requires 0 <= i < |places| => Decimal(places[i]))
  }

  /** A run of zero groups. */
  datatype Span = Span(start: nat, len: nat)

  /** The run of zero groups that ends before group `n`, and the first longest one before it. */
  function ScanZeros(places: seq<nat>, n: nat): (Span, Span)
    requires n <= |places|
  {
    if n == 0 then (Span(0, 0), Span(0, 0))
    else
      var (current, longest) := ScanZeros(places, n - 1);
      if places[n - 1] != 0 then (Span(n, 0), longest)
      else
        var grown := Span(current.start, current.len + 1);
        (grown, if grown.len > longest.len then grown else longest)
  }

  function LongestZeros(places: seq<nat>): (zeros: Span)
    ensures zeros.start + zeros.len <= |places|
  {
    ScanIsLongest(places, |places|);
    ScanZeros(places, |places|).1
  }

  predicate IsMapped(places: seq<nat>)
    requires |places| == 8
  {
    (forall i | 0 <= i < 5 :: places[i] == 0) && places[5] == 0xffff
  }

  function MappedOctets(places: seq<nat>): seq<nat>
    requires |places| == 8
  {
    [places[6] / 256, places[6] % 256, places[7] / 256, places[7] % 256]
  }

  const MAPPED := "::ffff:"

  function Shortened(front: seq<nat>, back: seq<nat>): string {
    Join(Groups(front), ':') + "::" + Join(Groups(back), ':')
  }

  function GroupsText(places: seq<nat>): string
    requires |places| == 8
  {
    var zeros := LongestZeros(places);
    if IsMapped(places) then MAPPED + Join(Octets(MappedOctets(places)), '.')
    else if zeros.len > 1 then
      Shortened(places[..zeros.start], places[zeros.start + zeros.len..])
    else Join(Groups(places), ':')
  }

  function ShortText(ip: IpAddr): string {
    match ip
    case V4(value) => Join(Octets(Places(value, Octet, 4)), '.')
    case V6(value) => GroupsText(Places(value, Group, 8))
  }

  /** No run of zeros before group `n` is longer, and none as long begins earlier. */
  ghost predicate NoneBetter(places: seq<nat>, n: nat, longest: Span) {
    forall start: nat, len: nat | 0 < len && start + len <= n && AllZero(places, Span(start, len)) ::
      len < longest.len || (len == longest.len && longest.start <= start)
  }

  lemma NoneBetterAfterOther(places: seq<nat>, n: nat, longest: Span)
    requires n < |places| && places[n] != 0 && NoneBetter(places, n, longest)
    ensures NoneBetter(places, n + 1, longest)
  {
  }

  lemma NoneBetterAfterZero(places: seq<nat>, n: nat, current: Span, longest: Span)
    requires n < |places| && places[n] == 0 && NoneBetter(places, n, longest)
    requires current.start + current.len == n && longest.start + longest.len <= n
    requires current.start > 0 ==> places[current.start - 1] != 0
    ensures var grown := Span(current.start, current.len + 1);
            NoneBetter(places, n + 1, if grown.len > longest.len then grown else longest)
  {
    var grown := Span(current.start, current.len + 1);
    var best := if grown.len > longest.len then grown else longest;
    forall start: nat, len: nat | 0 < len && start + len <= n + 1 && AllZero(places, Span(start, len))
      ensures len < best.len || (len == best.len && best.start <= start)
    {
      if start + len == n + 1 {
        assert current.start == 0 || places[current.start - 1] != 0;
        assert current.start <= start;
      }
    }
  }

  lemma ZerosGrow(places: seq<nat>, run: Span)
    requires AllZero(places, run) && run.start + run.len < |places| && places[run.start + run.len] == 0
    ensures AllZero(places, Span(run.start, run.len + 1))
  {
  }

  /** What a scan has found before group `n`: the run of zeros that ends there, and the first longest one. */
  ghost predicate Scanned(places: seq<nat>, n: nat, current: Span, longest: Span)
    requires n <= |places|
  {
    && current.start + current.len == n && AllZero(places, current) && AllZero(places, longest)
    && longest.start + longest.len <= n && current.len <= longest.len
    && (current.start > 0 ==> places[current.start - 1] != 0)
    && NoneBetter(places, n, longest)
  }

  lemma ScannedZero(places: seq<nat>, n: nat, current: Span, longest: Span)
    requires n < |places| && places[n] == 0 && Scanned(places, n, current, longest)
    ensures var grown := Span(current.start, current.len + 1);
            Scanned(places, n + 1, grown, if grown.len > longest.len then grown else longest)
  {
    ZerosGrow(places, current);
    NoneBetterAfterZero(places, n, current, longest);
  }

  lemma ScannedOther(places: seq<nat>, n: nat, current: Span, longest: Span)
    requires n < |places| && places[n] != 0 && Scanned(places, n, current, longest)
    ensures Scanned(places, n + 1, Span(n + 1, 0), longest)
  {
    NoneBetterAfterOther(places, n, longest);
  }

  /** The run found lies inside the groups and holds only zeros; every other run of zeros is shorter, or as
      long and later. */
  lemma {:induction false} ScanIsLongest(places: seq<nat>, n: nat)
    requires n <= |places|
    ensures Scanned(places, n, ScanZeros(places, n).0, ScanZeros(places, n).1)
  {
    if n > 0 {
      ScanIsLongest(places, n - 1);
      var before := ScanZeros(places, n - 1);
      if places[n - 1] == 0 {
        ScannedZero(places, n - 1, before.0, before.1);
      } else {
        ScannedOther(places, n - 1, before.0, before.1);
      }
    }
  }

  predicate AllZero(places: seq<nat>, run: Span) {
    run.start + run.len <= |places| && forall i | run.start <= i < run.start + run.len :: places[i] == 0
  }

  predicate FreeOf(texts: seq<string>, separator: char) {
    forall i | 0 <= i < |texts| :: separator !in texts[i]
  }

  lemma JoinedDiffer(a: seq<string>, b: seq<string>, separator: char)
    requires a != [] && b != [] && FreeOf(a, separator) && FreeOf(b, separator)
    requires Join(a, separator) == Join(b, separator)
    ensures a == b
  {
    forall piece | piece in a ensures Free(piece, {separator}) {
      var i :| 0 <= i < |a| && a[i] == piece;
    }
    forall piece | piece in b ensures Free(piece, {separator}) {
      var i :| 0 <= i < |b| && b[i] == piece;
    }
    SplitJoin(a, separator);
    SplitJoin(b, separator);
  }

  lemma HexDigitIsPlain(d: nat)
    requires d < 16
    ensures AddressChar(HexDigit(d)) && HexDigit(d) !in {'.', ':'}
  {
  }

  lemma {:induction false} HexChars(n: nat, digits: nat)
    requires digits > 0 && n < Power16(digits)
    ensures IsPlain(Hex(n)) && |Hex(n)| <= digits && (n >= Power16(digits - 1) ==> |Hex(n)| == digits)
  {
    HexDigitIsPlain(n % 16);
    if n >= 16 {
      HexChars(n / 16, digits - 1);
    }
  }

  function Power16(n: nat): (power: nat)
    ensures power >= 1
  {
    if n == 0 then 1 else 16 * Power16(n - 1)
  }

  lemma FourDigits(n: nat)
    requires n < 0x1_0000
    ensures IsPlain(Hex(n)) && |Hex(n)| <= 4 && (n >= 0x1000 ==> |Hex(n)| == 4)
  {
    assert Power16(1) == 16 && Power16(2) == 256 && Power16(3) == 4096 && Power16(4) == 65536;
    HexChars(n, 4);
  }

  lemma OctetIsPlain(n: nat)
    requires n < 256
    ensures IsPlain(Decimal(n)) && |Decimal(n)| <= 3
  {
    DecimalRoundTrip(n);
    ThreeDigits(n);
  }

  /** A piece made of address characters other than separators. */
  predicate IsPlain(text: string) {
    text != "" && forall c | c in text :: AddressChar(c) && c !in {'.', ':'}
  }

  predicate PlainPieces(texts: seq<string>) {
    forall i | 0 <= i < |texts| :: IsPlain(texts[i])
  }

  predicate AllBelow(places: seq<nat>, bound: nat) {
    forall i | 0 <= i < |places| :: places[i] < bound
  }

  lemma OctetsArePlain(places: seq<nat>)
    requires AllBelow(places, 256)
    ensures var texts := Octets(places); PlainPieces(texts) && forall i | 0 <= i < |texts| :: |texts[i]| <= 3
  {
    forall i | 0 <= i < |places| ensures IsPlain(Octets(places)[i]) && |Octets(places)[i]| <= 3 {
      OctetIsPlain(places[i]);
    }
  }

  lemma GroupsArePlain(places: seq<nat>)
    requires AllBelow(places, 0x1_0000)
    ensures var texts := Groups(places); PlainPieces(texts) && forall i | 0 <= i < |texts| :: |texts[i]| <= 4
  {
    forall i | 0 <= i < |places| ensures IsPlain(Groups(places)[i]) && |Groups(places)[i]| <= 4 {
      FourDigits(places[i]);
    }
  }

  lemma {:induction false} JoinedChars(texts: seq<string>, separator: char, each: nat)
    requires texts != [] && PlainPieces(texts) && separator in {'.', ':'}
    requires forall i | 0 <= i < |texts| :: |texts[i]| <= each
    ensures Join(texts, separator) != "" && |Join(texts, separator)| + 1 <= (each + 1) * |texts|
    ensures forall c | c in Join(texts, separator) :: AddressChar(c)
  {
    if |texts| > 1 {
      JoinedChars(texts[1..], separator, each);
      assert (each + 1) * |texts| == (each + 1) * |texts[1..]| + each + 1;
    } else {
      assert (each + 1) * 1 == each + 1;
    }
  }

  lemma {:induction false} JoinedLength(texts: seq<string>, separator: char, each: nat)
    requires texts != [] && forall i | 0 <= i < |texts| :: |texts[i]| == each
    ensures |Join(texts, separator)| + 1 == (each + 1) * |texts|
  {
    if |texts| > 1 {
      JoinedLength(texts[1..], separator, each);
      assert (each + 1) * |texts| == (each + 1) * |texts[1..]| + each + 1;
    } else {
      assert (each + 1) * 1 == each + 1;
    }
  }

  lemma JoinedSize(texts: seq<string>, separator: char, each: nat)
    requires PlainPieces(texts) && separator in {'.', ':'}
    requires forall i | 0 <= i < |texts| :: |texts[i]| <= each
    ensures |Join(texts, separator)| <= (each + 1) * |texts| && (Join(texts, separator) == "" <==> texts == [])
    ensures forall c | c in Join(texts, separator) :: AddressChar(c)
  {
    if texts != [] {
      JoinedChars(texts, separator, each);
    }
  }

  lemma {:induction false} JoinedHas(texts: seq<string>, separator: char, c: char)
    requires PlainPieces(texts) && separator in {'.', ':'} && c in {'.', ':'}
    ensures c in Join(texts, separator) <==> c == separator && |texts| > 1
  {
    if |texts| > 1 {
      JoinedHas(texts[1..], separator, c);
    }
  }

  // ------------------------------------------------ the double colon

  predicate DoubleAt(text: string, k: nat) {
    k + 1 < |text| && text[k] == ':' && text[k + 1] == ':'
  }

  /** Groups joined alone neither begin nor end with a colon, and two colons never meet. */
  lemma {:induction false} JoinedHasNoDouble(texts: seq<string>)
    requires texts != [] && PlainPieces(texts)
    ensures var text := Join(texts, ':');
            && text != "" && text[0] != ':' && text[|text| - 1] != ':'
            && forall k: nat :: !DoubleAt(text, k)
  {
    if |texts| == 1 {
      assert forall i | 0 <= i < |texts[0]| :: texts[0][i] in texts[0];
    } else {
      JoinedHasNoDouble(texts[1..]);
      assert forall i | 0 <= i < |texts[0]| :: texts[0][i] in texts[0];
      var rest, text := Join(texts[1..], ':'), Join(texts, ':');
      var cut := |texts[0]|;
      assert text == texts[0] + [':'] + rest;
      forall k: nat ensures !DoubleAt(text, k) {
        if k > cut {
          assert !DoubleAt(rest, k - cut - 1);
        }
      }
    }
  }

  /** A text that ends before a double colon. */
  ghost predicate EndsPlain(text: string) {
    (text != "" ==> text[|text| - 1] != ':') && forall k: nat :: !DoubleAt(text, k)
  }

  lemma NoEarlierDouble(a: string, a': string, k: nat)
    requires EndsPlain(a) && k < |a|
    ensures !DoubleAt(a + "::" + a', k)
  {
    assert !DoubleAt(a, k) && a[|a| - 1] != ':';
  }

  /** The double colon of a text is where the part before it ends. */
  lemma SameCut(a: string, a': string, b: string, b': string)
    requires EndsPlain(a) && a + "::" + a' == b + "::" + b'
    ensures |a| <= |b|
  {
    assert DoubleAt(b + "::" + b', |b|);
    if |b| < |a| {
      NoEarlierDouble(a, a', |b|);
    }
  }

  lemma SameParts(a: string, a': string, b: string, b': string)
    requires EndsPlain(a) && EndsPlain(b) && a + "::" + a' == b + "::" + b'
    ensures a == b && a' == b'
  {
    SameCut(a, a', b, b');
    SameCut(b, b', a, a');
    assert a == (a + "::" + a')[..|a|] && b == (b + "::" + b')[..|a|];
    assert a' == (a + "::" + a')[|a| + 2..] && b' == (b + "::" + b')[|a| + 2..];
  }

  // ------------------------------------------------ IPv6 texts differ

  lemma GroupsDiffer(a: seq<nat>, b: seq<nat>)
    requires AllBelow(a, 0x1_0000) && AllBelow(b, 0x1_0000)
    requires Join(Groups(a), ':') == Join(Groups(b), ':')
    ensures a == b
  {
    GroupsArePlain(a);
    GroupsArePlain(b);
    JoinedSize(Groups(a), ':', 4);
    JoinedSize(Groups(b), ':', 4);
    if a != [] && b != [] {
      JoinedDiffer(Groups(a), Groups(b), ':');
      assert |a| == |b|;
      forall i | 0 <= i < |a| ensures a[i] == b[i] {
        assert Groups(a)[i] == Groups(b)[i];
        HexDiffers(a[i], b[i]);
      }
    }
  }

  lemma OctetsDiffer(a: seq<nat>, b: seq<nat>)
    requires |a| == |b| == 4 && AllBelow(a, 256) && AllBelow(b, 256)
    requires Join(Octets(a), '.') == Join(Octets(b), '.')
    ensures a == b
  {
    OctetsArePlain(a);
    OctetsArePlain(b);
    JoinedDiffer(Octets(a), Octets(b), '.');
    forall i | 0 <= i < 4 ensures a[i] == b[i] {
      assert Octets(a)[i] == Octets(b)[i];
      DecimalDiffers(a[i], b[i]);
    }
  }

  /** The three ways in which groups are written. */
  predicate IsShortened(places: seq<nat>)
    requires |places| == 8
  {
    !IsMapped(places) && LongestZeros(places).len > 1
  }

  function Zeros(n: nat): seq<nat> {
    seq(n, _ => 0)
  }

  /** The groups before and behind the zeros that are left out. */
  lemma ShortenedParts(places: seq<nat>) returns (front: seq<nat>, back: seq<nat>)
    requires |places| == 8 && AllBelow(places, 0x1_0000) && IsShortened(places)
    ensures GroupsText(places) == Shortened(front, back)
    ensures HasParts(places, front, back)
  {
    var zeros := LongestZeros(places);
    front, back := places[..zeros.start], places[zeros.start + zeros.len..];
    ScanIsLongest(places, 8);
    CutIntoThree(places, zeros);
  }

  lemma CutIntoThree(places: seq<nat>, zeros: Span)
    requires AllZero(places, zeros)
    ensures places == places[..zeros.start] + Zeros(zeros.len) + places[zeros.start + zeros.len..]
  {
    assert places[zeros.start..zeros.start + zeros.len] == Zeros(zeros.len);
  }

  lemma JoinedEndsPlain(places: seq<nat>)
    requires AllBelow(places, 0x1_0000)
    ensures EndsPlain(Join(Groups(places), ':'))
  {
    GroupsArePlain(places);
    if places != [] {
      JoinedHasNoDouble(Groups(places));
    }
  }

  lemma ShortenedPartsDiffer(front: seq<nat>, back: seq<nat>, front': seq<nat>, back': seq<nat>)
    requires AllBelow(front, 0x1_0000) && AllBelow(back, 0x1_0000)
    requires AllBelow(front', 0x1_0000) && AllBelow(back', 0x1_0000)
    requires Shortened(front, back) == Shortened(front', back')
    ensures front == front' && back == back'
  {
    JoinedEndsPlain(front);
    JoinedEndsPlain(front');
    SameParts(Join(Groups(front), ':'), Join(Groups(back), ':'), Join(Groups(front'), ':'), Join(Groups(back'), ':'));
    GroupsDiffer(front, front');
    GroupsDiffer(back, back');
  }

  /** Groups as the part before the zeros that are left out, and the part behind. */
  predicate HasParts(places: seq<nat>, front: seq<nat>, back: seq<nat>) {
    && AllBelow(front, 0x1_0000) && AllBelow(back, 0x1_0000) && |front| + |back| <= 6
    && places == front + Zeros(8 - |front| - |back|) + back
  }

  lemma PartsDiffer(a: seq<nat>, b: seq<nat>, front: seq<nat>, back: seq<nat>, front': seq<nat>, back': seq<nat>)
    requires HasParts(a, front, back) && HasParts(b, front', back')
    requires Shortened(front, back) == Shortened(front', back')
    ensures a == b
  {
    ShortenedPartsDiffer(front, back, front', back');
  }

  lemma ShortenedDiffer(a: seq<nat>, b: seq<nat>)
    requires |a| == |b| == 8 && AllBelow(a, 0x1_0000) && AllBelow(b, 0x1_0000)
    requires IsShortened(a) && IsShortened(b) && GroupsText(a) == GroupsText(b)
    ensures a == b
  {
    var front, back := ShortenedParts(a);
    var front', back' := ShortenedParts(b);
    PartsDiffer(a, b, front, back, front', back');
  }

  lemma MappedDiffer(a: seq<nat>, b: seq<nat>)
    requires |a| == |b| == 8 && AllBelow(a, 0x1_0000) && AllBelow(b, 0x1_0000)
    requires IsMapped(a) && IsMapped(b) && GroupsText(a) == GroupsText(b)
    ensures a == b
  {
    assert GroupsText(a)[|MAPPED|..] == Join(Octets(MappedOctets(a)), '.');
    assert GroupsText(b)[|MAPPED|..] == Join(Octets(MappedOctets(b)), '.');
    OctetsDiffer(MappedOctets(a), MappedOctets(b));
    assert MappedOctets(a)[0] == MappedOctets(b)[0] && MappedOctets(a)[1] == MappedOctets(b)[1];
    assert MappedOctets(a)[2] == MappedOctets(b)[2] && MappedOctets(a)[3] == MappedOctets(b)[3];
    assert a[6] == b[6] && a[7] == b[7];
  }

  /** Only mapped addresses have a dot, and of the others only shortened ones a double colon. */
  lemma MappedHasDot(places: seq<nat>)
    requires |places| == 8 && AllBelow(places, 0x1_0000) && IsMapped(places)
    ensures '.' in GroupsText(places) && ':' in GroupsText(places)
    ensures 1 <= |GroupsText(places)| <= MAX_ADDRESS_BYTES && forall c | c in GroupsText(places) :: AddressChar(c)
  {
    OctetsArePlain(MappedOctets(places));
    JoinedHas(Octets(MappedOctets(places)), '.', '.');
    JoinedSize(Octets(MappedOctets(places)), '.', 3);
    assert MAPPED[0] == ':';
  }

  lemma GroupsPartIsTidy(places: seq<nat>)
    requires AllBelow(places, 0x1_0000)
    ensures var text := Join(Groups(places), ':');
            '.' !in text && |text| <= 5 * |places| && forall c | c in text :: AddressChar(c)
  {
    GroupsArePlain(places);
    JoinedHas(Groups(places), ':', '.');
    JoinedSize(Groups(places), ':', 4);
  }

  lemma DoubleBetween(before: string, after: string)
    ensures var text := before + "::" + after;
            DoubleAt(text, |before|) && forall c :: c in text <==> c in before || c == ':' || c in after
  {
    assert "::"[0] == ':' && "::"[1] == ':';
  }

  lemma ShortenedPartsAreTidy(front: seq<nat>, back: seq<nat>)
    requires AllBelow(front, 0x1_0000) && AllBelow(back, 0x1_0000) && |front| + |back| <= 6
    ensures var text := Shortened(front, back);
            && DoubleAt(text, |Join(Groups(front), ':')|) && '.' !in text && ':' in text
            && 1 <= |text| <= MAX_ADDRESS_BYTES && forall c | c in text :: AddressChar(c)
  {
    GroupsPartIsTidy(front);
    GroupsPartIsTidy(back);
    DoubleBetween(Join(Groups(front), ':'), Join(Groups(back), ':'));
  }

  lemma ShortenedHasDouble(places: seq<nat>)
    requires |places| == 8 && AllBelow(places, 0x1_0000) && IsShortened(places)
    ensures exists k: nat :: DoubleAt(GroupsText(places), k)
    ensures '.' !in GroupsText(places) && ':' in GroupsText(places)
    ensures 1 <= |GroupsText(places)| <= MAX_ADDRESS_BYTES && forall c | c in GroupsText(places) :: AddressChar(c)
  {
    var front, back := ShortenedParts(places);
    ShortenedPartsAreTidy(front, back);
  }

  lemma WholeHasNoDouble(places: seq<nat>)
    requires |places| == 8 && AllBelow(places, 0x1_0000) && !IsMapped(places) && !IsShortened(places)
    ensures GroupsText(places) == Join(Groups(places), ':')
    ensures forall k: nat :: !DoubleAt(GroupsText(places), k)
    ensures '.' !in GroupsText(places) && ':' in GroupsText(places)
    ensures 1 <= |GroupsText(places)| <= MAX_ADDRESS_BYTES && forall c | c in GroupsText(places) :: AddressChar(c)
  {
    GroupsArePlain(places);
    JoinedHasNoDouble(Groups(places));
    JoinedHas(Groups(places), ':', '.');
    JoinedHas(Groups(places), ':', ':');
    JoinedChars(Groups(places), ':', 4);
  }

  lemma GroupsTextIsTidy(places: seq<nat>)
    requires |places| == 8 && AllBelow(places, 0x1_0000)
    ensures 1 <= |GroupsText(places)| <= MAX_ADDRESS_BYTES && forall c | c in GroupsText(places) :: AddressChar(c)
    ensures ':' in GroupsText(places) && ('.' in GroupsText(places) <==> IsMapped(places))
    ensures !IsMapped(places) ==> ((exists k: nat :: DoubleAt(GroupsText(places), k)) <==> IsShortened(places))
  {
    if IsMapped(places) {
      MappedHasDot(places);
    } else if IsShortened(places) {
      ShortenedHasDouble(places);
    } else {
      WholeHasNoDouble(places);
    }
  }

  lemma GroupsTextsDiffer(a: seq<nat>, b: seq<nat>)
    requires |a| == |b| == 8 && AllBelow(a, 0x1_0000) && AllBelow(b, 0x1_0000)
    requires GroupsText(a) == GroupsText(b)
    ensures a == b
  {
    GroupsTextIsTidy(a);
    GroupsTextIsTidy(b);
    if IsMapped(a) {
      MappedDiffer(a, b);
    } else if IsShortened(a) {
      ShortenedDiffer(a, b);
    } else {
      WholeHasNoDouble(a);
      WholeHasNoDouble(b);
      GroupsDiffer(a, b);
    }
  }

  lemma NoZeros(places: seq<nat>)
    requires forall i | 0 <= i < |places| :: places[i] != 0
    ensures LongestZeros(places).len == 0
  {
    ScanIsLongest(places, |places|);
    if LongestZeros(places).len > 0 {
      FirstIsZero(places, LongestZeros(places));
    }
  }

  lemma FirstIsZero(places: seq<nat>, run: Span)
    requires AllZero(places, run) && run.len > 0
    ensures places[run.start] == 0
  {
  }

  /** The lowest `count` groups all have four digits. */
  predicate IsWide(v: nat, count: nat) {
    forall k | 0 <= k < count :: 0x1000 <= Places(v, Group, count)[k]
  }

  lemma WideStep(v: nat, high: nat, low: nat, count: nat)
    requires v == high * 0x1_0000 + low && 0x1000 <= low < 0x1_0000 && IsWide(high, count)
    ensures IsWide(v, count + 1)
  {
    assert Places(v, Group, count + 1) == Places(high, Group, count) + [low];
  }

  /** Groups of four digits are written in full. */
  lemma WideGroupsText(places: seq<nat>)
    requires |places| == 8 && forall i | 0 <= i < 8 :: 0x1000 <= places[i] < 0x1_0000
    ensures |GroupsText(places)| == MAX_ADDRESS_BYTES
  {
    NoZeros(places);
    forall i | 0 <= i < 8 ensures |Groups(places)[i]| == 4 {
      FourDigits(places[i]);
    }
    JoinedLength(Groups(places), ':', 4);
  }

  lemma WideText(value: nat)
    requires IsWide(value, 8)
    ensures |ShortText(V6(value))| == MAX_ADDRESS_BYTES
  {
    WideGroupsText(Places(value, Group, 8));
  }

  lemma ShortTextIsTidy(ip: IpAddr)
    ensures 1 <= |ShortText(ip)| <= MAX_ADDRESS_BYTES && forall c | c in ShortText(ip) :: AddressChar(c)
    ensures ip.V6? <==> ':' in ShortText(ip)
  {
    match ip
    case V4(value) =>
      var texts := Octets(Places(value, Octet, 4));
      OctetsArePlain(Places(value, Octet, 4));
      JoinedChars(texts, '.', 3);
      JoinedHas(texts, '.', ':');
    case V6(value) =>
      GroupsTextIsTidy(Places(value, Group, 8));
  }

  /** `count` is a parameter that can only be four, so that the solver keeps the powers of two as terms. */
  lemma RangeOfV4(count: nat)
    requires count == 4
    ensures Range(Octet, count) == Pow2(8 * count)
  {
    assert Range(Octet, count) == 256 * (256 * (256 * (256 * Range(Octet, count - 4))));
    Pow2Byte(8 * (count - 4));
    Pow2Byte(8 * (count - 3));
    Pow2Byte(8 * (count - 2));
    Pow2Byte(8 * (count - 1));
  }

  lemma {:induction false} RangeOfV6(count: nat)
    ensures Range(Group, count) == Pow2(16 * count)
  {
    if count > 0 {
      RangeOfV6(count - 1);
      Pow2Byte(16 * (count - 1));
      Pow2Byte(16 * (count - 1) + 8);
    }
  }

  lemma V6TextsDiffer(v: nat, w: nat)
    requires V6(v).Valid() && V6(w).Valid() && ShortText(V6(v)) == ShortText(V6(w))
    ensures v == w
  {
    GroupsTextsDiffer(Places(v, Group, 8), Places(w, Group, 8));
    RangeOfV6(8);
    PlacesDiffer(v, w, Group, 8);
  }

  lemma V4TextsDiffer(v: nat, w: nat)
    requires V4(v).Valid() && V4(w).Valid() && ShortText(V4(v)) == ShortText(V4(w))
    ensures v == w
  {
    OctetsDiffer(Places(v, Octet, 4), Places(w, Octet, 4));
    RangeOfV4(4);
    PlacesDiffer(v, w, Octet, 4);
  }

  /** Two addresses with the same text are the same, whatever their families. */
  lemma ShortTextsDiffer(a: IpAddr, b: IpAddr)
    requires a.Valid() && b.Valid() && ShortText(a) == ShortText(b)
    ensures a == b
  {
    ShortTextIsTidy(a);
    ShortTextIsTidy(b);
    if a.V4? {
      V4TextsDiffer(a.value, b.value);
    } else {
      V6TextsDiffer(a.value, b.value);
    }
  }

  /** The address with this text, if there is one. */
  ghost function ReadShort(text: string): Option<IpAddr> {
    if ip: IpAddr :| ip.Valid() && ShortText(ip) == text then Some(ip) else None
  }

  ghost function ShortForms(): IpText {
    IpText(text => ReadShort(text), ip => ShortText(ip))
  }

  lemma ShortFormsAreFaithful()
    ensures Faithful(ShortForms())
  {
    forall ip: IpAddr | ip.Valid()
      ensures ReadShort(ShortText(ip)) == Some(ip)
      ensures 1 <= |ShortText(ip)| <= MAX_ADDRESS_BYTES && forall c | c in ShortText(ip) :: AddressChar(c)
    {
      ShortTextIsTidy(ip);
      var read := ReadShort(ShortText(ip));
      assert read.Some? && read.value.Valid() && ShortText(read.value) == ShortText(ip);
      ShortTextsDiffer(read.value, ip);
    }
  }
}

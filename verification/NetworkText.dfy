/**
 * Networks as text: an address, optionally with a slash and a prefix length. How addresses
 * themselves are written is a parameter; everything else is spelled out.
 */
module NetworkText {

  import opened Cidr
  import opened Text
  import opened Wrappers

  const MAX_ADDRESS_BYTES := 39
  const MAX_NETWORK_BYTES := 43

  /** How addresses are read and written. */
  datatype IpText = IpText(parse: string -> Option<IpAddr>, show: IpAddr -> string)

  /** The characters of written addresses. */
  predicate AddressChar(c: char) {
    IsDigit(c) || 'a' <= c <= 'f' || c == '.' || c == ':'
  }

  /** Only addresses are read, a written address reads back, and it is short and plain. */
  ghost predicate Faithful(ips: IpText) {
    && (forall text :: ips.parse(text).Some? ==> ips.parse(text).value.Valid())
    && (forall ip: IpAddr :: ip.Valid() ==>
          && ips.parse(ips.show(ip)) == Some(ip)
          && 1 <= |ips.show(ip)| <= MAX_ADDRESS_BYTES
          && forall c | c in ips.show(ip) :: AddressChar(c))
  }

  /** An unsigned byte: digits with an optional plus sign. */
  function ParsePrefix(text: string): Option<nat> {
    var digits := if text != "" && text[0] == '+' then text[1..] else text;
    if digits == "" || !AllDigits(digits) || Value(digits) > 255 then None else Some(Value(digits))
  }

  function ReadNetwork(text: string, ips: IpText): Option<Network> {
    var value := Trim(text);
    match SplitOnce(value, '/')
    case None =>
      var ip := ips.parse(value);
      if ip.None? then None else Some(Network(ip.value, None))
    case Some((address, length)) =>
      var ip, prefix := ips.parse(address), ParsePrefix(length);
      if ip.None? || prefix.None? then None else Some(Network(ip.value, prefix))
  }

  function Show(network: Network, ips: IpText): string {
    if network.prefix.None? then ips.show(network.ip)
    else ips.show(network.ip) + "/" + Decimal(network.prefix.value)
  }

  /** The normal form of a public network, or None where the source reports invalid input. */
  function ParseNetwork(text: string, ips: IpText): Option<string> {
    var network := ReadNetwork(text, ips);
    if network.None? || ValidatePublic(network.value).Err? then None else Some(Show(network.value, ips))
  }

  lemma PrefixReadsBack(n: nat)
    requires n <= 255
    ensures ParsePrefix(Decimal(n)) == Some(n)
  {
    DecimalRoundTrip(n);
    assert Decimal(n)[0] in Decimal(n);
  }

  predicate Tidy(text: string) {
    1 <= |text| <= MAX_NETWORK_BYTES && forall c | c in text :: AddressChar(c) || c == '/'
  }

  lemma TidyFacts(text: string)
    requires Tidy(text)
    ensures NoSpaces(text) && '#' !in text && ',' !in text && Bytes(text) == |text| <= MAX_NETWORK_BYTES
  {
    assert forall i | 0 <= i < |text| :: text[i] in text;
    BytesOfAscii(text);
  }

  lemma ShowIsTidy(network: Network, ips: IpText)
    requires Faithful(ips) && network.ip.Valid()
    requires network.prefix.Some? ==> network.prefix.value <= 128
    ensures Tidy(Show(network, ips)) && NoSpaces(Show(network, ips))
  {
    var address := ips.show(network.ip);
    if network.prefix.Some? {
      var n := network.prefix.value;
      DecimalRoundTrip(n);
      ThreeDigits(n);
    }
  }

  lemma ThreeDigits(n: nat)
    requires n <= 255
    ensures |Decimal(n)| <= 3
  {
    assert Power10(1) == 10 && Power10(2) == 100;
    DecimalLength(n, 3);
  }

  /** A written network reads back as itself. */
  lemma ShowReadsBack(network: Network, ips: IpText)
    requires Faithful(ips) && network.ip.Valid()
    requires network.prefix.Some? ==> network.prefix.value <= 128
    ensures ReadNetwork(Show(network, ips), ips) == Some(network)
  {
    var address := ips.show(network.ip);
    ShowIsTidy(network, ips);
    TrimNoSpaces(Show(network, ips));
    if network.prefix.None? {
      SplitOnceFree(address, '/');
    } else {
      SplitOnceAt(address, '/', Decimal(network.prefix.value));
      PrefixReadsBack(network.prefix.value);
    }
  }

  lemma AcceptedIsValid(text: string, ips: IpText)
    requires Faithful(ips) && ParseNetwork(text, ips).Some?
    ensures var network := ReadNetwork(text, ips).value;
            network.ip.Valid() && (network.prefix.Some? ==> network.prefix.value <= 128)
  {
    assert PrefixAllowed(ReadNetwork(text, ips).value);
  }

  /** Every accepted network is in normal form: tidy, at most 43 bytes, and accepted again unchanged. */
  lemma NormalFormIsFixpoint(text: string, ips: IpText)
    requires Faithful(ips) && ParseNetwork(text, ips).Some?
    ensures Tidy(ParseNetwork(text, ips).value) && NoSpaces(ParseNetwork(text, ips).value)
    ensures ParseNetwork(ParseNetwork(text, ips).value, ips) == ParseNetwork(text, ips)
  {
    var network := ReadNetwork(text, ips).value;
    AcceptedIsValid(text, ips);
    ShowIsTidy(network, ips);
    ShowReadsBack(network, ips);
  }
}

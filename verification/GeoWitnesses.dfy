/** Sources that are accepted and whose own lists are then refused. */
module GeoWitnesses {

  import opened Cidr
  import opened DomainNames
  import opened GeoArtifacts
  import opened GeoLists
  import opened GeoPrint
  import opened GeoReload
  import opened GeoSource
  import opened IpForms
  import opened NetworkText
  import opened Ordered
  import opened PublicRanges
  import opened Text
  import opened Wrappers

  // ------------------------------------------------ one domain listed both ways

  const EXAMPLE := "a.b"

  lemma ExampleIsCanonical()
    ensures Canonical(EXAMPLE)
  {
    SplitFree("b", {'.'});
    SplitAtSeparator("a", '.', "b");
    assert EXAMPLE == "a" + ['.'] + "b";
    assert Labels(EXAMPLE) == ["a", "b"];
    BytesOfAscii(EXAMPLE);
    assert 'b' in "b" && !IsDigit('b');
  }

  function BothWays(domain: string): Parsed {
    Parsed([domain], [Exact(domain), Suffix(domain)], [])
  }

  lemma BothWaysIsListed(domain: string)
    ensures Listed(Sets({domain}, {Exact(domain), Suffix(domain)}, {})) == BothWays(domain)
  {
    BeforeIsTotal();
    EntryBeforeIsTotal();
    AscendingOf([domain], Before);
    AscendingOf([Exact(domain), Suffix(domain)], EntryBefore);
    AscendingOf<string>([], Before);
    assert Elements([domain]) == {domain};
    assert Elements([Exact(domain), Suffix(domain)]) == {Exact(domain), Suffix(domain)};
    assert Elements<string>([]) == {};
  }

  lemma BothWaysIsNormal(domain: string, ips: IpText)
    requires Canonical(domain)
    ensures AllNormal(BothWays(domain), ips)
  {
    var parsed := BothWays(domain);
    assert forall i | 0 <= i < |parsed.entries| :: parsed.entries[i].domain == domain;
  }

  lemma BothWaysFits(domain: string, ips: IpText)
    requires Canonical(domain)
    ensures Bytes(FileText(Rules(BothWays(domain)))) <= MAX_SOURCE_BYTES
    ensures Lines(FileText(Rules(BothWays(domain)))) == Rules(BothWays(domain))
    ensures |Rules(BothWays(domain))| == 2 && ShortLines(Rules(BothWays(domain)))
  {
    var rules := Rules(BothWays(domain));
    BothWaysIsNormal(domain, ips);
    RulesAreCleanAndShort(BothWays(domain), ips);
    FileReadsBack(rules);
    FileBytes(rules);
    TotalAtMost(rules, MAX_LINE_BYTES);
  }

  /** The two rules of one domain read as that domain listed both ways. */
  lemma BothWaysReads(domain: string, ips: IpText)
    requires Canonical(domain)
    ensures Read(FileText(Rules(BothWays(domain))), ips) == Ok(BothWays(domain))
  {
    var parsed, sets := BothWays(domain), Sets({domain}, {Exact(domain), Suffix(domain)}, {});
    BothWaysFits(domain, ips);
    BothWaysSaid(domain, ips);
    BothWaysIsListed(domain);
    assert |sets.entries| <= 2;
    AcceptedIff(FileText(Rules(parsed)), ips);
  }

  lemma BothWaysSaid(domain: string, ips: IpText)
    requires Canonical(domain)
    ensures Readable(Rules(BothWays(domain)), LineReader(ips))
    ensures Said(EMPTY, Rules(BothWays(domain)), LineReader(ips)) == Sets({domain}, {Exact(domain), Suffix(domain)}, {})
  {
    var parsed, sets := BothWays(domain), Sets({domain}, {Exact(domain), Suffix(domain)}, {});
    BothWaysIsNormal(domain, ips);
    EntryRulesRead(parsed, ips);
    RulesRead(parsed, LineReader(ips));
    assert DomainsMatch(sets);
    RulesRebuild(Rules(parsed), parsed, sets, LineReader(ips));
  }

  lemma BothWaysIsWellFormed(domain: string, ips: IpText)
    requires Canonical(domain)
    ensures WellFormedParsed(BothWays(domain), ips) && DoubleMatch(BothWays(domain).entries)
  {
    BothWaysIsNormal(domain, ips);
    assert BothWays(domain).entries[0].domain == domain;
  }

  /** Any domain listed both ways makes an accepted source whose own lists, loaded again, are refused. */
  lemma ReloadFails(domain: string, ips: IpText)
    requires Canonical(domain)
    ensures var source := Read(FileText(Rules(BothWays(domain))), ips);
            && source.Ok?
            && Validated(source.value, Input([], []), ips).Ok?
            && var stored := Loaded(Validated(source.value, Input([], []), ips).value);
            Validated(source.value, stored, ips) == Err(InvalidInput)
  {
    BothWaysReads(domain, ips);
    BothWaysIsWellFormed(domain, ips);
    ReloadRebuildsIff(BothWays(domain), Input([], []), ips);
  }

  /** There is such a source. */
  lemma ReloadCanFail(ips: IpText)
    ensures exists text :: Read(text, ips) == Ok(BothWays(EXAMPLE))
    ensures var parsed := BothWays(EXAMPLE);
            && Validated(parsed, Input([], []), ips).Ok?
            && Validated(parsed, Loaded(Validated(parsed, Input([], []), ips).value), ips) == Err(InvalidInput)
  {
    ExampleIsCanonical();
    BothWaysReads(EXAMPLE, ips);
    ReloadFails(EXAMPLE, ips);
  }

  // ------------------------------------------------ sources that list networks, one a line

  /** Each line is a network as the reader would write it. */
  ghost predicate WrittenNetworks(lines: seq<string>, ips: IpText) {
    forall i | 0 <= i < |lines| ::
      NormalNetwork(lines[i], ips) && LineReader(ips)(lines[i]) == Some(NetworkItem(lines[i]))
  }

  lemma {:induction false} JoinReadsBack(lines: seq<string>)
    requires lines != [] && forall i | 0 <= i < |lines| :: Clean(lines[i])
    ensures Lines(Join(lines, '\n')) == lines
  {
    CleanFacts(lines[0]);
    if |lines| == 1 {
      SplitOnceFree(lines[0], '\n');
    } else {
      LinesStep(lines[0], Join(lines[1..], '\n'));
      JoinReadsBack(lines[1..]);
      assert lines == [lines[0]] + lines[1..];
    }
  }

  lemma {:induction false} ElementCount(lines: seq<string>)
    requires AllDifferent(lines)
    ensures |Elements(lines)| == |lines|
  {
    if lines != [] {
      ElementCount(lines[1..]);
      assert lines[0] !in lines[1..];
      assert Elements(lines) == {lines[0]} + Elements(lines[1..]);
    }
  }

  /** The total does not depend on the order. */
  lemma {:induction false} SameTotal(a: seq<string>, b: seq<string>)
    requires AllDifferent(a) && AllDifferent(b) && Elements(a) == Elements(b)
    ensures TotalBytes(a) == TotalBytes(b)
    decreases |a|
  {
    if a == [] {
      assert forall i | 0 <= i < |b| :: b[i] in Elements(b);
    } else {
      assert a[0] in Elements(b);
      var k :| 0 <= k < |b| && b[k] == a[0];
      WithoutOne(a, b, k);
      SameTotal(a[1..], b[..k] + b[k + 1..]);
      TotalWithout(b, k);
    }
  }

  lemma TotalWithout(b: seq<string>, k: nat)
    requires k < |b|
    ensures TotalBytes(b) == Bytes(b[k]) + TotalBytes(b[..k] + b[k + 1..])
  {
    TotalOfConcat(b[..k], b[k + 1..]);
    TotalOfConcat(b[..k], b[k..]);
    assert b[..k] + b[k..] == b && b[k..][1..] == b[k + 1..];
  }

  lemma WithoutOne(a: seq<string>, b: seq<string>, k: nat)
    requires AllDifferent(a) && AllDifferent(b) && Elements(a) == Elements(b)
    requires a != [] && k < |b| && b[k] == a[0]
    ensures var rest := b[..k] + b[k + 1..]; AllDifferent(rest) && Elements(a[1..]) == Elements(rest)
  {
    var rest := b[..k] + b[k + 1..];
    assert forall i | 0 <= i < |rest| :: rest[i] == b[if i < k then i else i + 1];
    forall x ensures x in a[1..] <==> x in rest {
      assert x in Elements(a) <==> x in Elements(b);
      if x in a[1..] {
        var i :| 0 < i < |a| && a[i] == x;
        var j :| 0 <= j < |b| && b[j] == x;
        assert rest[if j < k then j else j - 1] == x;
      }
      if x in rest {
        var j :| 0 <= j < |rest| && rest[j] == x;
        var i :| 0 <= i < |a| && a[i] == x;
        assert a[1..][i - 1] == x;
      }
    }
    assert forall x :: x in Elements(a[1..]) <==> x in a[1..];
    assert forall x :: x in Elements(rest) <==> x in rest;
  }

  /** What such a source reads as: no domains, and each line's network once. */
  lemma WrittenNetworksRead(lines: seq<string>, ips: IpText)
    requires Faithful(ips) && lines != [] && |lines| <= MAX_LINES && AllDifferent(lines) && WrittenNetworks(lines, ips)
    requires Bytes(Join(lines, '\n')) <= MAX_SOURCE_BYTES
    ensures var source := Read(Join(lines, '\n'), ips);
            && source.Ok? && WellFormedParsed(source.value, ips)
            && Elements(source.value.networks) == Elements(lines) && |source.value.networks| == |lines|
  {
    WrittenNetworksAccepted(lines, ips);
    AcceptedIsWellFormed(Join(lines, '\n'), ips);
    ListedNetworks(Sets({}, {}, Elements(lines)));
    ElementCount(lines);
  }

  lemma WrittenNetworksAccepted(lines: seq<string>, ips: IpText)
    requires lines != [] && |lines| <= MAX_LINES && AllDifferent(lines) && WrittenNetworks(lines, ips)
    requires Bytes(Join(lines, '\n')) <= MAX_SOURCE_BYTES
    ensures Read(Join(lines, '\n'), ips) == Ok(Listed(Sets({}, {}, Elements(lines))))
  {
    WrittenNetworksAreClean(lines, ips);
    JoinReadsBack(lines);
    NetworksSaid(lines, LineReader(ips));
    ElementCount(lines);
    AcceptedIff(Join(lines, '\n'), ips);
  }

  lemma ListedNetworks(sets: Sets)
    ensures Elements(Listed(sets).networks) == sets.networks && |Listed(sets).networks| == |sets.networks|
  {
    ListedEntries(sets);
    assert forall x :: x in Elements(Listed(sets).networks) <==> x in Listed(sets).networks;
  }

  lemma WrittenNetworksAreClean(lines: seq<string>, ips: IpText)
    requires WrittenNetworks(lines, ips)
    ensures (forall i | 0 <= i < |lines| :: Clean(lines[i])) && ShortLines(lines) && Readable(lines, LineReader(ips))
    ensures forall i | 0 <= i < |lines| :: LineReader(ips)(lines[i]) == Some(NetworkItem(lines[i]))
  {
    forall i | 0 <= i < |lines| ensures Clean(lines[i]) && Bytes(lines[i]) <= MAX_LINE_BYTES {
      NormalNetworkIsWritable(lines[i], ips);
    }
  }

  lemma NetworksSaid(lines: seq<string>, read: Reader)
    requires forall i | 0 <= i < |lines| :: read(lines[i]) == Some(NetworkItem(lines[i]))
    ensures Readable(lines, read)
    ensures Said(EMPTY, lines, read) == Sets({}, {}, Elements(lines))
  {
    assert Readable(lines, read);
    SaidDomains(EMPTY, lines, read);
    var said := Said(EMPTY, lines, read);
    forall entry ensures entry !in said.entries {
      SaidContents(EMPTY, lines, read, entry, "");
    }
    forall network ensures network in said.networks <==> network in lines {
      SaidContents(EMPTY, lines, read, Exact(""), network);
      if network in lines {
        var i :| 0 <= i < |lines| && lines[i] == network;
        assert read(lines[i]) == Some(NetworkItem(network));
      }
    }
  }

  // ------------------------------------------------ all networks routed directly

  function AllDirect(parsed: Parsed): Input {
    Input([], Routed(parsed.networks, Direct))
  }

  function DirectTable(networks: seq<string>): Table {
    map network | network in networks :: Direct
  }

  lemma AllDirectTable(networks: seq<string>, parse: Normaliser)
    requires Fixpoints(networks, parse)
    ensures AddRoutes(map[], Routed(networks, Direct), networks, parse) == Ok(DirectTable(networks))
  {
    var routes, table := Routed(networks, Direct), DirectTable(networks);
    forall i | 0 <= i < |routes| ensures RepeatsTable(routes[i], table, networks, parse) {
      assert parse(networks[i]) == Some(networks[i]);
    }
    RoutesRebuild(map[], routes, table, networks, parse);
    var final := AddRoutes(map[], routes, networks, parse).value;
    forall network | network in table ensures network in final {
      var i :| 0 <= i < |networks| && networks[i] == network;
      assert routes[i].network in final;
    }
    assert final == table;
  }

  lemma {:induction false} WithTargetIsAll(names: seq<string>, table: Table, target: Class)
    requires forall i | 0 <= i < |names| :: ClassOf(table, names[i]) == target
    ensures WithTarget(names, table, target) == names
  {
    if names != [] {
      WithTargetIsAll(names[1..], table, target);
      assert names == [names[0]] + names[1..];
    }
  }

  lemma InOrderIsDistinct(table: Table)
    ensures AllDifferent(InOrder(table))
  {
    BeforeIsTotal();
    AscendingIsDistinct(table.Keys, Before);
  }

  lemma InOrderElements(table: Table)
    ensures Elements(InOrder(table)) == table.Keys && |InOrder(table)| == |table|
  {
    InOrderContents(table);
  }

  lemma DirectTableKeys(networks: seq<string>)
    requires AllDifferent(networks)
    ensures DirectTable(networks).Keys == Elements(networks) && |DirectTable(networks)| == |networks|
  {
    var table := DirectTable(networks);
    assert table.Keys == Elements(networks) && |table.Keys| == |table|;
    ElementCount(networks);
  }

  lemma DirectTableList(networks: seq<string>)
    requires AllDifferent(networks)
    ensures var list := WithTarget(InOrder(DirectTable(networks)), DirectTable(networks), Direct);
            AllDifferent(list) && Elements(list) == Elements(networks) && |list| == |networks|
  {
    var table := DirectTable(networks);
    DirectTableKeys(networks);
    InOrderIsDistinct(table);
    InOrderElements(table);
    forall i | 0 <= i < |InOrder(table)| ensures ClassOf(table, InOrder(table)[i]) == Direct {
      assert InOrder(table)[i] in Elements(InOrder(table));
    }
    WithTargetIsAll(InOrder(table), table, Direct);
  }

  lemma AllDirectIsAccepted(parsed: Parsed, ips: IpText)
    requires WellFormedParsed(parsed, ips)
    ensures Validated(parsed, AllDirect(parsed), ips).Ok?
    ensures var list := Validated(parsed, AllDirect(parsed), ips).value.staticDirect;
            AllDifferent(list) && Elements(list) == Elements(parsed.networks) && |list| == |parsed.networks|
  {
    assert Fixpoints(parsed.networks, NetworkParser(ips)) by {
      assert forall i | 0 <= i < |parsed.networks| :: NormalNetwork(parsed.networks[i], ips);
    }
    AllDirectTable(parsed.networks, NetworkParser(ips));
    DirectTableList(parsed.networks);
  }

  /**
   * A source that lists distinct networks as the reader writes them, one a line and without a final line
   * feed, is one byte shorter than the static list of all of them. So that list passes the validator
   * exactly when the source, itself within the limit, is not of exactly the greatest size.
   */
  lemma WrittenNetworksPassIff(lines: seq<string>, ips: IpText)
    requires Faithful(ips) && lines != [] && |lines| <= MAX_LINES && AllDifferent(lines) && WrittenNetworks(lines, ips)
    requires Bytes(Join(lines, '\n')) <= MAX_SOURCE_BYTES
    ensures var source := Read(Join(lines, '\n'), ips);
            && source.Ok? && |source.value.networks| == |lines|
            && Validated(source.value, AllDirect(source.value), ips).Ok?
            && var list := Validated(source.value, AllDirect(source.value), ips).value.staticDirect;
               Counted(FileText(list), NetworkList, ips) ==
                 if Bytes(Join(lines, '\n')) < MAX_SOURCE_BYTES then Ok(|lines|) else Err(LimitExceeded)
  {
    WrittenNetworksRead(lines, ips);
    JoinBytes(lines, '\n');
    var parsed := Read(Join(lines, '\n'), ips).value;
    AllDirectIsAccepted(parsed, ips);
    var list := Validated(parsed, AllDirect(parsed), ips).value.staticDirect;
    SameTotal(lines, list);
    StaticListPassesIff(parsed, AllDirect(parsed), Direct, ips);
  }

  // ------------------------------------------------ such a source of exactly the greatest size

  const COUNT := 190_650
  const FIRST_V6 := 0x2a00_1450_4001_1000_1000_1000_1000_1000
  const ONLY_V4 := 0x0808_080a

  /** Distinct public addresses whose groups all have four digits, so that no abbreviation applies. */
  function V6At(i: nat): nat {
    FIRST_V6 + (i / 0x8000) * 0x1_0000 + i % 0x8000
  }

  /** `n` single IPv6 addresses with their prefix length, and one IPv4 address without. */
  function NetworkAt(n: nat, i: nat): Network {
    if i < n then Network(V6(V6At(i)), Some(128)) else Network(V4(ONLY_V4), None)
  }

  lemma V6AtDiffers(i: nat, j: nat)
    requires V6At(i) == V6At(j)
    ensures i == j
  {
  }

  lemma V6AtIsNear(i: nat)
    requires i < COUNT
    ensures FIRST_V6 <= V6At(i) <= FIRST_V6 + 0x10_0000
  {
  }

  lemma OnlyV4IsFar(i: nat)
    requires i < |BLOCKED_V4|
    ensures !InBlock(ONLY_V4, BLOCKED_V4[i].base, BLOCKED_V4[i].prefix, 32)
  {
    BlockV4Iff(ONLY_V4, i, 0);
  }

  lemma V6AtIsFar(i: nat, k: nat)
    requires i < COUNT && k < |BLOCKED_V6|
    ensures !InBlock(V6At(i), BLOCKED_V6[k].base, BLOCKED_V6[k].prefix, 128)
  {
    V6AtIsNear(i);
    BlockV6Iff(V6At(i), k, 0);
  }

  lemma V6AtIsPublic(i: nat)
    requires i < COUNT
    ensures V6(V6At(i)).Valid()
            && ValidatePublic(Network(V6(V6At(i)), Some(128))) == Ok(Network(V6(V6At(i)), Some(128)))
  {
    var ip := V6(V6At(i));
    V6AtIsNear(i);
    Pow2Of128(ip.Width());
    BlockedBlocksFit(ip);
    forall block | block in Blocked(ip) ensures !InBlock(ip.value, block.base, block.prefix, ip.Width()) {
      var k :| 0 <= k < |BLOCKED_V6| && BLOCKED_V6[k] == block;
      V6AtIsFar(i, k);
    }
    SinglePublicIff(Network(ip, Some(128)));
  }

  lemma OnlyV4IsPublic()
    ensures V4(ONLY_V4).Valid() && ValidatePublic(Network(V4(ONLY_V4), None)) == Ok(Network(V4(ONLY_V4), None))
  {
    var ip := V4(ONLY_V4);
    Pow2Word(ip.Width() - 32);
    BlockedBlocksFit(ip);
    forall block | block in Blocked(ip) ensures !InBlock(ip.value, block.base, block.prefix, ip.Width()) {
      var k :| 0 <= k < |BLOCKED_V4| && BLOCKED_V4[k] == block;
      OnlyV4IsFar(k);
    }
    SinglePublicIff(Network(ip, None));
  }

  lemma NetworkAtIsPublic(n: nat, i: nat)
    requires i <= n <= COUNT
    ensures NetworkAt(n, i).ip.Valid() && ValidatePublic(NetworkAt(n, i)) == Ok(NetworkAt(n, i))
  {
    if i < n {
      V6AtIsPublic(i);
    } else {
      OnlyV4IsPublic();
    }
  }

  // ------------------------------------------------ its lines

  ghost function LineAt(n: nat, i: nat): string {
    Show(NetworkAt(n, i), ShortForms())
  }

  ghost function NetworkLines(n: nat): (lines: seq<string>)
    ensures |lines| == n + 1 && forall i | 0 <= i <= n :: lines[i] == LineAt(n, i)
  {
    seq(n + 1, i requires 0 <= i <= n => LineAt(n, i))
  }

  /** A plain line is read as a network when it has a slash or is an address. */
  lemma PlainLineReads(line: string, ips: IpText)
    requires NormalNetwork(line, ips) && (ips.parse(line).Some? || '/' in line)
    ensures ReadLine(line, ips) == Some(NetworkItem(line))
  {
    PlainLineSplits(line);
    AutoReads(line, ips);
  }

  lemma PlainLineSplits(line: string)
    requires Tidy(line)
    ensures Trim(StripComment(line)) == line && SplitRule(line) == (Auto, line)
  {
    TidyFacts(line);
    SplitOnceFree(line, '#');
    SplitOnceFree(line, ',');
    TrimNoSpaces(line);
  }

  lemma AutoReads(line: string, ips: IpText)
    requires line != "" && Trim(StripComment(line)) == line && SplitRule(line) == (Auto, line)
    requires ips.parse(line).Some? || '/' in line
    ensures ReadLine(line, ips) == ReadNetworkItem(line, ips)
  {
  }

  lemma ShownNetworkIsNormal(network: Network, ips: IpText)
    requires Faithful(ips) && network.ip.Valid() && ValidatePublic(network) == Ok(network)
    requires network.prefix.Some? ==> network.prefix.value <= 128
    ensures NormalNetwork(Show(network, ips), ips)
    ensures ips.parse(Show(network, ips)).Some? || '/' in Show(network, ips)
  {
    ShowIsTidy(network, ips);
    ShowReadsBack(network, ips);
  }

  lemma LineAtReads(n: nat, i: nat)
    requires i <= n <= COUNT
    ensures NormalNetwork(LineAt(n, i), ShortForms())
    ensures LineReader(ShortForms())(LineAt(n, i)) == Some(NetworkItem(LineAt(n, i)))
  {
    ShortFormsAreFaithful();
    NetworkAtIsPublic(n, i);
    ShownNetworkIsNormal(NetworkAt(n, i), ShortForms());
    PlainLineReads(LineAt(n, i), ShortForms());
  }

  lemma LinesAreWritten(n: nat)
    requires n <= COUNT
    ensures WrittenNetworks(NetworkLines(n), ShortForms())
  {
    forall i | 0 <= i <= n
      ensures NormalNetwork(NetworkLines(n)[i], ShortForms())
      ensures LineReader(ShortForms())(NetworkLines(n)[i]) == Some(NetworkItem(NetworkLines(n)[i]))
    {
      LineAtReads(n, i);
    }
  }

  lemma LineAtDiffers(n: nat, i: nat, j: nat)
    requires i < j <= n <= COUNT
    ensures LineAt(n, i) != LineAt(n, j)
  {
    ShortFormsAreFaithful();
    NetworkAtIsPublic(n, i);
    NetworkAtIsPublic(n, j);
    ShowReadsBack(NetworkAt(n, i), ShortForms());
    ShowReadsBack(NetworkAt(n, j), ShortForms());
    if j < n && V6At(i) == V6At(j) {
      V6AtDiffers(i, j);
    }
  }

  lemma LinesDifferAll(n: nat)
    requires n <= COUNT
    ensures AllDifferent(NetworkLines(n))
  {
    forall i, j | 0 <= i < j <= n ensures NetworkLines(n)[i] != NetworkLines(n)[j] {
      LineAtDiffers(n, i, j);
    }
  }

  // ------------------------------------------------ its size

  lemma OnlyV4Text()
    ensures ShortText(V4(ONLY_V4)) == "8.8.8.10"
  {
    var places := Places(ONLY_V4, Octet, 4);
    assert Places(ONLY_V4, Octet, 4) == Places(0x0808_08, Octet, 3) + [10];
    assert Places(0x0808_08, Octet, 3) == Places(0x0808, Octet, 2) + [8];
    assert Places(0x0808, Octet, 2) == Places(8, Octet, 1) + [8];
    assert Places(8, Octet, 1) == Places(0, Octet, 0) + [8];
    assert places == [8, 8, 8, 10];
    assert Decimal(8) == "8" && Decimal(10) == "10";
    assert Octets(places) == ["8", "8", "8", "10"];
    assert Join(["10"], '.') == "10";
    assert Join(["8", "10"], '.') == "8.10";
    assert Join(["8", "8", "10"], '.') == "8.8.10";
  }

  lemma LineAtBytes(n: nat, i: nat)
    requires i <= n <= COUNT
    ensures Bytes(LineAt(n, i)) == if i < n then 43 else 8
  {
    ShortFormsAreFaithful();
    NetworkAtIsPublic(n, i);
    ShowIsTidy(NetworkAt(n, i), ShortForms());
    TidyFacts(LineAt(n, i));
    if i < n {
      V6LineLength(i);
    } else {
      OnlyV4Text();
    }
  }

  /** Every group of these addresses has four digits; `n` can only be zero, see above. */
  lemma V6AtIsWide(i: nat, n: nat)
    requires i < COUNT && n == 0
    ensures IsWide(V6At(i), n + 8)
  {
    WideStep(0x2a00, 0, 0x2a00, n);
    WideStep(0x2a00_1450, 0x2a00, 0x1450, n + 1);
    WideStep(0x2a00_1450_4001, 0x2a00_1450, 0x4001, n + 2);
    WideStep(0x2a00_1450_4001_1000, 0x2a00_1450_4001, 0x1000, n + 3);
    WideStep(0x2a00_1450_4001_1000_1000, 0x2a00_1450_4001_1000, 0x1000, n + 4);
    WideStep(0x2a00_1450_4001_1000_1000_1000, 0x2a00_1450_4001_1000_1000, 0x1000, n + 5);
    var high := 0x2a00_1450_4001_1000_1000_1000_1000 + i / 0x8000;
    WideStep(high, 0x2a00_1450_4001_1000_1000_1000, 0x1000 + i / 0x8000, n + 6);
    WideStep(V6At(i), high, 0x1000 + i % 0x8000, n + 7);
  }

  lemma Decimal128()
    ensures |Decimal(128)| == 3
  {
    assert Decimal(128) == Decimal(12) + [Digit(8)] && Decimal(12) == Decimal(1) + [Digit(2)]
      && Decimal(1) == [Digit(1)];
  }

  lemma ShownLength(value: nat)
    requires |ShortText(V6(value))| == MAX_ADDRESS_BYTES
    ensures |Show(Network(V6(value), Some(128)), ShortForms())| == 43
  {
    Decimal128();
  }

  lemma V6LineLength(i: nat)
    requires i < COUNT
    ensures |Show(Network(V6(V6At(i)), Some(128)), ShortForms())| == 43
  {
    V6AtIsWide(i, 0);
    WideText(V6At(i));
    ShownLength(V6At(i));
  }

  lemma LinesBytes(n: nat)
    requires n <= COUNT
    ensures Bytes(Join(NetworkLines(n), '\n')) == 44 * n + 8
  {
    var lines := NetworkLines(n);
    forall i | 0 <= i < n ensures Bytes(lines[..n][i]) == 43 { LineAtBytes(n, i); }
    LineAtBytes(n, n);
    TotalExactly(lines[..n], 43);
    assert lines == lines[..n] + [lines[n]];
    TotalOfConcat(lines[..n], [lines[n]]);
    assert TotalBytes([lines[n]]) == Bytes(lines[n]) + TotalBytes([]);
    JoinBytes(lines, '\n');
  }

  /** `n` is a parameter that can only be `COUNT`, so that the solver computes with it as a term. */
  lemma StaticListFails(n: nat) returns (ips: IpText, text: string, parsed: Parsed, input: Input, lists: Lists)
    requires n == COUNT
    ensures Faithful(ips) && Bytes(text) == 44 * n + 8
    ensures Read(text, ips) == Ok(parsed) && |parsed.networks| == n + 1
    ensures Validated(parsed, input, ips) == Ok(lists)
    ensures Counted(FileText(lists.staticDirect), NetworkList, ips) == Err(LimitExceeded)
  {
    ips, text := ShortForms(), Join(NetworkLines(n), '\n');
    ShortFormsAreFaithful();
    LinesBytes(n);
    LinesAreWritten(n);
    LinesDifferAll(n);
    WrittenNetworksPassIff(NetworkLines(n), ips);
    parsed := Read(text, ips).value;
    input := AllDirect(parsed);
    lists := Validated(parsed, input, ips).value;
  }

  /**
   * The bound on networks is sharp: one network more than always fit, listed in exactly 8 MiB, make an
   * accepted source and an accepted generation whose static list the validator refuses.
   */
  lemma StaticListCanFail() returns (ips: IpText, text: string, parsed: Parsed, input: Input, lists: Lists)
    ensures Faithful(ips) && Bytes(text) == MAX_SOURCE_BYTES
    ensures Read(text, ips) == Ok(parsed) && |parsed.networks| == MOST_NETWORKS_SURE_TO_FIT + 1
    ensures Validated(parsed, input, ips) == Ok(lists)
    ensures Counted(FileText(lists.staticDirect), NetworkList, ips) == Err(LimitExceeded)
  {
    SureToFitIsCount();
    ips, text, parsed, input, lists := StaticListFails(COUNT);
  }

  lemma SureToFitIsCount()
    ensures MOST_NETWORKS_SURE_TO_FIT == COUNT
  {
    DivUnique(MAX_SOURCE_BYTES, MAX_NETWORK_BYTES + 1, COUNT, 8);
  }
}

/** The bounded reader of a geographic source list. */
module GeoSource {

  import opened Collections
  import opened DomainNames
  import opened NetworkText
  import opened Ordered
  import opened Text
  import opened Wrappers

  const MAX_SOURCE_BYTES := 8 * 1024 * 1024
  const MAX_DOMAINS_PER_BASE := 20_000
  const MAX_LINES := 200_000
  const MAX_ENTRIES := 200_000
  const MAX_LINE_BYTES := 512

  datatype GeoError = LimitExceeded | InvalidInput

  /** A domain alone, or with everything below it. */
  datatype Entry = Exact(domain: string) | Suffix(domain: string)

  function ProviderLine(entry: Entry): string {
    match entry
    case Exact(domain) => domain
    case Suffix(domain) => "+." + domain
  }

  /** Exact entries first, each kind by domain. */
  predicate EntryBefore(a: Entry, b: Entry) {
    if a.Exact? == b.Exact? then Before(a.domain, b.domain) else a.Exact?
  }

  lemma EntryBeforeIsTotal()
    ensures TotalOrder(EntryBefore)
  {
    BeforeIsTotal();
  }

  // ------------------------------------------------ one line

  datatype LineItem = Blank | DomainItem(entry: Entry) | NetworkItem(network: string)

  datatype InputKind = ExactDomain | SuffixDomain | OnlyNetwork | Auto

  function UpperChar(c: char): char {
    if 'a' <= c <= 'z' then (c as int - 32) as char else c
  }

  function Upper(s: string): string {
    seq(|s|, i requires 0 <= i < |s| => UpperChar(s[i]))
  }

  function StripComment(line: string): string {
    var parts := SplitOnce(line, '#');
    if parts.None? then line else parts.value.0
  }

  /** The rule keyword and its first argument, or the whole line when there is no known keyword. */
  function SplitRule(line: string): (InputKind, string) {
    match SplitOnce(line, ',')
    case None => (Auto, line)
    case Some((prefix, rest)) =>
      var keyword, value := Upper(Trim(prefix)), Trim(Split(rest, {','})[0]);
      if keyword == "DOMAIN" then (ExactDomain, value)
      else if keyword == "DOMAIN-SUFFIX" then (SuffixDomain, value)
      else if keyword == "IP-CIDR" || keyword == "IP-CIDR6" then (OnlyNetwork, value)
      else (Auto, line)
  }

  function ReadDomain(value: string, suffix: bool): Option<LineItem> {
    var domain := ParseDomain(value);
    if domain.None? then None
    else Some(DomainItem(if suffix then Suffix(domain.value) else Exact(domain.value)))
  }

  function ReadNetworkItem(value: string, ips: IpText): Option<LineItem> {
    var network := ParseNetwork(value, ips);
    if network.None? then None else Some(NetworkItem(network.value))
  }

  /** What a line says, or None where the source reports invalid input. */
  function ReadLine(raw: string, ips: IpText): Option<LineItem> {
    var line := Trim(StripComment(raw));
    if line == "" then Some(Blank)
    else
      var (kind, value) := SplitRule(line);
      match kind
      case ExactDomain => ReadDomain(value, false)
      case SuffixDomain => ReadDomain(value, true)
      case OnlyNetwork => ReadNetworkItem(value, ips)
      case Auto =>
        if ips.parse(value).Some? || '/' in value then ReadNetworkItem(value, ips) else ReadDomain(value, false)
  }

  /** Items in normal form: canonical domains, and networks that parse to themselves. */
  ghost predicate NormalItem(item: LineItem, ips: IpText) {
    match item
    case Blank => true
    case DomainItem(entry) => Canonical(entry.domain)
    case NetworkItem(network) => NormalNetwork(network, ips)
  }

  predicate NormalNetwork(network: string, ips: IpText) {
    Tidy(network) && NoSpaces(network) && ParseNetwork(network, ips) == Some(network)
  }

  lemma LineIsNormal(raw: string, ips: IpText)
    requires Faithful(ips) && ReadLine(raw, ips).Some?
    ensures NormalItem(ReadLine(raw, ips).value, ips)
  {
    var line := Trim(StripComment(raw));
    if line != "" {
      var (kind, value) := SplitRule(line);
      DomainIsNormal(value, kind.SuffixDomain?, ips);
      NetworkIsNormal(value, ips);
    }
  }

  lemma DomainIsNormal(value: string, suffix: bool, ips: IpText)
    ensures ReadDomain(value, suffix).Some? ==> NormalItem(ReadDomain(value, suffix).value, ips)
  {
  }

  lemma NetworkIsNormal(value: string, ips: IpText)
    requires Faithful(ips)
    ensures ReadNetworkItem(value, ips).Some? ==> NormalItem(ReadNetworkItem(value, ips).value, ips)
  {
    if ParseNetwork(value, ips).Some? {
      NormalFormIsFixpoint(value, ips);
    }
  }

  /** How lines are read. */
  type Reader = string -> Option<LineItem>

  function LineReader(ips: IpText): Reader {
    raw => ReadLine(raw, ips)
  }

  // ------------------------------------------------ all lines

  datatype Sets = Sets(domains: set<string>, entries: set<Entry>, networks: set<string>)

  const EMPTY: Sets := Sets({}, {}, {})

  function Insert(sets: Sets, item: LineItem): Sets {
    match item
    case Blank => sets
    case DomainItem(entry) => Sets(sets.domains + {entry.domain}, sets.entries + {entry}, sets.networks)
    case NetworkItem(network) => Sets(sets.domains, sets.entries, sets.networks + {network})
  }

  predicate Fits(sets: Sets) {
    |sets.entries| + |sets.networks| <= MAX_ENTRIES && |sets.entries| <= MAX_DOMAINS_PER_BASE
  }

  function AddLine(sets: Sets, count: nat, raw: string, read: Reader): Result<Sets, GeoError> {
    if count + 1 > MAX_LINES then Err(LimitExceeded)
    else if Bytes(raw) > MAX_LINE_BYTES then Err(LimitExceeded)
    else
      var item := read(raw);
      if item.None? then Err(InvalidInput)
      else if item.value.Blank? then Ok(sets)
      else if !Fits(Insert(sets, item.value)) then Err(LimitExceeded)
      else Ok(Insert(sets, item.value))
  }

  function AddLines(sets: Sets, count: nat, lines: seq<string>, read: Reader): Result<Sets, GeoError>
    decreases |lines|
  {
    if lines == [] then Ok(sets)
    else
      var next := AddLine(sets, count, lines[0], read);
      if next.Err? then next else AddLines(next.value, count + 1, lines[1..], read)
  }

  datatype Parsed = Parsed(domains: seq<string>, entries: seq<Entry>, networks: seq<string>)

  function Listed(sets: Sets): Parsed {
    BeforeIsTotal();
    EntryBeforeIsTotal();
    Parsed(Ascending(sets.domains, Before), Ascending(sets.entries, EntryBefore), Ascending(sets.networks, Before))
  }

  function Read(text: string, ips: IpText): Result<Parsed, GeoError> {
    if Bytes(text) > MAX_SOURCE_BYTES then Err(LimitExceeded)
    else
      var sets := AddLines(EMPTY, 0, Lines(text), LineReader(ips));
      if sets.Err? then Err(sets.error) else Ok(Listed(sets.value))
  }

  /** One turn of the loop over lines. */
  method ParseLine(sets: Sets, count: nat, raw: string, ips: IpText) returns (r: Result<Sets, GeoError>)
    ensures r == AddLine(sets, count, raw, LineReader(ips))
  {
    var Sets(domains, entries, networks) := sets;
    if count + 1 > MAX_LINES || Bytes(raw) > MAX_LINE_BYTES {
      return Err(LimitExceeded);
    }
    var item := LineReader(ips)(raw);
    if item.None? {
      return Err(InvalidInput);
    }
    if item.value.Blank? {
      return Ok(sets);
    }
    if item.value.DomainItem? {
      domains := domains + {item.value.entry.domain};
      entries := entries + {item.value.entry};
    } else {
      networks := networks + {item.value.network};
    }
    if |entries| + |networks| > MAX_ENTRIES || |entries| > MAX_DOMAINS_PER_BASE {
      return Err(LimitExceeded);
    }
    r := Ok(Sets(domains, entries, networks));
  }

  method ParseSource(text: string, ips: IpText) returns (r: Result<Parsed, GeoError>)
    ensures r == Read(text, ips)
  {
    if Bytes(text) > MAX_SOURCE_BYTES {
      return Err(LimitExceeded);
    }
    var lines, sets := Lines(text), EMPTY;
    for i := 0 to |lines|
      invariant AddLines(EMPTY, 0, lines, LineReader(ips)) == AddLines(sets, i, lines[i..], LineReader(ips))
    {
      RestOf(lines, i);
      var next := ParseLine(sets, i, lines[i], ips);
      if next.Err? {
        return Err(next.error);
      }
      sets := next.value;
    }
    r := Ok(Listed(sets));
  }

  // ------------------------------------------------ what a source says, without the running limits

  predicate Readable(lines: seq<string>, read: Reader) {
    forall i | 0 <= i < |lines| :: read(lines[i]).Some?
  }

  predicate ShortLines(lines: seq<string>) {
    forall i | 0 <= i < |lines| :: Bytes(lines[i]) <= MAX_LINE_BYTES
  }

  function Said(sets: Sets, lines: seq<string>, read: Reader): (r: Sets)
    requires Readable(lines, read)
    ensures sets.entries <= r.entries && sets.networks <= r.networks
    decreases |lines|
  {
    if lines == [] then sets else Said(Insert(sets, read(lines[0]).value), lines[1..], read)
  }

  lemma FitsShrinks(small: Sets, large: Sets)
    requires small.entries <= large.entries && small.networks <= large.networks && Fits(large)
    ensures Fits(small)
  {
    CardinalityOfSubset(small.entries, large.entries);
    CardinalityOfSubset(small.networks, large.networks);
  }

  lemma FirstLine(lines: seq<string>, read: Reader)
    requires lines != []
    ensures ShortLines(lines) <==> Bytes(lines[0]) <= MAX_LINE_BYTES && ShortLines(lines[1..])
    ensures Readable(lines, read) <==> read(lines[0]).Some? && Readable(lines[1..], read)
  {
    assert lines == [lines[0]] + lines[1..];
  }

  lemma AddLineOk(sets: Sets, count: nat, raw: string, read: Reader)
    requires Fits(sets) && count <= MAX_LINES
    ensures AddLine(sets, count, raw, read).Ok? <==>
            && count < MAX_LINES && Bytes(raw) <= MAX_LINE_BYTES && read(raw).Some?
            && Fits(Insert(sets, read(raw).value))
    ensures AddLine(sets, count, raw, read).Ok?
            ==> AddLine(sets, count, raw, read).value == Insert(sets, read(raw).value)
  {
  }

  lemma {:induction false} AddLinesOk(sets: Sets, count: nat, lines: seq<string>, read: Reader)
    requires Fits(sets) && count <= MAX_LINES
    ensures AddLines(sets, count, lines, read).Ok? <==>
            && ShortLines(lines) && Readable(lines, read) && count + |lines| <= MAX_LINES
            && Fits(Said(sets, lines, read))
    ensures AddLines(sets, count, lines, read).Ok?
            ==> AddLines(sets, count, lines, read).value == Said(sets, lines, read)
    decreases |lines|
  {
    if lines != [] {
      FirstLine(lines, read);
      AddLineOk(sets, count, lines[0], read);
      var next := AddLine(sets, count, lines[0], read);
      if next.Ok? {
        AddLinesOk(next.value, count + 1, lines[1..], read);
      } else if Readable(lines, read) && Fits(Said(sets, lines, read)) {
        FitsShrinks(Insert(sets, read(lines[0]).value), Said(sets, lines, read));
      }
    }
  }

  /**
   * A source is accepted exactly when it is within the byte and line limits, every line is short and
   * readable, and what it says as a whole is within the entry limits: the checks made after each line
   * refuse nothing more.
   */
  lemma AcceptedIff(text: string, ips: IpText)
    ensures Read(text, ips).Ok? <==>
            && Bytes(text) <= MAX_SOURCE_BYTES && |Lines(text)| <= MAX_LINES
            && ShortLines(Lines(text)) && Readable(Lines(text), LineReader(ips))
            && var said := Said(EMPTY, Lines(text), LineReader(ips));
               |said.entries| + |said.networks| <= 200_000 && |said.entries| <= 20_000
    ensures Read(text, ips).Ok? ==> Read(text, ips).value == Listed(Said(EMPTY, Lines(text), LineReader(ips)))
  {
    AddLinesOk(EMPTY, 0, Lines(text), LineReader(ips));
  }

  ghost predicate Says(lines: seq<string>, read: Reader, item: LineItem) {
    exists i | 0 <= i < |lines| :: read(lines[i]) == Some(item)
  }

  lemma SaysStep(lines: seq<string>, read: Reader, item: LineItem)
    requires lines != []
    ensures Says(lines, read, item) <==> read(lines[0]) == Some(item) || Says(lines[1..], read, item)
  {
  }

  /** The sets hold exactly what some line says, whatever the order and repetition of lines. */
  lemma {:induction false} SaidContents(sets: Sets, lines: seq<string>, read: Reader, entry: Entry, network: string)
    requires Readable(lines, read)
    ensures entry in Said(sets, lines, read).entries <==> entry in sets.entries || Says(lines, read, DomainItem(entry))
    ensures network in Said(sets, lines, read).networks <==>
            network in sets.networks || Says(lines, read, NetworkItem(network))
    decreases |lines|
  {
    if lines != [] {
      SaidContents(Insert(sets, read(lines[0]).value), lines[1..], read, entry, network);
      SaysStep(lines, read, DomainItem(entry));
      SaysStep(lines, read, NetworkItem(network));
    }
  }

  ghost predicate DomainsMatch(sets: Sets) {
    sets.domains == set entry | entry in sets.entries :: entry.domain
  }

  lemma {:induction false} SaidDomains(sets: Sets, lines: seq<string>, read: Reader)
    requires Readable(lines, read) && DomainsMatch(sets)
    ensures DomainsMatch(Said(sets, lines, read))
    decreases |lines|
  {
    if lines != [] {
      SaidDomains(Insert(sets, read(lines[0]).value), lines[1..], read);
    }
  }

  /** The domain list holds exactly the domains of the entries. */
  ghost predicate DomainsOfEntries(parsed: Parsed) {
    forall domain :: domain in parsed.domains <==> exists entry | entry in parsed.entries :: entry.domain == domain
  }

  ghost predicate AllNormal(parsed: Parsed, ips: IpText) {
    && (forall i | 0 <= i < |parsed.entries| :: Canonical(parsed.entries[i].domain))
    && (forall i | 0 <= i < |parsed.networks| :: NormalNetwork(parsed.networks[i], ips))
  }

  predicate WithinLimits(parsed: Parsed) {
    && |parsed.entries| <= MAX_DOMAINS_PER_BASE
    && |parsed.entries| + |parsed.networks| <= MAX_ENTRIES
  }

  predicate WithoutRepeats(parsed: Parsed) {
    AllDifferent(parsed.domains) && AllDifferent(parsed.entries) && AllDifferent(parsed.networks)
  }

  /** What every accepted source yields. */
  ghost predicate WellFormedParsed(parsed: Parsed, ips: IpText) {
    WithoutRepeats(parsed) && DomainsOfEntries(parsed) && AllNormal(parsed, ips) && WithinLimits(parsed)
  }

  lemma SaidIsNormal(lines: seq<string>, ips: IpText)
    requires Faithful(ips) && Readable(lines, LineReader(ips))
    ensures forall entry | entry in Said(EMPTY, lines, LineReader(ips)).entries :: Canonical(entry.domain)
    ensures forall network | network in Said(EMPTY, lines, LineReader(ips)).networks :: NormalNetwork(network, ips)
  {
    forall entry | entry in Said(EMPTY, lines, LineReader(ips)).entries ensures Canonical(entry.domain) {
      SaidContents(EMPTY, lines, LineReader(ips), entry, "");
      var i :| 0 <= i < |lines| && LineReader(ips)(lines[i]) == Some(DomainItem(entry));
      LineIsNormal(lines[i], ips);
    }
    forall network | network in Said(EMPTY, lines, LineReader(ips)).networks ensures NormalNetwork(network, ips) {
      SaidContents(EMPTY, lines, LineReader(ips), Exact(""), network);
      var i :| 0 <= i < |lines| && LineReader(ips)(lines[i]) == Some(NetworkItem(network));
      LineIsNormal(lines[i], ips);
    }
  }

  lemma ListedEntries(sets: Sets)
    ensures WithoutRepeats(Listed(sets))
    ensures forall domain :: domain in Listed(sets).domains <==> domain in sets.domains
    ensures forall entry :: entry in Listed(sets).entries <==> entry in sets.entries
    ensures forall network :: network in Listed(sets).networks <==> network in sets.networks
    ensures |Listed(sets).entries| == |sets.entries| && |Listed(sets).networks| == |sets.networks|
  {
    BeforeIsTotal();
    EntryBeforeIsTotal();
    AscendingIsDistinct(sets.domains, Before);
    AscendingIsDistinct(sets.entries, EntryBefore);
    AscendingIsDistinct(sets.networks, Before);
  }

  lemma ListedDomains(sets: Sets)
    requires DomainsMatch(sets)
    ensures DomainsOfEntries(Listed(sets))
  {
  }

  lemma TakenFromNormal(parsed: Parsed, sets: Sets, ips: IpText)
    requires forall entry | entry in parsed.entries :: entry in sets.entries
    requires forall network | network in parsed.networks :: network in sets.networks
    requires forall entry | entry in sets.entries :: Canonical(entry.domain)
    requires forall network | network in sets.networks :: NormalNetwork(network, ips)
    ensures AllNormal(parsed, ips)
  {
  }

  /** An accepted source yields each entry once, in order, in normal form and within the limits. */
  lemma AcceptedIsWellFormed(text: string, ips: IpText)
    requires Faithful(ips) && Read(text, ips).Ok?
    ensures WellFormedParsed(Read(text, ips).value, ips)
    ensures forall entry ::
              entry in Read(text, ips).value.entries <==> Says(Lines(text), LineReader(ips), DomainItem(entry))
    ensures forall network ::
              network in Read(text, ips).value.networks <==> Says(Lines(text), LineReader(ips), NetworkItem(network))
  {
    var lines := Lines(text);
    AcceptedIff(text, ips);
    SaidIsNormal(lines, ips);
    SaidDomains(EMPTY, lines, LineReader(ips));
    ListedEntries(Said(EMPTY, lines, LineReader(ips)));
    ListedDomains(Said(EMPTY, lines, LineReader(ips)));
    TakenFromNormal(Read(text, ips).value, Said(EMPTY, lines, LineReader(ips)), ips);
    forall entry ensures entry in Read(text, ips).value.entries <==> Says(lines, LineReader(ips), DomainItem(entry)) {
      SaidContents(EMPTY, lines, LineReader(ips), entry, "");
    }
    forall network
      ensures network in Read(text, ips).value.networks <==> Says(lines, LineReader(ips), NetworkItem(network)) {
      SaidContents(EMPTY, lines, LineReader(ips), Exact(""), network);
    }
  }
}

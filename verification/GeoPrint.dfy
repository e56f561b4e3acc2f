/** Writing a parsed source out as rule lines: the inverse of the reader. */
module GeoPrint {

  import opened DomainNames
  import opened GeoArtifacts
  import opened GeoSource
  import opened NetworkText
  import opened Text
  import opened Wrappers

  const MAX_RULE_BYTES := 267

  function EntryRule(entry: Entry): string {
    match entry
    case Exact(domain) => "DOMAIN" + [','] + domain
    case Suffix(domain) => "DOMAIN-SUFFIX" + [','] + domain
  }

  function NetworkRule(network: string): string {
    "IP-CIDR" + [','] + network
  }

  function EntryRules(entries: seq<Entry>): (lines: seq<string>)
    ensures |lines| == |entries| && forall i | 0 <= i < |entries| :: lines[i] == EntryRule(entries[i])
  {
    seq(|entries|, i requires 0 <= i < |entries| => EntryRule(entries[i]))
  }

  function NetworkRules(networks: seq<string>): (lines: seq<string>)
    ensures |lines| == |networks| && forall i | 0 <= i < |networks| :: lines[i] == NetworkRule(networks[i])
  {
    seq(|networks|, i requires 0 <= i < |networks| => NetworkRule(networks[i]))
  }

  /** One rule for each entry, then one for each network. */
  function Rules(parsed: Parsed): seq<string> {
    EntryRules(parsed.entries) + NetworkRules(parsed.networks)
  }

  // ------------------------------------------------ one rule read back

  /** Text that cannot be mistaken for a comment, an argument list or white space. */
  predicate Plain(s: string) {
    NoSpaces(s) && '#' !in s && ',' !in s
  }

  lemma RuleIsClean(keyword: string, value: string)
    requires Plain(keyword) && Plain(value)
    ensures var rule := keyword + [','] + value; Clean(rule) && Trim(StripComment(rule)) == rule
  {
    var rule := keyword + [','] + value;
    assert NoSpaces(rule);
    SplitOnceFree(rule, '#');
    TrimNoSpaces(rule);
  }

  /** A rule without comment or further arguments splits into its keyword and value. */
  lemma RuleSplits(keyword: string, value: string)
    requires Plain(keyword) && Plain(value) && Upper(keyword) == keyword
    ensures keyword == "DOMAIN" ==> SplitRule(keyword + [','] + value) == (ExactDomain, value)
    ensures keyword == "DOMAIN-SUFFIX" ==> SplitRule(keyword + [','] + value) == (SuffixDomain, value)
    ensures keyword == "IP-CIDR" ==> SplitRule(keyword + [','] + value) == (OnlyNetwork, value)
  {
    TrimNoSpaces(keyword);
    TrimNoSpaces(value);
    SplitOnceAt(keyword, ',', value);
    SplitFree(value, {','});
  }

  lemma DomainIsPlain(domain: string)
    requires Canonical(domain)
    ensures Plain(domain)
  {
    DomainChars(domain);
  }

  lemma KeywordIsPlain(keyword: string)
    requires keyword in {"DOMAIN", "DOMAIN-SUFFIX", "IP-CIDR"}
    ensures Plain(keyword) && Upper(keyword) == keyword
  {
    assert forall i | 0 <= i < |keyword| :: 'A' <= keyword[i] <= 'Z' || keyword[i] == '-';
  }

  lemma DomainRuleReads(raw: string, value: string, suffix: bool, ips: IpText)
    requires raw != "" && Trim(StripComment(raw)) == raw
    requires SplitRule(raw) == (if suffix then SuffixDomain else ExactDomain, value)
    ensures ReadLine(raw, ips) == ReadDomain(value, suffix)
  {
  }

  lemma EntryRuleSplits(entry: Entry)
    requires Plain(entry.domain)
    ensures var rule := EntryRule(entry);
            && Clean(rule) && Trim(StripComment(rule)) == rule
            && SplitRule(rule) == (if entry.Suffix? then SuffixDomain else ExactDomain, entry.domain)
  {
    var keyword := if entry.Suffix? then "DOMAIN-SUFFIX" else "DOMAIN";
    KeywordIsPlain(keyword);
    RuleIsClean(keyword, entry.domain);
    RuleSplits(keyword, entry.domain);
  }

  lemma EntryRuleReads(entry: Entry, ips: IpText)
    requires Canonical(entry.domain)
    ensures ReadLine(EntryRule(entry), ips) == Some(DomainItem(entry))
  {
    DomainIsPlain(entry.domain);
    EntryRuleSplits(entry);
    ParsesToCanonical("", entry.domain);
    DomainRuleReads(EntryRule(entry), entry.domain, entry.Suffix?, ips);
  }

  lemma NetworkRuleSplits(network: string)
    requires Tidy(network)
    ensures var rule := NetworkRule(network);
            Clean(rule) && Trim(StripComment(rule)) == rule && SplitRule(rule) == (OnlyNetwork, network)
  {
    TidyFacts(network);
    KeywordIsPlain("IP-CIDR");
    RuleIsClean("IP-CIDR", network);
    RuleSplits("IP-CIDR", network);
  }

  lemma NetworkRuleReads(network: string, ips: IpText)
    requires NormalNetwork(network, ips)
    ensures ReadLine(NetworkRule(network), ips) == Some(NetworkItem(network)) && Clean(NetworkRule(network))
  {
    NetworkRuleSplits(network);
    OnlyNetworkReads(NetworkRule(network), network, ips);
  }

  lemma OnlyNetworkReads(raw: string, value: string, ips: IpText)
    requires raw != "" && Trim(StripComment(raw)) == raw && SplitRule(raw) == (OnlyNetwork, value)
    ensures ReadLine(raw, ips) == ReadNetworkItem(value, ips)
  {
  }

  lemma RuleBytes(keyword: string, value: string)
    requires |keyword| <= 13 && forall i | 0 <= i < |keyword| :: keyword[i] as int < 0x80
    ensures Bytes(keyword + [','] + value) <= 14 + Bytes(value)
  {
    BytesOfAscii(keyword);
    BytesOfConcat(keyword, [',']);
    BytesOfConcat(keyword + [','], value);
    BytesOfAscii([',']);
  }

  lemma EntryRuleIsShort(entry: Entry)
    requires Canonical(entry.domain)
    ensures Bytes(EntryRule(entry)) <= MAX_RULE_BYTES
  {
    RuleBytes("DOMAIN", entry.domain);
    RuleBytes("DOMAIN-SUFFIX", entry.domain);
  }

  lemma NetworkRuleIsShort(network: string)
    requires Tidy(network)
    ensures Bytes(NetworkRule(network)) <= MAX_RULE_BYTES
  {
    TidyFacts(network);
    RuleBytes("IP-CIDR", network);
  }

  // ------------------------------------------------ all rules read back

  /** The rules as the reader sees them. */
  ghost predicate ReadAs(lines: seq<string>, parsed: Parsed, read: Reader) {
    && |lines| == |parsed.entries| + |parsed.networks|
    && (forall i | 0 <= i < |parsed.entries| :: read(lines[i]) == Some(DomainItem(parsed.entries[i])))
    && (forall i | |parsed.entries| <= i < |lines| ::
          read(lines[i]) == Some(NetworkItem(parsed.networks[i - |parsed.entries|])))
  }

  lemma EntryRulesRead(parsed: Parsed, ips: IpText)
    requires AllNormal(parsed, ips)
    ensures forall i | 0 <= i < |parsed.entries| ::
              LineReader(ips)(EntryRule(parsed.entries[i])) == Some(DomainItem(parsed.entries[i]))
  {
    forall i | 0 <= i < |parsed.entries|
      ensures LineReader(ips)(EntryRule(parsed.entries[i])) == Some(DomainItem(parsed.entries[i]))
    {
      EntryRuleReads(parsed.entries[i], ips);
    }
  }

  lemma NetworkRulesRead(parsed: Parsed, ips: IpText)
    requires AllNormal(parsed, ips)
    ensures forall i | 0 <= i < |parsed.networks| ::
              LineReader(ips)(NetworkRule(parsed.networks[i])) == Some(NetworkItem(parsed.networks[i]))
  {
    forall i | 0 <= i < |parsed.networks|
      ensures LineReader(ips)(NetworkRule(parsed.networks[i])) == Some(NetworkItem(parsed.networks[i]))
    {
      NetworkRuleReads(parsed.networks[i], ips);
    }
  }

  lemma RulesRead(parsed: Parsed, read: Reader)
    requires forall i | 0 <= i < |parsed.entries| ::
               read(EntryRule(parsed.entries[i])) == Some(DomainItem(parsed.entries[i]))
    requires forall i | 0 <= i < |parsed.networks| ::
               read(NetworkRule(parsed.networks[i])) == Some(NetworkItem(parsed.networks[i]))
    ensures ReadAs(Rules(parsed), parsed, read)
  {
    var first, second := EntryRules(parsed.entries), NetworkRules(parsed.networks);
    assert forall i | 0 <= i < |first| :: (first + second)[i] == first[i];
    assert forall i | |first| <= i < |first + second| :: (first + second)[i] == second[i - |first|];
  }

  lemma RulesAreCleanAndShort(parsed: Parsed, ips: IpText)
    requires AllNormal(parsed, ips)
    ensures ShortLines(Rules(parsed)) && forall i | 0 <= i < |Rules(parsed)| :: Clean(Rules(parsed)[i])
  {
    var lines, n := Rules(parsed), |parsed.entries|;
    forall i | 0 <= i < |lines| ensures Clean(lines[i]) && Bytes(lines[i]) <= MAX_LINE_BYTES {
      if i < n {
        DomainIsPlain(parsed.entries[i].domain);
        EntryRuleSplits(parsed.entries[i]);
        EntryRuleIsShort(parsed.entries[i]);
      } else {
        NetworkRuleSplits(parsed.networks[i - n]);
        NetworkRuleIsShort(parsed.networks[i - n]);
      }
    }
  }

  ghost predicate SameContents(parsed: Parsed, sets: Sets) {
    && (forall entry :: entry in parsed.entries <==> entry in sets.entries)
    && (forall network :: network in parsed.networks <==> network in sets.networks)
  }

  lemma RulesSay(lines: seq<string>, parsed: Parsed, read: Reader, entry: Entry, network: string)
    requires ReadAs(lines, parsed, read)
    ensures Says(lines, read, DomainItem(entry)) <==> entry in parsed.entries
    ensures Says(lines, read, NetworkItem(network)) <==> network in parsed.networks
  {
    if entry in parsed.entries {
      var i :| 0 <= i < |parsed.entries| && parsed.entries[i] == entry;
      assert read(lines[i]) == Some(DomainItem(entry));
    }
    if network in parsed.networks {
      var i :| 0 <= i < |parsed.networks| && parsed.networks[i] == network;
      assert read(lines[|parsed.entries| + i]) == Some(NetworkItem(network));
    }
  }

  lemma RulesRebuild(lines: seq<string>, parsed: Parsed, sets: Sets, read: Reader)
    requires ReadAs(lines, parsed, read) && SameContents(parsed, sets) && DomainsMatch(sets)
    ensures Readable(lines, read) && Said(EMPTY, lines, read) == sets
  {
    assert Readable(lines, read);
    var said := Said(EMPTY, lines, read);
    forall entry ensures entry in said.entries <==> entry in sets.entries {
      SaidContents(EMPTY, lines, read, entry, "");
      RulesSay(lines, parsed, read, entry, "");
    }
    forall network ensures network in said.networks <==> network in sets.networks {
      SaidContents(EMPTY, lines, read, Exact(""), network);
      RulesSay(lines, parsed, read, Exact(""), network);
    }
    SaidDomains(EMPTY, lines, read);
    assert said.entries == sets.entries && said.networks == sets.networks;
  }

  /** An accepted source is the ordered listing of what it says. */
  lemma AcceptedSets(text: string, ips: IpText)
    requires Read(text, ips).Ok?
    ensures Readable(Lines(text), LineReader(ips))
    ensures var sets, parsed := Said(EMPTY, Lines(text), LineReader(ips)), Read(text, ips).value;
            parsed == Listed(sets) && SameContents(parsed, sets) && Fits(sets) && DomainsMatch(sets)
  {
    AcceptedIff(text, ips);
    SaidDomains(EMPTY, Lines(text), LineReader(ips));
    ListedEntries(Said(EMPTY, Lines(text), LineReader(ips)));
  }

  lemma RulesAreFew(sets: Sets)
    requires Fits(sets)
    ensures |Rules(Listed(sets))| <= MAX_LINES
  {
    ListedEntries(sets);
  }

  /**
   * Writing an accepted source out as rules and reading them gives the same parsed source, provided the
   * rules fit the byte limit; rules that do not fit are refused.
   */
  lemma RulesReadBack(text: string, ips: IpText)
    requires Faithful(ips) && Read(text, ips).Ok?
    ensures var rules := FileText(Rules(Read(text, ips).value));
            Read(rules, ips) == if Bytes(rules) <= MAX_SOURCE_BYTES then Read(text, ips) else Err(LimitExceeded)
  {
    var parsed, read := Read(text, ips).value, LineReader(ips);
    AcceptedSets(text, ips);
    AcceptedIsWellFormed(text, ips);
    var sets := Said(EMPTY, Lines(text), read);
    EntryRulesRead(parsed, ips);
    NetworkRulesRead(parsed, ips);
    RulesRead(parsed, read);
    RulesAreCleanAndShort(parsed, ips);
    RulesAreFew(sets);
    RulesRebuild(Rules(parsed), parsed, sets, read);
    FileReadsBack(Rules(parsed));
    AcceptedIff(FileText(Rules(parsed)), ips);
  }

  // ------------------------------------------------ what a line may carry besides its rule

  /** Everything from the first number sign on is ignored. */
  lemma CommentsAreIgnored(line: string, comment: string, ips: IpText)
    requires '#' !in line
    ensures ReadLine(line + ['#'] + comment, ips) == ReadLine(line, ips)
  {
    SplitOnceAt(line, '#', comment);
    SplitOnceFree(line, '#');
  }

  /** Arguments after the first are ignored. */
  lemma ArgumentsAreIgnored(keyword: string, value: string, more: string)
    requires Plain(keyword) && Plain(value) && Upper(keyword) in {"DOMAIN", "DOMAIN-SUFFIX", "IP-CIDR", "IP-CIDR6"}
    ensures SplitRule(keyword + [','] + (value + [','] + more)) == SplitRule(keyword + [','] + value)
  {
    TrimNoSpaces(keyword);
    SplitOnceAt(keyword, ',', value + [','] + more);
    SplitOnceAt(keyword, ',', value);
    SplitAtSeparator(value, ',', more);
    SplitFree(value, {','});
  }
}

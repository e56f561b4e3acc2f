/** What the lines of a source mean, in terms of how they are written: blank lines, rules in any spelling, plain
    domains and addresses, the syntax of domains, and the order of what is read. */
module GeoReading {

  import opened Collections
  import opened DomainNames
  import opened GeoArtifacts
  import opened GeoPrint
  import opened GeoSource
  import opened NetworkText
  import opened Ordered
  import opened Text
  import opened Wrappers

  // ------------------------------------------------ white space

  predicate AllSpaces(s: string) {
    forall i | 0 <= i < |s| :: IsSpace(s[i])
  }

  lemma {:induction false} TrimStartAfter(before: string, s: string)
    requires AllSpaces(before) && (s == "" || !IsSpace(s[0]))
    ensures TrimStart(before + s) == s
  {
    if before == "" {
      assert before + s == s;
    } else {
      assert (before + s)[1..] == before[1..] + s;
      TrimStartAfter(before[1..], s);
    }
  }

  lemma {:induction false} TrimEndBefore(s: string, after: string)
    requires AllSpaces(after) && (s == "" || !IsSpace(s[|s| - 1]))
    ensures TrimEnd(s + after) == s
  {
    if after == "" {
      assert s + after == s;
    } else {
      assert (s + after)[..|s + after| - 1] == s + after[..|after| - 1];
      TrimEndBefore(s, after[..|after| - 1]);
    }
  }

  lemma TrimAround(before: string, s: string, after: string)
    requires AllSpaces(before) && AllSpaces(after) && s != "" && NoSpaces(s)
    ensures Trim(before + s + after) == s
  {
    assert before + s + after == before + (s + after) && (s + after)[0] == s[0] && s[0] in s && s[|s| - 1] in s;
    TrimStartAfter(before, s + after);
    TrimEndBefore(s, after);
  }

  lemma {:induction false} TrimStartIsEmptyIff(s: string)
    ensures TrimStart(s) == "" <==> AllSpaces(s)
    ensures TrimStart(s) != "" ==> !IsSpace(TrimStart(s)[0])
  {
    if s != "" && IsSpace(s[0]) {
      TrimStartIsEmptyIff(s[1..]);
      assert s == [s[0]] + s[1..];
    }
  }

  lemma {:induction false} TrimEndKeeps(s: string, i: nat)
    requires i < |s| && !IsSpace(s[i])
    ensures TrimEnd(s) != ""
  {
    if IsSpace(s[|s| - 1]) {
      TrimEndKeeps(s[..|s| - 1], i);
    }
  }

  lemma TrimIsEmptyIff(s: string)
    ensures Trim(s) == "" <==> AllSpaces(s)
  {
    TrimStartIsEmptyIff(s);
    if TrimStart(s) != "" {
      TrimEndKeeps(TrimStart(s), 0);
    }
  }

  // ------------------------------------------------ blank lines

  lemma ItemsAreNotBlank(value: string, suffix: bool, ips: IpText)
    ensures ReadDomain(value, suffix) != Some(Blank) && ReadNetworkItem(value, ips) != Some(Blank)
  {
  }

  /** A line says nothing exactly when there is only white space before its comment. */
  lemma BlankIff(text: string, comment: string, ips: IpText)
    requires '#' !in text
    ensures ReadLine(text, ips) == Some(Blank) <==> AllSpaces(text)
    ensures ReadLine(text + ['#'] + comment, ips) == Some(Blank) <==> AllSpaces(text)
  {
    CommentsAreIgnored(text, comment, ips);
    SplitOnceFree(text, '#');
    TrimIsEmptyIff(text);
    var line := Trim(text);
    if line != "" {
      ItemsAreNotBlank(SplitRule(line).1, SplitRule(line).0.SuffixDomain?, ips);
    }
  }

  // ------------------------------------------------ rules

  lemma SameUpper(word: string, lower: string, upper: string)
    requires Lower(word) == lower && |upper| == |lower|
    requires forall i | 0 <= i < |lower| ::
               UpperChar(lower[i]) == upper[i] && (lower[i] == '-' || IsDigit(lower[i]) || 'a' <= lower[i] <= 'z')
    ensures Upper(word) == upper && Plain(word)
  {
    assert |word| == |lower|;
    forall i | 0 <= i < |word| ensures UpperChar(word[i]) == upper[i] && !IsSpace(word[i]) && word[i] !in {'#', ','} {
      assert LowerChar(word[i]) == lower[i];
    }
  }

  lemma KeywordInAnyCase(word: string)
    ensures Lower(word) == "domain" ==> Upper(word) == "DOMAIN" && Plain(word)
    ensures Lower(word) == "domain-suffix" ==> Upper(word) == "DOMAIN-SUFFIX" && Plain(word)
    ensures Lower(word) == "ip-cidr" ==> Upper(word) == "IP-CIDR" && Plain(word)
    ensures Lower(word) == "ip-cidr6" ==> Upper(word) == "IP-CIDR6" && Plain(word)
  {
    if Lower(word) == "domain" {
      SameUpper(word, "domain", "DOMAIN");
    } else if Lower(word) == "domain-suffix" {
      SameUpper(word, "domain-suffix", "DOMAIN-SUFFIX");
    } else if Lower(word) == "ip-cidr" {
      SameUpper(word, "ip-cidr", "IP-CIDR");
    } else if Lower(word) == "ip-cidr6" {
      SameUpper(word, "ip-cidr6", "IP-CIDR6");
    }
  }

  /** A rule with spaces around its keyword and its value. */
  function Spaced(word: string, behind: string, ahead: string, value: string): string {
    word + behind + [','] + (ahead + value)
  }

  lemma TrimBehind(word: string, behind: string)
    requires word != "" && NoSpaces(word) && AllSpaces(behind)
    ensures Trim(word + behind) == word
  {
    TrimAround("", word, behind);
    assert "" + word + behind == word + behind;
  }

  lemma TrimAhead(ahead: string, value: string)
    requires value != "" && NoSpaces(value) && AllSpaces(ahead)
    ensures Trim(ahead + value) == value
  {
    TrimAround(ahead, value, "");
    assert ahead + value + "" == ahead + value;
  }

  lemma SpacedSplits(word: string, behind: string, ahead: string, value: string)
    requires word != "" && Plain(word) && value != "" && Plain(value) && AllSpaces(behind) && AllSpaces(ahead)
    requires ',' !in behind && ',' !in ahead
    ensures SplitOnce(Spaced(word, behind, ahead, value), ',') == Some((word + behind, ahead + value))
    ensures Trim(word + behind) == word && Trim(Split(ahead + value, {','})[0]) == value
  {
    SplitOnceAt(word + behind, ',', ahead + value);
    SplitFree(ahead + value, {','});
    TrimBehind(word, behind);
    TrimAhead(ahead, value);
  }

  lemma SpacesAreNoCommas(s: string)
    requires AllSpaces(s)
    ensures ',' !in s && '#' !in s
  {
  }

  lemma SpacedIsLine(word: string, behind: string, ahead: string, value: string)
    requires word != "" && Plain(word) && value != "" && Plain(value) && AllSpaces(behind) && AllSpaces(ahead)
    ensures var raw := Spaced(word, behind, ahead, value); raw != "" && Trim(StripComment(raw)) == raw
  {
    var raw := Spaced(word, behind, ahead, value);
    SpacesAreNoCommas(behind);
    SpacesAreNoCommas(ahead);
    SplitOnceFree(raw, '#');
    assert raw[0] == word[0] && word[0] in word && raw[|raw| - 1] == value[|value| - 1] && value[|value| - 1] in value;
    TrimStartAfter("", raw);
    TrimEndBefore(raw, "");
    assert "" + raw == raw && raw + "" == raw;
  }

  /** The four rules, their keywords in any case and with any spaces. */
  lemma RuleMeans(word: string, behind: string, ahead: string, value: string, ips: IpText)
    requires value != "" && Plain(value) && AllSpaces(behind) && AllSpaces(ahead)
    ensures var raw := Spaced(word, behind, ahead, value);
            && (Lower(word) == "domain" ==> ReadLine(raw, ips) == ReadDomain(value, false))
            && (Lower(word) == "domain-suffix" ==> ReadLine(raw, ips) == ReadDomain(value, true))
            && (Lower(word) == "ip-cidr" ==> ReadLine(raw, ips) == ReadNetworkItem(value, ips))
            && (Lower(word) == "ip-cidr6" ==> ReadLine(raw, ips) == ReadNetworkItem(value, ips))
  {
    KeywordInAnyCase(word);
    if Lower(word) in {"domain", "domain-suffix", "ip-cidr", "ip-cidr6"} {
      assert word != "";
      SpacesAreNoCommas(behind);
      SpacesAreNoCommas(ahead);
      SpacedSplits(word, behind, ahead, value);
      SpacedIsLine(word, behind, ahead, value);
    }
  }

  /** What rules mean for canonical values: a domain alone, a domain with all below it, or a network. */
  lemma RulesOfCanonical(word: string, behind: string, ahead: string, value: string, ips: IpText)
    requires AllSpaces(behind) && AllSpaces(ahead)
    ensures Canonical(value) && Lower(word) == "domain" ==>
              ReadLine(Spaced(word, behind, ahead, value), ips) == Some(DomainItem(Exact(value)))
    ensures Canonical(value) && Lower(word) == "domain-suffix" ==>
              ReadLine(Spaced(word, behind, ahead, value), ips) == Some(DomainItem(Suffix(value)))
    ensures NormalNetwork(value, ips) && Lower(word) in {"ip-cidr", "ip-cidr6"} ==>
              ReadLine(Spaced(word, behind, ahead, value), ips) == Some(NetworkItem(value))
  {
    if Canonical(value) {
      DomainIsPlain(value);
      ParsesToCanonical("", value);
      RuleMeans(word, behind, ahead, value, ips);
    }
    if NormalNetwork(value, ips) {
      TidyFacts(value);
      RuleMeans(word, behind, ahead, value, ips);
    }
  }

  // ------------------------------------------------ lines without a rule

  lemma PlainIsLine(line: string)
    requires Plain(line)
    ensures Trim(StripComment(line)) == line && SplitRule(line) == (Auto, line)
  {
    SplitOnceFree(line, '#');
    SplitOnceFree(line, ',');
    TrimNoSpaces(line);
  }

  /** A line without a keyword is a network if it is an address or has a slash, and otherwise a domain alone. */
  lemma PlainLineMeans(line: string, ips: IpText)
    requires Plain(line) && line != ""
    ensures ips.parse(line).Some? || '/' in line ==> ReadLine(line, ips) == ReadNetworkItem(line, ips)
    ensures ips.parse(line).None? && '/' !in line ==> ReadLine(line, ips) == ReadDomain(line, false)
  {
    PlainIsLine(line);
  }

  lemma CanonicalIsPlain(domain: string)
    requires Canonical(domain)
    ensures Plain(domain) && domain != "" && '/' !in domain && ParseDomain(domain) == Some(domain)
  {
    DomainIsPlain(domain);
    DomainChars(domain);
    ParsesToCanonical("", domain);
  }

  /** The most ordinary line: a domain on its own stands for that domain and nothing below it. */
  lemma PlainDomainReads(line: string, ips: IpText)
    requires Canonical(line) && ips.parse(line).None?
    ensures ReadLine(line, ips) == Some(DomainItem(Exact(line)))
  {
    CanonicalIsPlain(line);
    PlainLineMeans(line, ips);
  }

  /** A line with a comma and no keyword is refused, unless an address or a network could be read from it. */
  lemma UnknownRuleIsRefused(prefix: string, rest: string, ips: IpText)
    requires ',' !in prefix && prefix != "" && NoSpaces(prefix + rest) && '#' !in prefix + rest && '/' !in prefix + rest
    requires Lower(prefix) !in {"domain", "domain-suffix", "ip-cidr", "ip-cidr6"}
    requires ips.parse(prefix + [','] + rest).None?
    ensures ReadLine(prefix + [','] + rest, ips) == None
  {
    var line := prefix + [','] + rest;
    assert forall c :: c in prefix + rest <==> c in prefix || c in rest;
    SplitOnceFree(line, '#');
    TrimNoSpaces(line);
    SplitOnceAt(prefix, ',', rest);
    TrimNoSpaces(prefix);
    UnknownKeyword(prefix);
    assert line[|prefix|] == ',';
    CommaIsNoDomain(line);
  }

  lemma UnknownKeyword(word: string)
    requires Lower(word) !in {"domain", "domain-suffix", "ip-cidr", "ip-cidr6"}
    ensures Upper(word) !in {"DOMAIN", "DOMAIN-SUFFIX", "IP-CIDR", "IP-CIDR6"}
  {
    LowerOfUpper(word);
    assert Lower("DOMAIN") == "domain" && Lower("DOMAIN-SUFFIX") == "domain-suffix";
    assert Lower("IP-CIDR") == "ip-cidr" && Lower("IP-CIDR6") == "ip-cidr6";
  }

  lemma LowerOfUpper(word: string)
    ensures Lower(Upper(word)) == Lower(word)
  {
  }

  lemma CommaIsNoDomain(line: string)
    requires ',' in line && NoSpaces(line)
    ensures ParseDomain(line) == None
  {
    TrimNoSpaces(line);
    TrimDotsKeeps(line, ',');
    var lowered := Lower(TrimDots(line));
    var i :| 0 <= i < |TrimDots(line)| && TrimDots(line)[i] == ',';
    assert lowered[i] == ',' && lowered[i] in lowered;
    if WellFormed(lowered) {
      DomainChars(lowered);
    }
  }

  lemma {:induction false} TrimDotsKeeps(s: string, c: char)
    requires c in s && c != '.'
    ensures c in TrimDots(s)
  {
    if s[|s| - 1] == '.' {
      assert s == s[..|s| - 1] + [s[|s| - 1]];
      TrimDotsKeeps(s[..|s| - 1], c);
    }
  }

  // ------------------------------------------------ sources of plain domains

  lemma PlainDomainIsClean(line: string)
    requires Canonical(line)
    ensures Clean(line) && Bytes(line) <= MAX_LINE_BYTES
  {
    DomainIsPlain(line);
    DomainChars(line);
  }

  /** A source that lists domains, one a line, stands for exactly those domains, each alone. */
  lemma PlainDomainsRead(lines: seq<string>, ips: IpText)
    requires |lines| <= MAX_DOMAINS_PER_BASE && Bytes(FileText(lines)) <= MAX_SOURCE_BYTES
    requires forall i | 0 <= i < |lines| :: Canonical(lines[i]) && ips.parse(lines[i]).None?
    ensures Read(FileText(lines), ips).Ok?
    ensures var parsed := Read(FileText(lines), ips).value;
            && parsed.networks == []
            && forall entry :: entry in parsed.entries <==> entry.Exact? && entry.domain in lines
  {
    var read := LineReader(ips);
    forall i | 0 <= i < |lines|
      ensures Clean(lines[i]) && Bytes(lines[i]) <= MAX_LINE_BYTES
      ensures read(lines[i]) == Some(DomainItem(Exact(lines[i])))
    {
      PlainDomainIsClean(lines[i]);
      PlainDomainReads(lines[i], ips);
    }
    FileReadsBack(lines);
    DomainsSay(lines, read);
    AcceptedIff(FileText(lines), ips);
    ListedEntries(Said(EMPTY, lines, read));
  }

  lemma DomainsSay(lines: seq<string>, read: Reader)
    requires |lines| <= MAX_DOMAINS_PER_BASE
    requires forall i | 0 <= i < |lines| :: read(lines[i]) == Some(DomainItem(Exact(lines[i])))
    ensures Readable(lines, read)
    ensures var said := Said(EMPTY, lines, read);
            && said.networks == {} && |said.entries| <= |lines|
            && forall entry :: entry in said.entries <==> entry.Exact? && entry.domain in lines
  {
    assert Readable(lines, read);
    var said := Said(EMPTY, lines, read);
    forall entry ensures entry in said.entries <==> entry.Exact? && entry.domain in lines {
      SaidContents(EMPTY, lines, read, entry, "");
      if entry.Exact? && entry.domain in lines {
        var i :| 0 <= i < |lines| && lines[i] == entry.domain;
        assert read(lines[i]) == Some(DomainItem(entry));
      }
    }
    forall network ensures network !in said.networks {
      SaidContents(EMPTY, lines, read, Exact(""), network);
    }
    EntriesOfLines(lines, said.entries);
  }

  lemma {:induction false} EntriesOfLines(lines: seq<string>, entries: set<Entry>)
    requires forall entry | entry in entries :: entry.Exact? && entry.domain in lines
    ensures |entries| <= |lines|
  {
    if lines == [] {
      assert entries == {};
    } else {
      var rest := entries - {Exact(lines[0])};
      assert lines == [lines[0]] + lines[1..];
      EntriesOfLines(lines[1..], rest);
      assert entries <= rest + {Exact(lines[0])};
      CardinalityOfSubset(entries, rest + {Exact(lines[0])});
    }
  }

  // ------------------------------------------------ the syntax of domains

  predicate AllLabelChars(part: string) {
    forall i | 0 <= i < |part| ::
      'a' <= part[i] <= 'z' || 'A' <= part[i] <= 'Z' || '0' <= part[i] <= '9' || part[i] == '-'
  }

  predicate AllNumber(part: string) {
    forall i | 0 <= i < |part| :: '0' <= part[i] <= '9'
  }

  /** How a label may be written. */
  predicate GoodLabel(part: string) {
    && 0 < |part| < 64 && AllLabelChars(part)
    && part[0] != '-' && part[|part| - 1] != '-' && part != "xn--"
  }

  lemma LabelIff(part: string)
    ensures ValidLabel(part) <==> GoodLabel(part)
  {
    assert (forall c | c in part :: LabelChar(c)) <==> AllLabelChars(part) by {
      if (forall c | c in part :: LabelChar(c)) {
        assert forall i | 0 <= i < |part| :: part[i] in part;
      }
    }
    assert "xn--" <= part && |part| <= 4 <==> part == "xn--";
  }

  lemma DigitsIff(part: string)
    ensures AllDigits(part) <==> AllNumber(part)
  {
    if AllDigits(part) {
      assert forall i | 0 <= i < |part| :: part[i] in part;
    }
  }

  lemma {:induction false} JoinedIsAscii(labels: seq<string>)
    requires labels != [] && forall i | 0 <= i < |labels| :: AllLabelChars(labels[i])
    ensures forall i | 0 <= i < |Join(labels, '.')| :: Join(labels, '.')[i] as int < 0x80
  {
    if |labels| > 1 {
      JoinedIsAscii(labels[1..]);
    }
  }

  lemma LabelsOfJoined(labels: seq<string>)
    requires labels != [] && forall i | 0 <= i < |labels| :: '.' !in labels[i]
    ensures Labels(Join(labels, '.')) == labels
  {
    forall piece | piece in labels ensures Free(piece, {'.'}) {
      var i :| 0 <= i < |labels| && labels[i] == piece;
    }
    SplitJoin(labels, '.');
  }

  lemma AllLabelsIff(labels: seq<string>)
    ensures (forall i | 0 <= i < |labels| :: ValidLabel(labels[i])) <==>
            (forall i | 0 <= i < |labels| :: GoodLabel(labels[i]))
  {
    forall i | 0 <= i < |labels| ensures ValidLabel(labels[i]) <==> GoodLabel(labels[i]) {
      LabelIff(labels[i]);
    }
  }

  lemma GoodLabelsAreAscii(labels: seq<string>)
    requires labels != [] && forall i | 0 <= i < |labels| :: GoodLabel(labels[i])
    ensures IsAscii(Join(labels, '.')) && Bytes(Join(labels, '.')) == |Join(labels, '.')|
  {
    JoinedIsAscii(labels);
    BytesOfAscii(Join(labels, '.'));
  }

  /** A domain is two or more good labels between dots, at most 253 bytes in all, the last one no number. */
  lemma DomainIff(labels: seq<string>)
    requires labels != [] && forall i | 0 <= i < |labels| :: '.' !in labels[i]
    ensures WellFormed(Join(labels, '.')) <==>
              && |labels| >= 2 && (forall i | 0 <= i < |labels| :: GoodLabel(labels[i]))
              && |Join(labels, '.')| <= 253 && !AllNumber(labels[|labels| - 1])
  {
    LabelsOfJoined(labels);
    AllLabelsIff(labels);
    DigitsIff(labels[|labels| - 1]);
    if |labels| >= 2 && (forall i | 0 <= i < |labels| :: GoodLabel(labels[i])) {
      GoodLabelsAreAscii(labels);
      assert Join(labels, '.') != "";
    }
  }

  lemma {:induction false} TrimDotsAfter(s: string, dots: string)
    requires (forall i | 0 <= i < |dots| :: dots[i] == '.') && s != "" && s[|s| - 1] != '.'
    ensures TrimDots(s + dots) == s
  {
    if dots == "" {
      assert s + dots == s;
    } else {
      assert (s + dots)[..|s + dots| - 1] == s + dots[..|dots| - 1];
      TrimDotsAfter(s, dots[..|dots| - 1]);
    }
  }

  lemma LowerKeepsEnds(written: string, domain: string)
    requires Lower(written) == domain && Canonical(domain)
    ensures NoSpaces(written) && written != "" && written[|written| - 1] != '.'
  {
    DomainChars(domain);
    assert |written| == |domain|;
    forall i | 0 <= i < |written| ensures !IsSpace(written[i]) && (written[i] == '.' ==> domain[i] == '.') {
      assert LowerChar(written[i]) == domain[i] && domain[i] in domain;
    }
  }

  /** A domain may be written in any case, between spaces and with dots at its end. */
  lemma DomainInAnySpelling(before: string, written: string, dots: string, after: string, domain: string)
    requires AllSpaces(before) && AllSpaces(after) && forall i | 0 <= i < |dots| :: dots[i] == '.'
    requires Lower(written) == domain && Canonical(domain)
    ensures ParseDomain(before + (written + dots) + after) == Some(domain)
  {
    LowerKeepsEnds(written, domain);
    assert NoSpaces(written + dots);
    TrimAround(before, written + dots, after);
    TrimDotsAfter(written, dots);
  }

  // ------------------------------------------------ prefix lengths and lines

  /** A prefix length is a decimal number, with or without a plus sign. */
  lemma PrefixMeans(n: nat)
    requires n <= 255
    ensures ParsePrefix(Decimal(n)) == Some(n) && ParsePrefix(['+'] + Decimal(n)) == Some(n)
  {
    PrefixReadsBack(n);
    DecimalRoundTrip(n);
    assert (['+'] + Decimal(n))[1..] == Decimal(n);
  }

  /** Lines end in a line feed, alone or behind one carriage return; the last one need not. */
  lemma LinesMean(line: string, rest: string)
    requires '\n' !in line
    ensures line == "" || line[|line| - 1] != '\r' ==> Lines(line + ['\n'] + rest) == [line] + Lines(rest)
    ensures Lines(line + ['\r'] + ['\n'] + rest) == [line] + Lines(rest)
    ensures line != "" ==> Lines(line) == [line]
    ensures Lines("") == []
  {
    LinesStep(line, rest);
    LinesStep(line + ['\r'], rest);
    assert (line + ['\r'])[..|line|] == line;
    SplitOnceFree(line, '\n');
  }

  // ------------------------------------------------ the order of what is read

  /** `a` comes before `b` when it is a proper beginning of it, or smaller where they first differ. */
  predicate ComesFirst(a: string, b: string, k: nat) {
    k <= |a| && k < |b| && a[..k] == b[..k] && (k == |a| || a[k] < b[k])
  }

  lemma {:induction false} BeforeMeans(a: string, b: string) returns (k: nat)
    ensures Before(a, b) ==> ComesFirst(a, b, k)
    ensures Before(b, a) ==> ComesFirst(b, a, k)
  {
    k := 0;
    if a != "" && b != "" && a[0] == b[0] {
      var rest := BeforeMeans(a[1..], b[1..]);
      k := rest + 1;
      assert a == [a[0]] + a[1..] && b == [b[0]] + b[1..];
      if ComesFirst(a[1..], b[1..], rest) || ComesFirst(b[1..], a[1..], rest) {
        assert a[..k] == [a[0]] + a[1..][..rest] && b[..k] == [b[0]] + b[1..][..rest];
      }
    }
  }

  /** What is read comes in order: domains and networks by their texts, entries alone before those with all
      below them, and within a kind by their domains. */
  lemma ReadInOrder(text: string, ips: IpText)
    requires Read(text, ips).Ok?
    ensures var parsed := Read(text, ips).value;
            && (forall i, j | 0 <= i < j < |parsed.domains| :: Before(parsed.domains[i], parsed.domains[j]))
            && (forall i, j | 0 <= i < j < |parsed.networks| :: Before(parsed.networks[i], parsed.networks[j]))
            && forall i, j | 0 <= i < j < |parsed.entries| ::
                 var a, b := parsed.entries[i], parsed.entries[j];
                 (a.Exact? && b.Suffix?) || ((a.Exact? <==> b.Exact?) && Before(a.domain, b.domain))
  {
    AcceptedIff(text, ips);
    BeforeIsTotal();
    EntryBeforeIsTotal();
  }

  // ------------------------------------------------ which error a source gets

  lemma {:induction false} AddLinesPrefix(sets: Sets, count: nat, lines: seq<string>, read: Reader) returns (k: nat)
    requires AddLines(sets, count, lines, read).Err?
    ensures k < |lines| && AddLines(sets, count, lines[..k], read).Ok?
    ensures AddLines(sets, count, lines, read) ==
              AddLine(AddLines(sets, count, lines[..k], read).value, count + k, lines[k], read)
    decreases |lines|
  {
    k := 0;
    var next := AddLine(sets, count, lines[0], read);
    if next.Ok? {
      k := AddLinesPrefix(next.value, count + 1, lines[1..], read);
      assert lines[..k + 1][1..] == lines[1..][..k];
      k := k + 1;
    }
  }

  /** The first line that cannot be added decides the error: a limit, or else that it is unreadable. */
  lemma ErrorOfSource(text: string, ips: IpText) returns (k: nat)
    requires Read(text, ips).Err?
    ensures Bytes(text) > MAX_SOURCE_BYTES ==> Read(text, ips) == Err(LimitExceeded)
    ensures Bytes(text) <= MAX_SOURCE_BYTES ==>
              var lines, read := Lines(text), LineReader(ips);
              && k < |lines| && AddLines(EMPTY, 0, lines[..k], read).Ok?
              && (Read(text, ips) == Err(InvalidInput) <==>
                    k < MAX_LINES && Bytes(lines[k]) <= MAX_LINE_BYTES && ReadLine(lines[k], ips).None?)
  {
    k := 0;
    if Bytes(text) <= MAX_SOURCE_BYTES {
      k := AddLinesPrefix(EMPTY, 0, Lines(text), LineReader(ips));
    }
  }
}

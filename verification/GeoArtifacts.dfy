/** Generated list files: how they are written, read back and validated. */
module GeoArtifacts {

  import opened Collections
  import opened DomainNames
  import opened GeoListLaws
  import opened GeoLists
  import opened GeoSource
  import opened NetworkText
  import opened Ordered
  import opened Text
  import opened Wrappers

  datatype ArtifactKind = DomainList | NetworkList

  /** The text of a list file: each line ended by a line feed. */
  function FileText(lines: seq<string>): string {
    var data := Join(lines, '\n');
    if data == "" then "" else data + "\n"
  }

  predicate LineAccepted(line: string, kind: ArtifactKind, ips: IpText) {
    match kind
    case DomainList => ParseDomain(StripMark(line)).Some?
    case NetworkList => ParseNetwork(line, ips).Some?
  }

  /** Whether a line of the file is an entry. */
  type Acceptor = string -> bool

  function LineAcceptor(kind: ArtifactKind, ips: IpText): Acceptor {
    line => LineAccepted(line, kind, ips)
  }

  function CountLine(count: nat, raw: string, accepted: Acceptor): Result<nat, GeoError> {
    if Bytes(raw) > MAX_LINE_BYTES then Err(LimitExceeded)
    else if Trim(raw) == "" then Ok(count)
    else if Trim(raw) != raw || !accepted(raw) then Err(InvalidInput)
    else if count + 1 > MAX_ENTRIES then Err(LimitExceeded)
    else Ok(count + 1)
  }

  function CountLines(count: nat, lines: seq<string>, accepted: Acceptor): Result<nat, GeoError>
    decreases |lines|
  {
    if lines == [] then Ok(count)
    else
      var next := CountLine(count, lines[0], accepted);
      if next.Err? then next else CountLines(next.value, lines[1..], accepted)
  }

  function Counted(text: string, kind: ArtifactKind, ips: IpText): Result<nat, GeoError> {
    if Bytes(text) > MAX_SOURCE_BYTES then Err(LimitExceeded) else CountLines(0, Lines(text), LineAcceptor(kind, ips))
  }

  /** The loop over the lines. */
  method CountEntries(lines: seq<string>, accepted: Acceptor) returns (r: Result<nat, GeoError>)
    ensures r == CountLines(0, lines, accepted)
  {
    var count: nat := 0;
    var i := 0;
    while i < |lines|
      invariant 0 <= i <= |lines|
      invariant CountLines(0, lines, accepted) == CountLines(count, lines[i..], accepted)
    {
      var raw := lines[i];
      RestOf(lines, i);
      if Bytes(raw) > MAX_LINE_BYTES {
        return Err(LimitExceeded);
      }
      var line := Trim(raw);
      i := i + 1;
      if line == "" {
        continue;
      }
      if line != raw || !accepted(line) {
        return Err(InvalidInput);
      }
      count := count + 1;
      if count > MAX_ENTRIES {
        return Err(LimitExceeded);
      }
    }
    r := Ok(count);
  }

  method ValidateArtifact(text: string, kind: ArtifactKind, ips: IpText) returns (r: Result<nat, GeoError>)
    ensures r == Counted(text, kind, ips)
  {
    if Bytes(text) > MAX_SOURCE_BYTES {
      return Err(LimitExceeded);
    }
    r := CountEntries(Lines(text), LineAcceptor(kind, ips));
  }

  // ------------------------------------------------ what the validator accepts

  predicate IsBlank(raw: string) {
    Trim(raw) == ""
  }

  predicate GoodLine(raw: string, accepted: Acceptor) {
    Bytes(raw) <= MAX_LINE_BYTES && (IsBlank(raw) || (Trim(raw) == raw && accepted(raw)))
  }

  function Entries(lines: seq<string>): nat {
    if lines == [] then 0 else (if IsBlank(lines[0]) then 0 else 1) + Entries(lines[1..])
  }

  lemma {:induction false} CountLinesOk(count: nat, lines: seq<string>, accepted: Acceptor)
    requires count <= MAX_ENTRIES
    ensures CountLines(count, lines, accepted).Ok? <==>
            (forall i | 0 <= i < |lines| :: GoodLine(lines[i], accepted)) && count + Entries(lines) <= MAX_ENTRIES
    ensures CountLines(count, lines, accepted).Ok?
            ==> CountLines(count, lines, accepted).value == count + Entries(lines)
    decreases |lines|
  {
    if lines != [] {
      var next := CountLine(count, lines[0], accepted);
      assert lines == [lines[0]] + lines[1..];
      if next.Ok? {
        CountLinesOk(next.value, lines[1..], accepted);
      }
    }
  }

  /**
   * The validator accepts exactly the files within the byte limit whose lines are short and either
   * blank or an untrimmed-clean entry, with no more entries than allowed; it returns their number.
   */
  lemma ArtifactAcceptedIff(text: string, kind: ArtifactKind, ips: IpText)
    ensures Counted(text, kind, ips).Ok? <==>
            && Bytes(text) <= MAX_SOURCE_BYTES
            && (forall i | 0 <= i < |Lines(text)| :: GoodLine(Lines(text)[i], LineAcceptor(kind, ips)))
            && Entries(Lines(text)) <= MAX_ENTRIES
    ensures Counted(text, kind, ips).Ok? ==> Counted(text, kind, ips).value == Entries(Lines(text))
  {
    CountLinesOk(0, Lines(text), LineAcceptor(kind, ips));
  }

  // ------------------------------------------------ files read back

  /** A line that survives writing and reading: not empty and without white space. */
  predicate Clean(line: string) {
    line != "" && NoSpaces(line)
  }

  lemma CleanFacts(line: string)
    requires Clean(line)
    ensures '\n' !in line && line[|line| - 1] != '\r' && Trim(line) == line && !IsBlank(line)
  {
    TrimNoSpaces(line);
    assert IsSpace('\n') && IsSpace('\r');
  }

  lemma FileTextStep(lines: seq<string>)
    requires lines != [] && forall i | 0 <= i < |lines| :: Clean(lines[i])
    ensures FileText(lines) == lines[0] + ['\n'] + FileText(lines[1..])
  {
  }

  /** Reading a written list gives the list. */
  lemma {:induction false} FileReadsBack(lines: seq<string>)
    requires forall i | 0 <= i < |lines| :: Clean(lines[i])
    ensures Lines(FileText(lines)) == lines
  {
    if lines != [] {
      CleanFacts(lines[0]);
      FileTextStep(lines);
      LinesStep(lines[0], FileText(lines[1..]));
      FileReadsBack(lines[1..]);
      assert lines == [lines[0]] + lines[1..];
    }
  }

  lemma {:induction false} FileBytes(lines: seq<string>)
    requires forall i | 0 <= i < |lines| :: Clean(lines[i])
    ensures Bytes(FileText(lines)) == TotalBytes(lines) + |lines|
  {
    if lines != [] {
      FileTextStep(lines);
      FileBytes(lines[1..]);
      BytesOfConcat(lines[0], ['\n']);
      BytesOfConcat(lines[0] + ['\n'], FileText(lines[1..]));
      assert Bytes(['\n']) == 1 + Bytes(['\n'][1..]);
    }
  }

  lemma {:induction false} EntriesOfClean(lines: seq<string>)
    requires forall i | 0 <= i < |lines| :: Clean(lines[i])
    ensures Entries(lines) == |lines|
  {
    if lines != [] {
      CleanFacts(lines[0]);
      EntriesOfClean(lines[1..]);
    }
  }

  /** Lines a generation may write. */
  ghost predicate Writable(lines: seq<string>, accepted: Acceptor) {
    forall i | 0 <= i < |lines| :: Clean(lines[i]) && Bytes(lines[i]) <= MAX_LINE_BYTES && accepted(lines[i])
  }

  lemma CountOfWritable(lines: seq<string>, accepted: Acceptor)
    requires Writable(lines, accepted) && |lines| <= MAX_ENTRIES
    ensures CountLines(0, lines, accepted) == Ok(|lines|)
  {
    EntriesOfClean(lines);
    WritableIsGood(lines, accepted);
    CountLinesOk(0, lines, accepted);
  }

  /** A written list of accepted lines passes the validator exactly when it fits, and is counted in full. */
  lemma WrittenListAccepted(lines: seq<string>, kind: ArtifactKind, ips: IpText)
    requires Writable(lines, LineAcceptor(kind, ips)) && |lines| <= MAX_ENTRIES
    ensures Counted(FileText(lines), kind, ips) ==
            if TotalBytes(lines) + |lines| <= MAX_SOURCE_BYTES then Ok(|lines|) else Err(LimitExceeded)
  {
    FileReadsBack(lines);
    FileBytes(lines);
    CountOfWritable(lines, LineAcceptor(kind, ips));
  }

  lemma WritableIsGood(lines: seq<string>, accepted: Acceptor)
    requires Writable(lines, accepted)
    ensures forall i | 0 <= i < |lines| :: GoodLine(lines[i], accepted)
  {
  }

  // ------------------------------------------------ the generated lists

  const MAX_PROVIDER_LINE_BYTES := 255

  lemma ProviderLineIsWritable(entry: Entry, ips: IpText)
    requires Canonical(entry.domain)
    ensures Clean(ProviderLine(entry)) && Bytes(ProviderLine(entry)) <= MAX_PROVIDER_LINE_BYTES
    ensures LineAccepted(ProviderLine(entry), DomainList, ips)
  {
    MarkIsStripped(entry);
    ParsesToCanonical("", entry.domain);
    ProviderLineIsClean(entry);
    ProviderLineIsShort(entry);
  }

  lemma ProviderLineIsClean(entry: Entry)
    requires Canonical(entry.domain)
    ensures Clean(ProviderLine(entry))
  {
    DomainChars(entry.domain);
  }

  lemma ProviderLineIsShort(entry: Entry)
    requires Canonical(entry.domain)
    ensures Bytes(ProviderLine(entry)) <= MAX_PROVIDER_LINE_BYTES
  {
    BytesOfConcat("+.", entry.domain);
    BytesOfAscii("+.");
  }

  lemma ListingIsWritable(entries: seq<Entry>, table: Table, c: Class, ips: IpText)
    requires CanonicalEntries(entries)
    ensures Writable(Listing(entries, table, c), LineAcceptor(DomainList, ips))
    ensures forall i | 0 <= i < |Listing(entries, table, c)| ::
              Bytes(Listing(entries, table, c)[i]) <= MAX_PROVIDER_LINE_BYTES
  {
    var lines, group := Listing(entries, table, c), OfClass(entries, table, c);
    ListingIsOfClass(entries, table, c);
    forall i | 0 <= i < |lines|
      ensures Clean(lines[i]) && Bytes(lines[i]) <= MAX_PROVIDER_LINE_BYTES && LineAccepted(lines[i], DomainList, ips)
    {
      OfClassContents(entries, table, c, group[i]);
      ProviderLineIsWritable(group[i], ips);
    }
  }

  lemma ListingIsShort(entries: seq<Entry>, table: Table, c: Class)
    requires AllDifferent(entries)
    ensures |Listing(entries, table, c)| <= |entries|
  {
    ListingIsOfClass(entries, table, c);
    ClassesShareOut(entries, table);
  }

  /** Every domain list of an accepted generation passes the validator and is counted in full: the
      entry limit keeps even the longest list under the byte limit. */
  lemma DomainListsPass(parsed: Parsed, input: Input, c: Class, ips: IpText)
    requires WellFormedParsed(parsed, ips) && Validated(parsed, input, ips).Ok?
    ensures var list := ListOf(Validated(parsed, input, ips).value, c);
            Counted(FileText(list), DomainList, ips) == Ok(|list|)
  {
    var table := AddClasses(map[], input.classifications, parsed.domains, ParseDomain).value;
    var list := Listing(parsed.entries, table, c);
    ListingIsWritable(parsed.entries, table, c, ips);
    ListingIsShort(parsed.entries, table, c);
    TotalAtMost(list, MAX_PROVIDER_LINE_BYTES);
    WrittenListAccepted(list, DomainList, ips);
  }
}

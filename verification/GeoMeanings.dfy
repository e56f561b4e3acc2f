/** What static routes and list files mean: the static lists in terms of the routes asked for, and the validator in
    terms of the lines of a file. */
module GeoMeanings {

  import opened DomainNames
  import opened GeoArtifacts
  import opened GeoLists
  import opened GeoReload
  import opened GeoSource
  import opened NetworkText
  import opened Ordered
  import opened Text
  import opened Wrappers

  // ------------------------------------------------ static routes

  /** Some route sends the network to the target. */
  ghost predicate Sends(routes: seq<StaticRoute>, parse: Normaliser, network: string, target: Class) {
    exists i | 0 <= i < |routes| :: parse(routes[i].network) == Some(network) && routes[i].target == target
  }

  lemma SendsStep(routes: seq<StaticRoute>, parse: Normaliser, network: string, target: Class)
    requires routes != []
    ensures Sends(routes, parse, network, target) <==>
            || (parse(routes[0].network) == Some(network) && routes[0].target == target)
            || Sends(routes[1..], parse, network, target)
  {
  }

  /** An accepted table of routes says exactly what the routes say. */
  lemma {:induction false} RoutesHold(table: Table, routes: seq<StaticRoute>, networks: seq<string>,
                                      parse: Normaliser, network: string, target: Class)
    requires AddRoutes(table, routes, networks, parse).Ok?
    ensures var final := AddRoutes(table, routes, networks, parse).value;
            network in final && final[network] == target <==>
            (network in table && table[network] == target) || Sends(routes, parse, network, target)
    decreases |routes|
  {
    if routes != [] {
      var next := AddRoute(table, routes[0], networks, parse).value;
      RoutesHold(next, routes[1..], networks, parse, network, target);
      SendsStep(routes, parse, network, target);
    }
  }

  lemma {:induction false} WithTargetOrder(names: seq<string>, table: Table, target: Class)
    requires Ascends(names, Before)
    ensures Ascends(WithTarget(names, table, target), Before)
    ensures forall name | name in WithTarget(names, table, target) :: name in names
  {
    BeforeIsTotal();
    if names != [] {
      WithTargetOrder(names[1..], table, target);
      assert names == [names[0]] + names[1..];
      var rest := WithTarget(names[1..], table, target);
      forall j | 0 <= j < |rest| ensures Before(names[0], rest[j]) {
        assert rest[j] in names[1..];
        var i :| 0 < i < |names| && names[i] == rest[j];
      }
    }
  }

  /** Each static list holds exactly the networks that some route sends to its target, once and in order. */
  lemma StaticListsHold(parsed: Parsed, input: Input, ips: IpText, target: Class, network: string)
    requires Validated(parsed, input, ips).Ok? && target != Unresolved
    ensures var list := StaticListOf(Validated(parsed, input, ips).value, target);
            && (network in list <==> Sends(input.statics, NetworkParser(ips), network, target))
            && forall i, j | 0 <= i < j < |list| :: Before(list[i], list[j])
  {
    var table := AddRoutes(map[], input.statics, parsed.networks, NetworkParser(ips)).value;
    RoutesHold(map[], input.statics, parsed.networks, NetworkParser(ips), network, target);
    InOrderContents(table);
    BeforeIsTotal();
    WithTargetContents(InOrder(table), table, target, network);
    WithTargetOrder(InOrder(table), table, target);
  }

  // ------------------------------------------------ the validator

  /** What a line of a list file may be: a domain, alone or behind the mark for everything below it, or a network. */
  ghost predicate IsEntryLine(line: string, kind: ArtifactKind, ips: IpText) {
    match kind
    case DomainList =>
      || ParseDomain(line).Some?
      || (|line| >= 2 && line[0] == '+' && line[1] == '.' && ParseDomain(line[2..]).Some?)
    case NetworkList => ParseNetwork(line, ips).Some?
  }

  lemma MarkIsNoDomain(line: string)
    requires "+." <= line && NoSpaces(line)
    ensures ParseDomain(line) == None
  {
    TrimNoSpaces(line);
    PlusIsKept(line);
    var lowered := Lower(TrimDots(line));
    if WellFormed(lowered) {
      assert lowered[0] == '+' && lowered[0] in lowered;
      DomainChars(lowered);
    }
  }

  lemma {:induction false} PlusIsKept(line: string)
    requires line != "" && line[0] == '+'
    ensures TrimDots(line) != "" && TrimDots(line)[0] == '+'
  {
    if line[|line| - 1] == '.' {
      PlusIsKept(line[..|line| - 1]);
    }
  }

  lemma EntryLineIff(line: string, kind: ArtifactKind, ips: IpText)
    requires NoSpaces(line)
    ensures LineAccepted(line, kind, ips) <==> IsEntryLine(line, kind, ips)
  {
    if "+." <= line {
      MarkIsNoDomain(line);
    }
  }

  lemma {:induction false} CountLinesPrefix(count: nat, lines: seq<string>, accepted: Acceptor) returns (k: nat)
    requires CountLines(count, lines, accepted).Err?
    ensures k < |lines| && CountLines(count, lines[..k], accepted).Ok?
    ensures CountLines(count, lines, accepted) ==
              CountLine(CountLines(count, lines[..k], accepted).value, lines[k], accepted)
    decreases |lines|
  {
    k := 0;
    var next := CountLine(count, lines[0], accepted);
    if next.Ok? {
      k := CountLinesPrefix(next.value, lines[1..], accepted);
      assert lines[..k + 1][1..] == lines[1..][..k];
      k := k + 1;
    }
  }

  /** The first line that cannot be counted decides the error: a limit, or else that it is no entry. */
  lemma ErrorOfArtifact(text: string, kind: ArtifactKind, ips: IpText) returns (k: nat)
    requires Counted(text, kind, ips).Err?
    ensures Bytes(text) > MAX_SOURCE_BYTES ==> Counted(text, kind, ips) == Err(LimitExceeded)
    ensures Bytes(text) <= MAX_SOURCE_BYTES ==>
              var lines := Lines(text);
              && k < |lines| && CountLines(0, lines[..k], LineAcceptor(kind, ips)).Ok?
              && (Counted(text, kind, ips) == Err(InvalidInput) <==>
                    && Bytes(lines[k]) <= MAX_LINE_BYTES && !IsBlank(lines[k])
                    && (Trim(lines[k]) != lines[k] || !LineAccepted(lines[k], kind, ips)))
  {
    k := 0;
    if Bytes(text) <= MAX_SOURCE_BYTES {
      k := CountLinesPrefix(0, Lines(text), LineAcceptor(kind, ips));
    }
  }

  /** A file without spaces in its lines passes exactly when it and its lines are short, every line is an entry
      of its kind, and there are not too many. */
  lemma CleanArtifactIff(lines: seq<string>, kind: ArtifactKind, ips: IpText)
    requires forall i | 0 <= i < |lines| :: Clean(lines[i])
    ensures Counted(FileText(lines), kind, ips) == Ok(|lines|) <==>
            && Bytes(FileText(lines)) <= MAX_SOURCE_BYTES && |lines| <= MAX_ENTRIES
            && forall i | 0 <= i < |lines| :: Bytes(lines[i]) <= 512 && IsEntryLine(lines[i], kind, ips)
    ensures Counted(FileText(lines), kind, ips).Ok? ==> Counted(FileText(lines), kind, ips) == Ok(|lines|)
  {
    FileReadsBack(lines);
    EntriesOfClean(lines);
    ArtifactAcceptedIff(FileText(lines), kind, ips);
    forall i | 0 <= i < |lines|
      ensures GoodLine(lines[i], LineAcceptor(kind, ips)) <==>
              Bytes(lines[i]) <= 512 && IsEntryLine(lines[i], kind, ips)
    {
      CleanFacts(lines[i]);
      EntryLineIff(lines[i], kind, ips);
    }
  }
}

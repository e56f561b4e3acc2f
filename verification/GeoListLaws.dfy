/** What accepted generations guarantee about their lists. */
module GeoListLaws {

  import opened DomainNames
  import opened GeoLists
  import opened GeoSource
  import opened NetworkText
  import opened Ordered
  import opened Wrappers

  // ------------------------------------------------ which classifications are accepted

  ghost predicate Acceptable(item: Classification, table: Table, domains: seq<string>, parse: Normaliser) {
    var domain := parse(item.domain);
    domain.Some? && domain.value in domains && domain.value !in table
  }

  ghost predicate AllAcceptable(items: seq<Classification>, table: Table, domains: seq<string>, parse: Normaliser) {
    forall i | 0 <= i < |items| :: Acceptable(items[i], table, domains, parse)
  }

  /** No two items name the same domain. */
  ghost predicate NamesDiffer(items: seq<Classification>, parse: Normaliser) {
    forall i, j | 0 <= i < j < |items| :: parse(items[i].domain) != parse(items[j].domain)
  }

  ghost predicate Classifies(items: seq<Classification>, parse: Normaliser, domain: string, c: Class) {
    exists i | 0 <= i < |items| :: parse(items[i].domain) == Some(domain) && items[i].classification == c
  }

  lemma ClassifiesStep(items: seq<Classification>, parse: Normaliser, domain: string, c: Class)
    requires items != []
    ensures Classifies(items, parse, domain, c) <==>
            || (parse(items[0].domain) == Some(domain) && items[0].classification == c)
            || Classifies(items[1..], parse, domain, c)
  {
  }

  lemma AcceptableStep(items: seq<Classification>, table: Table, domains: seq<string>, parse: Normaliser)
    requires items != [] && Acceptable(items[0], table, domains, parse)
    ensures AllAcceptable(items, table, domains, parse) && NamesDiffer(items, parse) <==>
            && AllAcceptable(items[1..], table[parse(items[0].domain).value := items[0].classification], domains, parse)
            && NamesDiffer(items[1..], parse)
  {
  }

  /** Classifications are accepted exactly when each names a source domain and no two name the same one. */
  lemma {:induction false} ClassesAcceptedIff(table: Table, items: seq<Classification>, domains: seq<string>,
                                              parse: Normaliser)
    ensures AddClasses(table, items, domains, parse).Ok? <==>
            AllAcceptable(items, table, domains, parse) && NamesDiffer(items, parse)
    decreases |items|
  {
    if items != [] {
      var next := AddClass(table, items[0], domains, parse);
      assert next.Ok? <==> Acceptable(items[0], table, domains, parse);
      if next.Ok? {
        AcceptableStep(items, table, domains, parse);
        ClassesAcceptedIff(next.value, items[1..], domains, parse);
      }
    }
  }

  /** The accepted table holds exactly what the items say. */
  lemma {:induction false} ClassesHold(table: Table, items: seq<Classification>, domains: seq<string>,
                                       parse: Normaliser, domain: string, c: Class)
    requires AddClasses(table, items, domains, parse).Ok?
    ensures var final := AddClasses(table, items, domains, parse).value;
            domain in final && final[domain] == c <==>
            (domain in table && table[domain] == c) || Classifies(items, parse, domain, c)
    decreases |items|
  {
    if items != [] {
      var next := AddClass(table, items[0], domains, parse);
      ClassesHold(next.value, items[1..], domains, parse, domain, c);
      ClassifiesStep(items, parse, domain, c);
      if domain in table {
        ClassesKeep(next.value, items[1..], domains, parse, domain, c);
      }
    }
  }

  /** An accepted run never names a domain already in the table. */
  lemma ClassesKeep(table: Table, items: seq<Classification>, domains: seq<string>, parse: Normaliser,
                    domain: string, c: Class)
    requires AddClasses(table, items, domains, parse).Ok? && domain in table
    ensures !Classifies(items, parse, domain, c)
  {
    ClassesAcceptedIff(table, items, domains, parse);
    assert forall i | 0 <= i < |items| :: Acceptable(items[i], table, domains, parse);
  }

  // ------------------------------------------------ which static routes are accepted

  ghost predicate Routable(route: StaticRoute, networks: seq<string>, parse: Normaliser) {
    route.target != Unresolved && parse(route.network).Some? && parse(route.network).value in networks
  }

  ghost predicate AgreesWith(route: StaticRoute, table: Table, parse: Normaliser) {
    parse(route.network).Some? && parse(route.network).value in table ==>
      table[parse(route.network).value] == route.target
  }

  ghost predicate SameRoute(a: StaticRoute, b: StaticRoute, parse: Normaliser) {
    parse(a.network) == parse(b.network) ==> a.target == b.target
  }

  ghost predicate Consistent(routes: seq<StaticRoute>, table: Table, networks: seq<string>, parse: Normaliser) {
    && (forall i | 0 <= i < |routes| :: Routable(routes[i], networks, parse) && AgreesWith(routes[i], table, parse))
    && (forall i, j | 0 <= i < j < |routes| :: SameRoute(routes[i], routes[j], parse))
  }

  lemma ConsistentStep(routes: seq<StaticRoute>, table: Table, networks: seq<string>, parse: Normaliser)
    requires routes != [] && Routable(routes[0], networks, parse) && AgreesWith(routes[0], table, parse)
    ensures Consistent(routes, table, networks, parse) <==>
            Consistent(routes[1..], table[parse(routes[0].network).value := routes[0].target], networks, parse)
  {
  }

  /** Routes are accepted exactly when each has a real target and a source network and none conflict. */
  lemma {:induction false} RoutesAcceptedIff(table: Table, routes: seq<StaticRoute>, networks: seq<string>,
                                             parse: Normaliser)
    ensures AddRoutes(table, routes, networks, parse).Ok? <==> Consistent(routes, table, networks, parse)
    decreases |routes|
  {
    if routes != [] {
      var next := AddRoute(table, routes[0], networks, parse);
      assert next.Ok? <==> Routable(routes[0], networks, parse) && AgreesWith(routes[0], table, parse);
      if next.Ok? {
        ConsistentStep(routes, table, networks, parse);
        RoutesAcceptedIff(next.value, routes[1..], networks, parse);
      }
    }
  }

  /** Accepted routes form a table over source networks with real targets. */
  lemma {:induction false} RoutesAreReal(table: Table, routes: seq<StaticRoute>, networks: seq<string>,
                                         parse: Normaliser)
    requires AddRoutes(table, routes, networks, parse).Ok?
    requires forall network | network in table :: network in networks && table[network] != Unresolved
    ensures var final := AddRoutes(table, routes, networks, parse).value;
            forall network | network in final :: network in networks && final[network] != Unresolved
    decreases |routes|
  {
    if routes != [] {
      RoutesAreReal(AddRoute(table, routes[0], networks, parse).value, routes[1..], networks, parse);
    }
  }

  // ------------------------------------------------ the partition into lists

  /** The entries of one class, in source order. */
  ghost function OfClass(entries: seq<Entry>, table: Table, c: Class): seq<Entry> {
    if entries == [] then []
    else (if ClassOf(table, entries[0].domain) == c then [entries[0]] else []) + OfClass(entries[1..], table, c)
  }

  lemma {:induction false} ListingIsOfClass(entries: seq<Entry>, table: Table, c: Class)
    ensures |Listing(entries, table, c)| == |OfClass(entries, table, c)|
    ensures forall i | 0 <= i < |OfClass(entries, table, c)| ::
              Listing(entries, table, c)[i] == ProviderLine(OfClass(entries, table, c)[i])
  {
    if entries != [] {
      ListingIsOfClass(entries[1..], table, c);
    }
  }

  lemma {:induction false} OfClassContents(entries: seq<Entry>, table: Table, c: Class, entry: Entry)
    ensures entry in OfClass(entries, table, c) <==> entry in entries && ClassOf(table, entry.domain) == c
  {
    if entries != [] {
      OfClassContents(entries[1..], table, c, entry);
      assert entries == [entries[0]] + entries[1..];
    }
  }

  lemma {:induction false} OfClassIsDistinct(entries: seq<Entry>, table: Table, c: Class)
    requires AllDifferent(entries)
    ensures AllDifferent(OfClass(entries, table, c))
  {
    if entries != [] {
      OfClassIsDistinct(entries[1..], table, c);
      OfClassContents(entries[1..], table, c, entries[0]);
    }
  }

  lemma {:induction false} ClassesShareOut(entries: seq<Entry>, table: Table)
    ensures |OfClass(entries, table, Direct)| + |OfClass(entries, table, Active)|
            + |OfClass(entries, table, Unresolved)|
            == |entries|
  {
    if entries != [] {
      ClassesShareOut(entries[1..], table);
    }
  }

  /** The entries of the three lists, one list after the other. */
  ghost function Grouped(entries: seq<Entry>, table: Table): seq<Entry> {
    OfClass(entries, table, Direct) + OfClass(entries, table, Active) + OfClass(entries, table, Unresolved)
  }

  /** The three lists together hold every entry exactly once. */
  lemma GroupedIsPartition(entries: seq<Entry>, table: Table)
    requires AllDifferent(entries)
    ensures AllDifferent(Grouped(entries, table)) && |Grouped(entries, table)| == |entries|
    ensures forall entry :: entry in Grouped(entries, table) <==> entry in entries
  {
    var d, a := OfClass(entries, table, Direct), OfClass(entries, table, Active);
    var u := OfClass(entries, table, Unresolved);
    ClassesShareOut(entries, table);
    OfClassIsDistinct(entries, table, Direct);
    OfClassIsDistinct(entries, table, Active);
    OfClassIsDistinct(entries, table, Unresolved);
    forall entry
      ensures entry in d <==> entry in entries && ClassOf(table, entry.domain) == Direct
      ensures entry in a <==> entry in entries && ClassOf(table, entry.domain) == Active
      ensures entry in u <==> entry in entries && ClassOf(table, entry.domain) == Unresolved
    {
      OfClassContents(entries, table, Direct, entry);
      OfClassContents(entries, table, Active, entry);
      OfClassContents(entries, table, Unresolved, entry);
    }
    Concatenated(d, a);
    Concatenated(d + a, u);
  }

  lemma Concatenated<T>(a: seq<T>, b: seq<T>)
    requires AllDifferent(a) && AllDifferent(b) && forall x | x in a :: x !in b
    ensures AllDifferent(a + b)
    ensures forall x :: x in a + b <==> x in a || x in b
  {
    forall i, j | 0 <= i < j < |a + b| ensures (a + b)[i] != (a + b)[j] {
      assert i < |a| ==> (a + b)[i] in a;
      assert j >= |a| ==> (a + b)[j] in b;
    }
  }

  // ------------------------------------------------ provider lines

  /** A canonical domain can be told from its provider line, with or without the mark. */
  lemma MarkIsStripped(entry: Entry)
    requires Canonical(entry.domain)
    ensures StripMark(ProviderLine(entry)) == entry.domain
    ensures entry.Suffix? <==> "+." <= ProviderLine(entry)
  {
    DomainChars(entry.domain);
    assert entry.domain[0] != '+';
    assert "+."[0] == '+';
  }

  lemma LinesDiffer(a: Entry, b: Entry)
    requires Canonical(a.domain) && Canonical(b.domain) && ProviderLine(a) == ProviderLine(b)
    ensures a == b
  {
    MarkIsStripped(a);
    MarkIsStripped(b);
  }

  ghost predicate CanonicalEntries(entries: seq<Entry>) {
    forall i | 0 <= i < |entries| :: Canonical(entries[i].domain)
  }

  /** The lines of the three lists, one list after the other. */
  ghost function GroupedLines(entries: seq<Entry>, table: Table): seq<string> {
    Listing(entries, table, Direct) + Listing(entries, table, Active) + Listing(entries, table, Unresolved)
  }

  lemma GroupedLinesMatch(entries: seq<Entry>, table: Table)
    ensures |GroupedLines(entries, table)| == |Grouped(entries, table)|
    ensures forall i | 0 <= i < |Grouped(entries, table)| ::
              GroupedLines(entries, table)[i] == ProviderLine(Grouped(entries, table)[i])
  {
    ListingIsOfClass(entries, table, Direct);
    ListingIsOfClass(entries, table, Active);
    ListingIsOfClass(entries, table, Unresolved);
  }

  lemma GroupedLinesDiffer(entries: seq<Entry>, table: Table)
    requires AllDifferent(entries) && CanonicalEntries(entries)
    ensures AllDifferent(GroupedLines(entries, table)) && |GroupedLines(entries, table)| == |entries|
  {
    var all, lines := Grouped(entries, table), GroupedLines(entries, table);
    GroupedIsPartition(entries, table);
    GroupedLinesMatch(entries, table);
    forall i, j | 0 <= i < j < |lines| ensures lines[i] != lines[j] {
      GroupedIsCanonical(entries, table, i);
      GroupedIsCanonical(entries, table, j);
      if lines[i] == lines[j] {
        LinesDiffer(all[i], all[j]);
      }
    }
  }

  lemma GroupedIsCanonical(entries: seq<Entry>, table: Table, i: nat)
    requires CanonicalEntries(entries) && AllDifferent(entries) && i < |Grouped(entries, table)|
    ensures Canonical(Grouped(entries, table)[i].domain)
  {
    GroupedIsPartition(entries, table);
    assert Grouped(entries, table)[i] in entries;
  }

  /** A line is in the list of a class exactly when it is the line of an entry of that class. */
  lemma ListingContents(entries: seq<Entry>, table: Table, c: Class, entry: Entry)
    requires CanonicalEntries(entries) && entry in entries
    ensures ProviderLine(entry) in Listing(entries, table, c) <==> ClassOf(table, entry.domain) == c
  {
    var group, lines := OfClass(entries, table, c), Listing(entries, table, c);
    ListingIsOfClass(entries, table, c);
    OfClassContents(entries, table, c, entry);
    if entry in group {
      var i :| 0 <= i < |group| && group[i] == entry;
      assert lines[i] == ProviderLine(entry);
    }
    if ProviderLine(entry) in lines {
      var i :| 0 <= i < |lines| && lines[i] == ProviderLine(entry);
      OfClassContents(entries, table, c, group[i]);
      LinesDiffer(entry, group[i]);
    }
  }

  /** The class the input gives a domain; a domain it does not name is unresolved. */
  ghost predicate Assigned(items: seq<Classification>, domain: string, c: Class) {
    || Classifies(items, ParseDomain, domain, c)
    || (c == Unresolved && forall other :: !Classifies(items, ParseDomain, domain, other))
  }

  lemma AssignedIsClass(items: seq<Classification>, domains: seq<string>, domain: string, c: Class)
    requires AddClasses(map[], items, domains, ParseDomain).Ok?
    ensures Assigned(items, domain, c) <==> ClassOf(AddClasses(map[], items, domains, ParseDomain).value, domain) == c
  {
    ClassesHold(map[], items, domains, ParseDomain, domain, Direct);
    ClassesHold(map[], items, domains, ParseDomain, domain, Active);
    ClassesHold(map[], items, domains, ParseDomain, domain, Unresolved);
  }

  function ListOf(lists: Lists, c: Class): seq<string> {
    match c case Direct => lists.direct case Active => lists.active case Unresolved => lists.unresolved
  }

  /**
   * In an accepted generation every domain entry has its line in exactly one list, the one of its
   * assigned class; the lines are pairwise different and there are no others.
   */
  lemma EveryEntryInOneList(parsed: Parsed, input: Input, ips: IpText)
    requires WellFormedParsed(parsed, ips) && Validated(parsed, input, ips).Ok?
    ensures var lists := Validated(parsed, input, ips).value;
            && AllDifferent(lists.direct + lists.active + lists.unresolved)
            && |lists.direct + lists.active + lists.unresolved| == |parsed.entries|
            && forall entry, c | entry in parsed.entries ::
                 ProviderLine(entry) in ListOf(lists, c) <==> Assigned(input.classifications, entry.domain, c)
  {
    var lists := Validated(parsed, input, ips).value;
    var table := AddClasses(map[], input.classifications, parsed.domains, ParseDomain).value;
    GroupedLinesDiffer(parsed.entries, table);
    forall entry, c | entry in parsed.entries
      ensures ProviderLine(entry) in ListOf(lists, c) <==> Assigned(input.classifications, entry.domain, c)
    {
      ListingContents(parsed.entries, table, c, entry);
      AssignedIsClass(input.classifications, parsed.domains, entry.domain, c);
    }
  }

  // ------------------------------------------------ classifying every domain once

  /** Classifying every source domain is always accepted, and each entry goes where its domain was put. */
  lemma AnalysisIsAccepted(parsed: Parsed, analyzer: string -> Class, ips: IpText)
    requires WellFormedParsed(parsed, ips)
    ensures Validated(parsed, Input(Classified(parsed, analyzer), []), ips).Ok?
    ensures var lists := Validated(parsed, Input(Classified(parsed, analyzer), []), ips).value;
            forall entry, c | entry in parsed.entries ::
              ProviderLine(entry) in ListOf(lists, c) <==> analyzer(entry.domain) == c
  {
    var items := Classified(parsed, analyzer);
    AnalysisNames(parsed, analyzer, ips);
    ClassesAcceptedIff(map[], items, parsed.domains, ParseDomain);
    EveryEntryInOneList(parsed, Input(items, []), ips);
    forall entry, c | entry in parsed.entries
      ensures Assigned(items, entry.domain, c) <==> analyzer(entry.domain) == c
    {
      AnalysisAssigns(parsed, analyzer, ips, entry, c);
    }
  }

  lemma AnalysisNames(parsed: Parsed, analyzer: string -> Class, ips: IpText)
    requires WellFormedParsed(parsed, ips)
    ensures AllAcceptable(Classified(parsed, analyzer), map[], parsed.domains, ParseDomain)
    ensures NamesDiffer(Classified(parsed, analyzer), ParseDomain)
    ensures forall i | 0 <= i < |parsed.domains| :: ParseDomain(parsed.domains[i]) == Some(parsed.domains[i])
  {
    forall i | 0 <= i < |parsed.domains| ensures ParseDomain(parsed.domains[i]) == Some(parsed.domains[i]) {
      SourceDomainIsCanonical(parsed, ips, parsed.domains[i]);
      ParsesToCanonical("", parsed.domains[i]);
    }
  }

  lemma SourceDomainIsCanonical(parsed: Parsed, ips: IpText, domain: string)
    requires WellFormedParsed(parsed, ips) && domain in parsed.domains
    ensures Canonical(domain)
  {
    var entry :| entry in parsed.entries && entry.domain == domain;
    var i :| 0 <= i < |parsed.entries| && parsed.entries[i] == entry;
  }

  lemma AnalysisAssigns(parsed: Parsed, analyzer: string -> Class, ips: IpText, entry: Entry, c: Class)
    requires WellFormedParsed(parsed, ips) && entry in parsed.entries
    ensures Assigned(Classified(parsed, analyzer), entry.domain, c) <==> analyzer(entry.domain) == c
  {
    var items := Classified(parsed, analyzer);
    AnalysisNames(parsed, analyzer, ips);
    assert entry.domain in parsed.domains;
    var k :| 0 <= k < |parsed.domains| && parsed.domains[k] == entry.domain;
    assert ParseDomain(items[k].domain) == Some(entry.domain);
    assert Classifies(items, ParseDomain, entry.domain, analyzer(entry.domain));
  }
}

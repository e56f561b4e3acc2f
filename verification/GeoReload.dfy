/** Stored lists, loaded and validated again against the same source. */
module GeoReload {

  import opened Collections
  import opened DomainNames
  import opened GeoArtifacts
  import opened GeoListLaws
  import opened GeoLists
  import opened GeoSource
  import opened NetworkText
  import opened Ordered
  import opened Text
  import opened Wrappers

  // ------------------------------------------------ the loaded classifications

  /** The classification of each entry, in the order of the stored lists. */
  ghost function ItemsFor(entries: seq<Entry>, table: Table): (items: seq<Classification>)
    ensures |items| == |entries|
    ensures forall i | 0 <= i < |entries| ::
              items[i] == Classification(entries[i].domain, ClassOf(table, entries[i].domain))
  {
    seq(|entries|, i requires 0 <= i < |entries| =>
      Classification(entries[i].domain, ClassOf(table, entries[i].domain)))
  }

  lemma TaggedListing(entries: seq<Entry>, table: Table, c: Class)
    requires CanonicalEntries(entries)
    ensures Tagged(Listing(entries, table, c), c) == ItemsFor(OfClass(entries, table, c), table)
  {
    var lines, group := Listing(entries, table, c), OfClass(entries, table, c);
    ListingIsOfClass(entries, table, c);
    forall i | 0 <= i < |group| ensures Tagged(lines, c)[i] == ItemsFor(group, table)[i] {
      OfClassContents(entries, table, c, group[i]);
      MarkIsStripped(group[i]);
    }
  }

  lemma LoadedItems(entries: seq<Entry>, classes: Table, routes: Table)
    requires CanonicalEntries(entries)
    ensures Loaded(Generated(entries, classes, routes)).classifications == ItemsFor(Grouped(entries, classes), classes)
  {
    TaggedListing(entries, classes, Direct);
    TaggedListing(entries, classes, Active);
    TaggedListing(entries, classes, Unresolved);
  }

  /** Some domain is listed both alone and with everything below it. */
  ghost predicate DoubleMatch(entries: seq<Entry>) {
    exists domain :: Exact(domain) in entries && Suffix(domain) in entries
  }

  lemma TwoEntriesOfOneDomain(a: Entry, b: Entry, entries: seq<Entry>)
    requires a in entries && b in entries && a != b && a.domain == b.domain
    ensures DoubleMatch(entries)
  {
    assert Exact(a.domain) in entries && Suffix(a.domain) in entries;
  }

  lemma DomainsDifferIff(all: seq<Entry>)
    requires AllDifferent(all)
    ensures (forall i, j | 0 <= i < j < |all| :: all[i].domain != all[j].domain) <==> !DoubleMatch(all)
  {
    if DoubleMatch(all) {
      var domain :| Exact(domain) in all && Suffix(domain) in all;
      var i :| 0 <= i < |all| && all[i] == Exact(domain);
      var j :| 0 <= j < |all| && all[j] == Suffix(domain);
      assert all[i].domain == all[j].domain && i != j;
    } else {
      forall i, j | 0 <= i < j < |all| ensures all[i].domain != all[j].domain {
        if all[i].domain == all[j].domain {
          TwoEntriesOfOneDomain(all[i], all[j], all);
        }
      }
    }
  }

  lemma NamesDifferIff(all: seq<Entry>, table: Table)
    requires AllDifferent(all) && CanonicalEntries(all)
    ensures NamesDiffer(ItemsFor(all, table), ParseDomain) <==> !DoubleMatch(all)
  {
    var items := ItemsFor(all, table);
    ItemsParse(all, table);
    DomainsDifferIff(all);
    assert NamesDiffer(items, ParseDomain) <==> forall i, j | 0 <= i < j < |all| :: all[i].domain != all[j].domain;
  }

  lemma ItemsParse(all: seq<Entry>, table: Table)
    requires CanonicalEntries(all)
    ensures forall i | 0 <= i < |all| :: ParseDomain(ItemsFor(all, table)[i].domain) == Some(all[i].domain)
  {
    forall i | 0 <= i < |all| ensures ParseDomain(ItemsFor(all, table)[i].domain) == Some(all[i].domain) {
      ParsesToCanonical("", all[i].domain);
    }
  }

  lemma GroupedIsAllCanonical(entries: seq<Entry>, table: Table)
    requires AllDifferent(entries) && CanonicalEntries(entries)
    ensures CanonicalEntries(Grouped(entries, table))
  {
    forall i | 0 <= i < |Grouped(entries, table)| ensures Canonical(Grouped(entries, table)[i].domain) {
      GroupedIsCanonical(entries, table, i);
    }
  }

  /** The loaded classifications are accepted exactly when no domain is listed both ways. */
  lemma LoadedAcceptedIff(parsed: Parsed, table: Table, ips: IpText)
    requires WellFormedParsed(parsed, ips)
    ensures AddClasses(map[], ItemsFor(Grouped(parsed.entries, table), table), parsed.domains, ParseDomain).Ok?
            <==> !DoubleMatch(parsed.entries)
  {
    var all := Grouped(parsed.entries, table);
    var items := ItemsFor(all, table);
    GroupedIsPartition(parsed.entries, table);
    GroupedIsAllCanonical(parsed.entries, table);
    ItemsParse(all, table);
    NamesDifferIff(all, table);
    forall i | 0 <= i < |items| ensures Acceptable(items[i], map[], parsed.domains, ParseDomain) {
      assert all[i] in parsed.entries;
    }
    assert DoubleMatch(all) <==> DoubleMatch(parsed.entries);
    ClassesAcceptedIff(map[], items, parsed.domains, ParseDomain);
  }

  /** Once accepted, they give every entry the class it had. */
  lemma LoadedClassIsKept(parsed: Parsed, table: Table, ips: IpText, entry: Entry)
    requires WellFormedParsed(parsed, ips) && entry in parsed.entries
    requires AddClasses(map[], ItemsFor(Grouped(parsed.entries, table), table), parsed.domains, ParseDomain).Ok?
    ensures var items := ItemsFor(Grouped(parsed.entries, table), table);
            var again := AddClasses(map[], items, parsed.domains, ParseDomain).value;
            ClassOf(again, entry.domain) == ClassOf(table, entry.domain)
  {
    var all := Grouped(parsed.entries, table);
    var items := ItemsFor(all, table);
    GroupedIsPartition(parsed.entries, table);
    GroupedIsAllCanonical(parsed.entries, table);
    ItemsParse(all, table);
    assert entry in all;
    var i :| 0 <= i < |all| && all[i] == entry;
    assert ParseDomain(items[i].domain) == Some(entry.domain);
    assert Classifies(items, ParseDomain, entry.domain, ClassOf(table, entry.domain));
    ClassesHold(map[], items, parsed.domains, ParseDomain, entry.domain, ClassOf(table, entry.domain));
  }

  lemma {:induction false} SameListing(entries: seq<Entry>, a: Table, b: Table, c: Class)
    requires forall i | 0 <= i < |entries| :: ClassOf(a, entries[i].domain) == ClassOf(b, entries[i].domain)
    ensures Listing(entries, a, c) == Listing(entries, b, c)
  {
    if entries != [] {
      SameListing(entries[1..], a, b, c);
    }
  }

  // ------------------------------------------------ the loaded routes

  /** Routes that only repeat what the table says rebuild the part of it they name. */
  lemma {:induction false} RoutesRebuild(known: Table, routes: seq<StaticRoute>, table: Table, networks: seq<string>,
                                         parse: Normaliser)
    requires forall i | 0 <= i < |routes| :: RepeatsTable(routes[i], table, networks, parse)
    requires forall network | network in known :: network in table && known[network] == table[network]
    ensures AddRoutes(known, routes, networks, parse).Ok?
    ensures var final := AddRoutes(known, routes, networks, parse).value;
            && (forall network | network in final :: network in table && final[network] == table[network])
            && (forall network | network in known :: network in final)
            && (forall i | 0 <= i < |routes| :: routes[i].network in final)
    decreases |routes|
  {
    if routes != [] {
      var next := AddRoute(known, routes[0], networks, parse);
      assert RepeatsTable(routes[0], table, networks, parse);
      RoutesRebuild(next.value, routes[1..], table, networks, parse);
      forall i | 0 <= i < |routes| ensures routes[i].network in AddRoutes(known, routes, networks, parse).value {
        assert i > 0 ==> routes[1..][i - 1] == routes[i];
      }
    }
  }

  ghost predicate RepeatsTable(route: StaticRoute, table: Table, networks: seq<string>, parse: Normaliser) {
    && route.target != Unresolved && parse(route.network) == Some(route.network) && route.network in networks
    && route.network in table && table[route.network] == route.target
  }

  lemma {:induction false} WithTargetContents(networks: seq<string>, table: Table, target: Class, network: string)
    ensures network in WithTarget(networks, table, target) <==> network in networks && ClassOf(table, network) == target
    ensures |WithTarget(networks, table, target)| <= |networks|
  {
    if networks != [] {
      WithTargetContents(networks[1..], table, target, network);
      assert networks == [networks[0]] + networks[1..];
    }
  }

  lemma InOrderContents(table: Table)
    ensures forall network :: network in InOrder(table) <==> network in table
    ensures |InOrder(table)| == |table|
  {
    BeforeIsTotal();
    assert |table.Keys| == |table|;
  }

  ghost predicate RealTable(table: Table, networks: seq<string>) {
    forall network | network in table :: network in networks && table[network] != Unresolved
  }

  ghost predicate Fixpoints(networks: seq<string>, parse: Normaliser) {
    forall i | 0 <= i < |networks| :: parse(networks[i]) == Some(networks[i])
  }

  /** The names are those of the table. */
  ghost predicate NamesOf(names: seq<string>, table: Table) {
    forall network :: network in names <==> network in table
  }

  lemma RoutedRepeats(names: seq<string>, table: Table, networks: seq<string>, parse: Normaliser, target: Class, i: nat)
    requires NamesOf(names, table) && RealTable(table, networks) && Fixpoints(networks, parse) && target != Unresolved
    requires i < |WithTarget(names, table, target)|
    ensures RepeatsTable(Routed(WithTarget(names, table, target), target)[i], table, networks, parse)
  {
    var network := WithTarget(names, table, target)[i];
    WithTargetContents(names, table, target, network);
    assert network in networks;
    var k :| 0 <= k < |networks| && networks[k] == network;
    assert parse(networks[k]) == Some(networks[k]);
  }

  /** The routes loaded from the two static lists of a table. */
  ghost function LoadedRoutes(names: seq<string>, table: Table): seq<StaticRoute> {
    Routed(WithTarget(names, table, Direct), Direct) + Routed(WithTarget(names, table, Active), Active)
  }

  lemma LoadedRouteRepeats(names: seq<string>, table: Table, networks: seq<string>, parse: Normaliser, i: nat)
    requires NamesOf(names, table) && RealTable(table, networks) && Fixpoints(networks, parse)
    requires i < |LoadedRoutes(names, table)|
    ensures RepeatsTable(LoadedRoutes(names, table)[i], table, networks, parse)
  {
    var count := |WithTarget(names, table, Direct)|;
    if i < count {
      RoutedRepeats(names, table, networks, parse, Direct, i);
    } else {
      RoutedRepeats(names, table, networks, parse, Active, i - count);
    }
  }

  lemma LoadedRoutesCover(names: seq<string>, table: Table, network: string)
    requires NamesOf(names, table) && network in table && table[network] != Unresolved
    ensures exists i | 0 <= i < |LoadedRoutes(names, table)| :: LoadedRoutes(names, table)[i].network == network
  {
    var target := table[network];
    var listed := WithTarget(names, table, target);
    var offset := if target == Active then |WithTarget(names, table, Direct)| else 0;
    WithTargetContents(names, table, target, network);
    var i :| 0 <= i < |listed| && listed[i] == network;
    assert LoadedRoutes(names, table)[offset + i].network == network;
  }

  /** Loading the two static lists rebuilds the whole route table. */
  lemma LoadedRoutesRebuild(names: seq<string>, table: Table, networks: seq<string>, parse: Normaliser)
    requires NamesOf(names, table) && RealTable(table, networks) && Fixpoints(networks, parse)
    ensures AddRoutes(map[], LoadedRoutes(names, table), networks, parse) == Ok(table)
  {
    var routes := LoadedRoutes(names, table);
    forall i | 0 <= i < |routes| ensures RepeatsTable(routes[i], table, networks, parse) {
      LoadedRouteRepeats(names, table, networks, parse, i);
    }
    RoutesRebuild(map[], routes, table, networks, parse);
    var final := AddRoutes(map[], routes, networks, parse).value;
    forall network | network in table ensures network in final {
      LoadedRoutesCover(names, table, network);
    }
    assert final == table;
  }

  // ------------------------------------------------ the main results

  lemma AcceptedRoutes(parsed: Parsed, input: Input, ips: IpText)
    requires WellFormedParsed(parsed, ips) && Validated(parsed, input, ips).Ok?
    ensures RealTable(AddRoutes(map[], input.statics, parsed.networks, NetworkParser(ips)).value, parsed.networks)
    ensures Fixpoints(parsed.networks, NetworkParser(ips))
  {
    RoutesAreReal(map[], input.statics, parsed.networks, NetworkParser(ips));
    assert forall i | 0 <= i < |parsed.networks| :: NormalNetwork(parsed.networks[i], ips);
  }

  lemma RegeneratedIsSame(parsed: Parsed, classes: Table, routes: Table, ips: IpText)
    requires WellFormedParsed(parsed, ips) && !DoubleMatch(parsed.entries)
    ensures var items := ItemsFor(Grouped(parsed.entries, classes), classes);
            var again := AddClasses(map[], items, parsed.domains, ParseDomain);
            again.Ok? && Generated(parsed.entries, again.value, routes) == Generated(parsed.entries, classes, routes)
  {
    LoadedAcceptedIff(parsed, classes, ips);
    var items := ItemsFor(Grouped(parsed.entries, classes), classes);
    var again := AddClasses(map[], items, parsed.domains, ParseDomain).value;
    forall i | 0 <= i < |parsed.entries|
      ensures ClassOf(classes, parsed.entries[i].domain) == ClassOf(again, parsed.entries[i].domain)
    {
      LoadedClassIsKept(parsed, classes, ips, parsed.entries[i]);
    }
    SameListing(parsed.entries, classes, again, Direct);
    SameListing(parsed.entries, classes, again, Active);
    SameListing(parsed.entries, classes, again, Unresolved);
  }

  /**
   * Loading the lists of an accepted generation and validating them against the same source rebuilds
   * the same five lists, unless some domain is listed both alone and with everything below it; the
   * two lines of such a domain load as two classifications, which are refused.
   */
  lemma ReloadRebuildsIff(parsed: Parsed, input: Input, ips: IpText)
    requires WellFormedParsed(parsed, ips) && Validated(parsed, input, ips).Ok?
    ensures Validated(parsed, Loaded(Validated(parsed, input, ips).value), ips) ==
            if DoubleMatch(parsed.entries) then Err(InvalidInput) else Validated(parsed, input, ips)
  {
    var classes := AddClasses(map[], input.classifications, parsed.domains, ParseDomain).value;
    var routes := AddRoutes(map[], input.statics, parsed.networks, NetworkParser(ips)).value;
    LoadedItems(parsed.entries, classes, routes);
    LoadedAcceptedIff(parsed, classes, ips);
    AcceptedRoutes(parsed, input, ips);
    InOrderContents(routes);
    LoadedRoutesRebuild(InOrder(routes), routes, parsed.networks, NetworkParser(ips));
    if DoubleMatch(parsed.entries) {
      ClassErrorIsInvalid(map[], ItemsFor(Grouped(parsed.entries, classes), classes), parsed.domains, ParseDomain);
    } else {
      RegeneratedIsSame(parsed, classes, routes, ips);
    }
  }

  lemma {:induction false} ClassErrorIsInvalid(table: Table, items: seq<Classification>, domains: seq<string>,
                                               parse: Normaliser)
    ensures AddClasses(table, items, domains, parse).Err?
            ==> AddClasses(table, items, domains, parse).error == InvalidInput
    decreases |items|
  {
    if items != [] {
      var next := AddClass(table, items[0], domains, parse);
      if next.Ok? {
        ClassErrorIsInvalid(next.value, items[1..], domains, parse);
      }
    }
  }

  // ------------------------------------------------ static lists and the validator

  lemma NormalNetworkIsWritable(network: string, ips: IpText)
    requires NormalNetwork(network, ips)
    ensures Clean(network) && Bytes(network) <= MAX_NETWORK_BYTES && LineAccepted(network, NetworkList, ips)
  {
    TidyFacts(network);
  }

  lemma StaticListIsWritable(parsed: Parsed, table: Table, target: Class, ips: IpText)
    requires WellFormedParsed(parsed, ips) && RealTable(table, parsed.networks)
    ensures Writable(WithTarget(InOrder(table), table, target), LineAcceptor(NetworkList, ips))
    ensures forall i | 0 <= i < |WithTarget(InOrder(table), table, target)| ::
              Bytes(WithTarget(InOrder(table), table, target)[i]) <= MAX_NETWORK_BYTES
  {
    var list := WithTarget(InOrder(table), table, target);
    InOrderContents(table);
    forall i | 0 <= i < |list|
      ensures Clean(list[i]) && Bytes(list[i]) <= MAX_NETWORK_BYTES && LineAccepted(list[i], NetworkList, ips)
    {
      WithTargetContents(InOrder(table), table, target, list[i]);
      var k :| 0 <= k < |parsed.networks| && parsed.networks[k] == list[i];
      NormalNetworkIsWritable(parsed.networks[k], ips);
    }
  }

  lemma StaticListIsShort(parsed: Parsed, table: Table, target: Class)
    requires RealTable(table, parsed.networks)
    ensures |WithTarget(InOrder(table), table, target)| <= |parsed.networks|
  {
    InOrderContents(table);
    WithTargetContents(InOrder(table), table, target, "");
    CardinalityOfSubset(table.Keys, set network | network in parsed.networks);
    DistinctAtMost(parsed.networks);
  }

  lemma {:induction false} DistinctAtMost(items: seq<string>)
    ensures |set item | item in items| <= |items|
  {
    if items != [] {
      DistinctAtMost(items[1..]);
      assert (set item | item in items) == {items[0]} + set item | item in items[1..];
    }
  }

  const MOST_NETWORKS_SURE_TO_FIT := MAX_SOURCE_BYTES / (MAX_NETWORK_BYTES + 1)

  lemma TableListPasses(parsed: Parsed, table: Table, target: Class, ips: IpText)
    requires WellFormedParsed(parsed, ips) && RealTable(table, parsed.networks)
    ensures var list := WithTarget(InOrder(table), table, target);
            && Counted(FileText(list), NetworkList, ips) ==
                 (if TotalBytes(list) + |list| <= MAX_SOURCE_BYTES then Ok(|list|) else Err(LimitExceeded))
            && (|parsed.networks| <= MOST_NETWORKS_SURE_TO_FIT ==> TotalBytes(list) + |list| <= MAX_SOURCE_BYTES)
  {
    StaticListIsWritable(parsed, table, target, ips);
    StaticListIsShort(parsed, table, target);
    WrittenListAccepted(WithTarget(InOrder(table), table, target), NetworkList, ips);
    FewNetworksFit(WithTarget(InOrder(table), table, target));
  }

  lemma FewNetworksFit(list: seq<string>)
    requires forall i | 0 <= i < |list| :: Bytes(list[i]) <= MAX_NETWORK_BYTES
    ensures |list| <= MOST_NETWORKS_SURE_TO_FIT ==> TotalBytes(list) + |list| <= MAX_SOURCE_BYTES
  {
    TotalAtMost(list, MAX_NETWORK_BYTES);
  }

  function StaticListOf(lists: Lists, target: Class): seq<string>
    requires target != Unresolved
  {
    if target == Direct then lists.staticDirect else lists.staticActive
  }

  /**
   * A static list passes the validator exactly when its lines fit the byte limit. Up to 190650
   * networks always fit; the entry limit of a source admits more.
   */
  lemma StaticListPassesIff(parsed: Parsed, input: Input, target: Class, ips: IpText)
    requires WellFormedParsed(parsed, ips) && Validated(parsed, input, ips).Ok? && target != Unresolved
    ensures var list := StaticListOf(Validated(parsed, input, ips).value, target);
            && Counted(FileText(list), NetworkList, ips) ==
                 (if TotalBytes(list) + |list| <= MAX_SOURCE_BYTES then Ok(|list|) else Err(LimitExceeded))
            && (|parsed.networks| <= MOST_NETWORKS_SURE_TO_FIT ==> TotalBytes(list) + |list| <= MAX_SOURCE_BYTES)
  {
    var table := AddRoutes(map[], input.statics, parsed.networks, NetworkParser(ips)).value;
    AcceptedRoutes(parsed, input, ips);
    TableListPasses(parsed, table, target, ips);
  }
}

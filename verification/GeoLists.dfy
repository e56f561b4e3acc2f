/**
 * The lists generated from a source: every domain entry is classified into one list, selected
 * networks get static routes, and generated files must pass the artifact validator.
 */
module GeoLists {

  import opened Collections
  import opened DomainNames
  import opened GeoSource
  import opened NetworkText
  import opened Ordered
  import opened Wrappers

  datatype Class = Direct | Active | Unresolved

  datatype Classification = Classification(domain: string, classification: Class)

  datatype StaticRoute = StaticRoute(network: string, target: Class)

  datatype Input = Input(classifications: seq<Classification>, statics: seq<StaticRoute>)

  datatype Lists = Lists(direct: seq<string>, active: seq<string>, unresolved: seq<string>,
                         staticDirect: seq<string>, staticActive: seq<string>)

  type Table = map<string, Class>

  /** How a domain or a network is brought to normal form. */
  type Normaliser = string -> Option<string>

  // ------------------------------------------------ the classification table

  function AddClass(table: Table, item: Classification, domains: seq<string>, parse: Normaliser)
      : Result<Table, GeoError> {
    var domain := parse(item.domain);
    if domain.None? || domain.value !in domains || domain.value in table then Err(InvalidInput)
    else Ok(table[domain.value := item.classification])
  }

  function AddClasses(table: Table, items: seq<Classification>, domains: seq<string>, parse: Normaliser)
      : Result<Table, GeoError>
    decreases |items|
  {
    if items == [] then Ok(table)
    else
      var next := AddClass(table, items[0], domains, parse);
      if next.Err? then next else AddClasses(next.value, items[1..], domains, parse)
  }

  function ClassOf(table: Table, domain: string): Class {
    if domain in table then table[domain] else Unresolved
  }

  /** The provider lines of the entries of one class, in source order. */
  function Listing(entries: seq<Entry>, table: Table, c: Class): seq<string> {
    if entries == [] then []
    else (if ClassOf(table, entries[0].domain) == c then [ProviderLine(entries[0])] else [])
         + Listing(entries[1..], table, c)
  }

  // ------------------------------------------------ static routes

  function AddRoute(table: Table, route: StaticRoute, networks: seq<string>, parse: Normaliser)
      : Result<Table, GeoError> {
    if route.target == Unresolved then Err(InvalidInput)
    else
      var network := parse(route.network);
      if network.None? || network.value !in networks then Err(InvalidInput)
      else if network.value in table && table[network.value] != route.target then Err(InvalidInput)
      else Ok(table[network.value := route.target])
  }

  function AddRoutes(table: Table, routes: seq<StaticRoute>, networks: seq<string>, parse: Normaliser)
      : Result<Table, GeoError>
    decreases |routes|
  {
    if routes == [] then Ok(table)
    else
      var next := AddRoute(table, routes[0], networks, parse);
      if next.Err? then next else AddRoutes(next.value, routes[1..], networks, parse)
  }

  function WithTarget(networks: seq<string>, table: Table, target: Class): seq<string> {
    if networks == [] then []
    else (if ClassOf(table, networks[0]) == target then [networks[0]] else [])
         + WithTarget(networks[1..], table, target)
  }

  function NetworkParser(ips: IpText): Normaliser {
    text => ParseNetwork(text, ips)
  }

  function InOrder(table: Table): seq<string> {
    BeforeIsTotal();
    Ascending(table.Keys, Before)
  }

  function Generated(entries: seq<Entry>, classes: Table, routes: Table): Lists {
    Lists(
      Listing(entries, classes, Direct),
      Listing(entries, classes, Active),
      Listing(entries, classes, Unresolved),
      WithTarget(InOrder(routes), routes, Direct),
      WithTarget(InOrder(routes), routes, Active))
  }

  function Validated(parsed: Parsed, input: Input, ips: IpText): Result<Lists, GeoError> {
    var classes := AddClasses(map[], input.classifications, parsed.domains, ParseDomain);
    if classes.Err? then Err(classes.error)
    else
      var routes := AddRoutes(map[], input.statics, parsed.networks, NetworkParser(ips));
      if routes.Err? then Err(routes.error) else Ok(Generated(parsed.entries, classes.value, routes.value))
  }

  method ValidateGeneration(parsed: Parsed, input: Input, ips: IpText) returns (r: Result<Lists, GeoError>)
    ensures r == Validated(parsed, input, ips)
  {
    var classes: Table := map[];
    var i := 0;
    while i < |input.classifications|
      invariant 0 <= i <= |input.classifications|
      invariant AddClasses(map[], input.classifications, parsed.domains, ParseDomain) ==
                AddClasses(classes, input.classifications[i..], parsed.domains, ParseDomain)
    {
      var item := input.classifications[i];
      RestOf(input.classifications, i);
      var domain := ParseDomain(item.domain);
      if domain.None? || domain.value !in parsed.domains || domain.value in classes {
        return Err(InvalidInput);
      }
      classes := classes[domain.value := item.classification];
      i := i + 1;
    }
    var direct, active, unresolved := SortByClass(parsed.entries, classes);
    var routes := CollectRoutes(input.statics, parsed.networks, ips);
    if routes.Err? {
      return Err(routes.error);
    }
    r := Ok(Lists(direct, active, unresolved,
                  WithTarget(InOrder(routes.value), routes.value, Direct),
                  WithTarget(InOrder(routes.value), routes.value, Active)));
  }

  /** The loop that puts each entry's provider line into the list of its class. */
  method SortByClass(entries: seq<Entry>, classes: Table)
    returns (direct: seq<string>, active: seq<string>, unresolved: seq<string>)
    ensures direct == Listing(entries, classes, Direct)
    ensures active == Listing(entries, classes, Active)
    ensures unresolved == Listing(entries, classes, Unresolved)
  {
    direct, active, unresolved := [], [], [];
    for i := 0 to |entries|
      invariant direct == Listing(entries[..i], classes, Direct)
      invariant active == Listing(entries[..i], classes, Active)
      invariant unresolved == Listing(entries[..i], classes, Unresolved)
    {
      var line := ProviderLine(entries[i]);
      ListingGrows(entries[..i], entries[i], classes, Direct);
      ListingGrows(entries[..i], entries[i], classes, Active);
      ListingGrows(entries[..i], entries[i], classes, Unresolved);
      assert entries[..i + 1] == entries[..i] + [entries[i]];
      match ClassOf(classes, entries[i].domain) {
        case Direct => direct := direct + [line];
        case Active => active := active + [line];
        case Unresolved => unresolved := unresolved + [line];
      }
    }
    assert entries[..|entries|] == entries;
  }

  lemma {:induction false} ListingGrows(entries: seq<Entry>, entry: Entry, table: Table, c: Class)
    ensures Listing(entries + [entry], table, c) ==
            Listing(entries, table, c) + if ClassOf(table, entry.domain) == c then [ProviderLine(entry)] else []
  {
    var last := if ClassOf(table, entry.domain) == c then [ProviderLine(entry)] else [];
    MovePart(last, [], []);
    if entries == [] {
      assert entries + [entry] == [entry];
    } else {
      assert (entries + [entry])[1..] == entries[1..] + [entry];
      ListingGrows(entries[1..], entry, table, c);
      MovePart(if ClassOf(table, entries[0].domain) == c then [ProviderLine(entries[0])] else [],
               Listing(entries[1..], table, c), last);
    }
  }

  method CollectRoutes(statics: seq<StaticRoute>, networks: seq<string>, ips: IpText)
      returns (r: Result<Table, GeoError>)
    ensures r == AddRoutes(map[], statics, networks, NetworkParser(ips))
  {
    var routes: Table := map[];
    var i := 0;
    while i < |statics|
      invariant 0 <= i <= |statics|
      invariant AddRoutes(map[], statics, networks, NetworkParser(ips)) ==
                AddRoutes(routes, statics[i..], networks, NetworkParser(ips))
    {
      RestOf(statics, i);
      if statics[i].target == Unresolved {
        return Err(InvalidInput);
      }
      var network := NetworkParser(ips)(statics[i].network);
      if network.None? || network.value !in networks {
        return Err(InvalidInput);
      }
      if network.value in routes && routes[network.value] != statics[i].target {
        return Err(InvalidInput);
      }
      routes := routes[network.value := statics[i].target];
      i := i + 1;
    }
    r := Ok(routes);
  }

  // ------------------------------------------------ reading the lists back

  function StripMark(line: string): string {
    if "+." <= line then line[2..] else line
  }

  function Tagged(lines: seq<string>, c: Class): (items: seq<Classification>)
    ensures |items| == |lines| && forall i | 0 <= i < |lines| :: items[i] == Classification(StripMark(lines[i]), c)
  {
    seq(|lines|, i requires 0 <= i < |lines| => Classification(StripMark(lines[i]), c))
  }

  function Routed(networks: seq<string>, target: Class): (routes: seq<StaticRoute>)
    ensures |routes| == |networks| && forall i | 0 <= i < |networks| :: routes[i] == StaticRoute(networks[i], target)
  {
    seq(|networks|, i requires 0 <= i < |networks| => StaticRoute(networks[i], target))
  }

  /** The generation input that the stored lists stand for. */
  function Loaded(lists: Lists): Input {
    Input(
      Tagged(lists.direct, Direct) + Tagged(lists.active, Active) + Tagged(lists.unresolved, Unresolved),
      Routed(lists.staticDirect, Direct) + Routed(lists.staticActive, Active))
  }

  /** One classification for each domain of the source. */
  function Classified(parsed: Parsed, analyzer: string -> Class): (items: seq<Classification>)
    ensures |items| == |parsed.domains|
    ensures forall i | 0 <= i < |parsed.domains| ::
              items[i] == Classification(parsed.domains[i], analyzer(parsed.domains[i]))
  {
    seq(|parsed.domains|, i requires 0 <= i < |parsed.domains| =>
      Classification(parsed.domains[i], analyzer(parsed.domains[i])))
  }
}

/**
 * The port-list normaliser: a list of text items becomes a list of canonical items without
 * repetitions. Ports are plain, source ("src-port:") or inbound ("in-port:").
 */
module PortItems {

  import opened Collections
  import opened Text
  import opened Wrappers

  const MAX_BYTES := 4096
  const MAX_SPECS := 256
  const ITEM_SEPARATORS: set<char> := {',', ';', '\n'}
  const SPEC_SEPARATORS: set<char> := {'/'}

  datatype Kind = Plain | Source | Inbound

  datatype PortError = TooLong | TooMany | ExpectedPort | OutOfRange | Descending | NoPort

  /** An inclusive range of ports. */
  datatype Ports = Ports(first: nat, last: nat) {
    predicate Valid() {
      1 <= first <= last <= 65535
    }
  }

  /** One range as written, with the kind its item announced. */
  datatype Spec = Spec(kind: Kind, text: string)

  function Prefix(kind: Kind): string {
    match kind
    case Plain => ""
    case Source => "src-port:"
    case Inbound => "in-port:"
  }

  function StripKind(item: string): (Kind, string) {
    if Prefix(Source) <= item then (Source, item[|Prefix(Source)|..])
    else if Prefix(Inbound) <= item then (Inbound, item[|Prefix(Inbound)|..])
    else (Plain, item)
  }

  function ParsePort(text: string): (r: Result<nat, PortError>)
    ensures r.Ok? ==> 1 <= r.value <= 65535
  {
    var value := Trim(text);
    if value == "" || !AllDigits(value) then Err(ExpectedPort)
    else if 1 <= Value(value) <= 65535 then Ok(Value(value))
    else Err(OutOfRange)
  }

  function ParseSpec(text: string): (r: Result<Ports, PortError>)
    ensures r.Ok? ==> r.value.Valid()
  {
    match SplitOnce(text, '-')
    case None =>
      var port := ParsePort(text);
      if port.Err? then Err(port.error) else Ok(Ports(port.value, port.value))
    case Some((before, after)) =>
      var first := ParsePort(before);
      if first.Err? then Err(first.error)
      else
        var last := ParsePort(after);
        if last.Err? then Err(last.error)
        else if first.value > last.value then Err(Descending)
        else Ok(Ports(first.value, last.value))
  }

  function Print(ports: Ports): string {
    if ports.first == ports.last then Decimal(ports.first)
    else Decimal(ports.first) + "-" + Decimal(ports.last)
  }

  function Canonical(kind: Kind, ports: Ports): string {
    Prefix(kind) + Print(ports)
  }

  /** The non-empty pieces, trimmed. */
  function Kept(pieces: seq<string>): seq<string> {
    if pieces == [] then []
    else (if Trim(pieces[0]) == "" then [] else [Trim(pieces[0])]) + Kept(pieces[1..])
  }

  function Pieces(items: seq<string>): seq<string> {
    if items == [] then [] else Split(items[0], ITEM_SEPARATORS) + Pieces(items[1..])
  }

  // ------------------------------------------------ the fold, step by step

  datatype State = State(result: seq<string>, count: nat)

  function AddSpec(state: State, spec: Spec): Result<State, PortError> {
    if state.count + 1 > MAX_SPECS then Err(TooMany)
    else
      var ports := ParseSpec(spec.text);
      if ports.Err? then Err(ports.error)
      else Ok(State(Include(state.result, Canonical(spec.kind, ports.value)), state.count + 1))
  }

  function Include(result: seq<string>, text: string): seq<string> {
    if text in result then result else result + [text]
  }

  function AddSpecs(state: State, specs: seq<Spec>): Result<State, PortError>
    decreases |specs|
  {
    if specs == [] then Ok(state)
    else
      var next := AddSpec(state, specs[0]);
      if next.Err? then next else AddSpecs(next.value, specs[1..])
  }

  function AddPiece(state: State, piece: string): Result<State, PortError> {
    var next := AddSpecs(state, SpecsOf(piece));
    if next.Ok? && Trim(piece) != "" && next.value.count == state.count then Err(NoPort) else next
  }

  function AddPieces(state: State, pieces: seq<string>): Result<State, PortError>
    decreases |pieces|
  {
    if pieces == [] then Ok(state)
    else
      var next := AddPiece(state, pieces[0]);
      if next.Err? then next else AddPieces(next.value, pieces[1..])
  }

  function Normalized(items: seq<string>): Result<seq<string>, PortError> {
    if TotalBytes(items) > MAX_BYTES then Err(TooLong)
    else
      var final := AddPieces(State([], 0), Pieces(items));
      if final.Err? then Err(final.error) else Ok(final.value.result)
  }

  function Tag(kind: Kind, texts: seq<string>): (specs: seq<Spec>)
    ensures |specs| == |texts| && forall i | 0 <= i < |texts| :: specs[i] == Spec(kind, texts[i])
  {
    seq(|texts|, i requires 0 <= i < |texts| => Spec(kind, texts[i]))
  }

  function SpecsOf(piece: string): seq<Spec> {
    var (kind, body) := StripKind(Trim(piece));
    Tag(kind, Kept(Split(body, SPEC_SEPARATORS)))
  }

  // ------------------------------------------------ the source's two loops

  /** The inner loop: the ranges of one piece. */
  method AddRanges(start: State, specs: seq<Spec>) returns (r: Result<State, PortError>)
    ensures r == AddSpecs(start, specs)
  {
    var state := start;
    var j := 0;
    while j < |specs|
      invariant 0 <= j <= |specs|
      invariant AddSpecs(start, specs) == AddSpecs(state, specs[j..])
    {
      RestOf(specs, j);
      if state.count + 1 > MAX_SPECS {
        return Err(TooMany);
      }
      var ports := ParseSpec(specs[j].text);
      if ports.Err? {
        return Err(ports.error);
      }
      state := State(Include(state.result, Canonical(specs[j].kind, ports.value)), state.count + 1);
      j := j + 1;
    }
    r := Ok(state);
  }

  lemma AddPiecesStep(state: State, pieces: seq<string>, i: nat)
    requires i < |pieces|
    ensures var next := AddPiece(state, pieces[i]);
            AddPieces(state, pieces[i..]) == if next.Err? then next else AddPieces(next.value, pieces[i + 1..])
  {
    RestOf(pieces, i);
  }

  method NormalizePortItems(items: seq<string>) returns (r: Result<seq<string>, PortError>)
    ensures r == Normalized(items)
  {
    if TotalBytes(items) > MAX_BYTES {
      return Err(TooLong);
    }
    var state := State([], 0);
    var pieces := Pieces(items);
    var i := 0;
    while i < |pieces|
      invariant 0 <= i <= |pieces|
      invariant AddPieces(State([], 0), pieces) == AddPieces(state, pieces[i..])
    {
      var before := state.count;
      var next := AddRanges(state, SpecsOf(pieces[i]));
      AddPiecesStep(state, pieces, i);
      if next.Err? {
        return Err(next.error);
      }
      state := next.value;
      if Trim(pieces[i]) != "" && state.count == before {
        return Err(NoPort);
      }
      i := i + 1;
    }
    r := Ok(state.result);
  }

  // ------------------------------------------------ what a list denotes

  function AllSpecs(pieces: seq<string>): seq<Spec> {
    if pieces == [] then [] else SpecsOf(pieces[0]) + AllSpecs(pieces[1..])
  }

  predicate Covers(spec: Spec, kind: Kind, port: nat) {
    spec.kind == kind && ParseSpec(spec.text).Ok?
    && ParseSpec(spec.text).value.first <= port <= ParseSpec(spec.text).value.last
  }

  /** Some range of the list, read as input, is of this kind and holds this port. */
  ghost predicate Denotes(items: seq<string>, kind: Kind, port: nat) {
    exists spec | spec in AllSpecs(Pieces(items)) :: Covers(spec, kind, port)
  }

  predicate AllParse(specs: seq<Spec>) {
    forall i | 0 <= i < |specs| :: ParseSpec(specs[i].text).Ok?
  }

  /** Every piece that is not blank holds a range. */
  predicate EveryPieceHasPorts(pieces: seq<string>) {
    forall i | 0 <= i < |pieces| :: Trim(pieces[i]) != "" ==> SpecsOf(pieces[i]) != []
  }

  ghost predicate IsCanonical(text: string) {
    exists kind: Kind, ports: Ports :: ports.Valid() && text == Canonical(kind, ports)
  }

  predicate NoRepeats(texts: seq<string>) {
    forall i, j | 0 <= i < j < |texts| :: texts[i] != texts[j]
  }

  /** The canonical texts of the ranges, in order. */
  function Printed(specs: seq<Spec>): (texts: seq<string>)
    requires AllParse(specs)
    ensures |texts| == |specs|
    ensures forall i | 0 <= i < |specs| :: PrintedAs(specs[i], texts[i])
  {
    seq(|specs|, i requires 0 <= i < |specs| => Canonical(specs[i].kind, ParseSpec(specs[i].text).value))
  }

  /** The text is what the normaliser prints for this range. */
  predicate PrintedAs(spec: Spec, text: string) {
    ParseSpec(spec.text).Ok? && Canonical(spec.kind, ParseSpec(spec.text).value) == text
  }

  /** The result extended by each text at its first occurrence. */
  function Distinct(result: seq<string>, texts: seq<string>): (r: seq<string>)
    ensures NoRepeats(result) ==> NoRepeats(r)
    ensures |r| <= |result| + |texts|
    decreases |texts|
  {
    if texts == [] then result else Distinct(Include(result, texts[0]), texts[1..])
  }

  lemma {:induction false} DistinctConcat(result: seq<string>, a: seq<string>, b: seq<string>)
    ensures Distinct(result, a + b) == Distinct(Distinct(result, a), b)
    decreases |a|
  {
    if a == [] {
      assert a + b == b;
    } else {
      assert (a + b)[1..] == a[1..] + b;
      DistinctConcat(Include(result, a[0]), a[1..], b);
    }
  }

  lemma {:induction false} DistinctContents(result: seq<string>, texts: seq<string>, text: string)
    ensures text in Distinct(result, texts) <==> text in result || text in texts
    decreases |texts|
  {
    if texts != [] {
      DistinctContents(Include(result, texts[0]), texts[1..], text);
      assert texts == [texts[0]] + texts[1..];
    }
  }

  lemma {:induction false} DistinctOfDistinct(result: seq<string>, texts: seq<string>)
    requires NoRepeats(result + texts)
    ensures Distinct(result, texts) == result + texts
    decreases |texts|
  {
    if texts == [] {
      assert result + texts == result;
    } else {
      NextIsNew(result, texts);
      assert result + texts == (result + [texts[0]]) + texts[1..];
      DistinctOfDistinct(result + [texts[0]], texts[1..]);
    }
  }

  lemma NextIsNew(result: seq<string>, texts: seq<string>)
    requires texts != [] && NoRepeats(result + texts)
    ensures texts[0] !in result
  {
    assert (result + texts)[|result|] == texts[0];
    assert forall i | 0 <= i < |result| :: (result + texts)[i] == result[i];
  }

  /** The canonical texts of the ranges, each at its first occurrence. */
  function Collected(result: seq<string>, specs: seq<Spec>): seq<string>
    requires AllParse(specs)
  {
    Distinct(result, Printed(specs))
  }

  lemma PrintedConcat(a: seq<Spec>, b: seq<Spec>)
    requires AllParse(a) && AllParse(b)
    ensures AllParse(a + b) && Printed(a + b) == Printed(a) + Printed(b)
  {
    AllParseConcat(a, b);
  }

  lemma CollectedConcat(result: seq<string>, a: seq<Spec>, b: seq<Spec>)
    requires AllParse(a) && AllParse(b)
    ensures AllParse(a + b) && Collected(result, a + b) == Collected(Collected(result, a), b)
  {
    PrintedConcat(a, b);
    DistinctConcat(result, Printed(a), Printed(b));
  }

  lemma CollectedStep(result: seq<string>, specs: seq<Spec>)
    requires specs != [] && AllParse(specs)
    ensures Collected(result, specs) ==
            Collected(Include(result, Canonical(specs[0].kind, ParseSpec(specs[0].text).value)), specs[1..])
  {
    assert Printed(specs)[1..] == Printed(specs[1..]);
  }

  lemma {:induction false} AddSpecsOk(state: State, specs: seq<Spec>)
    requires state.count <= MAX_SPECS
    ensures AddSpecs(state, specs).Ok? <==> AllParse(specs) && state.count + |specs| <= MAX_SPECS
    ensures AddSpecs(state, specs).Ok? ==>
              AddSpecs(state, specs).value == State(Collected(state.result, specs), state.count + |specs|)
    decreases |specs|
  {
    if specs != [] {
      var next := AddSpec(state, specs[0]);
      assert specs == [specs[0]] + specs[1..];
      if next.Ok? {
        AddSpecsOk(next.value, specs[1..]);
        assert AllParse(specs) <==> AllParse(specs[1..]);
        if AllParse(specs) {
          CollectedStep(state.result, specs);
        }
      }
    }
  }

  lemma FirstPiece(pieces: seq<string>)
    requires pieces != []
    ensures EveryPieceHasPorts(pieces) <==>
            (Trim(pieces[0]) != "" ==> SpecsOf(pieces[0]) != []) && EveryPieceHasPorts(pieces[1..])
    ensures AllSpecs(pieces) == SpecsOf(pieces[0]) + AllSpecs(pieces[1..])
  {
  }

  lemma {:induction false} AddPiecesOk(state: State, pieces: seq<string>)
    requires state.count <= MAX_SPECS
    ensures AddPieces(state, pieces).Ok? <==>
            EveryPieceHasPorts(pieces) && AllParse(AllSpecs(pieces)) && state.count + |AllSpecs(pieces)| <= MAX_SPECS
    ensures AddPieces(state, pieces).Ok? ==>
              AddPieces(state, pieces).value.result == Collected(state.result, AllSpecs(pieces))
    decreases |pieces|
  {
    if pieces != [] {
      var specs, rest := SpecsOf(pieces[0]), AllSpecs(pieces[1..]);
      AddSpecsOk(state, specs);
      AllParseConcat(specs, rest);
      FirstPiece(pieces);
      var next := AddPiece(state, pieces[0]);
      if next.Ok? {
        AddPiecesOk(next.value, pieces[1..]);
        if AllParse(rest) {
          CollectedConcat(state.result, specs, rest);
        }
      }
    }
  }

  lemma AllParseConcat(a: seq<Spec>, b: seq<Spec>)
    ensures AllParse(a + b) <==> AllParse(a) && AllParse(b)
  {
    if AllParse(a + b) {
      forall i | 0 <= i < |a| ensures ParseSpec(a[i].text).Ok? { assert (a + b)[i] == a[i]; }
      forall i | 0 <= i < |b| ensures ParseSpec(b[i].text).Ok? { assert (a + b)[|a| + i] == b[i]; }
    }
  }

  /**
   * The normaliser succeeds exactly on lists within the byte and entry limits whose non-blank pieces
   * all hold ranges and whose ranges all parse; duplicates count towards the limit.
   */
  lemma SucceedsIff(items: seq<string>)
    ensures Normalized(items).Ok? <==>
            && TotalBytes(items) <= MAX_BYTES
            && EveryPieceHasPorts(Pieces(items))
            && AllParse(AllSpecs(Pieces(items)))
            && |AllSpecs(Pieces(items))| <= MAX_SPECS
    ensures Normalized(items).Ok? ==> Normalized(items).value == Collected([], AllSpecs(Pieces(items)))
  {
    AddPiecesOk(State([], 0), Pieces(items));
  }

  // ------------------------------------------------ canonical texts read back

  /** Printable ASCII other than a separator. */
  predicate Ordinary(c: char) {
    0x21 <= c as int <= 0x7e && c != ',' && c != ';' && c != '/'
  }

  predicate AllOrdinary(s: string) {
    forall c | c in s :: Ordinary(c)
  }

  lemma DecimalIsOrdinary(n: nat)
    ensures AllDigits(Decimal(n)) && Decimal(n) != "" && Value(Decimal(n)) == n
    ensures AllOrdinary(Decimal(n)) && '-' !in Decimal(n) && NoSpaces(Decimal(n))
  {
    DecimalRoundTrip(n);
  }

  lemma PortReadsBack(n: nat)
    requires 1 <= n <= 65535
    ensures ParsePort(Decimal(n)) == Ok(n)
  {
    DecimalIsOrdinary(n);
    TrimNoSpaces(Decimal(n));
  }

  lemma PrintReadsBack(ports: Ports)
    requires ports.Valid()
    ensures ParseSpec(Print(ports)) == Ok(ports)
    ensures AllOrdinary(Print(ports)) && Print(ports) != "" && IsDigit(Print(ports)[0])
  {
    DecimalIsOrdinary(ports.first);
    DecimalIsOrdinary(ports.last);
    PortReadsBack(ports.first);
    PortReadsBack(ports.last);
    if ports.first == ports.last {
      SplitOnceFree(Decimal(ports.first), '-');
    } else {
      SplitOnceAt(Decimal(ports.first), '-', Decimal(ports.last));
    }
  }

  lemma PrefixReadsBack(kind: Kind, body: string)
    requires body != "" && IsDigit(body[0])
    ensures StripKind(Prefix(kind) + body) == (kind, body)
  {
    var item := Prefix(kind) + body;
    assert item[0] == if kind.Plain? then body[0] else Prefix(kind)[0];
    assert item[|Prefix(kind)|..] == body;
  }

  lemma PrefixIsOrdinary(kind: Kind)
    ensures AllOrdinary(Prefix(kind))
  {
  }

  lemma OrdinaryIsFree(s: string)
    requires AllOrdinary(s)
    ensures NoSpaces(s) && Free(s, ITEM_SEPARATORS) && Free(s, SPEC_SEPARATORS)
  {
  }

  /** A canonical text is one piece holding one range, which parses to what was printed. */
  lemma CanonicalReadsBack(kind: Kind, ports: Ports)
    requires ports.Valid()
    ensures AllOrdinary(Canonical(kind, ports))
    ensures SpecsOf(Canonical(kind, ports)) == [Spec(kind, Print(ports))]
    ensures ParseSpec(Print(ports)) == Ok(ports)
  {
    var text, body := Canonical(kind, ports), Print(ports);
    PrintReadsBack(ports);
    PrefixReadsBack(kind, body);
    PrefixIsOrdinary(kind);
    OrdinaryIsFree(text);
    OrdinaryIsFree(body);
    TrimNoSpaces(text);
    TrimNoSpaces(body);
    SplitFree(body, SPEC_SEPARATORS);
    assert Kept([body]) == [body] + Kept([]);
  }

  lemma CanonicalIsOneSpec(text: string)
    requires IsCanonical(text)
    ensures |SpecsOf(text)| == 1 && PrintedAs(SpecsOf(text)[0], text)
  {
    var kind: Kind, ports: Ports :| ports.Valid() && text == Canonical(kind, ports);
    CanonicalReadsBack(kind, ports);
  }

  lemma CanonicalIsOnePiece(text: string)
    requires IsCanonical(text)
    ensures Split(text, ITEM_SEPARATORS) == [text]
  {
    var kind: Kind, ports: Ports :| ports.Valid() && text == Canonical(kind, ports);
    CanonicalReadsBack(kind, ports);
    OrdinaryIsFree(text);
    SplitFree(text, ITEM_SEPARATORS);
  }

  lemma {:induction false} PiecesOfWhole(texts: seq<string>)
    requires forall i | 0 <= i < |texts| :: Split(texts[i], ITEM_SEPARATORS) == [texts[i]]
    ensures Pieces(texts) == texts
  {
    if texts != [] {
      PiecesOfWhole(texts[1..]);
      assert texts == [texts[0]] + texts[1..];
    }
  }

  predicate IsOneSpec(text: string) {
    |SpecsOf(text)| == 1 && PrintedAs(SpecsOf(text)[0], text)
  }

  lemma {:induction false} SpecsOfSingles(texts: seq<string>, specs: seq<Spec>)
    requires |specs| == |texts| && forall i | 0 <= i < |texts| :: SpecsOf(texts[i]) == [specs[i]]
    ensures AllSpecs(texts) == specs
  {
    if texts != [] {
      SpecsOfSingles(texts[1..], specs[1..]);
      assert specs == [specs[0]] + specs[1..];
    }
  }

  /** Reading canonical items back gives one range per item, and printing those gives the items. */
  lemma SpecsOfCanonical(texts: seq<string>)
    requires forall i | 0 <= i < |texts| :: IsCanonical(texts[i])
    ensures Pieces(texts) == texts && EveryPieceHasPorts(texts)
    ensures |AllSpecs(texts)| == |texts| && AllParse(AllSpecs(texts))
    ensures forall i | 0 <= i < |texts| :: PrintedAs(AllSpecs(texts)[i], texts[i])
  {
    forall i | 0 <= i < |texts| ensures IsOneSpec(texts[i]) && Split(texts[i], ITEM_SEPARATORS) == [texts[i]] {
      CanonicalIsOneSpec(texts[i]);
      CanonicalIsOnePiece(texts[i]);
    }
    PiecesOfWhole(texts);
    SpecsOfSingles(texts, seq(|texts|, i requires 0 <= i < |texts| => SpecsOf(texts[i])[0]));
  }

  /** The collected list holds the canonical text of every range and nothing else. */
  lemma CollectedContents(specs: seq<Spec>, text: string)
    requires AllParse(specs)
    ensures text in Collected([], specs) <==> exists spec | spec in specs :: PrintedAs(spec, text)
  {
    var texts := Printed(specs);
    DistinctContents([], texts, text);
    if text in texts {
      var i :| 0 <= i < |texts| && texts[i] == text;
      assert PrintedAs(specs[i], text);
    }
    if spec :| spec in specs && PrintedAs(spec, text) {
      var i :| 0 <= i < |specs| && specs[i] == spec;
      assert texts[i] == text;
    }
  }

  lemma CollectedIsCanonical(specs: seq<Spec>)
    requires AllParse(specs)
    ensures forall text | text in Collected([], specs) :: IsCanonical(text)
  {
    forall text | text in Collected([], specs) ensures IsCanonical(text) {
      CollectedContents(specs, text);
      var spec :| spec in specs && PrintedAs(spec, text);
      assert ParseSpec(spec.text).value.Valid();
    }
  }

  /** A successful result is without repetitions, canonical throughout and at most 256 long. */
  lemma ResultIsCanonical(items: seq<string>)
    requires Normalized(items).Ok?
    ensures NoRepeats(Normalized(items).value) && |Normalized(items).value| <= MAX_SPECS
    ensures forall text | text in Normalized(items).value :: IsCanonical(text)
  {
    SucceedsIff(items);
    CollectedIsCanonical(AllSpecs(Pieces(items)));
  }

  /** Two ranges printed alike cover the same ports, for the same kind. */
  lemma PrintedAlike(a: Spec, b: Spec, text: string, kind: Kind, port: nat)
    requires PrintedAs(a, text) && PrintedAs(b, text)
    ensures Covers(a, kind, port) <==> Covers(b, kind, port)
  {
    CanonicalReadsBack(a.kind, ParseSpec(a.text).value);
    CanonicalReadsBack(b.kind, ParseSpec(b.text).value);
    assert [Spec(a.kind, Print(ParseSpec(a.text).value))][0] == [Spec(b.kind, Print(ParseSpec(b.text).value))][0];
  }

  /** Normalising changes no port of any kind. */
  lemma MeaningIsPreserved(items: seq<string>, kind: Kind, port: nat)
    requires Normalized(items).Ok?
    ensures Denotes(Normalized(items).value, kind, port) <==> Denotes(items, kind, port)
  {
    var output, specs := Normalized(items).value, AllSpecs(Pieces(items));
    SucceedsIff(items);
    ResultIsCanonical(items);
    SpecsOfCanonical(output);
    var printed := AllSpecs(output);
    if Denotes(items, kind, port) {
      var spec :| spec in specs && Covers(spec, kind, port);
      var text := Canonical(spec.kind, ParseSpec(spec.text).value);
      assert PrintedAs(spec, text);
      CollectedContents(specs, text);
      var i :| 0 <= i < |output| && output[i] == text;
      PrintedAlike(spec, printed[i], text, kind, port);
      assert printed[i] in printed;
    }
    if Denotes(output, kind, port) {
      var i :| 0 <= i < |printed| && Covers(printed[i], kind, port);
      CollectedContents(specs, output[i]);
      var spec :| spec in specs && PrintedAs(spec, output[i]);
      PrintedAlike(spec, printed[i], output[i], kind, port);
    }
  }

  // ------------------------------------------------ normalising twice

  lemma CollectedOfPrinted(specs: seq<Spec>, texts: seq<string>)
    requires |specs| == |texts| && NoRepeats(texts)
    requires forall i | 0 <= i < |texts| :: PrintedAs(specs[i], texts[i])
    ensures AllParse(specs) && Collected([], specs) == texts
  {
    assert Printed(specs) == texts;
    assert [] + texts == texts;
    DistinctOfDistinct([], texts);
  }

  /** A result normalises to itself exactly when it still fits the byte limit; otherwise it is refused. */
  lemma SecondPass(items: seq<string>)
    requires Normalized(items).Ok?
    ensures Normalized(Normalized(items).value) ==
            if TotalBytes(Normalized(items).value) <= MAX_BYTES then Normalized(items) else Err(TooLong)
  {
    var output := Normalized(items).value;
    ResultIsCanonical(items);
    SpecsOfCanonical(output);
    SucceedsIff(output);
    CollectedOfPrinted(AllSpecs(output), output);
  }

  lemma PrintIsShort(ports: Ports)
    requires ports.Valid()
    ensures Bytes(Print(ports)) <= 11
  {
    AtMostFiveDigits(ports.first);
    AtMostFiveDigits(ports.last);
    BytesOfConcat(Decimal(ports.first), "-");
    BytesOfConcat(Decimal(ports.first) + "-", Decimal(ports.last));
    BytesOfAscii("-");
  }

  lemma AtMostFiveDigits(n: nat)
    requires n <= 65535
    ensures Bytes(Decimal(n)) <= 5
    ensures 10000 <= n ==> Bytes(Decimal(n)) == 5
  {
    assert Power10(1) == 10 && Power10(2) == 100 && Power10(3) == 1000 && Power10(4) == 10000;
    DecimalLength(n, 5);
    DecimalRoundTrip(n);
    assert forall i | 0 <= i < |Decimal(n)| :: Decimal(n)[i] in Decimal(n);
    BytesOfAscii(Decimal(n));
  }

  lemma PlainIsShort(specs: seq<Spec>, text: string)
    requires AllParse(specs) && forall spec | spec in specs :: spec.kind == Plain
    requires text in Collected([], specs)
    ensures Bytes(text) <= 11
  {
    CollectedContents(specs, text);
    var spec :| spec in specs && PrintedAs(spec, text);
    PrintIsShort(ParseSpec(spec.text).value);
    assert text == Print(ParseSpec(spec.text).value);
  }

  /** A list without prefixes is a fixpoint after one pass. */
  lemma PlainListsAreFixpoints(items: seq<string>)
    requires Normalized(items).Ok?
    requires forall spec | spec in AllSpecs(Pieces(items)) :: spec.kind == Plain
    ensures Normalized(Normalized(items).value) == Normalized(items)
  {
    var output, specs := Normalized(items).value, AllSpecs(Pieces(items));
    SucceedsIff(items);
    forall i | 0 <= i < |output| ensures Bytes(output[i]) <= 11 {
      PlainIsShort(specs, output[i]);
    }
    ResultIsCanonical(items);
    TotalAtMost(output, 11);
    SecondPass(items);
  }

  // ------------------------------------------------ a prefixed list that is not a fixpoint

  function WideRange(i: nat): Ports {
    Ports(10000 + i, 65535)
  }

  function WideTexts(n: nat): (texts: seq<string>)
    ensures |texts| == n && forall i | 0 <= i < n :: texts[i] == Print(WideRange(i))
  {
    seq(n, i requires i >= 0 => Print(WideRange(i)))
  }

  /** One item: the source prefix, then `n` five-digit ranges. */
  function WideItem(n: nat): string {
    Prefix(Source) + Join(WideTexts(n), '/')
  }

  function WideOutput(n: nat): (texts: seq<string>)
    ensures |texts| == n && forall i | 0 <= i < n :: texts[i] == Canonical(Source, WideRange(i))
  {
    seq(n, i requires i >= 0 => Canonical(Source, WideRange(i)))
  }

  lemma WideTextFacts(i: nat)
    requires i < MAX_SPECS
    ensures WideRange(i).Valid() && AllOrdinary(Print(WideRange(i))) && IsDigit(Print(WideRange(i))[0])
  {
    PrintReadsBack(WideRange(i));
  }

  lemma WideTextBytes(i: nat)
    requires i < MAX_SPECS
    ensures Bytes(Print(WideRange(i))) == 11 && Bytes(Canonical(Source, WideRange(i))) == 20
  {
    var ports := WideRange(i);
    AtMostFiveDigits(ports.first);
    AtMostFiveDigits(ports.last);
    BytesOfConcat(Decimal(ports.first), "-");
    BytesOfConcat(Decimal(ports.first) + "-", Decimal(ports.last));
    BytesOfAscii("-");
    BytesOfAscii(Prefix(Source));
    BytesOfConcat(Prefix(Source), Print(ports));
  }

  lemma {:induction false} JoinOfOrdinary(texts: seq<string>)
    requires texts != [] && forall i | 0 <= i < |texts| :: AllOrdinary(texts[i]) && texts[i] != ""
    ensures Join(texts, '/') != "" && Join(texts, '/')[0] == texts[0][0]
    ensures forall c | c in Join(texts, '/') :: Ordinary(c) || c == '/'
  {
    if |texts| > 1 {
      JoinOfOrdinary(texts[1..]);
    }
  }

  lemma {:induction false} KeptOfOrdinary(texts: seq<string>)
    requires forall i | 0 <= i < |texts| :: AllOrdinary(texts[i]) && texts[i] != ""
    ensures Kept(texts) == texts
  {
    if texts != [] {
      OrdinaryIsFree(texts[0]);
      TrimNoSpaces(texts[0]);
      KeptOfOrdinary(texts[1..]);
      assert texts == [texts[0]] + texts[1..];
    }
  }

  lemma WideJoin(n: nat)
    requires 1 <= n <= MAX_SPECS
    ensures forall i | 0 <= i < n ::
              AllOrdinary(WideTexts(n)[i]) && WideTexts(n)[i] != "" && Free(WideTexts(n)[i], {'/'})
    ensures Bytes(Join(WideTexts(n), '/')) == 12 * n - 1
    ensures Join(WideTexts(n), '/') != "" && IsDigit(Join(WideTexts(n), '/')[0])
    ensures forall c | c in Join(WideTexts(n), '/') :: Ordinary(c) || c == '/'
  {
    var texts := WideTexts(n);
    forall i | 0 <= i < n
      ensures AllOrdinary(texts[i]) && Bytes(texts[i]) == 11 && texts[i] != "" && Free(texts[i], {'/'})
    {
      WideTextFacts(i);
      WideTextBytes(i);
      OrdinaryIsFree(texts[i]);
    }
    WideTextFacts(0);
    JoinBytes(texts, '/');
    TotalExactly(texts, 11);
    JoinOfOrdinary(texts);
  }

  lemma WideItemIsOnePiece(n: nat)
    requires 1 <= n <= MAX_SPECS
    ensures Pieces([WideItem(n)]) == [WideItem(n)] && Trim(WideItem(n)) == WideItem(n)
  {
    var item := WideItem(n);
    WideJoin(n);
    PrefixIsOrdinary(Source);
    assert forall c | c in item :: Ordinary(c) || c == '/';
    assert NoSpaces(item) && Free(item, ITEM_SEPARATORS);
    TrimNoSpaces(item);
    SplitFree(item, ITEM_SEPARATORS);
    assert Pieces([item]) == [item] + Pieces([]);
  }

  lemma PrefixBytes()
    ensures Bytes(Prefix(Source)) == 9
  {
    BytesOfAscii(Prefix(Source));
  }

  lemma WideItemBytes(n: nat)
    requires 1 <= n <= MAX_SPECS
    ensures Bytes(WideItem(n)) == 8 + 12 * n
  {
    WideJoin(n);
    PrefixBytes();
    BytesOfConcat(Prefix(Source), Join(WideTexts(n), '/'));
  }

  lemma WideItemReads(n: nat)
    requires 1 <= n <= MAX_SPECS
    ensures SpecsOf(WideItem(n)) == Tag(Source, WideTexts(n))
  {
    WideJoin(n);
    WideItemIsOnePiece(n);
    PrefixReadsBack(Source, Join(WideTexts(n), '/'));
    SplitJoin(WideTexts(n), '/');
    KeptOfOrdinary(WideTexts(n));
  }

  lemma WideOutputIsDistinct(n: nat)
    requires n <= MAX_SPECS
    ensures NoRepeats(WideOutput(n))
  {
    forall i, j | 0 <= i < j < n ensures WideOutput(n)[i] != WideOutput(n)[j] {
      CanonicalReadsBack(Source, WideRange(i));
      CanonicalReadsBack(Source, WideRange(j));
    }
  }

  /** The prefix is repeated on every result item, so a list within the limit can leave it. */
  lemma PrefixedListNeedNotBeAFixpoint()
    ensures Normalized([WideItem(256)]) == Ok(WideOutput(256))
    ensures Normalized(WideOutput(256)) == Err(TooLong)
  {
    WideListOverflows(256);
  }

  lemma WideCollected(n: nat)
    requires n <= MAX_SPECS
    ensures AllParse(Tag(Source, WideTexts(n)))
    ensures Collected([], Tag(Source, WideTexts(n))) == WideOutput(n)
  {
    var specs, output := Tag(Source, WideTexts(n)), WideOutput(n);
    forall i | 0 <= i < n ensures PrintedAs(specs[i], output[i]) {
      PrintReadsBack(WideRange(i));
    }
    WideOutputIsDistinct(n);
    CollectedOfPrinted(specs, output);
  }

  lemma WideOutputBytes(n: nat)
    requires n <= MAX_SPECS
    ensures TotalBytes(WideOutput(n)) == 20 * n
  {
    forall i | 0 <= i < n ensures Bytes(WideOutput(n)[i]) == 20 {
      WideTextBytes(i);
    }
    TotalExactly(WideOutput(n), 20);
  }

  lemma SinglePieceSpecs(item: string, specs: seq<Spec>)
    requires SpecsOf(item) == specs != []
    ensures AllSpecs([item]) == specs && EveryPieceHasPorts([item])
  {
    assert AllSpecs([item]) == specs + AllSpecs([]);
  }

  lemma NormalizedFromPieces(items: seq<string>, pieces: seq<string>, specs: seq<Spec>)
    requires Pieces(items) == pieces && EveryPieceHasPorts(pieces)
    requires AllSpecs(pieces) == specs && AllParse(specs) && |specs| <= MAX_SPECS
    requires TotalBytes(items) <= MAX_BYTES
    ensures Normalized(items) == Ok(Collected([], specs))
  {
    SucceedsIff(items);
  }

  lemma WideListOverflows(n: nat)
    requires 205 <= n <= MAX_SPECS
    ensures Normalized([WideItem(n)]) == Ok(WideOutput(n))
    ensures Normalized(WideOutput(n)) == Err(TooLong)
  {
    WideItemIsOnePiece(n);
    WideItemBytes(n);
    WideItemReads(n);
    WideCollected(n);
    WideOutputBytes(n);
    SinglePieceSpecs(WideItem(n), Tag(Source, WideTexts(n)));
    assert TotalBytes([WideItem(n)]) == Bytes(WideItem(n)) + TotalBytes([]);
    NormalizedFromPieces([WideItem(n)], [WideItem(n)], Tag(Source, WideTexts(n)));
  }
}

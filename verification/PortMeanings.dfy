/** What the texts of port lists mean, and which error a refused list gets. */
module PortMeanings {

  import opened Collections
  import opened PortItems
  import opened Text
  import opened Wrappers

  // ------------------------------------------------ ports and ranges

  /** A port is a decimal number from 1 to 65535, perhaps between spaces; a text that is no number is told apart
      from a number that is no port. */
  lemma PortIff(text: string)
    ensures var digits := Trim(text);
            var number := digits != "" && forall i | 0 <= i < |digits| :: '0' <= digits[i] <= '9';
            && (ParsePort(text) == Err(ExpectedPort) <==> !number)
            && (ParsePort(text) == Err(OutOfRange) <==> number && (Value(digits) == 0 || Value(digits) > 65535))
            && (forall port :: ParsePort(text) == Ok(port) <==> number && Value(digits) == port && 0 < port < 65536)
  {
    var digits := Trim(text);
    assert AllDigits(digits) <==> forall i | 0 <= i < |digits| :: '0' <= digits[i] <= '9' by {
      if AllDigits(digits) {
        assert forall i | 0 <= i < |digits| :: digits[i] in digits;
      }
    }
  }

  /** A range is a port alone or two ports in order with a hyphen between them; its error is that of the first
      part that has one. */
  lemma RangeIff(first: string, last: string)
    requires '-' !in first
    ensures var single, pair, low, high := ParseSpec(first), ParseSpec(first + ['-'] + last), ParsePort(first),
                                           ParsePort(last);
            && single == (if low.Err? then Err(low.error) else Ok(Ports(low.value, low.value)))
            && (low.Err? ==> pair == Err(low.error))
            && (low.Ok? && high.Err? ==> pair == Err(high.error))
            && (low.Ok? && high.Ok? && high.value < low.value ==> pair == Err(Descending))
            && (low.Ok? && high.Ok? && low.value <= high.value ==> pair == Ok(Ports(low.value, high.value)))
  {
    SplitOnceFree(first, '-');
    SplitOnceAt(first, '-', last);
  }

  /** A canonical text has a hyphen in its ports exactly when they are more than one. */
  lemma PrintedHyphen(ports: Ports)
    requires ports.Valid()
    ensures '-' in Print(ports) <==> ports.first < ports.last
  {
    DecimalIsOrdinary(ports.first);
    DecimalIsOrdinary(ports.last);
    assert ('-' as int) < ('0' as int);
  }

  // ------------------------------------------------ items

  lemma SplitStep(c: char, s: string, separators: set<char>)
    ensures Split([c] + s, separators) ==
              var rest := Split(s, separators);
              if c in separators then [""] + rest else [[c] + rest[0]] + rest[1..]
  {
    assert ([c] + s)[1..] == s;
  }

  lemma LongerFirstPiece(c: char, pieces: seq<string>, more: seq<string>)
    requires pieces != []
    ensures [[c] + (pieces + more)[0]] + (pieces + more)[1..] == ([[c] + pieces[0]] + pieces[1..]) + more
  {
  }

  lemma {:induction false} SplitAtAny(a: string, c: char, b: string, separators: set<char>)
    requires c in separators
    ensures Split(a + [c] + b, separators) == Split(a, separators) + Split(b, separators)
  {
    if a == "" {
      assert a + [c] + b == [c] + b;
      SplitStep(c, b, separators);
    } else {
      var behind := a[1..] + [c] + b;
      assert a == [a[0]] + a[1..] && a + [c] + b == [a[0]] + behind;
      SplitAtAny(a[1..], c, b, separators);
      SplitStep(a[0], behind, separators);
      SplitStep(a[0], a[1..], separators);
      LongerFirstPiece(a[0], Split(a[1..], separators), Split(b, separators));
      MovePart([""], Split(a[1..], separators), Split(b, separators));
    }
  }

  /** A comma, a semicolon or a line feed inside an item separates items. */
  lemma SeparatorsMakeItems(a: string, c: char, b: string)
    requires c == ',' || c == ';' || c == '\n'
    ensures Pieces([a + [c] + b]) == Pieces([a, b])
  {
    SplitAtAny(a, c, b, ITEM_SEPARATORS);
    assert [a + [c] + b][1..] == [] && [a, b][1..] == [b] && [b][1..] == [];
    assert Pieces([b]) == Split(b, ITEM_SEPARATORS) + Pieces([]);
    assert Pieces([a, b]) == Split(a, ITEM_SEPARATORS) + Pieces([b]);
  }

  /** Nothing else does. */
  lemma OthersKeepItem(item: string)
    requires ',' !in item && ';' !in item && '\n' !in item
    ensures Pieces([item]) == [item]
  {
    SplitFree(item, ITEM_SEPARATORS);
    assert [item][1..] == [];
    assert Pieces([item]) == Split(item, ITEM_SEPARATORS) + Pieces([]);
  }

  // ------------------------------------------------ kinds

  lemma KindIsStripped(kind: Kind, body: string)
    requires kind != Plain
    ensures StripKind(Prefix(kind) + body) == (kind, body)
  {
    var item := Prefix(kind) + body;
    assert item[0] == Prefix(kind)[0];
    assert item[|Prefix(kind)|..] == body;
  }

  lemma SpecsOfKind(item: string, kind: Kind, body: string)
    requires Trim(item) == item && StripKind(item) == (kind, body)
    ensures SpecsOf(item) == Tag(kind, Kept(Split(body, {'/'})))
  {
  }

  lemma KindOfPrefix(kind: Kind, body: string)
    requires kind != Plain && (body == "" || !IsSpace(body[|body| - 1]))
    ensures SpecsOf(Prefix(kind) + body) == Tag(kind, Kept(Split(body, {'/'})))
  {
    KindIsStripped(kind, body);
    PrefixIsTrimmed(kind, body);
    SpecsOfKind(Prefix(kind) + body, kind, body);
  }

  lemma PrefixIsTrimmed(kind: Kind, body: string)
    requires kind != Plain && (body == "" || !IsSpace(body[|body| - 1]))
    ensures Trim(Prefix(kind) + body) == Prefix(kind) + body
  {
    assert !IsSpace(Prefix(kind)[0]) && !IsSpace(Prefix(kind)[|Prefix(kind)| - 1]);
  }

  /** The texts "src-port:" and "in-port:" at the beginning of an item give the kind of all its ranges. */
  lemma KindIsAnnounced(body: string)
    requires body == "" || !IsSpace(body[|body| - 1])
    ensures SpecsOf("src-port:" + body) == Tag(Source, Kept(Split(body, {'/'})))
    ensures SpecsOf("in-port:" + body) == Tag(Inbound, Kept(Split(body, {'/'})))
  {
    KindOfPrefix(Source, body);
    KindOfPrefix(Inbound, body);
  }

  /** Any other item holds plain ports. */
  lemma OthersArePlain(item: string)
    requires !("src-port:" <= Trim(item)) && !("in-port:" <= Trim(item))
    ensures SpecsOf(item) == Tag(Plain, Kept(Split(Trim(item), {'/'})))
  {
  }

  lemma {:induction false} KeptOfConcat(a: seq<string>, b: seq<string>)
    ensures Kept(a + b) == Kept(a) + Kept(b)
  {
    if a == [] {
      assert a + b == b;
    } else {
      assert (a + b)[1..] == a[1..] + b;
      KeptOfConcat(a[1..], b);
      MovePart(if Trim(a[0]) == "" then [] else [Trim(a[0])], Kept(a[1..]), Kept(b));
    }
  }

  /** A slash separates ranges, and ranges between spaces or of nothing but spaces count without those. */
  lemma SlashMakesRanges(a: string, b: string)
    ensures Kept(Split(a + ['/'] + b, {'/'})) == Kept(Split(a, {'/'})) + Kept(Split(b, {'/'}))
    ensures '/' !in a ==> Kept(Split(a, {'/'})) == if Trim(a) == "" then [] else [Trim(a)]
  {
    SplitAtAny(a, '/', b, {'/'});
    KeptOfConcat(Split(a, {'/'}), Split(b, {'/'}));
    if '/' !in a {
      SplitFree(a, {'/'});
      assert [a][1..] == [];
    }
  }

  // ------------------------------------------------ errors

  lemma {:induction false} AddPiecesPrefix(state: State, pieces: seq<string>) returns (k: nat)
    requires AddPieces(state, pieces).Err?
    ensures k < |pieces| && AddPieces(state, pieces[..k]).Ok?
    ensures AddPieces(state, pieces) == AddPiece(AddPieces(state, pieces[..k]).value, pieces[k])
    decreases |pieces|
  {
    k := 0;
    var next := AddPiece(state, pieces[0]);
    if next.Ok? {
      k := AddPiecesPrefix(next.value, pieces[1..]);
      assert pieces[..k + 1][1..] == pieces[1..][..k];
      k := k + 1;
    }
  }

  lemma {:induction false} AddSpecsPrefix(state: State, specs: seq<Spec>) returns (k: nat)
    requires AddSpecs(state, specs).Err? && state.count <= MAX_SPECS
    ensures k < |specs| && AddSpecs(state, specs[..k]).Ok? && state.count + k <= MAX_SPECS
    ensures state.count + k == MAX_SPECS ==> AddSpecs(state, specs) == Err(TooMany)
    ensures state.count + k < MAX_SPECS ==>
              ParseSpec(specs[k].text).Err? && AddSpecs(state, specs) == Err(ParseSpec(specs[k].text).error)
    decreases |specs|
  {
    k := 0;
    var next := AddSpec(state, specs[0]);
    if next.Ok? {
      k := AddSpecsPrefix(next.value, specs[1..]);
      assert specs[..k + 1][1..] == specs[1..][..k];
      k := k + 1;
    }
  }

  /** What is wrong with a piece: it holds no range, there are more ranges than allowed, or a range is wrong. */
  predicate IsWrong(piece: string, before: nat, j: nat, error: PortError) {
    var specs := SpecsOf(piece);
    && (error == NoPort <==> specs == [])
    && (specs == [] ==> Trim(piece) != "")
    && (specs != [] ==>
          && j < |specs| && before + j <= MAX_SPECS
          && (before + j == MAX_SPECS ==> error == TooMany)
          && (before + j < MAX_SPECS ==> ParseSpec(specs[j].text) == Err(error)))
  }

  lemma ErrorOfPiece(state: State, piece: string) returns (j: nat)
    requires AddPiece(state, piece).Err? && state.count <= MAX_SPECS
    ensures IsWrong(piece, state.count, j, AddPiece(state, piece).error)
  {
    j := 0;
    var specs := SpecsOf(piece);
    if AddSpecs(state, specs).Err? {
      j := AddSpecsPrefix(state, specs);
      SpecErrors(specs[j].text);
    } else {
      AddSpecsCount(state, specs);
    }
  }

  /** The first piece that cannot be added decides the error. */
  lemma ErrorOfList(items: seq<string>) returns (k: nat, j: nat)
    requires Normalized(items).Err? && TotalBytes(items) <= MAX_BYTES
    ensures k < |Pieces(items)| && AddPieces(State([], 0), Pieces(items)[..k]).Ok?
    ensures IsWrong(Pieces(items)[k], |AllSpecs(Pieces(items)[..k])|, j, Normalized(items).error)
  {
    var start := State([], 0);
    k := AddPiecesPrefix(start, Pieces(items));
    var earlier := Pieces(items)[..k];
    AddPiecesOk(start, earlier);
    AddPiecesCount(start, earlier);
    j := ErrorOfPiece(AddPieces(start, earlier).value, Pieces(items)[k]);
  }

  lemma SpecErrors(text: string)
    ensures ParseSpec(text).Err? ==> ParseSpec(text).error in {ExpectedPort, OutOfRange, Descending}
  {
  }

  lemma {:induction false} AddSpecsCount(state: State, specs: seq<Spec>)
    requires AddSpecs(state, specs).Ok?
    ensures AddSpecs(state, specs).value.count == state.count + |specs|
    decreases |specs|
  {
    if specs != [] {
      AddSpecsCount(AddSpec(state, specs[0]).value, specs[1..]);
    }
  }

  lemma {:induction false} AddPiecesCount(state: State, pieces: seq<string>)
    requires AddPieces(state, pieces).Ok?
    ensures AddPieces(state, pieces).value.count == state.count + |AllSpecs(pieces)|
    decreases |pieces|
  {
    if pieces != [] {
      AddSpecsCount(state, SpecsOf(pieces[0]));
      AddPiecesCount(AddPiece(state, pieces[0]).value, pieces[1..]);
    }
  }
}

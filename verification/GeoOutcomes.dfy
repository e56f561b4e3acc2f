/** When the operations of the store succeed, which error they give otherwise, and what a failure leaves. */
module GeoOutcomes {

  import opened Collections
  import opened GeoDisk
  import opened GeoLists
  import opened GeoReload
  import opened GeoSource
  import opened GeoStoreLaws
  import opened GeoStoreRuns
  import opened GeoVersions
  import opened NetworkText
  import opened Text
  import opened Wrappers

  // ------------------------------------------------ what an operation asks of its request

  /** Lower-case letters, digits and inner hyphens, one to sixty-four of them. */
  predicate GoodId(id: string) {
    && 0 < |id| < 65
    && forall i | 0 <= i < |id| ::
         'a' <= id[i] <= 'z' || '0' <= id[i] <= '9' || (id[i] == '-' && 0 < i < |id| - 1)
  }

  /** A good id, a name that is not blank, and texts within their limits. */
  predicate GoodRequest(request: Request) {
    && GoodId(request.id) && Trim(request.name) != "" && Bytes(request.name) <= 128
    && Bytes(request.sourceValue) <= 2048
  }

  lemma GoodIdIff(id: string)
    ensures ValidId(id) <==> GoodId(id)
  {
    if GoodId(id) {
      assert id[0] != '-' && id[|id| - 1] != '-';
    }
  }

  lemma GoodRequestIff(request: Request)
    ensures CheckRequest(request).None? <==> GoodRequest(request)
    ensures CheckRequest(request) == Some(InvalidId) <==> !GoodId(request.id)
    ensures CheckRequest(request).Some? ==> CheckRequest(request).value in {InvalidId, BadInput}
  {
    GoodIdIff(request.id);
  }

  /** The source reads, the input fits it, and the sources kept leave room for this one. */
  ghost predicate Acceptable(dirs: map<Path, Dir>, source: string, input: Input, ips: IpText) {
    && Read(source, ips).Ok? && Validated(Read(source, ips).value, input, ips).Ok?
    && RetainedBytes(dirs) + Bytes(source) <= 64 * 1024 * 1024
  }

  /** Why a source that is not acceptable is refused: for a limit it exceeds, or for what it says. */
  ghost function Refusal(source: string, input: Input, ips: IpText): StoreError {
    match Read(source, ips)
    case Err(LimitExceeded) => OverLimit
    case Err(InvalidInput) => BadInput
    case Ok(parsed) => if Validated(parsed, input, ips).Err? then BadInput else OverLimit
  }

  lemma PreparedIff(dirs: map<Path, Dir>, source: string, input: Input, ips: IpText)
    ensures Prepare(dirs, source, input, ips).Ok? <==> Acceptable(dirs, source, input, ips)
    ensures Prepare(dirs, source, input, ips).Err? ==>
              Prepare(dirs, source, input, ips).error == Refusal(source, input, ips)
  {
    if Read(source, ips).Ok? {
      InputErrorIsInvalid(Read(source, ips).value, input, ips);
    }
  }

  lemma InputErrorIsInvalid(parsed: Parsed, input: Input, ips: IpText)
    ensures Validated(parsed, input, ips).Err? ==> Validated(parsed, input, ips).error == InvalidInput
  {
    ClassErrorIsInvalid(map[], input.classifications, parsed.domains, DomainNames.ParseDomain);
    RouteErrorIsInvalid(map[], input.statics, parsed.networks, NetworkParser(ips));
  }

  lemma {:induction false} RouteErrorIsInvalid(table: Table, routes: seq<StaticRoute>, networks: seq<string>,
                                               parse: Normaliser)
    ensures AddRoutes(table, routes, networks, parse).Err? ==>
              AddRoutes(table, routes, networks, parse).error == InvalidInput
    decreases |routes|
  {
    if routes != [] && AddRoute(table, routes[0], networks, parse).Ok? {
      RouteErrorIsInvalid(AddRoute(table, routes[0], networks, parse).value, routes[1..], networks, parse);
    }
  }

  /** The manifest has a base with this id. */
  predicate HasBase(m: Manifest, id: string) {
    exists i | 0 <= i < |m.bases| :: m.bases[i].id == id
  }

  /** The directory names the operation picked are free, and the file system does as it is told. */
  predicate Undisturbed(disk: Disk, id: string, leaf: nat, fault: Fault) {
    && Path(id, leaf, true) !in disk.dirs && Path(id, leaf, false) !in disk.dirs
    && (fault.NoFault? || (fault.WriteFails? && fault.done >= 6))
  }

  lemma PublishedIff(disk: Disk, record: Record, generation: nat, fault: Fault)
    ensures var result := Publish(disk, record, generation, fault).result;
            && (result.Ok? <==> Undisturbed(disk, record.id, record.leaf, fault))
            && (result.Err? ==> result.error == Io)
  {
  }

  lemma PreparedPublishedIff(disk: Disk, request: Request, prepared: Result<Generation, StoreError>,
                             previous: Option<Record>, now: nat, leaf: nat, fault: Fault)
    ensures var result := PublishPrepared(disk, request, prepared, previous, now, leaf, fault).result;
            && (result.Ok? <==>
                  prepared.Ok? && disk.manifest.generation < U64_MAX && Undisturbed(disk, request.id, leaf, fault))
            && (result.Err? ==>
                  result.error == if prepared.Err? then prepared.error
                                  else if disk.manifest.generation >= U64_MAX then OverLimit else Io)
  {
    if prepared.Ok? && disk.manifest.generation < U64_MAX {
      var record := NewRecord(request, prepared.value, previous, now, leaf);
      PublishedIff(disk, record, disk.manifest.generation + 1, fault);
    }
  }

  lemma ReplacedIff(disk: Disk, request: Request, source: string, input: Input, previous: Option<Record>, now: nat,
                    leaf: nat, fault: Fault, ips: IpText)
    ensures var result := Replace(disk, request, source, input, previous, now, leaf, fault, ips).result;
            && (result.Ok? <==>
                  && Acceptable(disk.dirs, source, input, ips) && disk.manifest.generation < U64_MAX
                  && Undisturbed(disk, request.id, leaf, fault))
            && (result.Err? ==>
                  result.error == if !Acceptable(disk.dirs, source, input, ips) then Refusal(source, input, ips)
                                  else if disk.manifest.generation >= U64_MAX then OverLimit else Io)
  {
    PreparedIff(disk.dirs, source, input, ips);
    PreparedPublishedIff(disk, request, Prepare(disk.dirs, source, input, ips), previous, now, leaf, fault);
  }

  // ------------------------------------------------ when each operation succeeds

  /** A base is created exactly when the request is good, the id is new, there is room for another base, the
      source is acceptable and nothing gets in the way. */
  lemma CreateSucceedsIff(disk: Disk, op: Op, ips: IpText)
    requires op.OpCreate?
    ensures Succeeds(disk, op, ips) <==>
            && GoodRequest(op.request) && !HasBase(disk.manifest, op.request.id) && |disk.manifest.bases| < 32
            && Acceptable(disk.dirs, op.source, op.input, ips) && disk.manifest.generation < U64_MAX
            && Undisturbed(disk, op.request.id, op.leaf, op.fault)
    ensures var result := Create(disk, op.request, op.source, op.input, op.now, op.leaf, op.fault, ips).result;
            && (result == Err(InvalidId) <==> !GoodId(op.request.id))
            && (result == Err(AlreadyExists) <==> GoodRequest(op.request) && HasBase(disk.manifest, op.request.id))
            && (result.Err? && GoodId(op.request.id) && !HasBase(disk.manifest, op.request.id) ==>
                  result.error ==
                    if !GoodRequest(op.request) then BadInput
                    else if |disk.manifest.bases| >= 32 then OverLimit
                    else if !Acceptable(disk.dirs, op.source, op.input, ips) then Refusal(op.source, op.input, ips)
                    else if disk.manifest.generation >= U64_MAX then OverLimit else Io)
  {
    GoodRequestIff(op.request);
    ReplacedIff(disk, op.request, op.source, op.input, None, op.now, op.leaf, op.fault, ips);
  }

  /** A base is updated exactly when the request is good, its revision is the expected one, the source is
      acceptable and nothing gets in the way. */
  lemma UpdateSucceedsIff(disk: Disk, op: Op, ips: IpText)
    requires op.OpUpdate? && UniqueIds(disk.manifest.bases)
    ensures Succeeds(disk, op, ips) <==>
            && GoodRequest(op.request) && HasRevision(disk.manifest, op.request.id, op.expected)
            && Acceptable(disk.dirs, op.source, op.input, ips) && disk.manifest.generation < U64_MAX
            && Undisturbed(disk, op.request.id, op.leaf, op.fault)
    ensures var result := Update(disk, op.request, op.expected, op.source, op.input, op.now, op.leaf, op.fault,
                                 ips).result;
            && (result == Err(InvalidId) <==> !GoodId(op.request.id))
            && (result == Err(NotFound) <==> GoodRequest(op.request) && !HasBase(disk.manifest, op.request.id))
            && (result == Err(Conflict) <==>
                  && GoodRequest(op.request) && HasBase(disk.manifest, op.request.id)
                  && !HasRevision(disk.manifest, op.request.id, op.expected))
            && (result.Err? && GoodId(op.request.id) && HasRevision(disk.manifest, op.request.id, op.expected) ==>
                  result.error ==
                    if !GoodRequest(op.request) then BadInput
                    else if !Acceptable(disk.dirs, op.source, op.input, ips) then Refusal(op.source, op.input, ips)
                    else if disk.manifest.generation >= U64_MAX then OverLimit else Io)
  {
    GoodRequestIff(op.request);
    var index := IndexOf(disk.manifest.bases, op.request.id);
    if index.Some? {
      RevisionIff(disk.manifest, op.request.id, op.expected);
      ReplacedIff(disk, op.request, op.source, op.input, Some(disk.manifest.bases[index.value]), op.now, op.leaf,
                  op.fault, ips);
    }
  }

  /** The manifest has a base with this id at this revision. */
  predicate HasRevision(m: Manifest, id: string, revision: nat) {
    exists i | 0 <= i < |m.bases| :: m.bases[i].id == id && m.bases[i].revision == revision
  }

  lemma RevisionIff(m: Manifest, id: string, revision: nat)
    requires UniqueIds(m.bases) && IndexOf(m.bases, id).Some?
    ensures HasRevision(m, id, revision) <==> m.bases[IndexOf(m.bases, id).value].revision == revision
  {
    var index := IndexOf(m.bases, id).value;
    if HasRevision(m, id, revision) {
      var i :| 0 <= i < |m.bases| && m.bases[i].id == id && m.bases[i].revision == revision;
      assert m.bases[i].id == m.bases[index].id;
    }
  }

  /** A base is deleted exactly when there is one with this good id and the manifest can be saved. */
  lemma DeleteSucceedsIff(disk: Disk, id: string, now: nat, fault: Fault)
    ensures var result := Delete(disk, id, now, fault).result;
            && (result.Ok? <==>
                  GoodId(id) && HasBase(disk.manifest, id) && disk.manifest.generation < U64_MAX && !fault.SaveFails?)
            && (result == Err(InvalidId) <==> !GoodId(id))
            && (result == Err(NotFound) <==> GoodId(id) && !HasBase(disk.manifest, id))
            && (result == Err(OverLimit) <==>
                  GoodId(id) && HasBase(disk.manifest, id) && disk.manifest.generation >= U64_MAX)
  {
    GoodIdIff(id);
  }

  /** A base is enabled or disabled exactly when there is one with this good id, at the expected revision if one
      is expected, and the manifest can be saved. */
  lemma SetEnabledSucceedsIff(disk: Disk, id: string, enabled: bool, expected: Option<nat>, now: nat, fault: Fault)
    requires UniqueIds(disk.manifest.bases)
    ensures var result := SetEnabled(disk, id, enabled, expected, now, fault).result;
            && (result.Ok? <==>
                  && GoodId(id) && HasBase(disk.manifest, id)
                  && (expected.Some? ==> HasRevision(disk.manifest, id, expected.value))
                  && disk.manifest.generation < U64_MAX && !fault.SaveFails?)
            && (result == Err(InvalidId) <==> !GoodId(id))
            && (result == Err(NotFound) <==> GoodId(id) && !HasBase(disk.manifest, id))
            && (result == Err(Conflict) <==>
                  && GoodId(id) && HasBase(disk.manifest, id)
                  && expected.Some? && !HasRevision(disk.manifest, id, expected.value))
  {
    GoodIdIff(id);
    if IndexOf(disk.manifest.bases, id).Some? && expected.Some? {
      RevisionIff(disk.manifest, id, expected.value);
    }
  }

  /** A generation is acknowledged exactly when it is the current one and the manifest can be saved. */
  lemma MarkAppliedSucceedsIff(disk: Disk, expected: nat, now: nat, fault: Fault)
    ensures var result := MarkApplied(disk, expected, now, fault).result;
            && (result.Ok? <==> expected == disk.manifest.generation && !fault.SaveFails?)
            && (result == Err(Conflict) <==> expected != disk.manifest.generation)
  {
  }

  /** A snapshot is committed exactly when its generation is not ahead of the current one, its records have good
      and different ids, there are at most 32 of them, and the manifest can be saved. */
  lemma CommitSucceedsIff(disk: Disk, expected: nat, activated: seq<Record>, now: nat, fault: Fault)
    ensures var result := CommitAppliedSnapshot(disk, expected, activated, now, fault).result;
            && (result.Ok? <==>
                  && expected <= disk.manifest.generation && !fault.SaveFails? && |activated| <= 32
                  && (forall i | 0 <= i < |activated| :: GoodId(activated[i].id))
                  && (forall i, j | 0 <= i < j < |activated| :: activated[i].id != activated[j].id))
            && (result == Err(Conflict) <==> expected > disk.manifest.generation)
            && (result == Err(OverLimit) <==> expected <= disk.manifest.generation && |activated| > 32)
  {
    SnapshotAcceptedIff(activated);
    CheckRecordsErrors(activated, {});
    forall i | 0 <= i < |activated| ensures ValidId(activated[i].id) <==> GoodId(activated[i].id) {
      GoodIdIff(activated[i].id);
    }
  }

  lemma {:induction false} CheckRecordsErrors(records: seq<Record>, seen: set<string>)
    ensures CheckRecords(records, seen).Some? ==> CheckRecords(records, seen).value in {InvalidId, BadInput}
  {
    if records != [] {
      CheckRecordsErrors(records[1..], seen + {records[0].id});
    }
  }

  /** In every reachable store the current generation and bases can be acknowledged in either way, and after
      that nothing is pending. */
  lemma CurrentCanBeApplied(disk: Disk, now: nat, ips: IpText)
    requires Inv(disk, ips)
    ensures var m := disk.manifest;
            var commit := CommitAppliedSnapshot(disk, m.generation, m.bases, now, NoFault);
            var mark := MarkApplied(disk, m.generation, now, NoFault);
            && commit.result.Ok? && !Last(disk, commit.trace).manifest.RequiresApply()
            && mark.result.Ok? && !Last(disk, mark.trace).manifest.RequiresApply()
  {
    CommitSucceedsIff(disk, disk.manifest.generation, disk.manifest.bases, now, NoFault);
    forall i | 0 <= i < |disk.manifest.bases| ensures GoodId(disk.manifest.bases[i].id) {
      GoodIdIff(disk.manifest.bases[i].id);
    }
  }

  // ------------------------------------------------ what a failure leaves

  /** The same manifest, and the same directories but perhaps for one more, published and never referenced. */
  ghost predicate LeftAlone(disk: Disk, after: Disk, published: Path) {
    && after.manifest == disk.manifest
    && (forall path :: path in after.dirs <==> path in disk.dirs || (path == published && published in after.dirs))
    && forall path | path in disk.dirs :: after.dirs[path] == disk.dirs[path]
  }

  /** A publication that fails leaves no temporary directory behind, and at most the published one when saving
      the manifest was what failed. */
  lemma FailedPublicationLeaves(disk: Disk, record: Record, generation: nat, fault: Fault)
    requires Publish(disk, record, generation, fault).result.Err?
    ensures var after := Last(disk, Publish(disk, record, generation, fault).trace);
            && LeftAlone(disk, after, DirOf(record))
            && (!fault.SaveFails? ==> after == disk)
  {
  }

  lemma FailedReplacementLeaves(disk: Disk, request: Request, source: string, input: Input, previous: Option<Record>,
                                now: nat, leaf: nat, fault: Fault, ips: IpText)
    requires Replace(disk, request, source, input, previous, now, leaf, fault, ips).result.Err?
    ensures var after := Last(disk, Replace(disk, request, source, input, previous, now, leaf, fault, ips).trace);
            && LeftAlone(disk, after, Path(request.id, leaf, false))
            && (!fault.SaveFails? ==> after == disk)
  {
    ReplaceIsPublish(disk, request, source, input, previous, now, leaf, fault, ips);
    if Replace(disk, request, source, input, previous, now, leaf, fault, ips).trace != [] {
      var generation := Prepare(disk.dirs, source, input, ips).value;
      FailedPublicationLeaves(disk, NewRecord(request, generation, previous, now, leaf), disk.manifest.generation + 1,
                              fault);
    }
  }

  /** The directory an operation may publish. */
  function Target(op: Op): Path {
    match op
    case OpCreate(request, source, input, now, leaf, fault) => Path(request.id, leaf, false)
    case OpUpdate(request, expected, source, input, now, leaf, fault) => Path(request.id, leaf, false)
    case _ => Path("", 0, false)
  }

  predicate IsUpload(op: Op) {
    op.OpCreate? || op.OpUpdate?
  }

  /** A create or update that fails leaves the store as it was, but perhaps for an unreferenced directory. */
  lemma FailedUploadLeaves(disk: Disk, op: Op, ips: IpText)
    requires IsUpload(op) && !Succeeds(disk, op, ips)
    ensures LeftAlone(disk, Last(disk, Trace(disk, op, ips)), Target(op))
    ensures !op.fault.SaveFails? ==> Last(disk, Trace(disk, op, ips)) == disk
  {
    var index := IndexOf(disk.manifest.bases, op.request.id);
    if Trace(disk, op, ips) != [] {
      var previous := if op.OpCreate? then None else Some(disk.manifest.bases[index.value]);
      FailedReplacementLeaves(disk, op.request, op.source, op.input, previous, op.now, op.leaf, op.fault, ips);
    }
  }

  /** Every other operation that fails, apart from a collection, writes nothing at all. */
  lemma FailedSaveLeaves(disk: Disk, op: Op, ips: IpText)
    requires !IsUpload(op) && !op.OpCollect? && !Succeeds(disk, op, ips)
    ensures Trace(disk, op, ips) == []
  {
  }

  // ------------------------------------------------ the times

  /** A successful operation stamps the manifest with its time. */
  lemma SuccessIsStamped(disk: Disk, op: Op, ips: IpText)
    requires !op.OpCollect? && Succeeds(disk, op, ips)
    ensures Last(disk, Trace(disk, op, ips)).manifest.updatedAt == op.now
  {
    match op
    case OpCreate(request, source, input, now, leaf, fault) =>
      ReplaceSuccess(disk, request, source, input, None, now, leaf, fault, ips);
    case OpUpdate(request, expected, source, input, now, leaf, fault) =>
      var index := IndexOf(disk.manifest.bases, request.id).value;
      ReplaceSuccess(disk, request, source, input, Some(disk.manifest.bases[index]), now, leaf, fault, ips);
    case _ =>
  }

  // ------------------------------------------------ the quota

  /** The bytes of the sources that records were made from. */
  function SourceBytes(records: seq<Record>): nat {
    if records == [] then 0 else SourceBytes(records[..|records| - 1]) + Bytes(records[|records| - 1].generation.source)
  }

  lemma SizesWithout(dirs: map<Path, Dir>, path: Path)
    requires path in dirs
    ensures RetainedBytes(dirs) == dirs[path].SourceBytes() + RetainedBytes(dirs - {path})
  {
    SumWithout(Sizes(dirs), path);
    assert Sizes(dirs) - {path} == Sizes(dirs - {path});
  }

  lemma {:induction false} StoredSourcesFit(dirs: map<Path, Dir>, records: seq<Record>)
    requires UniqueIds(records) && AllStored(dirs, records)
    ensures SourceBytes(records) <= RetainedBytes(dirs)
  {
    if records != [] {
      var rest, last := records[..|records| - 1], records[|records| - 1];
      assert last in records;
      assert UniqueIds(rest);
      SizesWithout(dirs, DirOf(last));
      forall record | record in rest ensures Stored(dirs - {DirOf(last)}, record) {
        var i :| 0 <= i < |rest| && rest[i] == record;
        assert records[i] == record && records[i].id != records[|records| - 1].id;
        assert record in records && Stored(dirs, record) && DirOf(record) != DirOf(last);
      }
      StoredSourcesFit(dirs - {DirOf(last)}, rest);
    }
  }

  /** In every reachable store the sources of all bases together stay within 64 MiB. */
  lemma SourcesStayWithinQuota(disk: Disk, ips: IpText)
    requires Inv(disk, ips)
    ensures SourceBytes(disk.manifest.bases) <= 64 * 1024 * 1024
  {
    StoredSourcesFit(disk.dirs, disk.manifest.bases);
  }
}

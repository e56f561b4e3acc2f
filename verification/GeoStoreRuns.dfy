/** Whole runs of the store: any operations in any order, each possibly cut short by a crash. */
module GeoStoreRuns {

  import opened GeoArtifacts
  import opened GeoDisk
  import opened GeoListLaws
  import opened GeoLists
  import opened GeoReload
  import opened GeoSource
  import opened GeoStoreLaws
  import opened NetworkText
  import opened Wrappers

  datatype Op =
    | OpCreate(request: Request, source: string, input: Input, now: nat, leaf: nat, fault: Fault)
    | OpUpdate(request: Request, expected: nat, source: string, input: Input, now: nat, leaf: nat, fault: Fault)
    | OpDelete(id: string, now: nat, fault: Fault)
    | OpSetEnabled(id: string, enabled: bool, revision: Option<nat>, now: nat, fault: Fault)
    | OpMarkApplied(generation: nat, now: nat, fault: Fault)
    | OpCommit(generation: nat, activated: seq<Record>, now: nat, fault: Fault)
    | OpCollect(listing: seq<Path>, failAfter: Option<nat>)

  ghost function Trace(disk: Disk, op: Op, ips: IpText): seq<Disk> {
    match op
    case OpCreate(request, source, input, now, leaf, fault) =>
      Create(disk, request, source, input, now, leaf, fault, ips).trace
    case OpUpdate(request, expected, source, input, now, leaf, fault) =>
      Update(disk, request, expected, source, input, now, leaf, fault, ips).trace
    case OpDelete(id, now, fault) => Delete(disk, id, now, fault).trace
    case OpSetEnabled(id, enabled, revision, now, fault) => SetEnabled(disk, id, enabled, revision, now, fault).trace
    case OpMarkApplied(generation, now, fault) => MarkApplied(disk, generation, now, fault).trace
    case OpCommit(generation, activated, now, fault) =>
      CommitAppliedSnapshot(disk, generation, activated, now, fault).trace
    case OpCollect(listing, failAfter) => Collect(disk, listing, failAfter).trace
  }

  ghost predicate Succeeds(disk: Disk, op: Op, ips: IpText) {
    match op
    case OpCreate(request, source, input, now, leaf, fault) =>
      Create(disk, request, source, input, now, leaf, fault, ips).result.Ok?
    case OpUpdate(request, expected, source, input, now, leaf, fault) =>
      Update(disk, request, expected, source, input, now, leaf, fault, ips).result.Ok?
    case OpDelete(id, now, fault) => Delete(disk, id, now, fault).result.Ok?
    case OpSetEnabled(id, enabled, revision, now, fault) =>
      SetEnabled(disk, id, enabled, revision, now, fault).result.Ok?
    case OpMarkApplied(generation, now, fault) => MarkApplied(disk, generation, now, fault).result.Ok?
    case OpCommit(generation, activated, now, fault) =>
      CommitAppliedSnapshot(disk, generation, activated, now, fault).result.Ok?
    case OpCollect(listing, failAfter) => Collect(disk, listing, failAfter).result.Ok?
  }

  /** An operation, cut short after some number of durable writes when `crash` says so. */
  datatype Event = Event(op: Op, crash: Option<nat>)

  /** The disk an operation leaves: the end of its trace, or an earlier state after a crash. */
  function Cut(disk: Disk, trace: seq<Disk>, crash: Option<nat>): Disk {
    if crash.None? || crash.value >= |trace| then Last(disk, trace) else Last(disk, trace[..crash.value])
  }

  ghost function After(disk: Disk, event: Event, ips: IpText): Disk {
    Cut(disk, Trace(disk, event.op, ips), event.crash)
  }

  ghost function Run(disk: Disk, events: seq<Event>, ips: IpText): Disk
    decreases |events|
  {
    if events == [] then disk else Run(After(disk, events[0], ips), events[1..], ips)
  }

  /** Activated records still have their directories. */
  predicate Allowed(disk: Disk, op: Op) {
    op.OpCommit? ==> AllStored(disk.dirs, op.activated)
  }

  ghost predicate AllowedRun(disk: Disk, events: seq<Event>, ips: IpText)
    decreases |events|
  {
    events == [] || (Allowed(disk, events[0].op) && AllowedRun(After(disk, events[0], ips), events[1..], ips))
  }

  // ------------------------------------------------ crash safety

  lemma TraceKeepsInv(disk: Disk, op: Op, ips: IpText)
    requires Inv(disk, ips) && Allowed(disk, op)
    ensures AllInv(Trace(disk, op, ips), ips)
  {
    match op
    case OpCreate(request, source, input, now, leaf, fault) =>
      CreateKeepsInv(disk, request, source, input, now, leaf, fault, ips);
    case OpUpdate(request, expected, source, input, now, leaf, fault) =>
      UpdateKeepsInv(disk, request, expected, source, input, now, leaf, fault, ips);
    case OpDelete(id, now, fault) => DeleteKeepsInv(disk, id, now, fault, ips);
    case OpSetEnabled(id, enabled, revision, now, fault) =>
      SetEnabledKeepsInv(disk, id, enabled, revision, now, fault, ips);
    case OpMarkApplied(generation, now, fault) => MarkAppliedKeepsInv(disk, generation, now, fault, ips);
    case OpCommit(generation, activated, now, fault) =>
      CommitKeepsInv(disk, generation, activated, now, fault, ips);
    case OpCollect(listing, failAfter) => CollectKeepsInv(disk, listing, ips);
  }

  lemma AfterKeepsInv(disk: Disk, event: Event, ips: IpText)
    requires Inv(disk, ips) && Allowed(disk, event.op)
    ensures Inv(After(disk, event, ips), ips)
  {
    TraceKeepsInv(disk, event.op, ips);
    CutIsInTrace(disk, Trace(disk, event.op, ips), event.crash);
  }

  lemma CutIsInTrace(disk: Disk, trace: seq<Disk>, crash: Option<nat>)
    ensures Cut(disk, trace, crash) == disk || exists k :: 0 <= k < |trace| && trace[k] == Cut(disk, trace, crash)
  {
  }

  /** Whatever is done and wherever it crashes, the store stays safe. */
  lemma {:induction false} RunKeepsInv(disk: Disk, events: seq<Event>, ips: IpText)
    requires Inv(disk, ips) && AllowedRun(disk, events, ips)
    ensures Inv(Run(disk, events, ips), ips)
    decreases |events|
  {
    if events != [] {
      AfterKeepsInv(disk, events[0], ips);
      RunKeepsInv(After(disk, events[0], ips), events[1..], ips);
    }
  }

  /**
   * From an empty store, after any run, every desired and applied record points at a published,
   * complete directory holding its generation, and the sources kept never exceed their quota.
   */
  lemma EveryRunIsCrashSafe(events: seq<Event>, ips: IpText)
    requires AllowedRun(EMPTY_DISK, events, ips)
    ensures CrashSafe(Run(EMPTY_DISK, events, ips))
    ensures PublishedComplete(Run(EMPTY_DISK, events, ips).dirs)
            && PublishedSound(Run(EMPTY_DISK, events, ips).dirs, ips)
    ensures OrderedById(Run(EMPTY_DISK, events, ips).manifest.bases)
    ensures RetainedBytes(Run(EMPTY_DISK, events, ips).dirs) <= MAX_TOTAL_SOURCE_BYTES
    ensures Run(EMPTY_DISK, events, ips).manifest.appliedGeneration <= Run(EMPTY_DISK, events, ips).manifest.generation
  {
    EmptyInv(ips);
    RunKeepsInv(EMPTY_DISK, events, ips);
  }

  /** In every such state the lists being served pass the validator, which counts them in full. */
  lemma ServedListsPass(disk: Disk, record: Record, c: Class, ips: IpText)
    requires Inv(disk, ips) && Faithful(ips)
    requires record in disk.manifest.bases || record in disk.manifest.appliedBases
    ensures var list := ListOf(disk.dirs[DirOf(record)].generation.lists, c);
            Counted(FileText(list), DomainList, ips) == Ok(|list|)
  {
    StoredIsSound(disk.dirs, record, ips);
    var input :| Validated(Read(record.generation.source, ips).value, input, ips) == Ok(record.generation.lists);
    AcceptedIsWellFormed(record.generation.source, ips);
    DomainListsPass(Read(record.generation.source, ips).value, input, c, ips);
  }

  /** Loading a stored generation and validating it against its stored source gives the stored lists
      back, unless some domain is listed both alone and with everything below it. */
  lemma StoredListsRevalidateIff(disk: Disk, record: Record, ips: IpText)
    requires Inv(disk, ips) && Faithful(ips) && record in disk.manifest.bases
    ensures var stored := disk.dirs[DirOf(record)].generation;
            && Read(stored.source, ips).Ok?
            && Validated(Read(stored.source, ips).value, Loaded(stored.lists), ips) ==
                 if DoubleMatch(Read(stored.source, ips).value.entries) then Err(InvalidInput) else Ok(stored.lists)
  {
    StoredIsSound(disk.dirs, record, ips);
    var parsed := Read(record.generation.source, ips).value;
    var input :| Validated(parsed, input, ips) == Ok(record.generation.lists);
    AcceptedIsWellFormed(record.generation.source, ips);
    ReloadRebuildsIff(parsed, input, ips);
  }

  // ------------------------------------------------ published directories never change

  /** Published directories keep their contents, and stay unless they are collected. */
  predicate Preserves(before: Disk, after: Disk, mayRemove: bool) {
    forall path | path in before.dirs && !path.temp ::
      if path in after.dirs then after.dirs[path] == before.dirs[path] else mayRemove
  }

  ghost predicate AllPreserve(disk: Disk, trace: seq<Disk>, mayRemove: bool) {
    forall k | 0 <= k < |trace| :: Preserves(disk, trace[k], mayRemove)
  }

  predicate Shrinks(before: Disk, after: Disk) {
    forall path | path in after.dirs :: path in before.dirs && after.dirs[path] == before.dirs[path]
  }

  lemma {:induction false} CollectShrinks(disk: Disk, listing: seq<Path>)
    ensures forall k | 0 <= k < |CollectTrace(disk, listing)| :: Shrinks(disk, CollectTrace(disk, listing)[k])
    decreases |listing|
  {
    if listing != [] {
      if listing[0] in Referenced(disk.manifest) {
        CollectShrinks(disk, listing[1..]);
      } else {
        var next := disk.(dirs := disk.dirs - {listing[0]});
        CollectShrinks(next, listing[1..]);
        forall k | 0 <= k < |CollectTrace(next, listing[1..])|
          ensures Shrinks(disk, CollectTrace(next, listing[1..])[k]) {
          assert Shrinks(next, CollectTrace(next, listing[1..])[k]);
        }
      }
    }
  }

  lemma CollectPreserves(disk: Disk, listing: seq<Path>)
    ensures AllPreserve(disk, CollectTrace(disk, listing), true)
  {
    CollectShrinks(disk, listing);
    forall k | 0 <= k < |CollectTrace(disk, listing)| ensures Preserves(disk, CollectTrace(disk, listing)[k], true) {
      assert Shrinks(disk, CollectTrace(disk, listing)[k]);
    }
  }

  lemma PublishPreserves(disk: Disk, record: Record, fault: Fault)
    ensures AllPreserve(disk, Publish(disk, record, disk.manifest.generation + 1, fault).trace, false)
  {
  }

  lemma ReplacePreserves(disk: Disk, request: Request, source: string, input: Input, previous: Option<Record>,
                         now: nat, leaf: nat, fault: Fault, ips: IpText)
    ensures AllPreserve(disk, Replace(disk, request, source, input, previous, now, leaf, fault, ips).trace, false)
  {
    ReplaceIsPublish(disk, request, source, input, previous, now, leaf, fault, ips);
    var prepared := Prepare(disk.dirs, source, input, ips);
    if prepared.Ok? {
      PublishPreserves(disk, NewRecord(request, prepared.value, previous, now, leaf), fault);
    }
  }

  /** No operation changes a published directory at any moment, and only a collection removes one. */
  lemma PublishedIsImmutable(disk: Disk, op: Op, ips: IpText)
    ensures AllPreserve(disk, Trace(disk, op, ips), op.OpCollect?)
  {
    match op
    case OpCreate(request, source, input, now, leaf, fault) =>
      ReplacePreserves(disk, request, source, input, None, now, leaf, fault, ips);
    case OpUpdate(request, expected, source, input, now, leaf, fault) =>
      var index := IndexOf(disk.manifest.bases, request.id);
      if index.Some? {
        ReplacePreserves(disk, request, source, input, Some(disk.manifest.bases[index.value]), now, leaf, fault, ips);
      }
    case OpCollect(listing, failAfter) => CollectPreserves(disk, listing);
    case _ =>
  }

  // ------------------------------------------------ committing a snapshot read earlier

  ghost predicate CollectsNothing(events: seq<Event>) {
    forall i | 0 <= i < |events| :: !events[i].op.OpCollect?
  }

  lemma EventKeepsStored(disk: Disk, event: Event, records: seq<Record>, ips: IpText)
    requires AllStored(disk.dirs, records) && !event.op.OpCollect?
    ensures AllStored(After(disk, event, ips).dirs, records)
  {
    var trace := Trace(disk, event.op, ips);
    PublishedIsImmutable(disk, event.op, ips);
    CutIsInTrace(disk, trace, event.crash);
    if After(disk, event, ips) != disk {
      var k :| 0 <= k < |trace| && trace[k] == After(disk, event, ips);
      assert Preserves(disk, trace[k], false);
    }
  }

  lemma {:induction false} RunKeepsStored(disk: Disk, events: seq<Event>, records: seq<Record>, ips: IpText)
    requires AllStored(disk.dirs, records) && CollectsNothing(events)
    ensures AllStored(Run(disk, events, ips).dirs, records)
    decreases |events|
  {
    if events != [] {
      EventKeepsStored(disk, events[0], records, ips);
      RunKeepsStored(After(disk, events[0], ips), events[1..], records, ips);
    }
  }

  /**
   * The bases read at any moment of a run may be committed as activated at any later moment, whatever else
   * was done or crashed in between, as long as no collection ran since they were read.
   */
  lemma EarlierBasesMayBeCommitted(disk: Disk, events: seq<Event>, generation: nat, now: nat, fault: Fault, ips: IpText)
    requires Inv(disk, ips) && AllowedRun(disk, events, ips) && CollectsNothing(events)
    ensures var later, commit := Run(disk, events, ips), OpCommit(generation, disk.manifest.bases, now, fault);
            Allowed(later, commit) && AllInv(Trace(later, commit, ips), ips)
  {
    RunKeepsInv(disk, events, ips);
    RunKeepsStored(disk, events, disk.manifest.bases, ips);
    CommitKeepsInv(Run(disk, events, ips), generation, disk.manifest.bases, now, fault, ips);
  }

  /** A record outlives a successful collection exactly when the manifest pointed at its directory. */
  lemma CollectKeepsStoredIff(disk: Disk, listing: seq<Path>, record: Record)
    requires CrashSafe(disk) && ListsAll(disk, listing) && Stored(disk.dirs, record)
    ensures Stored(Last(disk, CollectTrace(disk, listing)).dirs, record) <==> DirOf(record) in Referenced(disk.manifest)
  {
    CollectLeavesReferenced(disk, listing, None);
    var final := Last(disk, CollectTrace(disk, listing));
    assert DirOf(record) in final.dirs <==> DirOf(record) in final.dirs.Keys;
  }

  /**
   * If a collection did run, committing records read before it is crash-safe exactly when the manifest still
   * pointed at the directory of each of them when it ran.
   */
  lemma CommitAfterCollectIff(disk: Disk, listing: seq<Path>, generation: nat, activated: seq<Record>, now: nat,
                              fault: Fault)
    requires CrashSafe(disk) && ListsAll(disk, listing) && AllStored(disk.dirs, activated)
    requires var collected := Last(disk, CollectTrace(disk, listing));
             CommitAppliedSnapshot(collected, generation, activated, now, fault).result.Ok?
    ensures var collected := Last(disk, CollectTrace(disk, listing));
            CrashSafe(Last(collected, CommitAppliedSnapshot(collected, generation, activated, now, fault).trace))
            <==> forall record | record in activated :: DirOf(record) in Referenced(disk.manifest)
  {
    var collected := Last(disk, CollectTrace(disk, listing));
    CollectLeavesReferenced(disk, listing, None);
    CollectStaysSafe(disk, listing);
    CommitIsSafeIff(collected, generation, activated, now, fault);
    forall record | record in activated
      ensures Stored(collected.dirs, record) <==> DirOf(record) in Referenced(disk.manifest)
    {
      CollectKeepsStoredIff(disk, listing, record);
    }
  }

  lemma CollectStaysSafe(disk: Disk, listing: seq<Path>)
    requires CrashSafe(disk) && ListsAll(disk, listing)
    ensures CrashSafe(Last(disk, CollectTrace(disk, listing)))
  {
    CollectLeavesReferenced(disk, listing, None);
    var final, records := Last(disk, CollectTrace(disk, listing)), disk.manifest.bases + disk.manifest.appliedBases;
    forall record | record in records ensures Stored(final.dirs, record) {
      assert Stored(disk.dirs, record) && DirOf(record) in Referenced(disk.manifest);
      assert DirOf(record) in final.dirs.Keys;
    }
  }

  // ------------------------------------------------ the manifest changes at most once, at the end

  /** Every durable state but the last has the old manifest, and so has the last when the operation fails. */
  lemma ManifestChangesLast(disk: Disk, op: Op, ips: IpText)
    ensures forall k | 0 <= k < |Trace(disk, op, ips)| ::
              Trace(disk, op, ips)[k].manifest == disk.manifest ||
              (k == |Trace(disk, op, ips)| - 1 && Succeeds(disk, op, ips) && !op.OpCollect?)
  {
    match op
    case OpCreate(request, source, input, now, leaf, fault) =>
      ReplaceManifests(disk, request, source, input, None, now, leaf, fault, ips);
    case OpUpdate(request, expected, source, input, now, leaf, fault) =>
      var index := IndexOf(disk.manifest.bases, request.id);
      if index.Some? {
        ReplaceManifests(disk, request, source, input, Some(disk.manifest.bases[index.value]), now, leaf, fault, ips);
      }
    case OpCollect(listing, failAfter) => CollectManifests(disk, listing);
    case _ =>
  }

  lemma PublishManifests(disk: Disk, record: Record, fault: Fault)
    ensures var outcome := Publish(disk, record, disk.manifest.generation + 1, fault);
            forall k | 0 <= k < |outcome.trace| ::
              outcome.trace[k].manifest == disk.manifest || (k == |outcome.trace| - 1 && outcome.result.Ok?)
  {
  }

  lemma ReplaceManifests(disk: Disk, request: Request, source: string, input: Input, previous: Option<Record>,
                         now: nat, leaf: nat, fault: Fault, ips: IpText)
    ensures var outcome := Replace(disk, request, source, input, previous, now, leaf, fault, ips);
            forall k | 0 <= k < |outcome.trace| ::
              outcome.trace[k].manifest == disk.manifest || (k == |outcome.trace| - 1 && outcome.result.Ok?)
  {
    ReplaceIsPublish(disk, request, source, input, previous, now, leaf, fault, ips);
    var prepared := Prepare(disk.dirs, source, input, ips);
    if prepared.Ok? {
      PublishManifests(disk, NewRecord(request, prepared.value, previous, now, leaf), fault);
    }
  }

  lemma {:induction false} CollectManifests(disk: Disk, listing: seq<Path>)
    ensures forall k | 0 <= k < |CollectTrace(disk, listing)| ::
              CollectTrace(disk, listing)[k].manifest == disk.manifest
    decreases |listing|
  {
    if listing != [] {
      if listing[0] in Referenced(disk.manifest) {
        CollectManifests(disk, listing[1..]);
      } else {
        CollectManifests(disk.(dirs := disk.dirs - {listing[0]}), listing[1..]);
      }
    }
  }

  lemma ManifestOfCut(disk: Disk, trace: seq<Disk>, crash: Option<nat>, succeeds: bool)
    requires forall k | 0 <= k < |trace| :: trace[k].manifest == disk.manifest || (k == |trace| - 1 && succeeds)
    ensures Cut(disk, trace, crash).manifest == disk.manifest
            || (succeeds && Cut(disk, trace, crash).manifest == Last(disk, trace).manifest)
  {
  }

  /** After an event the manifest is the old one, or that of the operation's success. */
  lemma ManifestAfter(disk: Disk, event: Event, ips: IpText)
    ensures var after := After(disk, event, ips).manifest;
            || after == disk.manifest
            || (Succeeds(disk, event.op, ips) && after == Last(disk, Trace(disk, event.op, ips)).manifest)
  {
    ManifestChangesLast(disk, event.op, ips);
    ManifestOfCut(disk, Trace(disk, event.op, ips), event.crash, Succeeds(disk, event.op, ips));
  }
}

/** What holds of the disk in every state the store can leave behind, crashes included. */
module GeoStoreLaws {

  import opened Collections
  import opened GeoDisk
  import opened GeoLists
  import opened GeoSource
  import opened NetworkText
  import opened Ordered
  import opened Text
  import opened Wrappers

  // ------------------------------------------------ lists of records

  predicate UniqueIds(records: seq<Record>) {
    forall i, j | 0 <= i < j < |records| :: records[i].id != records[j].id
  }

  predicate Ids(records: seq<Record>) {
    forall i | 0 <= i < |records| :: ValidId(records[i].id)
  }

  predicate ValidRecords(records: seq<Record>) {
    |records| <= MAX_BASES && Ids(records) && UniqueIds(records)
  }

  lemma {:induction false} CheckRecordsIff(records: seq<Record>, seen: set<string>)
    ensures CheckRecords(records, seen).None? <==>
            Ids(records) && UniqueIds(records) && forall i | 0 <= i < |records| :: records[i].id !in seen
  {
    if records != [] {
      var rest := records[1..];
      CheckRecordsIff(rest, seen + {records[0].id});
      assert records == [records[0]] + rest;
      if CheckRecords(records, seen).None? {
        assert forall i | 0 <= i < |rest| :: rest[i].id !in seen + {records[0].id};
        forall i, j | 0 <= i < j < |records| ensures records[i].id != records[j].id {
          assert records[j] == rest[j - 1];
          assert i > 0 ==> records[i] == rest[i - 1];
        }
      }
    }
  }

  /** A snapshot is accepted exactly when its list of records is valid. */
  lemma SnapshotAcceptedIff(records: seq<Record>)
    ensures CheckSnapshot(records).None? <==> ValidRecords(records)
  {
    CheckRecordsIff(records, {});
  }

  lemma {:induction false} InsertContents(records: seq<Record>, record: Record)
    ensures |InsertById(records, record)| == |records| + 1
    ensures forall r :: r in InsertById(records, record) <==> r in records || r == record
    ensures UniqueIds(records) && (forall i | 0 <= i < |records| :: records[i].id != record.id) ==>
              UniqueIds(InsertById(records, record))
  {
    if records != [] && !Before(record.id, records[0].id) {
      InsertContents(records[1..], record);
      assert records == [records[0]] + records[1..];
      var rest := InsertById(records[1..], record);
      if UniqueIds(records) && forall i | 0 <= i < |records| :: records[i].id != record.id {
        forall i | 0 <= i < |rest| ensures rest[i].id != records[0].id {
          assert rest[i] in rest;
        }
      }
    }
  }

  lemma {:induction false} SortContents(records: seq<Record>)
    ensures |SortById(records)| == |records|
    ensures forall r :: r in SortById(records) <==> r in records
  {
    if records != [] {
      SortContents(records[..|records| - 1]);
      InsertContents(SortById(records[..|records| - 1]), records[|records| - 1]);
      assert records == records[..|records| - 1] + [records[|records| - 1]];
    }
  }

  lemma {:induction false} SortKeepsUnique(records: seq<Record>)
    requires UniqueIds(records)
    ensures UniqueIds(SortById(records))
  {
    if records != [] {
      var init, last := records[..|records| - 1], records[|records| - 1];
      SortKeepsUnique(init);
      SortContents(init);
      forall i | 0 <= i < |SortById(init)| ensures SortById(init)[i].id != last.id {
        assert SortById(init)[i] in init;
      }
      InsertContents(SortById(init), last);
    }
  }

  /** No record stands after one that its id comes before. */
  predicate OrderedById(records: seq<Record>) {
    forall i, j | 0 <= i < j < |records| :: !Before(records[j].id, records[i].id)
  }

  lemma {:induction false} InsertKeepsOrder(records: seq<Record>, record: Record)
    requires OrderedById(records)
    ensures OrderedById(InsertById(records, record))
  {
    if records != [] {
      if Before(record.id, records[0].id) {
        forall k | 0 <= k < |records| ensures !Before(records[k].id, record.id) {
          if Before(records[k].id, record.id) {
            BeforeTransitive(records[k].id, record.id, records[0].id);
            BeforeIrreflexive(records[0].id);
          }
        }
      } else {
        var rest := InsertById(records[1..], record);
        InsertKeepsOrder(records[1..], record);
        InsertContents(records[1..], record);
        forall k | 0 <= k < |rest| ensures !Before(rest[k].id, records[0].id) {
          assert rest[k] in rest;
        }
      }
    }
  }

  lemma {:induction false} SortGivesOrder(records: seq<Record>)
    ensures OrderedById(SortById(records))
  {
    if records != [] {
      SortGivesOrder(records[..|records| - 1]);
      InsertKeepsOrder(SortById(records[..|records| - 1]), records[|records| - 1]);
    }
  }

  /** Placing a record puts it in, takes out the one with its id, keeps every other, and keeps the order. */
  lemma PlacedContents(records: seq<Record>, record: Record)
    requires UniqueIds(records)
    ensures UniqueIds(Placed(records, record))
    ensures forall r :: r in Placed(records, record) <==> r == record || (r in records && r.id != record.id)
    ensures |Placed(records, record)| == |records| + if IndexOf(records, record.id).Some? then 0 else 1
    ensures OrderedById(records) ==> OrderedById(Placed(records, record))
  {
    match IndexOf(records, record.id)
    case Some(i) =>
      var placed := records[i := record];
      forall r ensures r in placed <==> r == record || (r in records && r.id != record.id) {
        if r in records && r.id != record.id {
          var k :| 0 <= k < |records| && records[k] == r;
          assert placed[k] == r;
        }
        assert placed[i] == record;
      }
    case None =>
      assert UniqueIds(records + [record]);
      SortContents(records + [record]);
      SortKeepsUnique(records + [record]);
      SortGivesOrder(records + [record]);
  }

  lemma PlacedIds(records: seq<Record>, record: Record)
    requires UniqueIds(records) && Ids(records) && ValidId(record.id)
    ensures Ids(Placed(records, record))
  {
    PlacedContents(records, record);
    var placed := Placed(records, record);
    forall i | 0 <= i < |placed| ensures ValidId(placed[i].id) {
      assert placed[i] in placed;
    }
  }

  // ------------------------------------------------ the invariant

  /** The record's directory is published, complete, and holds the record's generation. */
  predicate Stored(dirs: map<Path, Dir>, record: Record) {
    DirOf(record) in dirs && dirs[DirOf(record)] == Dir(record.generation, FILES)
  }

  predicate AllStored(dirs: map<Path, Dir>, records: seq<Record>) {
    forall record | record in records :: Stored(dirs, record)
  }

  /** The lists were accepted for the source. */
  ghost predicate Sound(generation: Generation, ips: IpText) {
    && Read(generation.source, ips).Ok?
    && exists input :: Validated(Read(generation.source, ips).value, input, ips) == Ok(generation.lists)
  }

  /** Every published directory holds lists that were accepted for their source. */
  ghost predicate PublishedSound(dirs: map<Path, Dir>, ips: IpText) {
    forall path | path in dirs && !path.temp :: Sound(dirs[path].generation, ips)
  }

  predicate ManifestOk(m: Manifest) {
    && m.appliedGeneration <= m.generation <= U64_MAX
    && ValidRecords(m.bases) && ValidRecords(m.appliedBases)
  }

  /** A base has been revised at most once for each manifest generation. */
  predicate RevisionsBounded(m: Manifest) {
    forall record | record in m.bases :: 1 <= record.revision <= m.generation
  }

  /** Every published directory is complete. */
  predicate PublishedComplete(dirs: map<Path, Dir>) {
    forall path | path in dirs && !path.temp :: dirs[path].written == FILES
  }

  ghost predicate WithinQuota(dirs: map<Path, Dir>) {
    RetainedBytes(dirs) <= MAX_TOTAL_SOURCE_BYTES
  }

  /** Both lists of records point at complete directories that hold their generations. */
  predicate CrashSafe(disk: Disk) {
    AllStored(disk.dirs, disk.manifest.bases) && AllStored(disk.dirs, disk.manifest.appliedBases)
  }

  /** The directories alone: complete and sound once published, and within the quota. */
  ghost predicate DirsInv(dirs: map<Path, Dir>, ips: IpText) {
    PublishedComplete(dirs) && PublishedSound(dirs, ips) && WithinQuota(dirs)
  }

  /** The manifest alone: valid, with bounded revisions and ordered bases. */
  predicate ManifestInv(m: Manifest) {
    ManifestOk(m) && RevisionsBounded(m) && OrderedById(m.bases)
  }

  ghost predicate Inv(disk: Disk, ips: IpText) {
    CrashSafe(disk) && ManifestInv(disk.manifest) && DirsInv(disk.dirs, ips)
  }

  lemma EmptyInv(ips: IpText)
    ensures Inv(EMPTY_DISK, ips)
  {
    assert Sizes(map[]) == map[];
  }

  /** A record that is stored was accepted for its source. */
  lemma StoredIsSound(dirs: map<Path, Dir>, record: Record, ips: IpText)
    requires PublishedSound(dirs, ips) && Stored(dirs, record)
    ensures Sound(record.generation, ips)
  {
  }

  // ------------------------------------------------ directories come and go

  lemma SizesUpdate(dirs: map<Path, Dir>, path: Path, dir: Dir)
    requires path !in dirs
    ensures RetainedBytes(dirs[path := dir]) == RetainedBytes(dirs) + dir.SourceBytes()
  {
    assert Sizes(dirs[path := dir]) == Sizes(dirs)[path := dir.SourceBytes()];
    SumUpdate(Sizes(dirs), path, dir.SourceBytes());
  }

  lemma SizesRemove(dirs: map<Path, Dir>, path: Path)
    requires path in dirs
    ensures RetainedBytes(dirs - {path}) <= RetainedBytes(dirs)
  {
    assert Sizes(dirs - {path}) == Sizes(dirs) - {path};
    SumWithout(Sizes(dirs), path);
  }

  /** Adding a directory under a new name keeps everything, if it fits and is complete and sound when published. */
  lemma AddingKeepsInv(disk: Disk, path: Path, dir: Dir, ips: IpText)
    requires Inv(disk, ips) && path !in disk.dirs
    requires !path.temp ==> dir.written == FILES && Sound(dir.generation, ips)
    requires RetainedBytes(disk.dirs) + Bytes(dir.generation.source) <= MAX_TOTAL_SOURCE_BYTES
    ensures Inv(disk.(dirs := disk.dirs[path := dir]), ips)
  {
    AddingKeepsDirs(disk.dirs, path, dir, ips);
  }

  lemma AddingKeepsDirs(dirs: map<Path, Dir>, path: Path, dir: Dir, ips: IpText)
    requires DirsInv(dirs, ips) && path !in dirs
    requires !path.temp ==> dir.written == FILES && Sound(dir.generation, ips)
    requires RetainedBytes(dirs) + Bytes(dir.generation.source) <= MAX_TOTAL_SOURCE_BYTES
    ensures DirsInv(dirs[path := dir], ips)
  {
    SizesUpdate(dirs, path, dir);
  }

  /** Removing a directory keeps both lists stored exactly when neither points at it. */
  lemma RemovalIsSafeIff(disk: Disk, path: Path)
    requires CrashSafe(disk)
    ensures CrashSafe(disk.(dirs := disk.dirs - {path})) <==> path !in Referenced(disk.manifest)
  {
  }

  lemma RemovingKeepsInv(disk: Disk, path: Path, ips: IpText)
    requires Inv(disk, ips) && path in disk.dirs && path !in Referenced(disk.manifest)
    ensures Inv(disk.(dirs := disk.dirs - {path}), ips)
  {
    RemovalIsSafeIff(disk, path);
    SizesRemove(disk.dirs, path);
  }

  // ------------------------------------------------ publishing

  ghost predicate AllInv(trace: seq<Disk>, ips: IpText) {
    forall k | 0 <= k < |trace| :: Inv(trace[k], ips)
  }

  /** What an operation has checked before it writes. */
  ghost predicate ReadyToPublish(disk: Disk, record: Record, ips: IpText) {
    && ValidId(record.id) && Sound(record.generation, ips)
    && RetainedBytes(disk.dirs) + Bytes(record.generation.source) <= MAX_TOTAL_SOURCE_BYTES
    && 1 <= record.revision <= disk.manifest.generation + 1 <= U64_MAX
    && (IndexOf(disk.manifest.bases, record.id).Some? || |disk.manifest.bases| < MAX_BASES)
  }

  lemma WriteTraceKeepsInv(disk: Disk, record: Record, count: nat, ips: IpText)
    requires Inv(disk, ips) && ReadyToPublish(disk, record, ips)
    requires DirOf(record).(temp := true) !in disk.dirs
    ensures AllInv(WriteTrace(disk, DirOf(record).(temp := true), record.generation, count), ips)
  {
    forall k: nat | k <= count
      ensures Inv(Writing(disk, DirOf(record).(temp := true), record.generation, k), ips)
    {
      AddingKeepsInv(disk, DirOf(record).(temp := true), Dir(record.generation, k), ips);
    }
  }

  function WithRecord(m: Manifest, record: Record): Manifest {
    m.(bases := Placed(m.bases, record), updatedAt := record.updatedAt, generation := m.generation + 1)
  }

  lemma ManifestWithRecord(m: Manifest, record: Record)
    requires ManifestInv(m) && ValidId(record.id)
    requires 1 <= record.revision <= m.generation + 1 <= U64_MAX
    requires IndexOf(m.bases, record.id).Some? || |m.bases| < MAX_BASES
    ensures ManifestInv(WithRecord(m, record))
  {
    PlacedContents(m.bases, record);
    PlacedIds(m.bases, record);
  }

  lemma RecordedKeepsInv(disk: Disk, record: Record, ips: IpText)
    requires Inv(disk, ips) && Stored(disk.dirs, record) && ValidId(record.id)
    requires 1 <= record.revision <= disk.manifest.generation + 1 <= U64_MAX
    requires IndexOf(disk.manifest.bases, record.id).Some? || |disk.manifest.bases| < MAX_BASES
    ensures Inv(disk.(manifest := WithRecord(disk.manifest, record)), ips)
  {
    ManifestWithRecord(disk.manifest, record);
    PlacedContents(disk.manifest.bases, record);
  }

  lemma AllInvAppend(trace: seq<Disk>, disk: Disk, ips: IpText)
    requires AllInv(trace, ips) && Inv(disk, ips)
    ensures AllInv(trace + [disk], ips)
  {
  }

  function Published(disk: Disk, record: Record): Disk {
    disk.(dirs := disk.dirs[DirOf(record) := Dir(record.generation, FILES)])
  }

  lemma PublishedKeepsInv(disk: Disk, record: Record, ips: IpText)
    requires Inv(disk, ips) && ReadyToPublish(disk, record, ips) && DirOf(record) !in disk.dirs
    ensures Inv(Published(disk, record), ips)
    ensures Inv(Published(disk, record).(manifest := WithRecord(disk.manifest, record)), ips)
  {
    AddingKeepsInv(disk, DirOf(record), Dir(record.generation, FILES), ips);
    RecordedKeepsInv(Published(disk, record), record, ips);
  }

  /** A publication's trace: nothing, files written and removed again, or files written and published. */
  lemma PublishShape(disk: Disk, record: Record, fault: Fault)
    ensures var trace := Publish(disk, record, disk.manifest.generation + 1, fault).trace;
            var temp := DirOf(record).(temp := true);
            var written := WriteTrace(disk, temp, record.generation, FILES);
            var published := Published(disk, record);
            || trace == []
            || (temp !in disk.dirs
              && exists count :: trace == WriteTrace(disk, temp, record.generation, count) + [disk])
            || (temp !in disk.dirs && DirOf(record) !in disk.dirs && trace == written + [published])
            || (temp !in disk.dirs && DirOf(record) !in disk.dirs
                && trace == written + [published] + [published.(manifest := WithRecord(disk.manifest, record))])
  {
  }

  /** Every durable state of a publication, successful or not, satisfies the invariant. */
  lemma PublishKeepsInv(disk: Disk, record: Record, fault: Fault, ips: IpText)
    requires Inv(disk, ips) && ReadyToPublish(disk, record, ips)
    ensures AllInv(Publish(disk, record, disk.manifest.generation + 1, fault).trace, ips)
  {
    var trace := Publish(disk, record, disk.manifest.generation + 1, fault).trace;
    var temp := DirOf(record).(temp := true);
    var written := WriteTrace(disk, temp, record.generation, FILES);
    PublishShape(disk, record, fault);
    if trace != [] {
      if count :| trace == WriteTrace(disk, temp, record.generation, count) + [disk] {
        WriteTraceKeepsInv(disk, record, count, ips);
        AllInvAppend(WriteTrace(disk, temp, record.generation, count), disk, ips);
      } else {
        WriteTraceKeepsInv(disk, record, FILES, ips);
        PublishedKeepsInv(disk, record, ips);
        AllInvAppend(written, Published(disk, record), ips);
        AllInvAppend(written + [Published(disk, record)],
                     Published(disk, record).(manifest := WithRecord(disk.manifest, record)), ips);
      }
    }
  }

  lemma PreparedIsSound(disk: Disk, source: string, input: Input, ips: IpText)
    ensures Prepare(disk.dirs, source, input, ips).Ok? ==>
              && Sound(Prepare(disk.dirs, source, input, ips).value, ips)
              && Prepare(disk.dirs, source, input, ips).value.source == source
              && RetainedBytes(disk.dirs) + Bytes(source) <= MAX_TOTAL_SOURCE_BYTES
  {
  }

  lemma NewRecordIsReady(disk: Disk, request: Request, source: string, input: Input, previous: Option<Record>,
                         now: nat, leaf: nat, ips: IpText)
    requires Inv(disk, ips) && ValidId(request.id) && disk.manifest.generation < U64_MAX
    requires IndexOf(disk.manifest.bases, request.id).Some? || |disk.manifest.bases| < MAX_BASES
    requires previous.Some? ==> previous.value in disk.manifest.bases
    requires Prepare(disk.dirs, source, input, ips).Ok?
    ensures var generation := Prepare(disk.dirs, source, input, ips).value;
            ReadyToPublish(disk, NewRecord(request, generation, previous, now, leaf), ips)
  {
    PreparedIsSound(disk, source, input, ips);
  }

  lemma PublishPreparedIsPublish(disk: Disk, request: Request, prepared: Result<Generation, StoreError>,
                                 previous: Option<Record>, now: nat, leaf: nat, fault: Fault)
    ensures var outcome := PublishPrepared(disk, request, prepared, previous, now, leaf, fault);
            outcome.trace != [] || outcome.result.Ok? ==>
              && prepared.Ok? && disk.manifest.generation < U64_MAX
              && var record := NewRecord(request, prepared.value, previous, now, leaf);
              outcome == Publish(disk, record, disk.manifest.generation + 1, fault)
  {
  }

  lemma ReplaceIsPublish(disk: Disk, request: Request, source: string, input: Input, previous: Option<Record>,
                         now: nat, leaf: nat, fault: Fault, ips: IpText)
    ensures var outcome := Replace(disk, request, source, input, previous, now, leaf, fault, ips);
            outcome.trace != [] || outcome.result.Ok? ==>
              && Prepare(disk.dirs, source, input, ips).Ok? && disk.manifest.generation < U64_MAX
              && var generation := Prepare(disk.dirs, source, input, ips).value;
              var record := NewRecord(request, generation, previous, now, leaf);
              outcome == Publish(disk, record, disk.manifest.generation + 1, fault)
  {
    PublishPreparedIsPublish(disk, request, Prepare(disk.dirs, source, input, ips), previous, now, leaf, fault);
  }

  lemma ReplaceKeepsInv(disk: Disk, request: Request, source: string, input: Input, previous: Option<Record>,
                        now: nat, leaf: nat, fault: Fault, ips: IpText)
    requires Inv(disk, ips) && ValidId(request.id)
    requires IndexOf(disk.manifest.bases, request.id).Some? || |disk.manifest.bases| < MAX_BASES
    requires previous.Some? ==> previous.value in disk.manifest.bases
    ensures AllInv(Replace(disk, request, source, input, previous, now, leaf, fault, ips).trace, ips)
  {
    ReplaceIsPublish(disk, request, source, input, previous, now, leaf, fault, ips);
    var trace := Replace(disk, request, source, input, previous, now, leaf, fault, ips).trace;
    if trace != [] {
      NewRecordIsReady(disk, request, source, input, previous, now, leaf, ips);
      var generation := Prepare(disk.dirs, source, input, ips).value;
      PublishKeepsInv(disk, NewRecord(request, generation, previous, now, leaf), fault, ips);
    }
  }

  // ------------------------------------------------ the operations

  lemma CreateKeepsInv(disk: Disk, request: Request, source: string, input: Input, now: nat, leaf: nat, fault: Fault,
                       ips: IpText)
    requires Inv(disk, ips)
    ensures AllInv(Create(disk, request, source, input, now, leaf, fault, ips).trace, ips)
  {
    if CheckRequest(request).None? && |disk.manifest.bases| < MAX_BASES {
      ReplaceKeepsInv(disk, request, source, input, None, now, leaf, fault, ips);
    }
  }

  lemma UpdateKeepsInv(disk: Disk, request: Request, expected: nat, source: string, input: Input, now: nat, leaf: nat,
                       fault: Fault, ips: IpText)
    requires Inv(disk, ips)
    ensures AllInv(Update(disk, request, expected, source, input, now, leaf, fault, ips).trace, ips)
  {
    var index := IndexOf(disk.manifest.bases, request.id);
    if CheckRequest(request).None? && index.Some? {
      ReplaceKeepsInv(disk, request, source, input, Some(disk.manifest.bases[index.value]), now, leaf, fault, ips);
    }
  }

  lemma RemovedRecord(records: seq<Record>, index: nat)
    requires index < |records|
    ensures forall record | record in records[..index] + records[index + 1..] :: record in records
    ensures ValidRecords(records) ==> ValidRecords(records[..index] + records[index + 1..])
    ensures OrderedById(records) ==> OrderedById(records[..index] + records[index + 1..])
  {
    var kept := records[..index] + records[index + 1..];
    assert forall i | 0 <= i < |kept| :: kept[i] == records[if i < index then i else i + 1];
  }

  /** A deletion writes nothing, or only the manifest without the record. */
  lemma DeleteShape(disk: Disk, id: string, now: nat, fault: Fault)
    ensures var trace, index := Delete(disk, id, now, fault).trace, IndexOf(disk.manifest.bases, id);
            trace != [] ==>
              && index.Some? && disk.manifest.generation < U64_MAX
              && var kept := disk.manifest.bases[..index.value] + disk.manifest.bases[index.value + 1..];
                 trace == [disk.(manifest := WithBases(disk.manifest, kept, now))]
  {
  }

  /** The manifest after a change of the bases. */
  function WithBases(m: Manifest, bases: seq<Record>, now: nat): Manifest {
    m.(bases := bases, updatedAt := now, generation := m.generation + 1)
  }

  /** Changing the bases keeps the invariant when each new record is stored and no revision grows. */
  lemma ChangedBasesKeepInv(disk: Disk, bases: seq<Record>, now: nat, ips: IpText)
    requires Inv(disk, ips) && disk.manifest.generation < U64_MAX
    requires ValidRecords(bases) && OrderedById(bases) && AllStored(disk.dirs, bases)
    requires forall record | record in bases :: 1 <= record.revision <= disk.manifest.generation
    ensures Inv(disk.(manifest := WithBases(disk.manifest, bases, now)), ips)
  {
  }

  lemma DeleteKeepsInv(disk: Disk, id: string, now: nat, fault: Fault, ips: IpText)
    requires Inv(disk, ips)
    ensures AllInv(Delete(disk, id, now, fault).trace, ips)
  {
    DeleteShape(disk, id, now, fault);
    if Delete(disk, id, now, fault).trace != [] {
      var index := IndexOf(disk.manifest.bases, id).value;
      RemovedRecord(disk.manifest.bases, index);
      ChangedBasesKeepInv(disk, disk.manifest.bases[..index] + disk.manifest.bases[index + 1..], now, ips);
    }
  }

  lemma ToggledRecord(records: seq<Record>, index: nat, record: Record)
    requires index < |records| && record.id == records[index].id
    ensures forall r | r in records[index := record] :: r == record || r in records
    ensures ValidRecords(records) ==> ValidRecords(records[index := record])
    ensures OrderedById(records) ==> OrderedById(records[index := record])
  {
  }

  function Toggled(records: seq<Record>, index: nat, enabled: bool, now: nat): seq<Record>
    requires index < |records|
  {
    records[index := records[index].(enabled := enabled, updatedAt := now)]
  }

  /** Enabling writes nothing, or only the manifest with one flag and time changed. */
  lemma SetEnabledShape(disk: Disk, id: string, enabled: bool, expected: Option<nat>, now: nat, fault: Fault)
    ensures var trace := SetEnabled(disk, id, enabled, expected, now, fault).trace;
            var index := IndexOf(disk.manifest.bases, id);
            trace != [] ==>
              && index.Some? && disk.manifest.generation < U64_MAX
              && trace == [disk.(manifest :=
                   WithBases(disk.manifest, Toggled(disk.manifest.bases, index.value, enabled, now), now))]
  {
  }

  lemma ToggledIsStored(dirs: map<Path, Dir>, m: Manifest, index: nat, enabled: bool, now: nat)
    requires AllStored(dirs, m.bases) && ManifestInv(m) && index < |m.bases|
    ensures var bases := Toggled(m.bases, index, enabled, now);
            && ValidRecords(bases) && OrderedById(bases) && AllStored(dirs, bases)
            && forall record | record in bases :: 1 <= record.revision <= m.generation
  {
    ToggledRecord(m.bases, index, m.bases[index].(enabled := enabled, updatedAt := now));
    assert Stored(dirs, m.bases[index]);
  }

  lemma SetEnabledKeepsInv(disk: Disk, id: string, enabled: bool, expected: Option<nat>, now: nat, fault: Fault,
                           ips: IpText)
    requires Inv(disk, ips)
    ensures AllInv(SetEnabled(disk, id, enabled, expected, now, fault).trace, ips)
  {
    SetEnabledShape(disk, id, enabled, expected, now, fault);
    if SetEnabled(disk, id, enabled, expected, now, fault).trace != [] {
      var index := IndexOf(disk.manifest.bases, id).value;
      ToggledIsStored(disk.dirs, disk.manifest, index, enabled, now);
      ChangedBasesKeepInv(disk, Toggled(disk.manifest.bases, index, enabled, now), now, ips);
    }
  }

  lemma MarkAppliedKeepsInv(disk: Disk, expected: nat, now: nat, fault: Fault, ips: IpText)
    requires Inv(disk, ips)
    ensures AllInv(MarkApplied(disk, expected, now, fault).trace, ips)
  {
  }

  /** A commit keeps the invariant when the records reported as activated still have their directories. */
  lemma CommitKeepsInv(disk: Disk, expected: nat, activated: seq<Record>, now: nat, fault: Fault, ips: IpText)
    requires Inv(disk, ips) && AllStored(disk.dirs, activated)
    ensures AllInv(CommitAppliedSnapshot(disk, expected, activated, now, fault).trace, ips)
  {
    SnapshotAcceptedIff(activated);
  }

  /** Crash safety of a commit needs exactly that: the activated records are stored. */
  lemma CommitIsSafeIff(disk: Disk, expected: nat, activated: seq<Record>, now: nat, fault: Fault)
    requires CrashSafe(disk) && CommitAppliedSnapshot(disk, expected, activated, now, fault).result.Ok?
    ensures CrashSafe(Last(disk, CommitAppliedSnapshot(disk, expected, activated, now, fault).trace)) <==>
            AllStored(disk.dirs, activated)
  {
  }

  lemma RemovingAnyKeepsInv(disk: Disk, path: Path, ips: IpText)
    requires Inv(disk, ips) && path !in Referenced(disk.manifest)
    ensures Inv(disk.(dirs := disk.dirs - {path}), ips)
  {
    if path in disk.dirs {
      RemovingKeepsInv(disk, path, ips);
    } else {
      assert disk.dirs - {path} == disk.dirs;
    }
  }

  lemma AllInvFrom(first: Disk, rest: seq<Disk>, ips: IpText)
    requires Inv(first, ips) && AllInv(rest, ips)
    ensures AllInv([first] + rest, ips)
  {
  }

  lemma {:induction false} CollectKeepsInv(disk: Disk, listing: seq<Path>, ips: IpText)
    requires Inv(disk, ips)
    ensures AllInv(CollectTrace(disk, listing), ips)
    decreases |listing|
  {
    if listing != [] && listing[0] in Referenced(disk.manifest) {
      CollectKeepsInv(disk, listing[1..], ips);
    } else if listing != [] {
      var next := disk.(dirs := disk.dirs - {listing[0]});
      RemovingAnyKeepsInv(disk, listing[0], ips);
      CollectKeepsInv(next, listing[1..], ips);
      AllInvFrom(next, CollectTrace(next, listing[1..]), ips);
    }
  }

  lemma OneFewer(dirs: map<Path, Dir>, path: Path)
    requires path in dirs
    ensures |dirs - {path}| == |dirs| - 1
  {
    assert (dirs - {path}).Keys == dirs.Keys - {path};
  }

  /** A collection that has come to the first path of `rest` passes or removes it. */
  lemma CollectMoves(history: seq<Disk>, now: Disk, rest: seq<Path>)
    requires rest != []
    ensures history + CollectTrace(now, rest) ==
              if rest[0] in Referenced(now.manifest) then history + CollectTrace(now, rest[1..])
              else var next := now.(dirs := now.dirs - {rest[0]});
                history + [next] + CollectTrace(next, rest[1..])
  {
  }

  /** What a collection has done when it ends or fails with the paths of `rest` still ahead. */
  lemma CollectStops(disk: Disk, listing: seq<Path>, before: seq<Disk>, history: seq<Disk>, now: Disk,
                     rest: seq<Path>, failAfter: Option<nat>)
    requires history + CollectTrace(now, rest) == before + CollectTrace(disk, listing)
    requires |before| <= |history| && now == if |history| == |before| then disk else history[|history| - 1]
    requires failAfter == Some(|history| - |before|)
             || (rest == [] && (failAfter.Some? ==> |history| - |before| < failAfter.value))
    ensures var outcome, removed := Collect(disk, listing, failAfter), |history| - |before|;
            && outcome.result == (if failAfter == Some(removed) then Err(Io) else Ok(removed))
            && history == before + outcome.trace && now == Last(disk, outcome.trace)
  {
    var trace, removed := CollectTrace(disk, listing), |history| - |before|;
    assert history == (history + CollectTrace(now, rest))[..|history|];
    assert history == before + trace[..removed];
    assert rest == [] ==> trace[..removed] == trace;
  }

  /** Collection ends with the listed directories gone, except for the referenced ones. */
  lemma {:induction false} CollectIsExact(disk: Disk, listing: seq<Path>)
    ensures var final := Last(disk, CollectTrace(disk, listing));
            && final.manifest == disk.manifest
            && (forall path :: path in final.dirs <==>
                  path in disk.dirs && (path in listing ==> path in Referenced(disk.manifest)))
            && (forall path | path in final.dirs :: final.dirs[path] == disk.dirs[path])
    decreases |listing|
  {
    if listing != [] {
      assert forall path :: path in listing <==> path == listing[0] || path in listing[1..];
      if listing[0] in Referenced(disk.manifest) {
        CollectIsExact(disk, listing[1..]);
      } else {
        CollectIsExact(disk.(dirs := disk.dirs - {listing[0]}), listing[1..]);
      }
    }
  }

  /** Collection removes a directory with each of its writes. */
  lemma {:induction false} CollectCounts(disk: Disk, listing: seq<Path>)
    requires AllDifferent(listing) && forall path | path in listing :: path in disk.dirs
    ensures |CollectTrace(disk, listing)| == |disk.dirs| - |Last(disk, CollectTrace(disk, listing)).dirs|
    decreases |listing|
  {
    if listing != [] {
      var rest := listing[1..];
      assert forall path | path in rest :: path in listing && path != listing[0];
      if listing[0] in Referenced(disk.manifest) {
        CollectCounts(disk, rest);
      } else {
        OneFewer(disk.dirs, listing[0]);
        CollectCounts(disk.(dirs := disk.dirs - {listing[0]}), rest);
      }
    }
  }

  lemma ReferencedExist(disk: Disk)
    requires CrashSafe(disk)
    ensures Referenced(disk.manifest) <= disk.dirs.Keys
  {
    forall path | path in Referenced(disk.manifest) ensures path in disk.dirs {
      var record :| record in disk.manifest.bases + disk.manifest.appliedBases && DirOf(record) == path;
      assert Stored(disk.dirs, record);
    }
  }

  lemma CollectSucceeds(disk: Disk, listing: seq<Path>, failAfter: Option<nat>)
    requires Collect(disk, listing, failAfter).result.Ok?
    ensures var trace := CollectTrace(disk, listing); Collect(disk, listing, failAfter) == Outcome(trace, Ok(|trace|))
  {
  }

  lemma CollectTraceLeaves(disk: Disk, listing: seq<Path>)
    requires CrashSafe(disk) && ListsAll(disk, listing)
    ensures var trace := CollectTrace(disk, listing);
            var final := Last(disk, trace);
            && final.manifest == disk.manifest && final.dirs.Keys == Referenced(disk.manifest)
            && (forall path | path in final.dirs :: final.dirs[path] == disk.dirs[path])
            && |trace| == |disk.dirs| - |final.dirs|
  {
    CollectIsExact(disk, listing);
    CollectCounts(disk, listing);
    ReferencedExist(disk);
    SameKeys(Last(disk, CollectTrace(disk, listing)).dirs, disk.dirs, Referenced(disk.manifest));
  }

  lemma SameKeys(final: map<Path, Dir>, dirs: map<Path, Dir>, kept: set<Path>)
    requires kept <= dirs.Keys && forall path :: path in final <==> path in dirs && path in kept
    ensures final.Keys == kept
  {
  }

  /** After a successful collection the directories are exactly the referenced ones, unchanged, and
      the count is what went. */
  lemma CollectLeavesReferenced(disk: Disk, listing: seq<Path>, failAfter: Option<nat>)
    requires CrashSafe(disk) && ListsAll(disk, listing) && Collect(disk, listing, failAfter).result.Ok?
    ensures var done := Collect(disk, listing, failAfter);
            var final := Last(disk, done.trace);
            && final.manifest == disk.manifest
            && final.dirs.Keys == Referenced(disk.manifest)
            && (forall path | path in final.dirs :: final.dirs[path] == disk.dirs[path])
            && done.result == Ok(|disk.dirs| - |final.dirs|)
  {
    CollectSucceeds(disk, listing, failAfter);
    CollectTraceLeaves(disk, listing);
  }
}

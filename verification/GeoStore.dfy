/** The store itself: each method makes its durable writes in the order of its trace. */
module GeoStore {

  import opened Collections
  import opened GeoArtifacts
  import opened GeoDisk
  import opened GeoLists
  import opened GeoReload
  import opened GeoSource
  import opened GeoStoreLaws
  import opened GeoVersions
  import opened NetworkText
  import opened Text
  import opened Wrappers

  class GeoBaseStore {
    var dirs: map<Path, Dir>
    var manifest: Manifest
    /** Every durable state so far, one for each write. */
    ghost var history: seq<Disk>

    function Now(): Disk
      reads this
    {
      Disk(dirs, manifest)
    }

    constructor ()
      ensures Now() == EMPTY_DISK && history == []
    {
      dirs := map[];
      manifest := Manifest(0, 0, 0, [], []);
      history := [];
    }

    method SetDirs(next: map<Path, Dir>)
      modifies this
      ensures dirs == next && manifest == old(manifest) && history == old(history) + [Now()]
    {
      dirs := next;
      history := history + [Now()];
    }

    method SaveManifest(next: Manifest)
      modifies this
      ensures manifest == next && dirs == old(dirs) && history == old(history) + [Now()]
    {
      manifest := next;
      history := history + [Now()];
    }

    method RetainedSourceBytes() returns (total: nat)
      ensures total == RetainedBytes(dirs)
    {
      total := 0;
      var left := dirs;
      while left != map[]
        invariant forall path | path in left :: path in dirs && left[path] == dirs[path]
        invariant total + RetainedBytes(left) == RetainedBytes(dirs)
        decreases |left|
      {
        var path :| path in left;
        total := total + left[path].SourceBytes();
        assert Sizes(left - {path}) == Sizes(left) - {path};
        SumWithout(Sizes(left), path);
        left := left - {path};
      }
      assert Sizes(map[]) == map[];
    }

    method PrepareGeneration(source: string, input: Input, ips: IpText) returns (r: Result<Generation, StoreError>)
      ensures r == Prepare(dirs, source, input, ips)
    {
      var parsed := ParseSource(source, ips);
      if parsed.Err? {
        return Err(StoreErrorOf(parsed.error));
      }
      var lists := ValidateGeneration(parsed.value, input, ips);
      if lists.Err? {
        return Err(StoreErrorOf(lists.error));
      }
      var retained := RetainedSourceBytes();
      if retained + Bytes(source) > MAX_TOTAL_SOURCE_BYTES {
        return Err(OverLimit);
      }
      r := Ok(Generation(source, lists.value));
    }

    /** Write the files into a temporary directory, which goes again if a write fails. */
    method WriteFiles(temp: Path, generation: Generation, fault: Fault) returns (ok: bool)
      requires temp !in dirs
      modifies this
      ensures ok <==> !(fault.WriteFails? && fault.done < FILES)
      ensures Now() == if ok then Writing(old(Now()), temp, generation, FILES) else old(Now())
      ensures history == old(history) + if ok then WriteTrace(old(Now()), temp, generation, FILES)
                                        else WriteTrace(old(Now()), temp, generation, fault.done) + [old(Now())]
    {
      ghost var start := Now();
      SetDirs(dirs[temp := Dir(generation, 0)]);
      var written := 0;
      while written < FILES
        invariant 0 <= written <= FILES
        invariant Now() == Writing(start, temp, generation, written)
        invariant history == old(history) + WriteTrace(start, temp, generation, written)
        invariant fault.WriteFails? ==> written <= fault.done
      {
        if fault.WriteFails? && written == fault.done {
          SetDirs(dirs - {temp});
          assert dirs == start.dirs;
          return false;
        }
        written := written + 1;
        SetDirs(dirs[temp := Dir(generation, written)]);
      }
      ok := true;
    }

    /** Write the files, rename their directory, then save the manifest. */
    method PublishRecord(record: Record, generation: nat, fault: Fault) returns (r: Result<Record, StoreError>)
      modifies this
      ensures var outcome := Publish(old(Now()), record, generation, fault);
              r == outcome.result && Now() == Last(old(Now()), outcome.trace) && history == old(history) + outcome.trace
    {
      ghost var start := Now();
      var temp, final := DirOf(record).(temp := true), DirOf(record);
      if temp in dirs {
        return Err(Io);
      }
      var ok := WriteFiles(temp, record.generation, fault);
      if !ok {
        return Err(Io);
      }
      if final in dirs || fault.RenameFails? {
        SetDirs(dirs - {temp});
        assert dirs == start.dirs;
        return Err(Io);
      }
      SetDirs((dirs - {temp})[final := Dir(record.generation, FILES)]);
      assert dirs == start.dirs[final := Dir(record.generation, FILES)];
      if fault.SaveFails? {
        return Err(Io);
      }
      var bases := Placed(manifest.bases, record);
      SaveManifest(manifest.(bases := bases, updatedAt := record.updatedAt, generation := generation));
      r := Ok(record);
    }

    method ReplaceGeneration(request: Request, source: string, input: Input, previous: Option<Record>,
                             now: nat, leaf: nat, fault: Fault, ips: IpText) returns (r: Result<Record, StoreError>)
      modifies this
      ensures var outcome := Replace(old(Now()), request, source, input, previous, now, leaf, fault, ips);
              r == outcome.result && Now() == Last(old(Now()), outcome.trace) && history == old(history) + outcome.trace
    {
      var prepared := PrepareGeneration(source, input, ips);
      if prepared.Err? {
        return Err(prepared.error);
      }
      var generation := NextGeneration(manifest.generation);
      if generation.None? {
        return Err(OverLimit);
      }
      r := PublishRecord(NewRecord(request, prepared.value, previous, now, leaf), generation.value, fault);
    }

    method CreateBase(request: Request, source: string, input: Input, now: nat, leaf: nat, fault: Fault, ips: IpText)
      returns (r: Result<Record, StoreError>)
      modifies this
      ensures var outcome := Create(old(Now()), request, source, input, now, leaf, fault, ips);
              r == outcome.result && Now() == Last(old(Now()), outcome.trace) && history == old(history) + outcome.trace
    {
      var error := CheckRequest(request);
      if error.Some? {
        return Err(error.value);
      }
      if IndexOf(manifest.bases, request.id).Some? {
        return Err(AlreadyExists);
      }
      if |manifest.bases| >= MAX_BASES {
        return Err(OverLimit);
      }
      r := ReplaceGeneration(request, source, input, None, now, leaf, fault, ips);
    }

    method UpdateBase(request: Request, expected: nat, source: string, input: Input, now: nat, leaf: nat, fault: Fault,
                      ips: IpText)
      returns (r: Result<Record, StoreError>)
      modifies this
      ensures var outcome := Update(old(Now()), request, expected, source, input, now, leaf, fault, ips);
              r == outcome.result && Now() == Last(old(Now()), outcome.trace) && history == old(history) + outcome.trace
    {
      var error := CheckRequest(request);
      if error.Some? {
        return Err(error.value);
      }
      var index := IndexOf(manifest.bases, request.id);
      if index.None? {
        return Err(NotFound);
      }
      var current := manifest.bases[index.value];
      if current.revision != expected {
        return Err(Conflict);
      }
      r := ReplaceGeneration(request, source, input, Some(current), now, leaf, fault, ips);
    }

    method DeleteBase(id: string, now: nat, fault: Fault) returns (r: Result<Record, StoreError>)
      modifies this
      ensures var outcome := Delete(old(Now()), id, now, fault);
              r == outcome.result && Now() == Last(old(Now()), outcome.trace) && history == old(history) + outcome.trace
    {
      if !ValidId(id) {
        return Err(InvalidId);
      }
      var index := IndexOf(manifest.bases, id);
      if index.None? {
        return Err(NotFound);
      }
      var removed := manifest.bases[index.value];
      var bases := manifest.bases[..index.value] + manifest.bases[index.value + 1..];
      var next := manifest.(bases := bases, updatedAt := now);
      var generation := NextGeneration(manifest.generation);
      if generation.None? {
        return Err(OverLimit);
      }
      if fault.SaveFails? {
        return Err(Io);
      }
      SaveManifest(next.(generation := generation.value));
      r := Ok(removed);
    }

    method SetBaseEnabled(id: string, enabled: bool, expected: Option<nat>, now: nat, fault: Fault)
      returns (r: Result<Record, StoreError>)
      modifies this
      ensures var outcome := SetEnabled(old(Now()), id, enabled, expected, now, fault);
              r == outcome.result && Now() == Last(old(Now()), outcome.trace) && history == old(history) + outcome.trace
    {
      if !ValidId(id) {
        return Err(InvalidId);
      }
      var index := IndexOf(manifest.bases, id);
      if index.None? {
        return Err(NotFound);
      }
      if expected.Some? && manifest.bases[index.value].revision != expected.value {
        return Err(Conflict);
      }
      var record := manifest.bases[index.value].(enabled := enabled, updatedAt := now);
      var generation := NextGeneration(manifest.generation);
      if generation.None? {
        return Err(OverLimit);
      }
      if fault.SaveFails? {
        return Err(Io);
      }
      var bases := manifest.bases[index.value := record];
      SaveManifest(manifest.(bases := bases, updatedAt := now, generation := generation.value));
      r := Ok(record);
    }

    method MarkManifestApplied(expected: nat, now: nat, fault: Fault) returns (r: Result<Manifest, StoreError>)
      modifies this
      ensures var outcome := MarkApplied(old(Now()), expected, now, fault);
              r == outcome.result && Now() == Last(old(Now()), outcome.trace) && history == old(history) + outcome.trace
    {
      if manifest.generation != expected {
        return Err(Conflict);
      }
      if fault.SaveFails? {
        return Err(Io);
      }
      SaveManifest(manifest.(appliedBases := manifest.bases, appliedGeneration := expected, updatedAt := now));
      r := Ok(manifest);
    }

    method CommitSnapshot(expected: nat, activated: seq<Record>, now: nat, fault: Fault)
        returns (r: Result<Manifest, StoreError>)
      modifies this
      ensures var outcome := CommitAppliedSnapshot(old(Now()), expected, activated, now, fault);
              r == outcome.result && Now() == Last(old(Now()), outcome.trace) && history == old(history) + outcome.trace
    {
      if expected > manifest.generation {
        return Err(Conflict);
      }
      var error := CheckSnapshot(activated);
      if error.Some? {
        return Err(error.value);
      }
      if fault.SaveFails? {
        return Err(Io);
      }
      SaveManifest(manifest.(appliedGeneration := expected, appliedBases := activated, updatedAt := now));
      r := Ok(manifest);
    }

    /** Remove every listed directory that no desired or applied record points at. */
    method GarbageCollect(listing: seq<Path>, failAfter: Option<nat>) returns (r: Result<nat, StoreError>)
      modifies this
      ensures var outcome := Collect(old(Now()), listing, failAfter);
              r == outcome.result && Now() == Last(old(Now()), outcome.trace) && history == old(history) + outcome.trace
    {
      ghost var start := Now();
      var retained := Referenced(manifest);
      var removed := 0;
      var i := 0;
      while i < |listing|
        invariant 0 <= i <= |listing|
        invariant manifest == start.manifest
        invariant removed == |history| - |old(history)| && (failAfter.Some? ==> removed <= failAfter.value)
        invariant Now() == if removed == 0 then start else history[|history| - 1]
        invariant history + CollectTrace(Now(), listing[i..]) == old(history) + CollectTrace(start, listing)
      {
        RestOf(listing, i);
        CollectMoves(history, Now(), listing[i..]);
        if listing[i] !in retained {
          if failAfter == Some(removed) {
            CollectStops(start, listing, old(history), history, Now(), listing[i..], failAfter);
            return Err(Io);
          }
          SetDirs(dirs - {listing[i]});
          removed := removed + 1;
        }
        i := i + 1;
      }
      CollectStops(start, listing, old(history), history, Now(), listing[i..], failAfter);
      if failAfter == Some(removed) {
        return Err(Io);
      }
      r := Ok(removed);
    }

    method LoadSource(id: string) returns (r: Result<string, StoreError>)
      ensures !ValidId(id) ==> r == Err(InvalidId)
      ensures ValidId(id) && RecordOf(manifest.bases, id).None? ==> r == Err(NotFound)
      ensures CrashSafe(Now()) && ValidId(id) && RecordOf(manifest.bases, id).Some? ==>
                r == Ok(RecordOf(manifest.bases, id).value.generation.source)
    {
      if !ValidId(id) {
        return Err(InvalidId);
      }
      var index := IndexOf(manifest.bases, id);
      if index.None? {
        return Err(NotFound);
      }
      var record := manifest.bases[index.value];
      assert CrashSafe(Now()) ==> Stored(dirs, record) by {
        assert record in manifest.bases;
      }
      if DirOf(record) !in dirs || dirs[DirOf(record)].written < 1 {
        return Err(Io);
      }
      r := Ok(dirs[DirOf(record)].generation.source);
    }

    /** The five list files are read line by line and their marks stripped. */
    method LoadLists(id: string, ghost ips: IpText) returns (r: Result<Input, StoreError>)
      requires Faithful(ips)
      ensures !ValidId(id) ==> r == Err(InvalidId)
      ensures ValidId(id) && RecordOf(manifest.bases, id).None? ==> r == Err(NotFound)
      ensures Inv(Now(), ips) && ValidId(id) && RecordOf(manifest.bases, id).Some? ==>
                r == Ok(Loaded(RecordOf(manifest.bases, id).value.generation.lists))
    {
      if !ValidId(id) {
        return Err(InvalidId);
      }
      var index := IndexOf(manifest.bases, id);
      if index.None? {
        return Err(NotFound);
      }
      var record := manifest.bases[index.value];
      assert Inv(Now(), ips) ==> Stored(dirs, record) by {
        assert record in manifest.bases;
      }
      if DirOf(record) !in dirs || dirs[DirOf(record)].written < FILES {
        return Err(Io);
      }
      var lists := dirs[DirOf(record)].generation.lists;
      if Inv(Now(), ips) {
        StoredIsSound(dirs, record, ips);
        SoundListsReadBack(lists, record.generation, ips);
      }
      r := Ok(Loaded(OnDisk(lists)));
    }
  }

  /** The lists as the lines of their files. */
  function OnDisk(lists: Lists): Lists {
    Lists(Lines(FileText(lists.direct)), Lines(FileText(lists.active)), Lines(FileText(lists.unresolved)),
          Lines(FileText(lists.staticDirect)), Lines(FileText(lists.staticActive)))
  }

  lemma AcceptedListsReadBack(parsed: Parsed, input: Input, ips: IpText)
    requires WellFormedParsed(parsed, ips) && Validated(parsed, input, ips).Ok?
    ensures OnDisk(Validated(parsed, input, ips).value) == Validated(parsed, input, ips).value
  {
    var classes := AddClasses(map[], input.classifications, parsed.domains, DomainNames.ParseDomain).value;
    var routes := AddRoutes(map[], input.statics, parsed.networks, NetworkParser(ips)).value;
    AcceptedRoutes(parsed, input, ips);
    ListingReadsBack(parsed, classes, Direct, ips);
    ListingReadsBack(parsed, classes, Active, ips);
    ListingReadsBack(parsed, classes, Unresolved, ips);
    StaticListReadsBack(parsed, routes, Direct, ips);
    StaticListReadsBack(parsed, routes, Active, ips);
  }

  lemma ListingReadsBack(parsed: Parsed, classes: Table, c: Class, ips: IpText)
    requires WellFormedParsed(parsed, ips)
    ensures Lines(FileText(Listing(parsed.entries, classes, c))) == Listing(parsed.entries, classes, c)
  {
    ListingIsWritable(parsed.entries, classes, c, ips);
    FileReadsBack(Listing(parsed.entries, classes, c));
  }

  lemma StaticListReadsBack(parsed: Parsed, routes: Table, target: Class, ips: IpText)
    requires WellFormedParsed(parsed, ips) && RealTable(routes, parsed.networks)
    ensures Lines(FileText(WithTarget(InOrder(routes), routes, target))) == WithTarget(InOrder(routes), routes, target)
  {
    StaticListIsWritable(parsed, routes, target, ips);
    FileReadsBack(WithTarget(InOrder(routes), routes, target));
  }

  /** Lists that were accepted for their source survive being written and read. */
  lemma SoundListsReadBack(lists: Lists, generation: Generation, ips: IpText)
    requires Faithful(ips) && Sound(generation, ips) && lists == generation.lists
    ensures OnDisk(lists) == lists
  {
    var parsed := Read(generation.source, ips).value;
    AcceptedIsWellFormed(generation.source, ips);
    var input :| Validated(parsed, input, ips) == Ok(lists);
    AcceptedListsReadBack(parsed, input, ips);
  }
}

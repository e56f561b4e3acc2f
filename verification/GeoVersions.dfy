/** The version protocol: manifest generations, pending activation and record revisions over runs. */
module GeoVersions {

  import opened GeoDisk
  import opened GeoLists
  import opened GeoStoreLaws
  import opened GeoStoreRuns
  import opened NetworkText
  import opened Wrappers

  // ------------------------------------------------ what success means, operation by operation

  lemma ReplaceSuccess(disk: Disk, request: Request, source: string, input: Input, previous: Option<Record>,
                       now: nat, leaf: nat, fault: Fault, ips: IpText)
    requires Replace(disk, request, source, input, previous, now, leaf, fault, ips).result.Ok?
    ensures var outcome := Replace(disk, request, source, input, previous, now, leaf, fault, ips);
            && Prepare(disk.dirs, source, input, ips).Ok? && disk.manifest.generation < U64_MAX
            && var generation := Prepare(disk.dirs, source, input, ips).value;
            outcome.result.value == NewRecord(request, generation, previous, now, leaf)
            && Last(disk, outcome.trace).manifest == WithRecord(disk.manifest, outcome.result.value)
            && Stored(Last(disk, outcome.trace).dirs, outcome.result.value)
  {
    ReplaceIsPublish(disk, request, source, input, previous, now, leaf, fault, ips);
    PublishSuccess(disk, NewRecord(request, Prepare(disk.dirs, source, input, ips).value, previous, now, leaf), fault);
  }

  lemma PublishSuccess(disk: Disk, record: Record, fault: Fault)
    ensures var outcome := Publish(disk, record, disk.manifest.generation + 1, fault);
            outcome.result.Ok? ==>
              && outcome.result.value == record
              && Last(disk, outcome.trace).manifest == WithRecord(disk.manifest, record)
              && Stored(Last(disk, outcome.trace).dirs, record)
  {
  }

  predicate IsMutation(op: Op) {
    op.OpCreate? || op.OpUpdate? || op.OpDelete? || op.OpSetEnabled?
  }

  predicate IsApply(op: Op) {
    op.OpMarkApplied? || op.OpCommit?
  }

  /** Each successful create, update, delete or enable raises the generation by one, touches nothing
      applied, and leaves activation pending. */
  lemma MutationIsVersioned(disk: Disk, op: Op, ips: IpText)
    requires ManifestOk(disk.manifest) && IsMutation(op) && Succeeds(disk, op, ips)
    ensures var next := Last(disk, Trace(disk, op, ips)).manifest;
            && next.generation == disk.manifest.generation + 1
            && next.appliedGeneration == disk.manifest.appliedGeneration
            && next.appliedBases == disk.manifest.appliedBases
            && next.RequiresApply()
  {
    match op
    case OpCreate(request, source, input, now, leaf, fault) =>
      ReplaceSuccess(disk, request, source, input, None, now, leaf, fault, ips);
    case OpUpdate(request, expected, source, input, now, leaf, fault) =>
      var index := IndexOf(disk.manifest.bases, request.id).value;
      ReplaceSuccess(disk, request, source, input, Some(disk.manifest.bases[index]), now, leaf, fault, ips);
    case OpDelete(id, now, fault) =>
    case OpSetEnabled(id, enabled, revision, now, fault) =>
  }

  /** The operation reports the current generation, with the current bases, as activated. */
  predicate Acknowledges(m: Manifest, op: Op) {
    match op
    case OpMarkApplied(generation, now, fault) => generation == m.generation
    case OpCommit(generation, activated, now, fault) => generation == m.generation && activated == m.bases
    case _ => false
  }

  /** A successful apply changes neither the bases nor the generation, and activation is pending after
      it exactly when it did not acknowledge the current state. */
  lemma ApplyClearsIff(disk: Disk, op: Op, ips: IpText)
    requires IsApply(op) && Succeeds(disk, op, ips)
    ensures var next := Last(disk, Trace(disk, op, ips)).manifest;
            && next.bases == disk.manifest.bases && next.generation == disk.manifest.generation
            && next.appliedGeneration == op.generation
            && (next.RequiresApply() <==> !Acknowledges(disk.manifest, op))
  {
  }

  lemma ClearedOnlyByAcknowledgement(disk: Disk, event: Event, ips: IpText)
    requires ManifestOk(disk.manifest) && disk.manifest.RequiresApply()
    requires !After(disk, event, ips).manifest.RequiresApply()
    ensures Acknowledges(disk.manifest, event.op)
  {
    ManifestAfter(disk, event, ips);
    if IsMutation(event.op) {
      MutationNeverClears(disk, event, ips);
    } else if IsApply(event.op) {
      ApplyClearsIff(disk, event.op, ips);
    } else {
      ManifestChangesLast(disk, event.op, ips);
      CutIsInTrace(disk, Trace(disk, event.op, ips), event.crash);
    }
  }

  lemma MutationNeverClears(disk: Disk, event: Event, ips: IpText)
    requires ManifestOk(disk.manifest) && disk.manifest.RequiresApply() && IsMutation(event.op)
    ensures After(disk, event, ips).manifest.RequiresApply()
  {
    ManifestAfter(disk, event, ips);
    if Succeeds(disk, event.op, ips) {
      MutationIsVersioned(disk, event.op, ips);
    }
  }

  /** Some event of the run acknowledged the state it found. */
  ghost predicate SomeAcknowledged(disk: Disk, events: seq<Event>, ips: IpText)
    decreases |events|
  {
    events != []
      && (Acknowledges(disk.manifest, events[0].op) || SomeAcknowledged(After(disk, events[0], ips), events[1..], ips))
  }

  lemma {:induction false} PendingUntilAcknowledged(disk: Disk, events: seq<Event>, ips: IpText)
    requires Inv(disk, ips) && AllowedRun(disk, events, ips) && disk.manifest.RequiresApply()
    ensures Run(disk, events, ips).manifest.RequiresApply() || SomeAcknowledged(disk, events, ips)
    decreases |events|
  {
    if events != [] {
      AfterKeepsInv(disk, events[0], ips);
      if After(disk, events[0], ips).manifest.RequiresApply() {
        PendingUntilAcknowledged(After(disk, events[0], ips), events[1..], ips);
      } else {
        ClearedOnlyByAcknowledgement(disk, events[0], ips);
      }
    }
  }

  /** After a committed change, activation stays pending through any run, crashes included, until some
      apply reports the generation and bases it finds as activated. */
  lemma ChangeStaysPending(disk: Disk, op: Op, events: seq<Event>, ips: IpText)
    requires Inv(disk, ips) && IsMutation(op) && Succeeds(disk, op, ips)
    requires AllowedRun(Last(disk, Trace(disk, op, ips)), events, ips)
    ensures var changed := Last(disk, Trace(disk, op, ips));
            Run(changed, events, ips).manifest.RequiresApply() || SomeAcknowledged(changed, events, ips)
  {
    MutationIsVersioned(disk, op, ips);
    AfterKeepsInv(disk, Event(op, None), ips);
    PendingUntilAcknowledged(Last(disk, Trace(disk, op, ips)), events, ips);
  }

  // ------------------------------------------------ revisions

  function RecordOf(records: seq<Record>, id: string): Option<Record> {
    var index := IndexOf(records, id);
    if index.None? then None else Some(records[index.value])
  }

  /** With distinct ids, the record of an id is the only one in the list. */
  lemma RecordOfIff(records: seq<Record>, id: string, record: Record)
    requires UniqueIds(records)
    ensures RecordOf(records, id) == Some(record) <==> record in records && record.id == id
  {
  }

  lemma RecordOfPlaced(records: seq<Record>, record: Record, id: string)
    requires UniqueIds(records)
    ensures RecordOf(Placed(records, record), id) == if id == record.id then Some(record) else RecordOf(records, id)
  {
    var placed := Placed(records, record);
    PlacedContents(records, record);
    RecordOfIff(placed, record.id, record);
    if id != record.id {
      if RecordOf(records, id).Some? {
        RecordOfIff(records, id, RecordOf(records, id).value);
        RecordOfIff(placed, id, RecordOf(records, id).value);
      } else if RecordOf(placed, id).Some? {
        RecordOfIff(placed, id, RecordOf(placed, id).value);
        RecordOfIff(records, id, RecordOf(placed, id).value);
      }
    }
  }

  lemma RecordOfRemoved(records: seq<Record>, index: nat, id: string)
    requires UniqueIds(records) && index < |records|
    ensures RecordOf(records[..index] + records[index + 1..], id) ==
            if id == records[index].id then None else RecordOf(records, id)
  {
    var kept := records[..index] + records[index + 1..];
    assert forall i | 0 <= i < |kept| :: kept[i] == records[if i < index then i else i + 1];
    assert UniqueIds(kept);
    if RecordOf(kept, id).Some? {
      var record := RecordOf(kept, id).value;
      RecordOfIff(kept, id, record);
      RecordOfIff(records, id, record);
    }
    if RecordOf(records, id).Some? && id != records[index].id {
      var i := IndexOf(records, id).value;
      assert kept[if i < index then i else i - 1] == records[i];
      RecordOfIff(kept, id, records[i]);
    }
  }

  lemma RecordOfToggled(records: seq<Record>, index: nat, record: Record, id: string)
    requires UniqueIds(records) && index < |records| && records[index].id == record.id
    ensures RecordOf(records[index := record], id) == if id == record.id then Some(record) else RecordOf(records, id)
  {
    var toggled := records[index := record];
    assert UniqueIds(toggled);
    assert toggled[index] == record;
    RecordOfIff(toggled, record.id, record);
    if id != record.id {
      if RecordOf(records, id).Some? {
        var i := IndexOf(records, id).value;
        assert toggled[i] == records[i];
        RecordOfIff(toggled, id, records[i]);
      } else {
        assert forall i | 0 <= i < |toggled| :: toggled[i].id == records[i].id;
      }
    }
  }

  /** The revision of a base, or zero when there is none. */
  function Revision(disk: Disk, id: string): nat {
    var record := RecordOf(disk.manifest.bases, id);
    if record.None? then 0 else record.value.revision
  }

  predicate Present(disk: Disk, id: string) {
    RecordOf(disk.manifest.bases, id).Some?
  }

  /** A successful update found the expected revision and leaves the next one. */
  lemma UpdateRaisesRevision(disk: Disk, op: Op, ips: IpText)
    requires Inv(disk, ips) && op.OpUpdate? && Succeeds(disk, op, ips)
    ensures Present(disk, op.request.id) && Revision(disk, op.request.id) == op.expected
    ensures var next := Last(disk, Trace(disk, op, ips));
            Present(next, op.request.id) && Revision(next, op.request.id) == op.expected + 1
  {
    var bases := disk.manifest.bases;
    var previous := bases[IndexOf(bases, op.request.id).value];
    ReplaceSuccess(disk, op.request, op.source, op.input, Some(previous), op.now, op.leaf, op.fault, ips);
    var outcome := Update(disk, op.request, op.expected, op.source, op.input, op.now, op.leaf, op.fault, ips);
    var record := outcome.result.value;
    RecordOfPlaced(bases, record, op.request.id);
  }

  /** The operation leaves the base's revision, if it leaves the base, no lower. */
  ghost predicate KeepsRevision(disk: Disk, next: Disk, id: string) {
    Present(disk, id) && Present(next, id) ==> Revision(disk, id) <= Revision(next, id)
  }

  lemma PlacingKeepsRevision(disk: Disk, next: Disk, record: Record, id: string)
    requires UniqueIds(disk.manifest.bases) && next.manifest == WithRecord(disk.manifest, record)
    requires Present(disk, record.id) ==> Revision(disk, record.id) <= record.revision
    ensures KeepsRevision(disk, next, id)
  {
    RecordOfPlaced(disk.manifest.bases, record, id);
  }

  lemma CreateKeepsRevision(disk: Disk, op: Op, id: string, ips: IpText)
    requires Inv(disk, ips) && op.OpCreate? && Succeeds(disk, op, ips)
    ensures KeepsRevision(disk, Last(disk, Trace(disk, op, ips)), id)
  {
    ReplaceSuccess(disk, op.request, op.source, op.input, None, op.now, op.leaf, op.fault, ips);
    var record := Create(disk, op.request, op.source, op.input, op.now, op.leaf, op.fault, ips).result.value;
    PlacingKeepsRevision(disk, Last(disk, Trace(disk, op, ips)), record, id);
  }

  lemma UpdateKeepsRevision(disk: Disk, op: Op, id: string, ips: IpText)
    requires Inv(disk, ips) && op.OpUpdate? && Succeeds(disk, op, ips)
    ensures KeepsRevision(disk, Last(disk, Trace(disk, op, ips)), id)
  {
    var previous := disk.manifest.bases[IndexOf(disk.manifest.bases, op.request.id).value];
    ReplaceSuccess(disk, op.request, op.source, op.input, Some(previous), op.now, op.leaf, op.fault, ips);
    var outcome := Update(disk, op.request, op.expected, op.source, op.input, op.now, op.leaf, op.fault, ips);
    var record := outcome.result.value;
    PlacingKeepsRevision(disk, Last(disk, Trace(disk, op, ips)), record, id);
  }

  lemma DeleteKeepsRevision(disk: Disk, removed: string, now: nat, fault: Fault, id: string)
    requires UniqueIds(disk.manifest.bases) && Delete(disk, removed, now, fault).result.Ok?
    ensures KeepsRevision(disk, Last(disk, Delete(disk, removed, now, fault).trace), id)
  {
    RecordOfRemoved(disk.manifest.bases, IndexOf(disk.manifest.bases, removed).value, id);
  }

  lemma SetEnabledKeepsRevision(disk: Disk, toggled: string, enabled: bool, revision: Option<nat>, now: nat,
                                fault: Fault, id: string)
    requires UniqueIds(disk.manifest.bases) && SetEnabled(disk, toggled, enabled, revision, now, fault).result.Ok?
    ensures KeepsRevision(disk, Last(disk, SetEnabled(disk, toggled, enabled, revision, now, fault).trace), id)
  {
    var index := IndexOf(disk.manifest.bases, toggled).value;
    RecordOfToggled(disk.manifest.bases, index, disk.manifest.bases[index].(enabled := enabled, updatedAt := now), id);
  }

  lemma SameBasesKeepRevision(disk: Disk, op: Op, id: string, ips: IpText)
    requires !IsMutation(op) && Succeeds(disk, op, ips)
    ensures KeepsRevision(disk, Last(disk, Trace(disk, op, ips)), id)
  {
    if op.OpCollect? {
      CollectManifests(disk, op.listing);
    } else {
      ApplyClearsIff(disk, op, ips);
    }
  }

  /** While a base stays, its revision never falls. */
  lemma RevisionNeverFalls(disk: Disk, event: Event, id: string, ips: IpText)
    requires Inv(disk, ips) && Present(disk, id) && Present(After(disk, event, ips), id)
    ensures Revision(disk, id) <= Revision(After(disk, event, ips), id)
  {
    ManifestAfter(disk, event, ips);
    if Succeeds(disk, event.op, ips) {
      if event.op.OpCreate? {
        CreateKeepsRevision(disk, event.op, id, ips);
      } else if event.op.OpUpdate? {
        UpdateKeepsRevision(disk, event.op, id, ips);
      } else if event.op.OpDelete? {
        DeleteKeepsRevision(disk, event.op.id, event.op.now, event.op.fault, id);
      } else if event.op.OpSetEnabled? {
        var op := event.op;
        SetEnabledKeepsRevision(disk, op.id, op.enabled, op.revision, op.now, op.fault, id);
      } else {
        SameBasesKeepRevision(disk, event.op, id, ips);
      }
    }
  }

  ghost predicate PresentThroughout(disk: Disk, events: seq<Event>, id: string, ips: IpText)
    decreases |events|
  {
    Present(disk, id) && (events == [] || PresentThroughout(After(disk, events[0], ips), events[1..], id, ips))
  }

  lemma {:induction false} RevisionOverRun(disk: Disk, events: seq<Event>, id: string, ips: IpText)
    requires Inv(disk, ips) && AllowedRun(disk, events, ips) && PresentThroughout(disk, events, id, ips)
    ensures Revision(disk, id) <= Revision(Run(disk, events, ips), id)
    decreases |events|
  {
    if events != [] {
      AfterKeepsInv(disk, events[0], ips);
      RevisionNeverFalls(disk, events[0], id, ips);
      RevisionOverRun(After(disk, events[0], ips), events[1..], id, ips);
    }
  }

  // ------------------------------------------------ what an operation does to each base

  predicate Targets(op: Op, id: string) {
    match op
    case OpCreate(request, source, input, now, leaf, fault) => request.id == id
    case OpUpdate(request, expected, source, input, now, leaf, fault) => request.id == id
    case OpDelete(target, now, fault) => target == id
    case OpSetEnabled(target, enabled, revision, now, fault) => target == id
    case _ => false
  }

  lemma SaveLeavesOthers(disk: Disk, op: Op, id: string, ips: IpText)
    requires UniqueIds(disk.manifest.bases) && Succeeds(disk, op, ips) && !Targets(op, id)
    requires op.OpDelete? || op.OpSetEnabled?
    ensures RecordOf(Last(disk, Trace(disk, op, ips)).manifest.bases, id) == RecordOf(disk.manifest.bases, id)
  {
    var bases, index := disk.manifest.bases, IndexOf(disk.manifest.bases, op.id).value;
    if op.OpDelete? {
      RecordOfRemoved(bases, index, id);
    } else {
      RecordOfToggled(bases, index, bases[index].(enabled := op.enabled, updatedAt := op.now), id);
    }
  }

  lemma ReplaceLeavesOthers(disk: Disk, op: Op, id: string, ips: IpText)
    requires UniqueIds(disk.manifest.bases) && Succeeds(disk, op, ips) && !Targets(op, id)
    requires op.OpCreate? || op.OpUpdate?
    ensures RecordOf(Last(disk, Trace(disk, op, ips)).manifest.bases, id) == RecordOf(disk.manifest.bases, id)
  {
    var previous := if op.OpCreate? then None else RecordOf(disk.manifest.bases, op.request.id);
    ReplaceSuccess(disk, op.request, op.source, op.input, previous, op.now, op.leaf, op.fault, ips);
    var record := Replace(disk, op.request, op.source, op.input, previous, op.now, op.leaf, op.fault, ips).result.value;
    RecordOfPlaced(disk.manifest.bases, record, id);
  }

  /** No event, crashed or not, touches the record of a base it does not target. */
  lemma OnlyTargetChanges(disk: Disk, event: Event, id: string, ips: IpText)
    requires UniqueIds(disk.manifest.bases) && !Targets(event.op, id)
    ensures RecordOf(After(disk, event, ips).manifest.bases, id) == RecordOf(disk.manifest.bases, id)
  {
    ManifestAfter(disk, event, ips);
    if Succeeds(disk, event.op, ips) {
      if event.op.OpDelete? || event.op.OpSetEnabled? {
        SaveLeavesOthers(disk, event.op, id, ips);
      } else if event.op.OpCreate? || event.op.OpUpdate? {
        ReplaceLeavesOthers(disk, event.op, id, ips);
      } else if event.op.OpCollect? {
        CollectManifests(disk, event.op.listing);
      } else {
        ApplyClearsIff(disk, event.op, ips);
      }
    }
  }

  /** A created base was absent and starts at revision one, with what the caller asked for. */
  lemma CreateMakesRecord(disk: Disk, op: Op, ips: IpText)
    requires Inv(disk, ips) && op.OpCreate? && Succeeds(disk, op, ips)
    ensures !Present(disk, op.request.id)
    ensures var next := Last(disk, Trace(disk, op, ips));
            && Present(next, op.request.id)
            && var record := RecordOf(next.manifest.bases, op.request.id).value;
               && record.revision == 1 && record.createdAt == record.updatedAt == op.now
               && record.name == op.request.name && record.sourceValue == op.request.sourceValue
               && record.enabled == op.request.enabled && record.generation.source == op.source
               && Stored(next.dirs, record)
  {
    ReplaceSuccess(disk, op.request, op.source, op.input, None, op.now, op.leaf, op.fault, ips);
    PreparedIsSound(disk, op.source, op.input, ips);
    var record := Create(disk, op.request, op.source, op.input, op.now, op.leaf, op.fault, ips).result.value;
    RecordOfPlaced(disk.manifest.bases, record, op.request.id);
  }

  /** An updated base keeps its creation time, moves to the next revision and takes what the caller asked for. */
  lemma UpdateReplacesRecord(disk: Disk, op: Op, ips: IpText)
    requires Inv(disk, ips) && op.OpUpdate? && Succeeds(disk, op, ips)
    ensures Present(disk, op.request.id)
    ensures var next := Last(disk, Trace(disk, op, ips));
            && Present(next, op.request.id)
            && var before, record := RecordOf(disk.manifest.bases, op.request.id).value,
                                     RecordOf(next.manifest.bases, op.request.id).value;
               && record.revision == before.revision + 1 && record.createdAt == before.createdAt
               && record.updatedAt == op.now
               && record.name == op.request.name && record.sourceValue == op.request.sourceValue
               && record.enabled == op.request.enabled && record.generation.source == op.source
               && Stored(next.dirs, record)
  {
    var previous := disk.manifest.bases[IndexOf(disk.manifest.bases, op.request.id).value];
    ReplaceSuccess(disk, op.request, op.source, op.input, Some(previous), op.now, op.leaf, op.fault, ips);
    PreparedIsSound(disk, op.source, op.input, ips);
    var outcome := Update(disk, op.request, op.expected, op.source, op.input, op.now, op.leaf, op.fault, ips);
    var record := outcome.result.value;
    RecordOfPlaced(disk.manifest.bases, record, op.request.id);
  }

  /** A deleted base is gone, and its record is returned. */
  lemma DeleteRemovesRecord(disk: Disk, id: string, now: nat, fault: Fault)
    requires UniqueIds(disk.manifest.bases) && Delete(disk, id, now, fault).result.Ok?
    ensures RecordOf(disk.manifest.bases, id) == Some(Delete(disk, id, now, fault).result.value)
    ensures RecordOf(Last(disk, Delete(disk, id, now, fault).trace).manifest.bases, id) == None
  {
    RecordOfRemoved(disk.manifest.bases, IndexOf(disk.manifest.bases, id).value, id);
  }

  /** Enabling or disabling changes the flag and the time, and no revision. */
  lemma SetEnabledChangesFlag(disk: Disk, id: string, enabled: bool, revision: Option<nat>, now: nat, fault: Fault)
    requires UniqueIds(disk.manifest.bases) && SetEnabled(disk, id, enabled, revision, now, fault).result.Ok?
    ensures RecordOf(disk.manifest.bases, id).Some?
    ensures RecordOf(Last(disk, SetEnabled(disk, id, enabled, revision, now, fault).trace).manifest.bases, id)
            == Some(RecordOf(disk.manifest.bases, id).value.(enabled := enabled, updatedAt := now))
  {
    var index := IndexOf(disk.manifest.bases, id).value;
    RecordOfToggled(disk.manifest.bases, index, disk.manifest.bases[index].(enabled := enabled, updatedAt := now), id);
  }

  // ------------------------------------------------ one update for each revision

  /** The event is a deletion that takes the base out of the manifest. */
  ghost predicate Deletes(disk: Disk, event: Event, id: string, ips: IpText) {
    && event.op.OpDelete? && event.op.id == id && Succeeds(disk, event.op, ips)
    && Present(disk, id) && !Present(After(disk, event, ips), id)
  }

  lemma ReplacingLeavesPresent(disk: Disk, op: Op, ips: IpText)
    requires Inv(disk, ips) && (op.OpCreate? || op.OpUpdate?) && Succeeds(disk, op, ips)
    ensures Present(Last(disk, Trace(disk, op, ips)), op.request.id)
  {
    if op.OpCreate? {
      CreateMakesRecord(disk, op, ips);
    } else {
      UpdateReplacesRecord(disk, op, ips);
    }
  }

  /** A base leaves the manifest only by a successful deletion of it. */
  lemma LeavesByDeletion(disk: Disk, event: Event, id: string, ips: IpText)
    requires Inv(disk, ips) && Present(disk, id) && !Present(After(disk, event, ips), id)
    ensures Deletes(disk, event, id, ips)
  {
    if !Targets(event.op, id) {
      OnlyTargetChanges(disk, event, id, ips);
    } else {
      ManifestAfter(disk, event, ips);
      if Succeeds(disk, event.op, ips) {
        TargetLeavesByDeletion(disk, event.op, id, ips);
      }
    }
  }

  lemma TargetLeavesByDeletion(disk: Disk, op: Op, id: string, ips: IpText)
    requires Inv(disk, ips) && Targets(op, id) && Succeeds(disk, op, ips)
    ensures Present(Last(disk, Trace(disk, op, ips)), id) || op.OpDelete?
  {
    if op.OpCreate? || op.OpUpdate? {
      ReplacingLeavesPresent(disk, op, ips);
    } else if op.OpSetEnabled? {
      SetEnabledChangesFlag(disk, op.id, op.enabled, op.revision, op.now, op.fault);
    }
  }

  /** Some event of the run deletes the base. */
  ghost predicate SomeDeleted(disk: Disk, events: seq<Event>, id: string, ips: IpText)
    decreases |events|
  {
    events != []
      && (Deletes(disk, events[0], id, ips) || SomeDeleted(After(disk, events[0], ips), events[1..], id, ips))
  }

  lemma {:induction false} AbsentByDeletion(disk: Disk, events: seq<Event>, id: string, ips: IpText)
    requires Inv(disk, ips) && AllowedRun(disk, events, ips) && Present(disk, id)
    ensures PresentThroughout(disk, events, id, ips) || SomeDeleted(disk, events, id, ips)
    decreases |events|
  {
    if events != [] {
      if Present(After(disk, events[0], ips), id) {
        AfterKeepsInv(disk, events[0], ips);
        AbsentByDeletion(After(disk, events[0], ips), events[1..], id, ips);
      } else {
        LeavesByDeletion(disk, events[0], id, ips);
      }
    }
  }

  /**
   * Two updates of a base that expect the same revision both succeed only if some event between them,
   * crashed or not, deleted the base: while it exists, at most one of them does.
   */
  lemma OneUpdatePerRevision(disk: Disk, first: Op, events: seq<Event>, second: Op, ips: IpText)
    requires Inv(disk, ips) && first.OpUpdate? && second.OpUpdate?
    requires first.request.id == second.request.id && first.expected == second.expected
    requires Succeeds(disk, first, ips) && AllowedRun(Last(disk, Trace(disk, first, ips)), events, ips)
    requires Succeeds(Run(Last(disk, Trace(disk, first, ips)), events, ips), second, ips)
    ensures SomeDeleted(Last(disk, Trace(disk, first, ips)), events, first.request.id, ips)
  {
    var updated := Last(disk, Trace(disk, first, ips));
    AfterKeepsInv(disk, Event(first, None), ips);
    UpdateRaisesRevision(disk, first, ips);
    RunKeepsInv(updated, events, ips);
    UpdateRaisesRevision(Run(updated, events, ips), second, ips);
    AbsentByDeletion(updated, events, first.request.id, ips);
    if PresentThroughout(updated, events, first.request.id, ips) {
      RevisionOverRun(updated, events, first.request.id, ips);
    }
  }
}

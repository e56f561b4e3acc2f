/**
 * What the list store keeps on disk, and the durable states each operation passes through. An
 * operation's trace holds the disk after each of its durable writes, so a crash leaves the disk it
 * started from or some disk of the trace.
 */
module GeoDisk {

  import opened Collections
  import opened GeoLists
  import opened GeoSource
  import opened NetworkText
  import opened Ordered
  import opened Text
  import opened Wrappers

  const U64_MAX: nat := 0xFFFF_FFFF_FFFF_FFFF
  const MAX_TOTAL_SOURCE_BYTES := 64 * 1024 * 1024
  const MAX_BASES := 32
  const MAX_ID_BYTES := 64
  const MAX_NAME_BYTES := 128
  const MAX_SOURCE_VALUE_BYTES := 2048
  const FILES := 6

  datatype StoreError = InvalidId | BadInput | OverLimit | NotFound | AlreadyExists | Conflict | Io

  function StoreErrorOf(error: GeoError): StoreError {
    match error case LimitExceeded => OverLimit case InvalidInput => BadInput
  }

  /** The contents of a generation directory: the source and the lists made from it. */
  datatype Generation = Generation(source: string, lists: Lists)

  /** A directory of a base; a temporary one is not yet published. */
  datatype Path = Path(base: string, leaf: nat, temp: bool)

  /** A directory holding the first `written` of a generation's six files, the source first. */
  datatype Dir = Dir(generation: Generation, written: nat) {
    function SourceBytes(): nat {
      if written >= 1 then Bytes(generation.source) else 0
    }
  }

  /** A base's entry in the manifest. The stored counts and fingerprints stand as the generation itself. */
  datatype Record = Record(id: string, name: string, sourceValue: string, enabled: bool,
                           createdAt: nat, updatedAt: nat, revision: nat, generation: Generation, leaf: nat)

  datatype Manifest = Manifest(updatedAt: nat, generation: nat, appliedGeneration: nat,
                               bases: seq<Record>, appliedBases: seq<Record>) {
    predicate RequiresApply() {
      generation != appliedGeneration || bases != appliedBases
    }
  }

  datatype Disk = Disk(dirs: map<Path, Dir>, manifest: Manifest)

  const EMPTY_DISK: Disk := Disk(map[], Manifest(0, 0, 0, [], []))

  datatype Outcome<T> = Outcome(trace: seq<Disk>, result: Result<T, StoreError>)

  function Last(disk: Disk, trace: seq<Disk>): Disk {
    if trace == [] then disk else trace[|trace| - 1]
  }

  // ------------------------------------------------ checks

  predicate IdChar(c: char) {
    'a' <= c <= 'z' || IsDigit(c) || c == '-'
  }

  predicate ValidId(id: string) {
    && 1 <= |id| <= MAX_ID_BYTES
    && (forall i | 0 <= i < |id| :: IdChar(id[i]))
    && id[0] != '-' && id[|id| - 1] != '-'
  }

  datatype Request = Request(id: string, name: string, sourceValue: string, enabled: bool)

  function CheckRequest(request: Request): Option<StoreError> {
    if !ValidId(request.id) then Some(InvalidId)
    else if Trim(request.name) == "" || Bytes(request.name) > MAX_NAME_BYTES then Some(BadInput)
    else if Bytes(request.sourceValue) > MAX_SOURCE_VALUE_BYTES then Some(BadInput)
    else None
  }

  function CheckRecords(records: seq<Record>, seen: set<string>): Option<StoreError> {
    if records == [] then None
    else if !ValidId(records[0].id) then Some(InvalidId)
    else if records[0].id in seen then Some(BadInput)
    else CheckRecords(records[1..], seen + {records[0].id})
  }

  function CheckSnapshot(records: seq<Record>): Option<StoreError> {
    if |records| > MAX_BASES then Some(OverLimit) else CheckRecords(records, {})
  }

  function NextGeneration(generation: nat): Option<nat> {
    if generation >= U64_MAX then None else Some(generation + 1)
  }

  function IndexOf(records: seq<Record>, id: string): (r: Option<nat>)
    ensures r.Some? ==> r.value < |records| && records[r.value].id == id
    ensures r.None? <==> forall i | 0 <= i < |records| :: records[i].id != id
  {
    if records == [] then None
    else if records[0].id == id then Some(0)
    else
      var rest := IndexOf(records[1..], id);
      if rest.None? then None else Some(rest.value + 1)
  }

  function Sizes(dirs: map<Path, Dir>): map<Path, nat> {
    map path | path in dirs :: dirs[path].SourceBytes()
  }

  /** Bytes of source files in all directories, published or not. */
  ghost function RetainedBytes(dirs: map<Path, Dir>): nat {
    Sum(Sizes(dirs))
  }

  // ------------------------------------------------ records and their order

  function DirOf(record: Record): Path {
    Path(record.id, record.leaf, false)
  }

  /** A stable insertion: after every record that does not come later. */
  function InsertById(records: seq<Record>, record: Record): seq<Record> {
    if records == [] then [record]
    else if Before(record.id, records[0].id) then [record] + records
    else [records[0]] + InsertById(records[1..], record)
  }

  function SortById(records: seq<Record>): seq<Record> {
    if records == [] then [] else InsertById(SortById(records[..|records| - 1]), records[|records| - 1])
  }

  /** The record replaces the one with its id, or joins the list, which is then sorted. */
  function Placed(records: seq<Record>, record: Record): seq<Record> {
    match IndexOf(records, record.id)
    case Some(i) => records[i := record]
    case None => SortById(records + [record])
  }

  function NewRecord(request: Request, generation: Generation, previous: Option<Record>, now: nat, leaf: nat): Record {
    Record(request.id, request.name, request.sourceValue, request.enabled,
           if previous.Some? then previous.value.createdAt else now, now,
           if previous.Some? then previous.value.revision + 1 else 1, generation, leaf)
  }

  // ------------------------------------------------ publishing a generation

  /** What the file system may do to an operation besides letting it succeed. */
  datatype Fault = NoFault | WriteFails(done: nat) | RenameFails | SaveFails

  ghost function Prepare(dirs: map<Path, Dir>, source: string, input: Input, ips: IpText)
      : Result<Generation, StoreError> {
    var parsed := Read(source, ips);
    if parsed.Err? then Err(StoreErrorOf(parsed.error))
    else
      var lists := Validated(parsed.value, input, ips);
      if lists.Err? then Err(StoreErrorOf(lists.error))
      else if RetainedBytes(dirs) + Bytes(source) > MAX_TOTAL_SOURCE_BYTES then Err(OverLimit)
      else Ok(Generation(source, lists.value))
  }

  function Writing(disk: Disk, temp: Path, generation: Generation, written: nat): Disk {
    disk.(dirs := disk.dirs[temp := Dir(generation, written)])
  }

  /** The directory is made, then its files are written one by one. */
  function WriteTrace(disk: Disk, temp: Path, generation: Generation, count: nat): (trace: seq<Disk>)
    ensures |trace| == count + 1 && forall k | 0 <= k <= count :: trace[k] == Writing(disk, temp, generation, k)
  {
    seq(count + 1, k requires 0 <= k <= count => Writing(disk, temp, generation, k))
  }

  function Publish(disk: Disk, record: Record, generation: nat, fault: Fault): Outcome<Record> {
    var temp, final := DirOf(record).(temp := true), DirOf(record);
    if temp in disk.dirs then Outcome([], Err(Io))
    else if fault.WriteFails? && fault.done < FILES then
      Outcome(WriteTrace(disk, temp, record.generation, fault.done) + [disk], Err(Io))
    else if final in disk.dirs || fault.RenameFails? then
      Outcome(WriteTrace(disk, temp, record.generation, FILES) + [disk], Err(Io))
    else
      var published := disk.(dirs := disk.dirs[final := Dir(record.generation, FILES)]);
      var written := WriteTrace(disk, temp, record.generation, FILES) + [published];
      if fault.SaveFails? then Outcome(written, Err(Io))
      else
        var bases := Placed(disk.manifest.bases, record);
        var next := disk.manifest.(bases := bases, updatedAt := record.updatedAt, generation := generation);
        Outcome(written + [published.(manifest := next)], Ok(record))
  }

  function PublishPrepared(disk: Disk, request: Request, prepared: Result<Generation, StoreError>,
                           previous: Option<Record>, now: nat, leaf: nat, fault: Fault): Outcome<Record> {
    if prepared.Err? then Outcome([], Err(prepared.error))
    else
      var generation := NextGeneration(disk.manifest.generation);
      if generation.None? then Outcome([], Err(OverLimit))
      else Publish(disk, NewRecord(request, prepared.value, previous, now, leaf), generation.value, fault)
  }

  ghost function Replace(disk: Disk, request: Request, source: string, input: Input, previous: Option<Record>,
                         now: nat, leaf: nat, fault: Fault, ips: IpText): Outcome<Record> {
    PublishPrepared(disk, request, Prepare(disk.dirs, source, input, ips), previous, now, leaf, fault)
  }

  // ------------------------------------------------ the operations

  ghost function Create(disk: Disk, request: Request, source: string, input: Input, now: nat, leaf: nat, fault: Fault,
                        ips: IpText): Outcome<Record> {
    var error := CheckRequest(request);
    if error.Some? then Outcome([], Err(error.value))
    else if IndexOf(disk.manifest.bases, request.id).Some? then Outcome([], Err(AlreadyExists))
    else if |disk.manifest.bases| >= MAX_BASES then Outcome([], Err(OverLimit))
    else Replace(disk, request, source, input, None, now, leaf, fault, ips)
  }

  ghost function Update(disk: Disk, request: Request, expected: nat, source: string, input: Input, now: nat, leaf: nat,
                        fault: Fault, ips: IpText): Outcome<Record> {
    var error, index := CheckRequest(request), IndexOf(disk.manifest.bases, request.id);
    if error.Some? then Outcome([], Err(error.value))
    else if index.None? then Outcome([], Err(NotFound))
    else if disk.manifest.bases[index.value].revision != expected then Outcome([], Err(Conflict))
    else Replace(disk, request, source, input, Some(disk.manifest.bases[index.value]), now, leaf, fault, ips)
  }

  function Save<T>(disk: Disk, next: Manifest, result: T, fault: Fault): Outcome<T> {
    if fault.SaveFails? then Outcome([], Err(Io)) else Outcome([disk.(manifest := next)], Ok(result))
  }

  function Delete(disk: Disk, id: string, now: nat, fault: Fault): Outcome<Record> {
    var bases := disk.manifest.bases;
    var index, generation := IndexOf(bases, id), NextGeneration(disk.manifest.generation);
    if !ValidId(id) then Outcome([], Err(InvalidId))
    else if index.None? then Outcome([], Err(NotFound))
    else if generation.None? then Outcome([], Err(OverLimit))
    else
      var kept := bases[..index.value] + bases[index.value + 1..];
      Save(disk, disk.manifest.(bases := kept, updatedAt := now, generation := generation.value),
           bases[index.value], fault)
  }

  function SetEnabled(disk: Disk, id: string, enabled: bool, expected: Option<nat>, now: nat,
                      fault: Fault): Outcome<Record> {
    var bases := disk.manifest.bases;
    var index, generation := IndexOf(bases, id), NextGeneration(disk.manifest.generation);
    if !ValidId(id) then Outcome([], Err(InvalidId))
    else if index.None? then Outcome([], Err(NotFound))
    else if expected.Some? && bases[index.value].revision != expected.value then Outcome([], Err(Conflict))
    else if generation.None? then Outcome([], Err(OverLimit))
    else
      var record := bases[index.value].(enabled := enabled, updatedAt := now);
      Save(disk,
           disk.manifest.(bases := bases[index.value := record], updatedAt := now, generation := generation.value),
           record, fault)
  }

  function MarkApplied(disk: Disk, expected: nat, now: nat, fault: Fault): Outcome<Manifest> {
    var m := disk.manifest;
    if m.generation != expected then Outcome([], Err(Conflict))
    else
      var next := m.(appliedBases := m.bases, appliedGeneration := expected, updatedAt := now);
      Save(disk, next, next, fault)
  }

  function CommitAppliedSnapshot(disk: Disk, expected: nat, activated: seq<Record>, now: nat,
                                 fault: Fault): Outcome<Manifest> {
    var m, error := disk.manifest, CheckSnapshot(activated);
    if expected > m.generation then Outcome([], Err(Conflict))
    else if error.Some? then Outcome([], Err(error.value))
    else
      var next := m.(appliedBases := activated, appliedGeneration := expected, updatedAt := now);
      Save(disk, next, next, fault)
  }

  // ------------------------------------------------ collection

  /** The directories that desired or applied records point at. */
  function Referenced(manifest: Manifest): set<Path> {
    set record | record in manifest.bases + manifest.appliedBases :: DirOf(record)
  }

  function CollectTrace(disk: Disk, listing: seq<Path>): seq<Disk>
    decreases |listing|
  {
    if listing == [] then []
    else if listing[0] in Referenced(disk.manifest) then CollectTrace(disk, listing[1..])
    else
      var next := disk.(dirs := disk.dirs - {listing[0]});
      [next] + CollectTrace(next, listing[1..])
  }

  /** Directories are visited in the order in which the file system lists them; a file-system call may
      fail after `failAfter` removals. */
  function Collect(disk: Disk, listing: seq<Path>, failAfter: Option<nat>): Outcome<nat> {
    var trace := CollectTrace(disk, listing);
    if failAfter.Some? && failAfter.value <= |trace| then Outcome(trace[..failAfter.value], Err(Io))
    else Outcome(trace, Ok(|trace|))
  }

  /** Each directory of the disk, once. */
  ghost predicate ListsAll(disk: Disk, listing: seq<Path>) {
    AllDifferent(listing) && forall path :: path in listing <==> path in disk.dirs
  }
}

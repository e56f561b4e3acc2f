/** The benchmark run: up to six workers share one locked job and one queue,
    a monitor may cancel them, and a coordinator reports when all have left. */
module BenchScheduler {
  import opened Wrappers
  import opened Collections
  import opened ServiceProbes
  import opened Text

  const MAX_WORKERS: nat := 6
  const PREFLIGHT_FAILURE_LIMIT: nat := 20
  const PREFLIGHT_ERROR_BYTES: nat := 2048
  const PREFLIGHT_PHASE_CHARS: nat := 32

  datatype Profile = Profile(id: nat, raw: string)

  /** What the scheduler looks at in a result: whose it is, and for which required
      prefixes it counts as good. */
  datatype Outcome = Outcome(profileRaw: string, goodFor: set<Required>)

  function OutcomeOf(result: BenchResult): Outcome {
    Outcome(result.profileRaw, set required: Required | AdaptiveResultIsGood(result, required))
  }

  datatype FinishReason = RunCancelled | TargetReached | Exhausted

  datatype FailureEntry = FailureEntry(profileId: nat, phase: string, error: string)

  datatype SearchProgress = SearchProgress(
    targetGood: nat, required: Required, foundGood: nat, preflightCompleted: nat, preflightRejected: nat,
    quickCompleted: nat, finishReason: Option<FinishReason>)

  datatype Job = Job(
    running: bool, total: nat, completed: nat, current: Option<nat>, active: seq<Profile>,
    results: seq<Outcome>, search: Option<SearchProgress>, preflightFailures: seq<FailureEntry>,
    memoryPressure: bool, cancelRequested: bool)

  /** A number of workers is allowed when it is at most six, and more than one only if that many were
      asked for and there are that many profiles. */
  predicate AllowedWorkers(count: nat, concurrency: nat, profiles: nat) {
    1 <= count <= MAX_WORKERS && (count == 1 || (count <= concurrency && count <= profiles))
  }

  /** The largest allowed number of workers. */
  function WorkerCount(concurrency: nat, profiles: nat): (count: nat)
    ensures AllowedWorkers(count, concurrency, profiles)
    ensures forall other: nat | AllowedWorkers(other, concurrency, profiles) :: other <= count
  {
    var clamped := if concurrency < 1 then 1 else if concurrency > MAX_WORKERS then MAX_WORKERS else concurrency;
    var available := if profiles < 1 then 1 else profiles;
    if clamped <= available then clamped else available
  }

  // ---------------------------------------------- the critical sections

  datatype Admission = Leave | Wait | Admit(profile: Profile)

  /** What a worker holding the job lock does next. */
  function AdmissionOf(job: Job, queue: seq<Profile>, cancelled: bool): Admission {
    if cancelled then Leave
    else if job.search.Some? && job.search.value.foundGood >= job.search.value.targetGood then Leave
    else if job.search.Some? && job.search.value.foundGood + |job.active| >= job.search.value.targetGood then Wait
    else if queue == [] then Leave
    else Admit(queue[0])
  }

  function Reserved(job: Job, profile: Profile): Job {
    job.(current := Some(profile.id),
         active := if |job.active| < MAX_WORKERS then job.active + [profile] else job.active)
  }

  function Without(active: seq<Profile>, id: nat): seq<Profile> {
    if active == [] then []
    else (if active[0].id == id then [] else [active[0]]) + Without(active[1..], id)
  }

  function Released(job: Job, profile: Profile): Job {
    job.(active := Without(job.active, profile.id))
  }

  function PreflightReported(job: Job, passed: bool): Job {
    if job.search.None? then job
    else
      var search := job.search.value;
      job.(search := Some(search.(preflightCompleted := search.preflightCompleted + 1,
                                  preflightRejected := search.preflightRejected + if passed then 0 else 1)))
  }

  function EntryOf(profile: Profile, phase: string, error: string): FailureEntry {
    FailureEntry(profile.id,
                 if |phase| <= PREFLIGHT_PHASE_CHARS then phase else phase[..PREFLIGHT_PHASE_CHARS],
                 Clipped(error, PREFLIGHT_ERROR_BYTES))
  }

  /** A full log loses its oldest entry. */
  function Logged(log: seq<FailureEntry>, entry: FailureEntry): seq<FailureEntry> {
    (if |log| == PREFLIGHT_FAILURE_LIMIT then log[1..] else log) + [entry]
  }

  function FailureReported(job: Job, profile: Profile, phase: string, error: string): Job {
    if job.search.None? then job
    else job.(preflightFailures := Logged(job.preflightFailures, EntryOf(profile, phase, error)))
  }

  predicate IsNewGood(search: Option<SearchProgress>, results: seq<Outcome>, result: Option<Outcome>) {
    && result.Some?
    && search.Some?
    && search.value.required in result.value.goodFor
    && !exists previous | previous in results ::
         previous.profileRaw == result.value.profileRaw && search.value.required in previous.goodFor
  }

  function Credited(search: Option<SearchProgress>, results: seq<Outcome>,
                    result: Option<Outcome>): Option<SearchProgress> {
    if search.None? || result.None? then search
    else Some(search.value.(quickCompleted := search.value.quickCompleted + 1,
                            foundGood := search.value.foundGood + if IsNewGood(search, results, result) then 1 else 0))
  }

  function Completed(job: Job, profile: Profile, result: Option<Outcome>): Job {
    var active := Without(job.active, profile.id);
    job.(active := active,
         current := if active == [] then None else Some(active[|active| - 1].id),
         search := Credited(job.search, job.results, result),
         results := if result.Some? then job.results + [result.value] else job.results,
         completed := job.completed + 1)
  }

  function Finalised(job: Job, cancelled: bool): Job {
    job.(running := false, current := None, active := [],
         search := if job.search.None? then None
                   else Some(job.search.value.(finishReason := Some(
                     if cancelled then RunCancelled
                     else if job.search.value.foundGood >= job.search.value.targetGood then TargetReached
                     else Exhausted))))
  }

  /** Cut an error text to the greatest allowed number of bytes, stepping back to the end of a character. */
  method BoundedPreflightError(error: string) returns (kept: string)
    ensures kept == Clipped(error, PREFLIGHT_ERROR_BYTES)
  {
    var end := if Bytes(error) <= PREFLIGHT_ERROR_BYTES then Bytes(error) else PREFLIGHT_ERROR_BYTES;
    ghost var clipped := Clipped(error, PREFLIGHT_ERROR_BYTES);
    ClippedIsLongest(error, PREFLIGHT_ERROR_BYTES);
    ClippedEndsAtBoundary(error, PREFLIGHT_ERROR_BYTES);
    while CharsAt(error, end).None?
      invariant Bytes(clipped) <= end <= PREFLIGHT_ERROR_BYTES
      decreases end
    {
      end := end - 1;
    }
    BoundaryIsInside(error, end, PREFLIGHT_ERROR_BYTES);
    kept := error[..CharsAt(error, end).value];
  }

  /** The active profiles other than those with this id. */
  method Retain(active: seq<Profile>, id: nat) returns (kept: seq<Profile>)
    ensures kept == Without(active, id)
  {
    kept := [];
    for i := 0 to |active|
      invariant Without(active, id) == kept + Without(active[i..], id)
    {
      RestOf(active, i);
      MovePart(kept, if active[i].id == id then [] else [active[i]], Without(active[i + 1..], id));
      if active[i].id != id {
        kept := kept + [active[i]];
      }
    }
  }

  /** The job and the queue behind their locks; each method is one critical section. */
  class SharedJob {
    var job: Job
    var queue: seq<Profile>

    constructor (total: nat, search: Option<SearchProgress>, profiles: seq<Profile>)
      ensures job == Job(true, total, 0, None, [], [], search, [], false, false) && queue == profiles
    {
      job := Job(true, total, 0, None, [], [], search, [], false, false);
      queue := profiles;
    }

    method Enter(cancelled: bool) returns (admission: Admission)
      modifies this
      ensures admission == AdmissionOf(old(job), old(queue), cancelled)
      ensures job == if admission.Admit? then Reserved(old(job), admission.profile) else old(job)
      ensures queue == if admission.Admit? then old(queue)[1..] else old(queue)
    {
      if cancelled { return Leave; }
      if job.search.Some? {
        var search := job.search.value;
        if search.foundGood >= search.targetGood { return Leave; }
        if search.foundGood + |job.active| >= search.targetGood { return Wait; }
      }
      if queue == [] { return Leave; }
      var profile := queue[0];
      queue := queue[1..];
      job := job.(current := Some(profile.id));
      if |job.active| < MAX_WORKERS {
        job := job.(active := job.active + [profile]);
      }
      return Admit(profile);
    }

    method ReleaseActive(id: nat)
      modifies this
      ensures job == old(job).(active := Without(old(job).active, id)) && queue == old(queue)
    {
      var kept := Retain(job.active, id);
      job := job.(active := kept);
    }

    method CreditSearch(result: Option<Outcome>)
      modifies this
      ensures job == old(job).(search := Credited(old(job).search, old(job).results, result)) && queue == old(queue)
    {
      var uniqueGood := IsNewGood(job.search, job.results, result);
      if job.search.Some? && result.Some? {
        var search := job.search.value;
        search := search.(quickCompleted := search.quickCompleted + 1);
        search := search.(foundGood := search.foundGood + if uniqueGood then 1 else 0);
        job := job.(search := Some(search));
      }
    }

    method Complete(profile: Profile, result: Option<Outcome>)
      modifies this
      ensures job == Completed(old(job), profile, result) && queue == old(queue)
    {
      ReleaseActive(profile.id);
      CreditSearch(result);
      var active := job.active;
      var current := if active == [] then None else Some(active[|active| - 1].id);
      var results := if result.Some? then job.results + [result.value] else job.results;
      job := job.(current := current, results := results, completed := job.completed + 1);
    }

    method ReportPreflight(passed: bool)
      modifies this
      ensures job == PreflightReported(old(job), passed) && queue == old(queue)
    {
      if job.search.Some? {
        var search := job.search.value;
        search := search.(preflightCompleted := search.preflightCompleted + 1);
        search := search.(preflightRejected := search.preflightRejected + if passed then 0 else 1);
        job := job.(search := Some(search));
      }
    }

    method ReportPreflightFailure(profile: Profile, phase: string, error: string)
      modifies this
      ensures job == FailureReported(old(job), profile, phase, error) && queue == old(queue)
      ensures |old(job).preflightFailures| <= PREFLIGHT_FAILURE_LIMIT
              ==> |job.preflightFailures| <= PREFLIGHT_FAILURE_LIMIT
    {
      if job.search.Some? {
        if |job.preflightFailures| == PREFLIGHT_FAILURE_LIMIT {
          job := job.(preflightFailures := job.preflightFailures[1..]);
        }
        var shortPhase := if |phase| <= PREFLIGHT_PHASE_CHARS then phase else phase[..PREFLIGHT_PHASE_CHARS];
        var shortError := BoundedPreflightError(error);
        job := job.(preflightFailures := job.preflightFailures + [FailureEntry(profile.id, shortPhase, shortError)]);
      }
    }

    method Finalise(cancelled: bool)
      modifies this
      ensures job == Finalised(old(job), cancelled) && queue == old(queue)
    {
      job := job.(running := false, current := None, active := []);
      if job.search.Some? {
        var search := job.search.value;
        var reason := if cancelled then RunCancelled
                      else if search.foundGood >= search.targetGood then TargetReached else Exhausted;
        job := job.(search := Some(search.(finishReason := Some(reason))));
      }
    }
  }

  // ------------------------------------------------------ the whole run

  /** Where a worker thread stands between two critical sections. */
  datatype Worker =
    | Top
    | AtLock
    | Probing(profile: Profile, preflight: Option<bool>, failed: bool)
    | Returned(profile: Profile, preflight: Option<bool>, result: Option<Outcome>)
    | Dropping(profile: Profile, preflight: Option<bool>)
    | Publishing(profile: Profile, preflight: Option<bool>, result: Option<Outcome>)
    | Recording(profile: Profile, preflight: Option<bool>, result: Option<Outcome>)
    | Exited
  {
    /** Between admission and release a worker holds a reservation. */
    predicate Holding() {
      !Top? && !AtLock? && !Exited?
    }
  }

  datatype Monitor = Watching | Raised | Stopped

  datatype Coordinator = Joining | Collected(pending: Option<seq<Outcome>>) | CalledBack | Finished

  /** The state of a run. The last seven fields only record what happened. */
  datatype System = System(
    profiles: seq<Profile>, job: Job, queue: seq<Profile>, workers: seq<Worker>, cancel: bool,
    monitor: Monitor, coordinator: Coordinator, hasCallback: bool,
    started: multiset<Profile>, done: multiset<Profile>, dropped: multiset<Profile>,
    doneRejected: nat, droppedRejected: nat,
    emitted: seq<Outcome>, callbacks: seq<seq<Outcome>>)

  datatype Label =
    | CheckCancel(i: nat)
    | Enter(i: nat)
    | Preflight(i: nat, passed: bool)
    | PreflightFailure(i: nat, phase: string, error: string)
    | Return(i: nat, result: Option<Outcome>)
    | CheckAfter(i: nat)
    | Drop(i: nat)
    | Publish(i: nat)
    | Record(i: nat)
    | RequestCancel
    | MonitorRaise
    | MonitorMark
    | MonitorStop
    | Collect
    | CallBack(replaced: seq<Outcome>)
    | Finish

  /** What a probe owes its caller. In a search it reports its preflight once and
      gives a result exactly when the preflight passed; an ordinary check always
      gives a result. A cancelled probe owes nothing. */
  predicate KeepsContract(search: bool, preflight: Option<bool>, result: Option<Outcome>) {
    if search then preflight == Some(result.Some?) else preflight.None? && result.Some?
  }

  /** The adaptive probe keeps that contract, and its result counts as good for a known prefix exactly when
      every service of the prefix passes. */
  method AdaptiveProbe(raw: string, mode: BenchMethod, required: Required, failFast: bool, cancel: Cancel,
                       preflight: Result<Test, ProbeError>, oracle: Oracle)
    returns (reported: Option<bool>, result: Option<Outcome>)
    requires WellFormedOracle(mode, oracle) && !required.NeedUnknown?
    requires preflight.Ok? && preflight.value.reachable
            ==> WellFormedReport(preflight.value, PingProxy) && preflight.value.stable
    ensures NeverCancelled(cancel) && (forall service :: oracle(service) != Err(Cancelled)) ==>
              KeepsContract(true, reported, result)
    ensures result.Some? ==>
              && reported == Some(true) && result.value.profileRaw == raw
              && (required in result.value.goodFor <==> RequiredPasses(required, oracle))
  {
    var answer, reports := BenchmarkAdaptiveProfile(raw, mode, required, failFast, cancel, preflight, oracle);
    reported := if reports == [] then None else Some(reports[0]);
    result := if answer.Some? then Some(OutcomeOf(answer.value)) else None;
    if answer.Some? {
      GoodIff(raw, mode, required, failFast, preflight.value, oracle);
    }
  }

  predicate AllExited(workers: seq<Worker>) {
    forall i | 0 <= i < |workers| :: workers[i].Exited?
  }

  predicate Enabled(s: System, move: Label) {
    match move
    case CheckCancel(i) => i < |s.workers| && s.workers[i].Top?
    case Enter(i) => i < |s.workers| && s.workers[i].AtLock?
    case Preflight(i, _) =>
      i < |s.workers| && s.workers[i].Probing? && s.workers[i].preflight.None? && s.job.search.Some?
    case PreflightFailure(i, _, _) => i < |s.workers| && s.workers[i].Probing? && !s.workers[i].failed
    case Return(i, result) =>
      i < |s.workers| && s.workers[i].Probing?
      && (s.cancel || KeepsContract(s.job.search.Some?, s.workers[i].preflight, result))
    case CheckAfter(i) => i < |s.workers| && s.workers[i].Returned?
    case Drop(i) => i < |s.workers| && s.workers[i].Dropping?
    case Publish(i) => i < |s.workers| && s.workers[i].Publishing?
    case Record(i) => i < |s.workers| && s.workers[i].Recording?
    case RequestCancel => !s.cancel
    case MonitorRaise => s.monitor.Watching?
    case MonitorMark => s.monitor.Raised?
    case MonitorStop => s.monitor.Watching? && (s.cancel || AllExited(s.workers))
    case Collect => s.coordinator.Joining? && AllExited(s.workers) && s.monitor.Stopped?
    case CallBack(_) => s.coordinator.Collected?
    case Finish => s.coordinator.CalledBack?
  }

  function Become(s: System, i: nat, worker: Worker): System
    requires i < |s.workers|
  {
    s.(workers := s.workers[i := worker])
  }

  function Rejected(preflight: Option<bool>): nat {
    if preflight == Some(false) then 1 else 0
  }

  function Entered(s: System, i: nat): System
    requires i < |s.workers|
  {
    match AdmissionOf(s.job, s.queue, s.cancel)
    case Leave => Become(s, i, Exited)
    case Wait => Become(s, i, Top)
    case Admit(profile) =>
      Become(s.(job := Reserved(s.job, profile), queue := s.queue[1..], started := s.started + multiset{profile}), i,
             Probing(profile, None, false))
  }

  function Next(s: System, move: Label): System
    requires Enabled(s, move)
  {
    match move
    case CheckCancel(i) => Become(s, i, if s.cancel then Exited else AtLock)
    case Enter(i) => Entered(s, i)
    case Preflight(i, passed) =>
      var Probing(profile, _, failed) := s.workers[i];
      Become(s.(job := PreflightReported(s.job, passed)), i, Probing(profile, Some(passed), failed))
    case PreflightFailure(i, phase, error) =>
      var Probing(profile, preflight, _) := s.workers[i];
      Become(s.(job := FailureReported(s.job, profile, phase, error)), i, Probing(profile, preflight, true))
    case Return(i, result) => Become(s, i, Returned(s.workers[i].profile, s.workers[i].preflight, result))
    case CheckAfter(i) =>
      var Returned(profile, preflight, result) := s.workers[i];
      Become(s, i, if s.cancel then Dropping(profile, preflight) else Publishing(profile, preflight, result))
    case Drop(i) =>
      var Dropping(profile, preflight) := s.workers[i];
      Become(s.(job := Released(s.job, profile), dropped := s.dropped + multiset{profile},
                droppedRejected := s.droppedRejected + Rejected(preflight)), i, Top)
    case Publish(i) =>
      var Publishing(profile, preflight, result) := s.workers[i];
      Become(s.(emitted := s.emitted + if result.Some? then [result.value] else []), i,
             Recording(profile, preflight, result))
    case Record(i) =>
      var Recording(profile, preflight, result) := s.workers[i];
      Become(s.(job := Completed(s.job, profile, result), done := s.done + multiset{profile},
                doneRejected := s.doneRejected + Rejected(preflight)), i, Top)
    case RequestCancel => s.(cancel := true)
    case MonitorRaise => s.(cancel := true, monitor := Raised)
    case MonitorMark => s.(job := s.job.(memoryPressure := true, cancelRequested := true), monitor := Stopped)
    case MonitorStop => s.(monitor := Stopped)
    case Collect =>
      s.(coordinator := Collected(
           if s.job.search.None? && !s.cancel && s.job.completed == s.job.total then Some(s.job.results) else None))
    case CallBack(replaced) =>
      if s.hasCallback && s.coordinator.pending.Some? then
        s.(coordinator := CalledBack, callbacks := s.callbacks + [s.coordinator.pending.value],
           job := s.job.(results := replaced))
      else s.(coordinator := CalledBack)
    case Finish => s.(coordinator := Finished, job := Finalised(s.job, s.cancel))
  }

  /** A fresh run: distinct profiles, one to six workers, nothing found yet. */
  predicate Initial(s: System) {
    && (forall i, j | 0 <= i < j < |s.profiles| :: s.profiles[i].id != s.profiles[j].id)
    && 1 <= |s.workers| <= MAX_WORKERS
    && (forall i | 0 <= i < |s.workers| :: s.workers[i] == Top)
    && s.queue == s.profiles
    && s.job == Job(true, |s.profiles|, 0, None, [], [], s.job.search, [], false, false)
    && (s.job.search.Some? ==>
          var search := s.job.search.value;
          search == SearchProgress(search.targetGood, search.required, 0, 0, 0, 0, None))
    && !s.monitor.Raised?
    && s.coordinator == Joining
    && s.started == s.done == s.dropped == multiset{} && s.doneRejected == s.droppedRejected == 0
    && s.emitted == [] && s.callbacks == []
  }
}

/** What holds in every reachable state of a benchmark run, under every
    interleaving, and why every fair run ends. */
module BenchRuns {
  import opened Wrappers
  import opened ServiceProbes
  import opened BenchScheduler

  // ------------------------------------------------------ sums over workers

  function Total<T>(parts: seq<multiset<T>>): multiset<T> {
    if parts == [] then multiset{} else Total(parts[..|parts| - 1]) + parts[|parts| - 1]
  }

  function Count(parts: seq<nat>): nat {
    if parts == [] then 0 else Count(parts[..|parts| - 1]) + parts[|parts| - 1]
  }

  lemma AddBetween<T>(a: multiset<T>, x: multiset<T>, b: multiset<T>, y: multiset<T>, last: multiset<T>)
    requires a + x == b + y
    ensures (a + last) + x == (b + last) + y
  {
    assert (a + last) + x == (a + x) + last;
    assert (b + last) + y == (b + y) + last;
  }

  /** Replacing one part exchanges its contribution for the new one's. */
  lemma {:induction false} TotalUpdate<T>(parts: seq<multiset<T>>, i: nat, part: multiset<T>)
    requires i < |parts|
    ensures Total(parts[i := part]) + parts[i] == Total(parts) + part
    ensures parts[i] <= Total(parts)
  {
    var n := |parts| - 1;
    var before, after := parts[..n], parts[i := part];
    if i < n {
      TotalUpdate(before, i, part);
      assert after[..n] == before[i := part];
      AddBetween(Total(before[i := part]), parts[i], Total(before), part, parts[n]);
    } else {
      assert after[..n] == before;
    }
  }

  lemma {:induction false} CountUpdate(parts: seq<nat>, i: nat, part: nat)
    requires i < |parts|
    ensures Count(parts[i := part]) + parts[i] == Count(parts) + part
  {
    var n := |parts| - 1;
    if i < n {
      CountUpdate(parts[..n], i, part);
      assert parts[i := part][..n] == parts[..n][i := part];
    } else {
      assert parts[i := part][..n] == parts[..n];
    }
  }

  /** The reservation one worker holds, the result it has published but not yet
      recorded, the rejected preflight it carries, and the steps it may still take. */
  function HeldBy(worker: Worker): multiset<Profile> {
    if worker.Holding() then multiset{worker.profile} else multiset{}
  }

  function UnrecordedBy(worker: Worker): multiset<Outcome> {
    if worker.Recording? && worker.result.Some? then multiset{worker.result.value} else multiset{}
  }

  function RejectedBy(worker: Worker): nat {
    if worker.Holding() then Rejected(worker.preflight) else 0
  }

  function WeightOf(worker: Worker): nat {
    match worker
    case Top => 1
    case AtLock => 1
    case Probing(_, preflight, failed) => 7 + (if preflight.None? then 1 else 0) + (if failed then 0 else 1)
    case Returned(_, _, _) => 6
    case Dropping(_, _) => 3
    case Publishing(_, _, _) => 5
    case Recording(_, _, _) => 4
    case Exited => 0
  }

  function Held(workers: seq<Worker>): multiset<Profile> {
    Total(HeldParts(workers))
  }

  function Unrecorded(workers: seq<Worker>): multiset<Outcome> {
    Total(UnrecordedParts(workers))
  }

  function HeldRejected(workers: seq<Worker>): nat {
    Count(seq(|workers|, i requires 0 <= i < |workers| => RejectedBy(workers[i])))
  }

  function Weight(workers: seq<Worker>): nat {
    Count(seq(|workers|, i requires 0 <= i < |workers| => WeightOf(workers[i])))
  }

  lemma Cancel<T>(a: multiset<T>, x: multiset<T>, b: multiset<T>, y: multiset<T>)
    requires a + x == b + y && x <= b
    ensures a == b - x + y
  {
    forall e: T
      ensures a[e] == (b - x + y)[e]
    {
      assert (a + x)[e] == (b + y)[e];
    }
  }

  function HeldParts(workers: seq<Worker>): seq<multiset<Profile>> {
    seq(|workers|, i requires 0 <= i < |workers| => HeldBy(workers[i]))
  }

  lemma HeldPartsAfter(workers: seq<Worker>, i: nat, worker: Worker)
    requires i < |workers|
    ensures HeldParts(workers[i := worker]) == HeldParts(workers)[i := HeldBy(worker)]
  {
  }

  lemma HeldAfter(workers: seq<Worker>, i: nat, worker: Worker)
    requires i < |workers|
    ensures HeldBy(workers[i]) <= Held(workers)
    ensures Held(workers[i := worker]) == Held(workers) - HeldBy(workers[i]) + HeldBy(worker)
  {
    TotalUpdate(HeldParts(workers), i, HeldBy(worker));
    HeldPartsAfter(workers, i, worker);
    Cancel(Held(workers[i := worker]), HeldBy(workers[i]), Held(workers), HeldBy(worker));
  }

  function UnrecordedParts(workers: seq<Worker>): seq<multiset<Outcome>> {
    seq(|workers|, i requires 0 <= i < |workers| => UnrecordedBy(workers[i]))
  }

  lemma UnrecordedPartsAfter(workers: seq<Worker>, i: nat, worker: Worker)
    requires i < |workers|
    ensures UnrecordedParts(workers[i := worker]) == UnrecordedParts(workers)[i := UnrecordedBy(worker)]
  {
  }

  lemma UnrecordedAfter(workers: seq<Worker>, i: nat, worker: Worker)
    requires i < |workers|
    ensures UnrecordedBy(workers[i]) <= Unrecorded(workers)
    ensures Unrecorded(workers[i := worker]) == Unrecorded(workers) - UnrecordedBy(workers[i]) + UnrecordedBy(worker)
  {
    TotalUpdate(UnrecordedParts(workers), i, UnrecordedBy(worker));
    UnrecordedPartsAfter(workers, i, worker);
    Cancel(Unrecorded(workers[i := worker]), UnrecordedBy(workers[i]), Unrecorded(workers), UnrecordedBy(worker));
  }

  lemma NumbersAfter(workers: seq<Worker>, i: nat, worker: Worker)
    requires i < |workers|
    ensures HeldRejected(workers[i := worker]) + RejectedBy(workers[i]) == HeldRejected(workers) + RejectedBy(worker)
    ensures Weight(workers[i := worker]) + WeightOf(workers[i]) == Weight(workers) + WeightOf(worker)
  {
    var after := workers[i := worker];
    var rejected := seq(|workers|, j requires 0 <= j < |workers| => RejectedBy(workers[j]));
    CountUpdate(rejected, i, RejectedBy(worker));
    assert rejected[i := RejectedBy(worker)] == seq(|after|, j requires 0 <= j < |after| => RejectedBy(after[j]));
    var weights := seq(|workers|, j requires 0 <= j < |workers| => WeightOf(workers[j]));
    CountUpdate(weights, i, WeightOf(worker));
    assert weights[i := WeightOf(worker)] == seq(|after|, j requires 0 <= j < |after| => WeightOf(after[j]));
  }

  lemma {:induction false} TotalAtMost<T>(parts: seq<multiset<T>>)
    requires forall i | 0 <= i < |parts| :: |parts[i]| <= 1
    ensures |Total(parts)| <= |parts|
  {
    if parts != [] {
      TotalAtMost(parts[..|parts| - 1]);
    }
  }

  lemma HeldFits(workers: seq<Worker>)
    ensures |Held(workers)| <= |workers|
  {
    TotalAtMost(HeldParts(workers));
  }

  lemma {:induction false} SomePart<T>(parts: seq<multiset<T>>) returns (i: nat)
    requires Total(parts) != multiset{}
    ensures i < |parts| && parts[i] != multiset{}
  {
    i := |parts| - 1;
    if parts[i] == multiset{} {
      i := SomePart(parts[..i]);
    }
  }

  lemma SomeHolder(workers: seq<Worker>) returns (i: nat)
    requires Held(workers) != multiset{}
    ensures i < |workers| && workers[i].Holding()
  {
    i := SomePart(HeldParts(workers));
  }

  lemma {:induction false} NoPart<T>(parts: seq<multiset<T>>)
    requires forall i | 0 <= i < |parts| :: parts[i] == multiset{}
    ensures Total(parts) == multiset{}
  {
    if parts != [] {
      NoPart(parts[..|parts| - 1]);
    }
  }

  lemma {:induction false} NoCount(parts: seq<nat>)
    requires forall i | 0 <= i < |parts| :: parts[i] == 0
    ensures Count(parts) == 0
  {
    if parts != [] {
      NoCount(parts[..|parts| - 1]);
    }
  }

  predicate NobodyIsBusy(workers: seq<Worker>) {
    forall i | 0 <= i < |workers| :: workers[i].Exited? || workers[i].Top?
  }

  lemma NothingHeld(workers: seq<Worker>)
    requires NobodyIsBusy(workers)
    ensures Held(workers) == multiset{}
  {
    NoPart(HeldParts(workers));
  }

  lemma NothingUnrecorded(workers: seq<Worker>)
    requires NobodyIsBusy(workers)
    ensures Unrecorded(workers) == multiset{}
  {
    NoPart(UnrecordedParts(workers));
  }

  lemma NothingRejected(workers: seq<Worker>)
    requires NobodyIsBusy(workers)
    ensures HeldRejected(workers) == 0
  {
    NoCount(seq(|workers|, i requires 0 <= i < |workers| => RejectedBy(workers[i])));
  }

  /** Workers at the top of their loop, or gone, hold nothing. */
  lemma NobodyHolds(workers: seq<Worker>)
    requires NobodyIsBusy(workers)
    ensures Held(workers) == multiset{} && Unrecorded(workers) == multiset{} && HeldRejected(workers) == 0
  {
    NothingHeld(workers);
    NothingUnrecorded(workers);
    NothingRejected(workers);
  }

  // ------------------------------------------------------- the invariant

  /** No profile is listed twice and no two share an id. */
  ghost predicate UniqueIds(profiles: multiset<Profile>) {
    && (forall profile :: profiles[profile] <= 1)
    && (forall left, right | left in profiles && right in profiles && left.id == right.id :: left == right)
  }

  function GoodRaws(results: seq<Outcome>, required: Required): set<string> {
    set result | result in results && required in result.goodFor :: result.profileRaw
  }

  /** The queue is what is left of the list, in order; the rest was started. */
  ghost predicate Queued(profiles: seq<Profile>, queue: seq<Profile>, started: multiset<Profile>) {
    && |queue| <= |profiles| && queue == profiles[|profiles| - |queue|..]
    && multiset(profiles) == multiset(queue) + started
  }

  /** Every started profile is held by one worker, completed or dropped, and the
      job's list of active profiles is exactly the reservations held. */
  ghost predicate Conserved(s: System) {
    && 1 <= |s.workers| <= MAX_WORKERS
    && UniqueIds(multiset(s.profiles))
    && Queued(s.profiles, s.queue, s.started)
    && s.started == Held(s.workers) + s.done + s.dropped
    && multiset(s.job.active) == Held(s.workers)
  }

  /** The counters mean what their names say. */
  ghost predicate Counted(s: System) {
    && s.job.total == |s.profiles|
    && s.job.completed == |s.done|
    && (s.callbacks == [] ==>
          && multiset(s.emitted) == multiset(s.job.results) + Unrecorded(s.workers)
          && |s.done| == |s.job.results| + s.doneRejected)
    && (s.job.search.Some? ==>
          var search := s.job.search.value;
          && s.callbacks == []
          && search.foundGood == |GoodRaws(s.job.results, search.required)|
          && search.foundGood + |s.job.active| <= search.targetGood
          && search.quickCompleted == |s.job.results|
          && search.preflightRejected == s.doneRejected + s.droppedRejected + HeldRejected(s.workers))
    && (s.job.search.None? ==> s.doneRejected == 0)
  }

  ghost predicate WorkerHonest(s: System, worker: Worker) {
    match worker
    case Probing(_, preflight, _) => s.job.search.None? ==> preflight.None?
    case Returned(_, preflight, result) => s.cancel || KeepsContract(s.job.search.Some?, preflight, result)
    case Publishing(_, preflight, result) => KeepsContract(s.job.search.Some?, preflight, result)
    case Recording(_, preflight, result) => KeepsContract(s.job.search.Some?, preflight, result)
    case Dropping(_, _) => s.cancel
    case Exited => s.cancel || s.queue == [] || TargetMet(s.job)
    case _ => true
  }

  predicate TargetMet(job: Job) {
    job.search.Some? && job.search.value.foundGood >= job.search.value.targetGood
  }

  /** Why workers stand where they do: results kept the probe's contract, only a
      cancelled run drops, and a worker leaves for one of three reasons. */
  ghost predicate Honest(s: System) {
    && (forall i | 0 <= i < |s.workers| :: WorkerHonest(s, s.workers[i]))
    && (s.dropped != multiset{} || s.droppedRejected > 0 ==> s.cancel)
    && (s.monitor.Raised? ==> s.cancel)
  }

  ghost predicate TruthfulReport(s: System, search: SearchProgress) {
    match search.finishReason
    case None => true
    case Some(RunCancelled) => s.cancel
    case Some(TargetReached) => search.foundGood == search.targetGood
    case Some(Exhausted) => s.queue == [] && s.job.completed == s.job.total && search.foundGood < search.targetGood
  }

  /** An ordinary run that nobody cancelled and that has somebody to call back. */
  predicate MustCallBack(s: System) {
    s.hasCallback && s.job.search.None? && !s.cancel
  }

  /** The coordinator waits for everybody, calls back at most once, and reports truthfully. */
  ghost predicate Coordinated(s: System) {
    && (!s.coordinator.Joining? ==> AllExited(s.workers) && s.monitor.Stopped?)
    && (s.coordinator.Joining? || s.coordinator.Collected? ==> s.callbacks == [])
    && (s.coordinator.Collected? && s.coordinator.pending.Some? ==>
          s.job.search.None? && s.job.completed == s.job.total && s.coordinator.pending.value == s.job.results)
    && (MustCallBack(s) ==>
          && (s.coordinator.Collected? ==> s.coordinator.pending.Some?)
          && (s.coordinator.CalledBack? || s.coordinator.Finished? ==> s.callbacks != []))
    && (s.callbacks != [] ==>
          && |s.callbacks| == 1 && s.hasCallback && s.job.search.None?
          && s.job.completed == s.job.total && |s.callbacks[0]| == s.job.total
          && multiset(s.callbacks[0]) == multiset(s.emitted))
    && (s.job.search.Some? ==>
          && (s.job.search.value.finishReason.Some? <==> s.coordinator.Finished?)
          && TruthfulReport(s, s.job.search.value))
  }

  ghost predicate Inv(s: System) {
    Conserved(s) && Counted(s) && Honest(s) && Coordinated(s)
  }

  lemma InitialInv(s: System)
    requires Initial(s)
    ensures Inv(s)
  {
    NobodyHolds(s.workers);
    forall profile
      ensures multiset(s.profiles)[profile] <= 1
    {
      DistinctOnce(s.profiles, profile);
    }
  }

  lemma {:induction false} DistinctOnce(profiles: seq<Profile>, profile: Profile)
    requires forall i, j | 0 <= i < j < |profiles| :: profiles[i].id != profiles[j].id
    ensures multiset(profiles)[profile] <= 1
  {
    if profiles != [] {
      var n := |profiles| - 1;
      DistinctOnce(profiles[..n], profile);
      assert profiles == profiles[..n] + [profiles[n]];
      if profile == profiles[n] {
        assert profile !in profiles[..n];
      }
    }
  }

  // ------------------------------------------- every step keeps it: profiles

  lemma {:induction false} WithoutRemovesAll(active: seq<Profile>, profile: Profile)
    requires forall other | other in active && other.id == profile.id :: other == profile
    ensures multiset(Without(active, profile.id)) == multiset(active)[profile := 0]
  {
    if active != [] {
      assert active == [active[0]] + active[1..];
      WithoutRemovesAll(active[1..], profile);
    }
  }

  /** Releasing a reservation by id frees exactly that one. */
  lemma ReleaseOne(profiles: multiset<Profile>, active: seq<Profile>, profile: Profile)
    requires UniqueIds(profiles) && multiset(active) <= profiles && profile in active
    ensures multiset(Without(active, profile.id)) == multiset(active) - multiset{profile}
    ensures |Without(active, profile.id)| == |active| - 1
  {
    forall other | other in active && other.id == profile.id
      ensures other == profile
    {
      assert other in multiset(active) && profile in multiset(active);
    }
    WithoutRemovesAll(active, profile);
    var ids := multiset(active);
    assert 1 <= ids[profile] <= profiles[profile];
    assert ids[profile := 0] == ids - multiset{profile};
    assert |multiset(Without(active, profile.id))| == |ids| - 1;
  }

  /** Every admitted worker gets its place in the list of six: with at most six
      workers the guard on the list's length never drops a reservation. */
  lemma ReservationFits(s: System, i: nat, profile: Profile)
    requires Conserved(s) && i < |s.workers| && !s.workers[i].Holding()
    ensures |s.job.active| == |Held(s.workers)| < |s.workers| <= MAX_WORKERS
    ensures Reserved(s.job, profile).active == s.job.active + [profile]
  {
    assert |multiset(s.job.active)| == |s.job.active|;
    FreeWorkerHoldsNothing(s.workers, i);
  }

  lemma FreeWorkerHoldsNothing(workers: seq<Worker>, i: nat)
    requires i < |workers| && !workers[i].Holding()
    ensures |Held(workers)| < |workers|
  {
    var busy := Probing(Profile(0, ""), None, false);
    HeldAfter(workers, i, busy);
    HeldFits(workers[i := busy]);
  }

  lemma AdmitConserves(s: System, i: nat, s': System)
    requires Conserved(s) && i < |s.workers| && s.workers[i].AtLock? && s.queue != []
    requires s'.workers == s.workers[i := Probing(s.queue[0], None, false)]
    requires s'.job.active == Reserved(s.job, s.queue[0]).active
    requires s'.profiles == s.profiles && s'.queue == s.queue[1..] && s'.started == s.started + multiset{s.queue[0]}
    requires s'.done == s.done && s'.dropped == s.dropped
    ensures Conserved(s')
    ensures |s'.job.active| == |s.job.active| + 1
  {
    var profile := s.queue[0];
    ReservationFits(s, i, profile);
    HeldAfter(s.workers, i, Probing(profile, None, false));
    QueuedNext(s.profiles, s.queue, s.started);
    OneMore(s.started, Held(s.workers), s.done, s.dropped, profile);
    ActiveGrows(s.job.active, profile);
  }

  lemma ActiveGrows(active: seq<Profile>, profile: Profile)
    ensures multiset(active + [profile]) == multiset(active) + multiset{profile}
    ensures |active + [profile]| == |active| + 1
  {
  }

  lemma OneMore(started: multiset<Profile>, held: multiset<Profile>, done: multiset<Profile>,
                dropped: multiset<Profile>, profile: Profile)
    requires started == held + done + dropped
    ensures started + multiset{profile} == held + multiset{profile} + done + dropped
    ensures held - multiset{} + multiset{profile} == held + multiset{profile}
  {
  }

  lemma QueuedNext(profiles: seq<Profile>, queue: seq<Profile>, started: multiset<Profile>)
    requires Queued(profiles, queue, started) && queue != []
    ensures Queued(profiles, queue[1..], started + multiset{queue[0]})
  {
    assert queue == [queue[0]] + queue[1..];
  }

  lemma ReleaseActive(s: System, profile: Profile)
    requires Conserved(s) && profile in Held(s.workers)
    ensures multiset(Without(s.job.active, profile.id)) == Held(s.workers) - multiset{profile}
    ensures |Without(s.job.active, profile.id)| == |s.job.active| - 1
  {
    assert profile in multiset(s.job.active);
    assert multiset(s.job.active) <= s.started <= multiset(s.profiles);
    ReleaseOne(multiset(s.profiles), s.job.active, profile);
  }

  lemma HeldAfterRelease(workers: seq<Worker>, i: nat)
    requires i < |workers| && workers[i].Holding()
    ensures workers[i].profile in Held(workers)
    ensures Held(workers[i := Top]) == Held(workers) - multiset{workers[i].profile}
  {
    HeldAfter(workers, i, Top);
    assert workers[i].profile in HeldBy(workers[i]);
  }

  /** A worker that gives its reservation back, with the profile filed as done or dropped. */
  lemma ReleaseConserves(s: System, i: nat, s': System)
    requires Conserved(s) && i < |s.workers| && s.workers[i].Holding()
    requires s'.workers == s.workers[i := Top]
    requires s'.profiles == s.profiles && s'.queue == s.queue && s'.started == s.started
    requires s'.job.active == Without(s.job.active, s.workers[i].profile.id)
    requires s'.done + s'.dropped == s.done + s.dropped + multiset{s.workers[i].profile}
    ensures Conserved(s') && |s'.job.active| == |s.job.active| - 1
  {
    var profile := s.workers[i].profile;
    HeldAfterRelease(s.workers, i);
    ReleaseActive(s, profile);
    Refiled(Held(s.workers), s.done, s.dropped, s'.done, s'.dropped, profile);
  }

  lemma Refiled(held: multiset<Profile>, done: multiset<Profile>, dropped: multiset<Profile>,
                done': multiset<Profile>, dropped': multiset<Profile>, profile: Profile)
    requires profile in held
    requires done' + dropped' == done + dropped + multiset{profile}
    ensures held + done + dropped == held - multiset{profile} + done' + dropped'
  {
    assert held + done + dropped == held + (done + dropped);
    assert held - multiset{profile} + done' + dropped' == held - multiset{profile} + (done' + dropped');
  }

  /** A worker that moves on without taking or giving back a reservation. */
  lemma MoveConserves(s: System, i: nat, worker: Worker, s': System)
    requires Conserved(s) && i < |s.workers| && HeldBy(worker) == HeldBy(s.workers[i])
    requires s'.workers == s.workers[i := worker]
    requires s'.profiles == s.profiles && s'.queue == s.queue && s'.job.active == s.job.active
    requires s'.started == s.started && s'.done == s.done && s'.dropped == s.dropped
    ensures Conserved(s')
  {
    HeldAfter(s.workers, i, worker);
    assert Held(s.workers) - HeldBy(worker) + HeldBy(worker) == Held(s.workers);
  }

  // ------------------------------------------- every step keeps it: counters

  /** Recording a result raises the count of distinct good servers exactly when the
      step counts it as a new one. */
  lemma GoodRawsGrow(job: Job, result: Outcome)
    requires job.search.Some?
    ensures var required := job.search.value.required;
            |GoodRaws(job.results + [result], required)|
            == |GoodRaws(job.results, required)| + if IsNewGood(job.search, job.results, Some(result)) then 1 else 0
  {
    var required := job.search.value.required;
    var before, after := GoodRaws(job.results, required), GoodRaws(job.results + [result], required);
    assert forall r :: r in job.results + [result] <==> r in job.results || r == result;
    if required in result.goodFor {
      assert after == before + {result.profileRaw};
      assert result.profileRaw in before <==> !IsNewGood(job.search, job.results, Some(result));
    } else {
      assert after == before;
    }
  }

  /** While a worker is still there, the coordinator waits. */
  lemma LiveIsJoining(s: System, i: nat)
    requires Coordinated(s) && i < |s.workers| && !s.workers[i].Exited?
    ensures s.coordinator.Joining? && s.callbacks == []
    ensures s.job.search.Some? ==> s.job.search.value.finishReason.None?
  {
  }

  lemma StillJoining(s: System)
    requires s.coordinator.Joining? && s.callbacks == []
    requires s.job.search.Some? ==> s.job.search.value.finishReason.None?
    ensures Coordinated(s)
  {
  }

  /** The counters after a step of one worker, from what the step adds to each. */
  lemma CountedAfter(s: System, i: nat, worker: Worker, s': System)
    requires Counted(s) && s.callbacks == [] && i < |s.workers|
    requires s'.workers == s.workers[i := worker] && s'.callbacks == [] && s'.profiles == s.profiles
    requires s'.job.total == s.job.total && s'.job.search.Some? == s.job.search.Some?
    requires s'.job.completed == |s'.done| && |s'.done| == |s'.job.results| + s'.doneRejected
    requires multiset(s'.emitted) + multiset(s.job.results) + UnrecordedBy(s.workers[i])
          == multiset(s.emitted) + multiset(s'.job.results) + UnrecordedBy(worker)
    requires s.job.search.None? ==> s'.doneRejected == 0
    requires s.job.search.Some? ==>
               var search, search' := s.job.search.value, s'.job.search.value;
               && search'.foundGood == |GoodRaws(s'.job.results, search'.required)|
               && search'.foundGood + |s'.job.active| <= search'.targetGood
               && search'.quickCompleted == |s'.job.results|
               && search'.preflightRejected + s.doneRejected + s.droppedRejected + RejectedBy(s.workers[i])
                  == search.preflightRejected + s'.doneRejected + s'.droppedRejected + RejectedBy(worker)
    ensures Counted(s')
  {
    UnrecordedAfter(s.workers, i, worker);
    NumbersAfter(s.workers, i, worker);
    EmittedBalance(multiset(s.emitted), multiset(s.job.results), Unrecorded(s.workers), UnrecordedBy(s.workers[i]),
                   multiset(s'.emitted), multiset(s'.job.results), UnrecordedBy(worker));
  }

  lemma EmittedBalance<T>(emitted: multiset<T>, results: multiset<T>, pending: multiset<T>, before: multiset<T>,
                          emitted': multiset<T>, results': multiset<T>, after: multiset<T>)
    requires emitted == results + pending && before <= pending
    requires emitted' + results + before == emitted + results' + after
    ensures emitted' == results' + (pending - before + after)
  {
    forall e: T
      ensures emitted'[e] == (results' + (pending - before + after))[e]
    {
      assert (emitted' + results + before)[e] == (emitted + results' + after)[e];
    }
  }

  /** A step that moves one worker on, changing no reservation, counter or result. */
  ghost predicate MovesOn(s: System, i: nat, s': System) {
    && i < |s.workers| && !s.workers[i].Exited?
    && |s'.workers| == |s.workers|
    && var worker := s'.workers[i];
       && s' == s.(workers := s.workers[i := worker], job := s'.job)
       && s'.job == s.job.(preflightFailures := s'.job.preflightFailures)
       && HeldBy(worker) == HeldBy(s.workers[i])
       && UnrecordedBy(worker) == UnrecordedBy(s.workers[i]) && RejectedBy(worker) == RejectedBy(s.workers[i])
       && WorkerHonest(s, worker)
  }

  lemma MoveKeeps(s: System, i: nat, s': System)
    requires Inv(s) && MovesOn(s, i, s')
    ensures Inv(s')
  {
    var worker := s'.workers[i];
    LiveIsJoining(s, i);
    MoveConserves(s, i, worker, s');
    CountedAfter(s, i, worker, s');
    MoveHonest(s, i, worker, s');
    StillJoining(s');
  }

  lemma EnterMoves(s: System, i: nat)
    requires Enabled(s, Enter(i)) && !AdmissionOf(s.job, s.queue, s.cancel).Admit?
    ensures MovesOn(s, i, Entered(s, i))
  {
    assert Entered(s, i).workers[i] == Exited || Entered(s, i).workers[i] == Top;
  }

  lemma ReturnMoves(s: System, i: nat, result: Option<Outcome>)
    requires Enabled(s, Return(i, result))
    ensures MovesOn(s, i, Next(s, Return(i, result)))
  {
    assert Next(s, Return(i, result)).workers[i] == Returned(s.workers[i].profile, s.workers[i].preflight, result);
  }

  lemma CheckCancelMoves(s: System, i: nat)
    requires Enabled(s, CheckCancel(i)) && WorkerHonest(s, s.workers[i])
    ensures MovesOn(s, i, Next(s, CheckCancel(i)))
  {
    assert Next(s, CheckCancel(i)).workers[i] == if s.cancel then Exited else AtLock;
  }

  lemma FailureMoves(s: System, move: Label)
    requires Enabled(s, move) && move.PreflightFailure? && WorkerHonest(s, s.workers[move.i])
    ensures MovesOn(s, move.i, Next(s, move))
  {
    assert Next(s, move).workers[move.i] == s.workers[move.i].(failed := true);
  }

  lemma CheckAfterMoves(s: System, i: nat)
    requires Enabled(s, CheckAfter(i)) && WorkerHonest(s, s.workers[i])
    ensures MovesOn(s, i, Next(s, CheckAfter(i)))
  {
    assert Next(s, CheckAfter(i)).workers[i].preflight == s.workers[i].preflight;
  }

  /** Honesty of the workers that did not move survives as long as the facts they
      rely on do. */
  lemma MoveHonest(s: System, i: nat, worker: Worker, s': System)
    requires Honest(s) && i < |s.workers| && s'.workers == s.workers[i := worker]
    requires s'.cancel == s.cancel && s'.monitor == s.monitor
    requires s'.job.search.Some? == s.job.search.Some?
    requires s.queue == [] ==> s'.queue == []
    requires TargetMet(s.job) ==> TargetMet(s'.job)
    requires s'.dropped != multiset{} || s'.droppedRejected > 0 ==> s.cancel
    requires WorkerHonest(s', worker)
    ensures Honest(s')
  {
  }

  lemma PreflightKeeps(s: System, i: nat, passed: bool, s': System)
    requires Inv(s) && Enabled(s, Preflight(i, passed))
    requires s' == Next(s, Preflight(i, passed))
    ensures Inv(s')
  {
    LiveIsJoining(s, i);
    PreflightConserves(s, i, passed, s');
    PreflightCounts(s, i, passed, s');
    PreflightHonest(s, i, passed, s');
    StillJoining(s');
  }

  lemma PreflightConserves(s: System, i: nat, passed: bool, s': System)
    requires Conserved(s) && Enabled(s, Preflight(i, passed))
    requires s' == Next(s, Preflight(i, passed))
    ensures Conserved(s')
  {
    MoveConserves(s, i, s'.workers[i], s');
  }

  lemma PreflightHonest(s: System, i: nat, passed: bool, s': System)
    requires Honest(s) && Enabled(s, Preflight(i, passed))
    requires s' == Next(s, Preflight(i, passed))
    ensures Honest(s')
  {
    MoveHonest(s, i, s'.workers[i], s');
  }

  lemma PreflightCounts(s: System, i: nat, passed: bool, s': System)
    requires Counted(s) && s.callbacks == [] && Enabled(s, Preflight(i, passed))
    requires s' == Next(s, Preflight(i, passed))
    ensures Counted(s')
  {
    CountedAfter(s, i, s'.workers[i], s');
  }

  lemma PublishKeeps(s: System, i: nat, s': System)
    requires Inv(s) && Enabled(s, Publish(i))
    requires var Publishing(profile, preflight, result) := s.workers[i];
             s' == s.(emitted := s.emitted + if result.Some? then [result.value] else [],
                      workers := s.workers[i := Recording(profile, preflight, result)])
    ensures Inv(s')
  {
    var Publishing(profile, preflight, result) := s.workers[i];
    var worker := Recording(profile, preflight, result);
    LiveIsJoining(s, i);
    assert WorkerHonest(s, s.workers[i]);
    MoveConserves(s, i, worker, s');
    PublishCounts(s, i, worker, s');
    MoveHonest(s, i, worker, s');
    StillJoining(s');
  }

  lemma PublishCounts(s: System, i: nat, worker: Worker, s': System)
    requires Counted(s) && s.callbacks == [] && Enabled(s, Publish(i))
    requires var Publishing(profile, preflight, result) := s.workers[i];
             && worker == Recording(profile, preflight, result)
             && s' == s.(emitted := s.emitted + if result.Some? then [result.value] else [],
                         workers := s.workers[i := worker])
    ensures Counted(s')
  {
    assert multiset(s'.emitted) == multiset(s.emitted) + UnrecordedBy(worker);
    CountedAfter(s, i, worker, s');
  }

  lemma AdmitKeeps(s: System, i: nat, s': System)
    requires Inv(s) && Enabled(s, Enter(i)) && AdmissionOf(s.job, s.queue, s.cancel).Admit?
    requires s' == Entered(s, i)
    ensures Inv(s')
  {
    var worker := Probing(s.queue[0], None, false);
    LiveIsJoining(s, i);
    AdmitConserves(s, i, s');
    AdmitChanges(s, i, s');
    AdmitCounts(s, i, s');
    MoveHonest(s, i, worker, s');
    StillJoining(s');
  }

  /** What admission makes of the counters, beside the reservation. */
  ghost predicate Admits(s: System, i: nat, s': System) {
    && i < |s.workers| && s.workers[i].AtLock? && AdmissionOf(s.job, s.queue, s.cancel).Admit?
    && s'.workers == s.workers[i := Probing(s.queue[0], None, false)] && s'.profiles == s.profiles
    && s'.emitted == s.emitted && s'.callbacks == s.callbacks && s'.job.total == s.job.total
    && s'.job.completed == s.job.completed && s'.done == s.done && s'.doneRejected == s.doneRejected
    && s'.droppedRejected == s.droppedRejected && s'.job.search == s.job.search && s'.job.results == s.job.results
  }

  lemma AdmitChanges(s: System, i: nat, s': System)
    requires Enabled(s, Enter(i)) && AdmissionOf(s.job, s.queue, s.cancel).Admit? && s' == Entered(s, i)
    ensures Admits(s, i, s')
  {
  }

  /** Admission happens only below the target, so one more reservation still fits. */
  lemma AdmitCounts(s: System, i: nat, s': System)
    requires Counted(s) && s.callbacks == [] && Admits(s, i, s') && |s'.job.active| == |s.job.active| + 1
    ensures Counted(s')
  {
    CountedAfter(s, i, s'.workers[i], s');
  }

  lemma DropCounts(s: System, i: nat, s': System)
    requires Counted(s) && s.callbacks == [] && Enabled(s, Drop(i))
    requires s' == Next(s, Drop(i)) && |s'.job.active| == |s.job.active| - 1
    ensures Counted(s')
  {
    CountedAfter(s, i, Top, s');
  }

  lemma DropKeeps(s: System, i: nat, s': System)
    requires Inv(s) && Enabled(s, Drop(i))
    requires s' == Next(s, Drop(i))
    ensures Inv(s')
  {
    var profile := s.workers[i].profile;
    LiveIsJoining(s, i);
    assert WorkerHonest(s, s.workers[i]);
    assert s'.done + s'.dropped == s.done + s.dropped + multiset{profile};
    ReleaseConserves(s, i, s');
    DropCounts(s, i, s');
    MoveHonest(s, i, Top, s');
    StillJoining(s');
  }

  lemma RecordKeeps(s: System, i: nat, s': System)
    requires Inv(s) && Enabled(s, Record(i))
    requires s' == Next(s, Record(i))
    ensures Inv(s')
  {
    var Recording(profile, preflight, result) := s.workers[i];
    LiveIsJoining(s, i);
    assert WorkerHonest(s, s.workers[i]);
    assert s'.done + s'.dropped == s.done + s.dropped + multiset{profile};
    ReleaseConserves(s, i, s');
    RecordCounts(s, i, s');
    RecordGoesOn(s, i, s');
    RecordHonest(s, i, s');
    StillJoining(s');
  }

  lemma RecordHonest(s: System, i: nat, s': System)
    requires Honest(s) && Enabled(s, Record(i)) && s' == Next(s, Record(i))
    requires TargetMet(s.job) ==> TargetMet(s'.job)
    ensures Honest(s')
  {
    MoveHonest(s, i, Top, s');
  }

  /** What recording makes of the counters and results, beside the reservation. */
  ghost predicate Records(s: System, i: nat, s': System) {
    && i < |s.workers| && s.workers[i].Recording?
    && s'.workers == s.workers[i := Top] && s'.profiles == s.profiles && s'.emitted == s.emitted
    && s'.callbacks == s.callbacks && s'.job.total == s.job.total
    && s'.job.completed == s.job.completed + 1 && |s'.done| == |s.done| + 1
    && s'.doneRejected == s.doneRejected + Rejected(s.workers[i].preflight)
    && s'.droppedRejected == s.droppedRejected
    && var result := s.workers[i].result;
       && s'.job.search == Credited(s.job.search, s.job.results, result)
       && s'.job.results == if result.Some? then s.job.results + [result.value] else s.job.results
  }

  lemma RecordChanges(s: System, i: nat, s': System)
    requires Enabled(s, Record(i)) && s' == Next(s, Record(i))
    ensures Records(s, i, s')
  {
  }

  lemma RecordGrows(s: System, i: nat, s': System)
    requires Records(s, i, s')
    ensures multiset(s'.job.results) == multiset(s.job.results) + UnrecordedBy(s.workers[i])
    ensures |s'.job.results| == |s.job.results| + if s.workers[i].result.Some? then 1 else 0
  {
  }

  lemma RecordCountsOrdinary(s: System, i: nat, s': System)
    requires Counted(s) && s.callbacks == [] && Records(s, i, s') && WorkerHonest(s, s.workers[i])
    requires s.job.search.None?
    ensures Counted(s')
  {
    RecordGrows(s, i, s');
    CountedAfter(s, i, Top, s');
  }

  lemma RecordCountsSearch(s: System, i: nat, s': System)
    requires Counted(s) && s.callbacks == [] && Records(s, i, s') && WorkerHonest(s, s.workers[i])
    requires |s'.job.active| == |s.job.active| - 1 && s.job.search.Some?
    ensures Counted(s')
  {
    RecordGrows(s, i, s');
    CreditCounts(s.job, s.workers[i].result);
    CountedAfter(s, i, Top, s');
  }

  lemma RecordCounts(s: System, i: nat, s': System)
    requires Counted(s) && s.callbacks == [] && Enabled(s, Record(i)) && WorkerHonest(s, s.workers[i])
    requires s' == Next(s, Record(i)) && |s'.job.active| == |s.job.active| - 1
    ensures Counted(s')
  {
    RecordChanges(s, i, s');
    if s.job.search.Some? {
      RecordCountsSearch(s, i, s');
    } else {
      RecordCountsOrdinary(s, i, s');
    }
  }

  /** Recording neither loses a target that was met nor finishes a search. */
  lemma RecordGoesOn(s: System, i: nat, s': System)
    requires Enabled(s, Record(i)) && s' == Next(s, Record(i))
    ensures TargetMet(s.job) ==> TargetMet(s'.job)
    ensures s.job.search.Some?
            ==> s'.job.search.Some? && s'.job.search.value.finishReason == s.job.search.value.finishReason
  {
    RecordChanges(s, i, s');
  }

  /** Crediting a search with a result keeps its two counters true of the recorded results. */
  lemma CreditCounts(job: Job, result: Option<Outcome>)
    requires job.search.Some?
    requires job.search.value.foundGood == |GoodRaws(job.results, job.search.value.required)|
    requires job.search.value.quickCompleted == |job.results|
    ensures var search := Credited(job.search, job.results, result).value;
            var results := if result.Some? then job.results + [result.value] else job.results;
            && search == job.search.value.(foundGood := search.foundGood, quickCompleted := search.quickCompleted)
            && search.foundGood == |GoodRaws(results, search.required)|
            && search.quickCompleted == |results|
            && job.search.value.foundGood <= search.foundGood <= job.search.value.foundGood + 1
  {
    if result.Some? {
      GoodRawsGrow(job, result.value);
    }
  }

  /** Raising the cancellation flag, and the monitor's own steps. */
  lemma CancelKeeps(s: System, s': System)
    requires Inv(s)
    requires s' == s.(cancel := s'.cancel, monitor := s'.monitor, job := s'.job)
    requires s'.job == s.job.(memoryPressure := s'.job.memoryPressure, cancelRequested := s'.job.cancelRequested)
    requires s.cancel ==> s'.cancel
    requires s.coordinator.Joining? || s'.monitor == s.monitor
    requires s'.monitor.Raised? ==> s'.cancel
    ensures Inv(s')
  {
    forall j | 0 <= j < |s'.workers|
      ensures WorkerHonest(s', s'.workers[j])
    {
      assert WorkerHonest(s, s.workers[j]);
    }
  }

  /** When everybody has left an uncancelled run below its target, nothing is left to do. */
  lemma NothingLeft(s: System)
    requires Inv(s) && AllExited(s.workers) && !s.cancel && !TargetMet(s.job)
    ensures s.queue == [] && s.job.completed == s.job.total
  {
    assert WorkerHonest(s, s.workers[0]);
    NobodyHolds(s.workers);
    assert s.started == s.done;
    assert |multiset(s.profiles)| == |s.profiles|;
    assert multiset(s.profiles) == s.started;
  }

  /** Once everybody has left, what was published is what was recorded. */
  lemma AllRecorded(s: System)
    requires Inv(s) && AllExited(s.workers) && s.callbacks == []
    ensures multiset(s.emitted) == multiset(s.job.results)
    ensures s.job.search.None? ==> |s.job.results| == s.job.completed
  {
    NobodyHolds(s.workers);
  }

  lemma CollectKeeps(s: System, s': System)
    requires Inv(s) && Enabled(s, Collect) && s' == Next(s, Collect)
    ensures Inv(s')
  {
    if MustCallBack(s) {
      NothingLeft(s);
    }
    forall j | 0 <= j < |s'.workers|
      ensures WorkerHonest(s', s'.workers[j])
    {
      assert WorkerHonest(s, s.workers[j]);
    }
  }

  lemma CallBackKeeps(s: System, move: Label, s': System)
    requires Inv(s) && Enabled(s, move) && move.CallBack? && s' == Next(s, move)
    ensures Inv(s')
  {
    CallBackConserves(s, move, s');
    CallBackHonest(s, move, s');
    CallBackCounts(s, move, s');
    CallBackCoordinates(s, move, s');
  }

  lemma CallBackConserves(s: System, move: Label, s': System)
    requires Conserved(s) && Enabled(s, move) && move.CallBack? && s' == Next(s, move)
    ensures Conserved(s')
  {
  }

  lemma CallBackCoordinates(s: System, move: Label, s': System)
    requires Inv(s) && Enabled(s, move) && move.CallBack? && s' == Next(s, move)
    ensures Coordinated(s')
  {
    AllRecorded(s);
  }

  lemma CallBackCounts(s: System, move: Label, s': System)
    requires Counted(s) && Enabled(s, move) && move.CallBack? && s' == Next(s, move)
    requires s.coordinator.pending.Some? ==> s.job.search.None?
    ensures Counted(s')
  {
  }

  lemma CallBackHonest(s: System, move: Label, s': System)
    requires Honest(s) && Enabled(s, move) && move.CallBack? && s' == Next(s, move)
    ensures Honest(s')
  {
    forall j | 0 <= j < |s'.workers|
      ensures WorkerHonest(s', s'.workers[j])
    {
      assert WorkerHonest(s, s.workers[j]);
    }
  }

  lemma FinishConserves(s: System, s': System)
    requires Conserved(s) && AllExited(s.workers) && Enabled(s, Finish) && s' == Next(s, Finish)
    ensures Conserved(s')
  {
    NothingHeld(s.workers);
  }

  lemma FinishCounts(s: System, s': System)
    requires Counted(s) && Enabled(s, Finish) && s' == Next(s, Finish)
    ensures Counted(s')
  {
  }

  lemma FinishHonest(s: System, s': System)
    requires Honest(s) && Enabled(s, Finish) && s' == Next(s, Finish)
    ensures Honest(s')
  {
    forall j | 0 <= j < |s'.workers|
      ensures WorkerHonest(s', s'.workers[j])
    {
      assert WorkerHonest(s, s.workers[j]);
    }
  }

  lemma FinishCoordinates(s: System, s': System)
    requires Inv(s) && Enabled(s, Finish) && s' == Next(s, Finish)
    ensures Coordinated(s')
  {
    if !s.cancel && s.job.search.Some? && !TargetMet(s.job) {
      NothingLeft(s);
    }
  }

  lemma FinishKeeps(s: System, s': System)
    requires Inv(s) && Enabled(s, Finish)
    requires s' == Next(s, Finish)
    ensures Inv(s')
  {
    FinishConserves(s, s');
    FinishCounts(s, s');
    FinishHonest(s, s');
    FinishCoordinates(s, s');
  }

  predicate IsWorkerMove(move: Label) {
    IsQuietMove(move) || move.Enter? || move.Preflight? || move.Drop? || move.Publish? || move.Record?
  }

  /** A worker's step between critical sections, or into the failure log. */
  predicate IsQuietMove(move: Label) {
    move.CheckCancel? || move.PreflightFailure? || move.Return? || move.CheckAfter?
  }

  lemma QuietMoveNext(s: System, move: Label)
    requires Inv(s) && Enabled(s, move) && IsQuietMove(move)
    ensures Inv(Next(s, move))
  {
    assert WorkerHonest(s, s.workers[move.i]);
    match move {
      case CheckCancel(i) => CheckCancelMoves(s, i);
      case PreflightFailure(_, _, _) => FailureMoves(s, move);
      case Return(i, result) => ReturnMoves(s, i, result);
      case CheckAfter(i) => CheckAfterMoves(s, i);
    }
    MoveKeeps(s, move.i, Next(s, move));
  }

  lemma EnterNext(s: System, i: nat)
    requires Inv(s) && Enabled(s, Enter(i))
    ensures Inv(Entered(s, i))
  {
    if AdmissionOf(s.job, s.queue, s.cancel).Admit? {
      AdmitKeeps(s, i, Entered(s, i));
    } else {
      EnterMoves(s, i);
      MoveKeeps(s, i, Entered(s, i));
    }
  }

  lemma WorkerNext(s: System, move: Label)
    requires Inv(s) && Enabled(s, move) && IsWorkerMove(move)
    ensures Inv(Next(s, move))
  {
    match move
    case Enter(i) => EnterNext(s, i);
    case Preflight(i, passed) => PreflightKeeps(s, i, passed, Next(s, move));
    case Drop(i) => DropKeeps(s, i, Next(s, move));
    case Publish(i) => PublishKeeps(s, i, Next(s, move));
    case Record(i) => RecordKeeps(s, i, Next(s, move));
    case _ => QuietMoveNext(s, move);
  }

  lemma MonitorNext(s: System, move: Label)
    requires Inv(s) && Enabled(s, move)
    requires move.RequestCancel? || move.MonitorRaise? || move.MonitorMark? || move.MonitorStop?
    ensures Inv(Next(s, move))
  {
    CancelKeeps(s, Next(s, move));
  }

  lemma CoordinatorNext(s: System, move: Label)
    requires Inv(s) && Enabled(s, move) && (move.Collect? || move.CallBack? || move.Finish?)
    ensures Inv(Next(s, move))
  {
    match move
    case Collect => CollectKeeps(s, Next(s, move));
    case CallBack(_) => CallBackKeeps(s, move, Next(s, move));
    case Finish => FinishKeeps(s, Next(s, move));
  }

  /** Every step of every thread keeps the invariant. */
  lemma InvNext(s: System, move: Label)
    requires Inv(s) && Enabled(s, move)
    ensures Inv(Next(s, move))
  {
    if IsWorkerMove(move) {
      WorkerNext(s, move);
    } else if move.Collect? || move.CallBack? || move.Finish? {
      CoordinatorNext(s, move);
    } else {
      MonitorNext(s, move);
    }
  }
}

/** What single steps of a run do and what they add up to: when probes start, what the job shows, and how its
    counters, results and closing report come about. */
module BenchSteps {
  import opened Wrappers
  import opened BenchScheduler
  import opened BenchRuns
  import opened BenchTheorems
  import opened Text

  // ------------------------------------------------------ starting probes

  lemma CancelledStep(s: System, move: Label)
    requires Enabled(s, move) && s.cancel
    ensures var s' := Next(s, move); s'.cancel && s'.started == s.started && s'.queue == s.queue
  {
  }

  /** Once the flag is up no further profile leaves the queue and no probe starts, in whatever order the
      threads go on. */
  lemma {:induction false} CancelledStartsNothing(s: System, moves: seq<Label>)
    requires CanRun(s, moves) && s.cancel
    ensures var s' := RunTo(s, moves); s'.cancel && s'.started == s.started && s'.queue == s.queue
    decreases |moves|
  {
    if moves != [] {
      CancelledStep(s, moves[0]);
      CancelledStartsNothing(Next(s, moves[0]), moves[1..]);
    }
  }

  /** The good servers found, in a search. */
  function Found(s: System): nat {
    if s.job.search.Some? then |GoodRaws(s.job.results, s.job.search.value.required)| else 0
  }

  /** Even if every probe in flight turns out good, another one is still needed. */
  predicate NeedsMore(s: System) {
    s.job.search.Some? ==> Found(s) + |Held(s.workers)| < s.job.search.value.targetGood
  }

  /** What a worker at the lock meets, in terms of the good servers found and the probes in flight: it may
      start the next profile in list order exactly when nobody cancelled and one more may be needed, it waits
      exactly when the probes in flight may suffice, and otherwise it leaves. */
  lemma AdmissionIff(s: System)
    requires Conserved(s) && Counted(s)
    ensures var admission := AdmissionOf(s.job, s.queue, s.cancel);
            && (admission.Admit? <==> !s.cancel && s.queue != [] && NeedsMore(s))
            && (admission.Admit? ==> admission.profile == s.queue[0])
            && (admission.Wait? <==> !s.cancel && !NeedsMore(s) && Found(s) < s.job.search.value.targetGood)
            && (admission.Leave? <==>
                  || s.cancel
                  || (!NeedsMore(s) && Found(s) >= s.job.search.value.targetGood)
                  || (NeedsMore(s) && s.queue == []))
  {
    assert |multiset(s.job.active)| == |s.job.active|;
  }

  /** Starting a profile takes it off the queue and reserves it; waiting and leaving change the worker only. */
  lemma EnteredIs(s: System, i: nat)
    requires Conserved(s) && Enabled(s, Enter(i))
    ensures var admission, s' := AdmissionOf(s.job, s.queue, s.cancel), Entered(s, i);
            && (admission.Admit? ==>
                  && s'.workers == s.workers[i := Probing(s.queue[0], None, false)] && s'.queue == s.queue[1..]
                  && s'.job == s.job.(current := Some(s.queue[0].id), active := s.job.active + [s.queue[0]]))
            && (admission.Wait? ==> s' == s.(workers := s.workers[i := Top]))
            && (admission.Leave? ==> s' == s.(workers := s.workers[i := Exited]))
  {
    if AdmissionOf(s.job, s.queue, s.cancel).Admit? {
      ReservationFits(s, i, s.queue[0]);
    }
  }

  // ------------------------------------------------------ the closing steps

  /** The report of a search: cancelled exactly when the flag is up as it is written, and otherwise by
      whether the target was reached. */
  lemma FinishReasonIff(s: System)
    requires Inv(s) && Enabled(s, Finish) && s.job.search.Some?
    ensures var search := s.job.search.value;
            var reason := Next(s, Finish).job.search.value.finishReason;
            && (reason == Some(RunCancelled) <==> s.cancel)
            && (reason == Some(TargetReached) <==> !s.cancel && Found(s) == search.targetGood)
            && (reason == Some(Exhausted) <==> !s.cancel && Found(s) < search.targetGood)
  {
  }

  /** The coordinator sets results aside for the callback exactly when an ordinary run is complete and nobody
      cancelled it. */
  lemma SetAsideIff(s: System)
    requires Counted(s) && Enabled(s, Collect)
    ensures Next(s, Collect).coordinator.pending
            == if s.job.search.None? && !s.cancel && |s.done| == |s.profiles| then Some(s.job.results) else None
  {
  }

  /** Results set aside are handed over once, and whatever the callback gives back replaces them. */
  lemma CallBackIff(s: System, replaced: seq<Outcome>)
    requires Coordinated(s) && Enabled(s, CallBack(replaced))
    ensures var s' := Next(s, CallBack(replaced));
            if s.hasCallback && s.coordinator.pending.Some?
            then s'.callbacks == [s.coordinator.pending.value] && s'.job.results == replaced
            else s'.callbacks == [] && s'.job == s.job
  {
  }

  // ------------------------------------------------------ what the job shows

  /** As long as nothing was dropped, the current profile is the one started last among those in flight. */
  predicate CurrentIsLatest(job: Job) {
    job.current == if job.active == [] then None else Some(job.active[|job.active| - 1].id)
  }

  ghost predicate ShowsLatest(s: System) {
    && (s.dropped == multiset{} ==> CurrentIsLatest(s.job))
    && (s.job.running <==> !s.coordinator.Finished?)
    && (s.coordinator.Finished? ==> s.job.current.None? && s.job.active == [])
    && (s.job.memoryPressure ==> s.cancel && s.monitor.Stopped?)
    && (s.job.cancelRequested <==> s.job.memoryPressure)
  }

  lemma EnteringShowsLatest(s: System, i: nat)
    requires Conserved(s) && Coordinated(s) && ShowsLatest(s) && Enabled(s, Enter(i))
    ensures ShowsLatest(Entered(s, i))
  {
    LiveIsJoining(s, i);
    EnteredIs(s, i);
  }

  lemma RecordingShowsLatest(s: System, i: nat)
    requires Coordinated(s) && ShowsLatest(s) && Enabled(s, Record(i))
    ensures ShowsLatest(Next(s, Record(i)))
  {
    LiveIsJoining(s, i);
  }

  lemma PreflightShowsLatest(s: System, i: nat, passed: bool)
    requires ShowsLatest(s) && Enabled(s, Preflight(i, passed))
    ensures ShowsLatest(Next(s, Preflight(i, passed)))
  {
  }

  lemma FailureShowsLatest(s: System, move: Label)
    requires ShowsLatest(s) && Enabled(s, move) && move.PreflightFailure?
    ensures ShowsLatest(Next(s, move))
  {
  }

  lemma DroppingShowsLatest(s: System, i: nat)
    requires Coordinated(s) && ShowsLatest(s) && Enabled(s, Drop(i))
    ensures ShowsLatest(Next(s, Drop(i)))
  {
    LiveIsJoining(s, i);
    assert s.workers[i].profile in Next(s, Drop(i)).dropped;
  }

  /** Steps of the workers between critical sections leave the job alone. */
  predicate IsPrivate(move: Label) {
    move.CheckCancel? || move.Return? || move.CheckAfter? || move.Publish?
  }

  lemma PrivateShowsLatest(s: System, move: Label)
    requires ShowsLatest(s) && Enabled(s, move) && IsPrivate(move)
    ensures ShowsLatest(Next(s, move))
  {
  }

  predicate IsMonitorMove(move: Label) {
    move.RequestCancel? || move.MonitorRaise? || move.MonitorMark? || move.MonitorStop?
  }

  lemma MonitorShowsLatest(s: System, move: Label)
    requires Honest(s) && ShowsLatest(s) && Enabled(s, move) && IsMonitorMove(move)
    ensures ShowsLatest(Next(s, move))
  {
  }

  lemma ClosingShowsLatest(s: System, move: Label)
    requires ShowsLatest(s) && Enabled(s, move) && (move.Collect? || move.CallBack? || move.Finish?)
    ensures ShowsLatest(Next(s, move))
  {
  }

  lemma StepShowsLatest(s: System, move: Label)
    requires Inv(s) && ShowsLatest(s) && Enabled(s, move)
    ensures ShowsLatest(Next(s, move))
  {
    match move
    case Enter(i) => EnteringShowsLatest(s, i);
    case Record(i) => RecordingShowsLatest(s, i);
    case Preflight(i, passed) => PreflightShowsLatest(s, i, passed);
    case PreflightFailure(_, _, _) => FailureShowsLatest(s, move);
    case Drop(i) => DroppingShowsLatest(s, i);
    case CheckCancel(_) => PrivateShowsLatest(s, move);
    case Return(_, _) => PrivateShowsLatest(s, move);
    case CheckAfter(_) => PrivateShowsLatest(s, move);
    case Publish(_) => PrivateShowsLatest(s, move);
    case RequestCancel => MonitorShowsLatest(s, move);
    case MonitorRaise => MonitorShowsLatest(s, move);
    case MonitorMark => MonitorShowsLatest(s, move);
    case MonitorStop => MonitorShowsLatest(s, move);
    case Collect => ClosingShowsLatest(s, move);
    case CallBack(_) => ClosingShowsLatest(s, move);
    case Finish => ClosingShowsLatest(s, move);
  }

  lemma {:induction false} RunShowsLatest(s: System, moves: seq<Label>)
    requires Inv(s) && ShowsLatest(s) && CanRun(s, moves)
    ensures ShowsLatest(RunTo(s, moves))
    decreases |moves|
  {
    if moves != [] {
      InvNext(s, moves[0]);
      StepShowsLatest(s, moves[0]);
      RunShowsLatest(Next(s, moves[0]), moves[1..]);
    }
  }

  /** What the status of a job says is true in every reachable state. */
  lemma StatusIsTruthful(start: System, moves: seq<Label>)
    requires Initial(start) && CanRun(start, moves)
    ensures ShowsLatest(RunTo(start, moves))
  {
    InitialInv(start);
    RunShowsLatest(start, moves);
  }

  // ------------------------------------------------------ counters and results as histories

  /** How many preflights of a run were reported with this outcome. */
  function PreflightsOf(moves: seq<Label>, passed: bool): nat
    decreases |moves|
  {
    if moves == [] then 0
    else (if moves[0].Preflight? && moves[0].passed == passed then 1 else 0) + PreflightsOf(moves[1..], passed)
  }

  /** The search of `after` has these many more preflights than that of `before`. */
  predicate Counts(before: Job, after: Job, completed: nat, rejected: nat)
    requires before.search.Some?
  {
    && after.search.Some?
    && after.search.value.preflightCompleted == before.search.value.preflightCompleted + completed
    && after.search.value.preflightRejected == before.search.value.preflightRejected + rejected
  }

  lemma EnteringCounts(s: System, i: nat)
    requires Enabled(s, Enter(i)) && s.job.search.Some?
    ensures Counts(s.job, Entered(s, i).job, 0, 0)
  {
  }

  lemma RecordingCounts(s: System, i: nat)
    requires Enabled(s, Record(i)) && s.job.search.Some?
    ensures Counts(s.job, Next(s, Record(i)).job, 0, 0)
  {
  }

  lemma PreflightStep(s: System, move: Label)
    requires Enabled(s, move) && s.job.search.Some?
    ensures Counts(s.job, Next(s, move).job, if move.Preflight? then 1 else 0,
                   if move.Preflight? && !move.passed then 1 else 0)
  {
    match move
    case Enter(i) => EnteringCounts(s, i);
    case Record(i) => RecordingCounts(s, i);
    case _ =>
  }

  /** The counters of a search count the preflights reported and those that failed. */
  lemma {:induction false} PreflightsAreCounted(s: System, moves: seq<Label>)
    requires CanRun(s, moves) && s.job.search.Some?
    ensures Counts(s.job, RunTo(s, moves).job, PreflightsOf(moves, true) + PreflightsOf(moves, false),
                   PreflightsOf(moves, false))
    decreases |moves|
  {
    if moves != [] {
      PreflightStep(s, moves[0]);
      PreflightsAreCounted(Next(s, moves[0]), moves[1..]);
    }
  }

  /** The results recorded by a run, in order. */
  ghost function RecordsOf(s: System, moves: seq<Label>): seq<Outcome>
    requires CanRun(s, moves)
    decreases |moves|
  {
    if moves == [] then []
    else
      var recorded := if moves[0].Record? && s.workers[moves[0].i].result.Some?
                      then [s.workers[moves[0].i].result.value] else [];
      recorded + RecordsOf(Next(s, moves[0]), moves[1..])
  }

  lemma EnteringKeepsResults(s: System, i: nat)
    requires Enabled(s, Enter(i))
    ensures Entered(s, i).job.results == s.job.results
  {
  }

  lemma ResultsStep(s: System, move: Label)
    requires Enabled(s, move) && !move.CallBack?
    ensures Next(s, move).job.results == s.job.results +
              if move.Record? && s.workers[move.i].result.Some? then [s.workers[move.i].result.value] else []
  {
    AddNothing(s.job.results);
    if move.Enter? {
      EnteringKeepsResults(s, move.i);
    }
  }

  /** Until a callback replaces them, the results are those recorded, in the order in which they were. */
  lemma {:induction false} ResultsInOrder(s: System, moves: seq<Label>)
    requires CanRun(s, moves) && forall move | move in moves :: !move.CallBack?
    ensures RunTo(s, moves).job.results == s.job.results + RecordsOf(s, moves)
    decreases |moves|
  {
    AddNothing(s.job.results);
    if moves != [] {
      var recorded := if moves[0].Record? && s.workers[moves[0].i].result.Some?
                      then [s.workers[moves[0].i].result.value] else [];
      ResultsStep(s, moves[0]);
      ResultsInOrder(Next(s, moves[0]), moves[1..]);
      AddTwice(s.job.results, recorded, RecordsOf(Next(s, moves[0]), moves[1..]));
    }
  }

  // ------------------------------------------------------ entries of the failure log

  /** An entry names its profile and keeps the first 32 characters of the phase and, of the error, the longest
      beginning of at most 2048 bytes. */
  lemma EntryMeans(profile: Profile, phase: string, error: string)
    ensures var entry := EntryOf(profile, phase, error);
            && entry.profileId == profile.id
            && entry.phase <= phase && |entry.phase| == (if |phase| <= 32 then |phase| else 32)
            && entry.error <= error && Bytes(entry.error) <= 2048
            && (entry.error != error ==>
                  |entry.error| < |error| && Bytes(entry.error) + CharBytes(error[|entry.error|]) > 2048)
  {
    ClippedIsLongest(error, PREFLIGHT_ERROR_BYTES);
  }
}

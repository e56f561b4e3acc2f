/** The promises of a benchmark run: safety over every interleaving, and the end
    of every fair run. */
module BenchTheorems {
  import opened Wrappers
  import opened BenchScheduler
  import opened BenchRuns

  ghost predicate CanRun(s: System, moves: seq<Label>)
    decreases |moves|
  {
    moves == [] || (Enabled(s, moves[0]) && CanRun(Next(s, moves[0]), moves[1..]))
  }

  ghost function RunTo(s: System, moves: seq<Label>): System
    requires CanRun(s, moves)
    decreases |moves|
  {
    if moves == [] then s else RunTo(Next(s, moves[0]), moves[1..])
  }

  lemma {:induction false} RunKeepsInv(s: System, moves: seq<Label>)
    requires Inv(s) && CanRun(s, moves)
    ensures Inv(RunTo(s, moves))
    decreases |moves|
  {
    if moves != [] {
      InvNext(s, moves[0]);
      RunKeepsInv(Next(s, moves[0]), moves[1..]);
    }
  }

  lemma {:induction false} RunKeepsProfiles(s: System, moves: seq<Label>)
    requires CanRun(s, moves)
    ensures RunTo(s, moves).profiles == s.profiles
    decreases |moves|
  {
    if moves != [] {
      assert Next(s, moves[0]).profiles == s.profiles;
      RunKeepsProfiles(Next(s, moves[0]), moves[1..]);
    }
  }

  /** Servers found plus reservations in flight never exceed the target, and every
      worker in flight has its entry in the job's list of active profiles. */
  lemma NeverOvershoots(start: System, moves: seq<Label>)
    requires Initial(start) && CanRun(start, moves)
    ensures var s := RunTo(start, moves);
            && multiset(s.job.active) == Held(s.workers)
            && |s.job.active| <= MAX_WORKERS
            && (s.job.search.Some? ==>
                  s.job.search.value.foundGood + |Held(s.workers)| <= s.job.search.value.targetGood)
  {
    InitialInv(start);
    RunKeepsInv(start, moves);
    var s := RunTo(start, moves);
    assert |multiset(s.job.active)| == |s.job.active|;
    HeldFits(s.workers);
  }

  /** Each profile is at all times in exactly one place and is probed at most once,
      in list order; the counters of the job are the sizes of those places. */
  lemma EveryProfileInOnePlace(start: System, moves: seq<Label>, profile: Profile)
    requires Initial(start) && CanRun(start, moves) && profile in start.profiles
    ensures var s := RunTo(start, moves);
            && multiset(s.queue)[profile] + Held(s.workers)[profile] + s.done[profile] + s.dropped[profile] == 1
            && s.started[profile] == 1 - multiset(s.queue)[profile]
            && |s.queue| <= |start.profiles| && s.queue == start.profiles[|start.profiles| - |s.queue|..]
            && s.job.completed == |s.done|
            && (s.job.search.Some? ==>
                  var search := s.job.search.value;
                  && search.foundGood == |GoodRaws(s.job.results, search.required)|
                  && search.quickCompleted == |s.job.results|
                  && s.job.completed == |s.job.results| + s.doneRejected
                  && search.preflightRejected == s.doneRejected + s.droppedRejected + HeldRejected(s.workers))
  {
    InitialInv(start);
    RunKeepsInv(start, moves);
    RunKeepsProfiles(start, moves);
    InOnePlace(RunTo(start, moves), profile);
  }

  lemma InOnePlace(s: System, profile: Profile)
    requires Conserved(s) && profile in s.profiles
    ensures multiset(s.queue)[profile] + Held(s.workers)[profile] + s.done[profile] + s.dropped[profile] == 1
    ensures s.started[profile] == 1 - multiset(s.queue)[profile]
  {
    assert profile in multiset(s.profiles);
    assert (multiset(s.queue) + s.started)[profile] == multiset(s.profiles)[profile] == 1;
  }

  /** Once all workers have left, the results handed out are the results recorded,
      and without cancellation every completion is a result or a rejected preflight. */
  lemma JoinedResultsAgree(start: System, moves: seq<Label>)
    requires Initial(start) && CanRun(start, moves) && AllExited(RunTo(start, moves).workers)
    requires RunTo(start, moves).callbacks == []
    ensures var s := RunTo(start, moves);
            && multiset(s.emitted) == multiset(s.job.results)
            && (s.job.search.Some? && !s.cancel ==>
                  s.job.completed == |s.job.results| + s.job.search.value.preflightRejected)
  {
    InitialInv(start);
    RunKeepsInv(start, moves);
    var s := RunTo(start, moves);
    AllRecorded(s);
    NobodyHolds(s.workers);
  }

  /** The report at the end is truthful; the completion callback ran at most once, after everybody had
      left, on a complete ordinary run, and exactly once if nobody cancelled that run. */
  lemma ReportIsTruthful(start: System, moves: seq<Label>)
    requires Initial(start) && CanRun(start, moves)
    ensures var s := RunTo(start, moves);
            && (s.job.search.Some? ==>
                  match s.job.search.value.finishReason
                  case None => !s.coordinator.Finished?
                  case Some(RunCancelled) => s.cancel
                  case Some(TargetReached) => s.job.search.value.foundGood == s.job.search.value.targetGood
                  case Some(Exhausted) =>
                    && s.queue == [] && s.job.completed == |s.profiles|
                    && s.job.search.value.foundGood < s.job.search.value.targetGood)
            && |s.callbacks| <= 1
            && (s.coordinator.Finished? && MustCallBack(s) ==> |s.callbacks| == 1)
            && (s.callbacks != [] ==>
                  && s.hasCallback && s.job.search.None? && AllExited(s.workers)
                  && s.job.completed == |s.profiles| == |s.callbacks[0]|
                  && multiset(s.callbacks[0]) == multiset(s.emitted))
            && (s.coordinator.Finished? ==> AllExited(s.workers))
  {
    InitialInv(start);
    RunKeepsInv(start, moves);
  }

  // ------------------------------------------------------ the failure log

  function LastTwenty<T>(log: seq<T>): seq<T> {
    if |log| <= PREFLIGHT_FAILURE_LIMIT then log else log[|log| - PREFLIGHT_FAILURE_LIMIT..]
  }

  /** The failure a step reports, if any. */
  function FailureOf(s: System, move: Label): seq<FailureEntry>
    requires Enabled(s, move)
  {
    if move.PreflightFailure? && s.job.search.Some?
    then [EntryOf(s.workers[move.i].profile, move.phase, move.error)] else []
  }

  ghost function FailuresOf(s: System, moves: seq<Label>): seq<FailureEntry>
    requires CanRun(s, moves)
    decreases |moves|
  {
    if moves == [] then [] else FailureOf(s, moves[0]) + FailuresOf(Next(s, moves[0]), moves[1..])
  }

  lemma StepLogs(s: System, move: Label)
    requires Enabled(s, move) && |s.job.preflightFailures| <= PREFLIGHT_FAILURE_LIMIT
    ensures Next(s, move).job.preflightFailures == LastTwenty(s.job.preflightFailures + FailureOf(s, move))
  {
    LogAfter(s, move);
    AddNothing(s.job.preflightFailures);
    if FailureOf(s, move) != [] {
      LoggedIsLastTwenty(s.job.preflightFailures, FailureOf(s, move)[0]);
    }
  }

  lemma LoggedIsLastTwenty(log: seq<FailureEntry>, entry: FailureEntry)
    requires |log| <= PREFLIGHT_FAILURE_LIMIT
    ensures Logged(log, entry) == LastTwenty(log + [entry])
  {
    if |log| == PREFLIGHT_FAILURE_LIMIT {
      assert (log + [entry])[1..] == log[1..] + [entry];
    }
  }

  lemma AddNothing<T>(log: seq<T>)
    ensures log + [] == log
  {
  }

  lemma LogAfter(s: System, move: Label)
    requires Enabled(s, move)
    ensures var failures := FailureOf(s, move);
            Next(s, move).job.preflightFailures ==
              if failures == [] then s.job.preflightFailures else Logged(s.job.preflightFailures, failures[0])
  {
    if move.Enter? {
      EnteringKeepsLog(s, move.i);
    }
  }

  lemma EnteringKeepsLog(s: System, i: nat)
    requires Enabled(s, Enter(i))
    ensures Entered(s, i).job.preflightFailures == s.job.preflightFailures
  {
  }

  lemma AddTwice<T>(a: seq<T>, b: seq<T>, c: seq<T>)
    ensures a + b + c == a + (b + c)
  {
  }

  /** Cutting a log to its last twenty on the way changes nothing at the end. */
  lemma LastTwentyTwice<T>(log: seq<T>, first: seq<T>, rest: seq<T>)
    ensures LastTwenty(LastTwenty(log + first) + rest) == LastTwenty(log + (first + rest))
  {
    AddTwice(log, first, rest);
    LastTwentyOfLastTwenty(log + first, rest);
  }

  lemma LastTwentyOfLastTwenty<T>(all: seq<T>, rest: seq<T>)
    ensures LastTwenty(LastTwenty(all) + rest) == LastTwenty(all + rest)
  {
    if |all| > PREFLIGHT_FAILURE_LIMIT {
      LastTwentyOfCut(all, rest, |all| - PREFLIGHT_FAILURE_LIMIT);
    }
  }

  lemma LastTwentyOfCut<T>(all: seq<T>, rest: seq<T>, cut: nat)
    requires cut + PREFLIGHT_FAILURE_LIMIT <= |all|
    ensures LastTwenty(all[cut..] + rest) == LastTwenty(all + rest)
  {
    assert all[cut..] + rest == (all + rest)[cut..];
    LastTwentyOfSuffix(all + rest, cut);
  }

  lemma LastTwentyOfSuffix<T>(all: seq<T>, cut: nat)
    requires cut + PREFLIGHT_FAILURE_LIMIT <= |all|
    ensures LastTwenty(all[cut..]) == LastTwenty(all)
  {
  }

  /** The failure log of a run holds the last twenty preflight failures reported in it, in order. */
  lemma {:induction false} LogHoldsLastTwenty(s: System, moves: seq<Label>)
    requires CanRun(s, moves) && |s.job.preflightFailures| <= PREFLIGHT_FAILURE_LIMIT
    ensures RunTo(s, moves).job.preflightFailures == LastTwenty(s.job.preflightFailures + FailuresOf(s, moves))
    decreases |moves|
  {
    if moves == [] {
      AddNothing(s.job.preflightFailures);
    } else {
      StepLogs(s, moves[0]);
      LogHoldsLastTwenty(Next(s, moves[0]), moves[1..]);
      LastTwentyTwice(s.job.preflightFailures, FailureOf(s, moves[0]), FailuresOf(Next(s, moves[0]), moves[1..]));
    }
  }

  // ------------------------------------------------------ ending

  /** A worker waits only while somebody else holds a reservation. */
  lemma WaiterHasHolder(s: System, i: nat) returns (holder: nat)
    requires Inv(s) && i < |s.workers| && s.workers[i].AtLock?
    requires AdmissionOf(s.job, s.queue, s.cancel).Wait?
    ensures holder < |s.workers| && holder != i && s.workers[holder].Holding()
  {
    assert |multiset(s.job.active)| == |s.job.active| > 0;
    holder := SomeHolder(s.workers);
  }

  /** A step that only looks and finds nothing to do yet. */
  predicate IsPoll(s: System, move: Label) {
    || (move.CheckCancel? && !s.cancel)
    || (move.Enter? && AdmissionOf(s.job, s.queue, s.cancel).Wait?)
  }

  /** An upper bound on the steps still to come that are not polls. */
  function Measure(s: System): nat {
    10 * |s.queue| + Weight(s.workers)
    + (if s.cancel then 0 else 1)
    + (match s.monitor case Watching => 2 case Raised => 1 case Stopped => 0)
    + (match s.coordinator case Joining => 3 case Collected(_) => 2 case CalledBack => 1 case Finished => 0)
  }

  lemma MeasureAfter(s: System, i: nat, worker: Worker, s': System)
    requires i < |s.workers| && s'.workers == s.workers[i := worker]
    requires s'.cancel == s.cancel && s'.monitor == s.monitor && s'.coordinator == s.coordinator
    ensures Measure(s') + 10 * |s.queue| + WeightOf(s.workers[i]) == Measure(s) + 10 * |s'.queue| + WeightOf(worker)
  {
    NumbersAfter(s.workers, i, worker);
  }

  lemma EnterDecreases(s: System, i: nat)
    requires Enabled(s, Enter(i))
    ensures AdmissionOf(s.job, s.queue, s.cancel).Wait? ==> Measure(Entered(s, i)) == Measure(s)
    ensures !AdmissionOf(s.job, s.queue, s.cancel).Wait? ==> Measure(Entered(s, i)) < Measure(s)
  {
    var s' := Entered(s, i);
    MeasureAfter(s, i, s'.workers[i], s');
  }

  lemma ProbeDecreases(s: System, i: nat, move: Label)
    requires Enabled(s, move)
    requires (move.PreflightFailure? || move.Preflight? || move.Return?) && move.i == i
    ensures Measure(Next(s, move)) < Measure(s)
  {
    var s' := Next(s, move);
    MeasureAfter(s, i, s'.workers[i], s');
  }

  lemma OtherDecreases(s: System, i: nat, move: Label)
    requires Enabled(s, move)
    requires move == CheckCancel(i) || move == CheckAfter(i) || move == Drop(i) || move == Publish(i)
            || move == Record(i)
    ensures IsPoll(s, move) ==> Measure(Next(s, move)) == Measure(s)
    ensures !IsPoll(s, move) ==> Measure(Next(s, move)) < Measure(s)
  {
    var s' := Next(s, move);
    MeasureAfter(s, i, s'.workers[i], s');
  }

  /** Every step but a poll uses up some of the measure; a poll leaves it alone. */
  lemma StepDecreases(s: System, move: Label)
    requires Enabled(s, move)
    ensures IsPoll(s, move) ==> Measure(Next(s, move)) == Measure(s)
    ensures !IsPoll(s, move) ==> Measure(Next(s, move)) < Measure(s)
  {
    match move
    case Enter(i) => EnterDecreases(s, i);
    case Preflight(i, _) => ProbeDecreases(s, i, move);
    case PreflightFailure(i, _, _) => ProbeDecreases(s, i, move);
    case Return(i, _) => ProbeDecreases(s, i, move);
    case CheckCancel(i) => OtherDecreases(s, i, move);
    case CheckAfter(i) => OtherDecreases(s, i, move);
    case Drop(i) => OtherDecreases(s, i, move);
    case Publish(i) => OtherDecreases(s, i, move);
    case Record(i) => OtherDecreases(s, i, move);
    case _ =>
  }

  /** In any run the steps that are not polls are at most the initial measure. */
  lemma {:induction false} RunIsBounded(s: System, moves: seq<Label>)
    requires CanRun(s, moves)
    ensures Spent(s, moves) + Measure(RunTo(s, moves)) <= Measure(s)
    decreases |moves|
  {
    if moves != [] {
      StepDecreases(s, moves[0]);
      RunIsBounded(Next(s, moves[0]), moves[1..]);
    }
  }

  ghost function Spent(s: System, moves: seq<Label>): nat
    requires CanRun(s, moves)
    decreases |moves|
  {
    if moves == [] then 0 else (if IsPoll(s, moves[0]) then 0 else 1) + Spent(Next(s, moves[0]), moves[1..])
  }

  // ------------------------------------------------------ fair runs

  datatype Agent = WorkerThread(i: nat) | MonitorThread | CoordinatorThread

  predicate Acts(move: Label, agent: Agent) {
    match agent
    case WorkerThread(i) =>
      (move.CheckCancel? || move.Enter? || move.Preflight? || move.PreflightFailure? || move.Return? || move.CheckAfter?
       || move.Drop? || move.Publish? || move.Record?) && move.i == i
    case MonitorThread => move.MonitorRaise? || move.MonitorMark? || move.MonitorStop?
    case CoordinatorThread => move.Collect? || move.CallBack? || move.Finish?
  }

  /** A thread that has ended, or whose next step is not due yet. */
  predicate HasNothingToDo(s: System, agent: Agent) {
    match agent
    case WorkerThread(i) => i >= |s.workers| || s.workers[i].Exited?
    case MonitorThread => s.monitor.Stopped? || (s.monitor.Watching? && !s.cancel && !AllExited(s.workers))
    case CoordinatorThread =>
      s.coordinator.Finished? || (s.coordinator.Joining? && !(AllExited(s.workers) && s.monitor.Stopped?))
  }

  /** An endless run; `None` stands for a moment in which nothing happens. */
  ghost predicate IsRun(run: nat -> System, moves: nat -> Option<Label>) {
    && Initial(run(0))
    && forall n: nat :: StepAt(run, moves, n)
  }

  ghost predicate StepAt(run: nat -> System, moves: nat -> Option<Label>, n: nat) {
    match moves(n)
    case None => run(n + 1) == run(n)
    case Some(move) => Enabled(run(n), move) && run(n + 1) == Next(run(n), move)
  }

  /** Every thread with something to do is scheduled again and again; in
      particular every probe returns. */
  ghost predicate IsFair(run: nat -> System, moves: nat -> Option<Label>) {
    forall agent: Agent, n: nat :: Scheduled(run, moves, agent, n)
  }

  ghost predicate Scheduled(run: nat -> System, moves: nat -> Option<Label>, agent: Agent, n: nat) {
    exists m: nat :: m >= n && ActsAt(run, moves, agent, m)
  }

  ghost predicate ActsAt(run: nat -> System, moves: nat -> Option<Label>, agent: Agent, m: nat) {
    HasNothingToDo(run(m), agent) || (moves(m).Some? && Acts(moves(m).value, agent))
  }

  lemma {:induction false} RunInv(run: nat -> System, moves: nat -> Option<Label>, n: nat)
    requires IsRun(run, moves)
    ensures Inv(run(n))
  {
    if n == 0 {
      InitialInv(run(0));
    } else {
      RunInv(run, moves, n - 1);
      RunGoesOn(run, moves, n - 1, run(n));
    }
  }

  lemma RunGoesOn(run: nat -> System, moves: nat -> Option<Label>, n: nat, next: System)
    requires StepAt(run, moves, n) && next == run(n + 1) && Inv(run(n))
    ensures Inv(next)
  {
    StepKeepsInv(run(n), moves(n), next);
  }

  lemma StepKeepsInv(s: System, move: Option<Label>, s': System)
    requires Inv(s)
    requires if move.None? then s' == s else Enabled(s, move.value) && s' == Next(s, move.value)
    ensures Inv(s')
  {
    if move.Some? {
      InvNext(s, move.value);
    }
  }

  predicate NobodyProbes(s: System) {
    forall i | 0 <= i < |s.workers| :: !s.workers[i].Holding()
  }

  /** What polls alone can change. */
  predicate Quiet(s: System, s': System) {
    && s' == s.(workers := s'.workers)
    && |s'.workers| == |s.workers|
    && forall i | 0 <= i < |s.workers| ::
         || s'.workers[i] == s.workers[i]
         || (s.workers[i].Top? && s'.workers[i].AtLock?)
         || (s.workers[i].AtLock? && s'.workers[i].Top? && !NobodyProbes(s))
  }

  lemma QuietStep(s: System, move: Label)
    requires Inv(s) && Enabled(s, move) && Measure(Next(s, move)) >= Measure(s)
    ensures Quiet(s, Next(s, move))
  {
    StepDecreases(s, move);
    if move.Enter? {
      QuietEnter(s, move.i);
    } else {
      QuietCheck(s, move.i);
    }
  }

  lemma QuietEnter(s: System, i: nat)
    requires Inv(s) && Enabled(s, Enter(i)) && AdmissionOf(s.job, s.queue, s.cancel).Wait?
    ensures Quiet(s, Next(s, Enter(i)))
  {
    var holder := WaiterHasHolder(s, i);
  }

  lemma QuietCheck(s: System, i: nat)
    requires Enabled(s, CheckCancel(i)) && !s.cancel
    ensures Quiet(s, Next(s, CheckCancel(i)))
  {
  }

  lemma QuietTransitive(a: System, b: System, c: System)
    requires Quiet(a, b) && Quiet(b, c)
    ensures Quiet(a, c)
  {
  }

  lemma QuietMoment(run: nat -> System, moves: nat -> Option<Label>, n: nat)
    requires IsRun(run, moves) && Measure(run(n + 1)) >= Measure(run(n))
    ensures Quiet(run(n), run(n + 1)) && Measure(run(n + 1)) == Measure(run(n))
  {
    RunInv(run, moves, n);
    assert StepAt(run, moves, n);
    if moves(n).Some? {
      QuietStep(run(n), moves(n).value);
      StepDecreases(run(n), moves(n).value);
    }
  }

  /** From `n` on, either the measure drops before `m`, or nothing but polls happens. */
  lemma {:induction false} Walk(run: nat -> System, moves: nat -> Option<Label>, n: nat, m: nat) returns (k: nat)
    requires IsRun(run, moves) && n <= m
    ensures n <= k <= m
    ensures k < m ==> Measure(run(k + 1)) < Measure(run(n))
    ensures k == m ==> Quiet(run(n), run(m)) && Measure(run(m)) == Measure(run(n))
    decreases m - n
  {
    if n == m {
      k := n;
    } else if Measure(run(n + 1)) < Measure(run(n)) {
      k := n;
    } else {
      QuietMoment(run, moves, n);
      k := Walk(run, moves, n + 1, m);
      if k == m {
        QuietTransitive(run(n), run(n + 1), run(m));
      }
    }
  }

  lemma ActSpends(run: nat -> System, moves: nat -> Option<Label>, agent: Agent, n: nat, m: nat)
    requires IsRun(run, moves) && Quiet(run(n), run(m)) && ActsAt(run, moves, agent, m)
    requires forall s, move | Quiet(run(n), s) && Inv(s) && Enabled(s, move) && Acts(move, agent) :: !IsPoll(s, move)
    requires forall s | Quiet(run(n), s) :: !HasNothingToDo(s, agent)
    ensures Measure(run(m + 1)) < Measure(run(m))
  {
    RunInv(run, moves, m);
    assert StepAt(run, moves, m);
    StepDecreases(run(m), moves(m).value);
  }

  /** A thread that must act and whose next act cannot be a poll makes the measure drop. */
  lemma ActDrops(run: nat -> System, moves: nat -> Option<Label>, agent: Agent, n: nat) returns (k: nat)
    requires IsRun(run, moves) && IsFair(run, moves)
    requires forall s, move | Quiet(run(n), s) && Inv(s) && Enabled(s, move) && Acts(move, agent) :: !IsPoll(s, move)
    requires forall s | Quiet(run(n), s) :: !HasNothingToDo(s, agent)
    ensures k > n && Measure(run(k)) < Measure(run(n))
  {
    assert Scheduled(run, moves, agent, n);
    var m: nat :| m >= n && ActsAt(run, moves, agent, m);
    k := Walk(run, moves, n, m);
    k := k + 1;
    if k == m + 1 {
      ActSpends(run, moves, agent, n, m);
    }
  }

  lemma HolderActs(run: nat -> System, moves: nat -> Option<Label>, n: nat, i: nat) returns (k: nat)
    requires IsRun(run, moves) && IsFair(run, moves)
    requires i < |run(n).workers| && run(n).workers[i].Holding()
    ensures k > n && Measure(run(k)) < Measure(run(n))
  {
    k := ActDrops(run, moves, WorkerThread(i), n);
  }

  lemma QuietNobody(s: System, s': System)
    requires Quiet(s, s') && NobodyProbes(s)
    ensures NobodyProbes(s')
  {
  }

  lemma NobodyWaitsForNobody(s: System, i: nat)
    requires Inv(s) && i < |s.workers| && s.workers[i].AtLock? && NobodyProbes(s)
    ensures !AdmissionOf(s.job, s.queue, s.cancel).Wait?
  {
    if AdmissionOf(s.job, s.queue, s.cancel).Wait? {
      var holder := WaiterHasHolder(s, i);
    }
  }

  lemma LockedActs(run: nat -> System, moves: nat -> Option<Label>, n: nat, i: nat) returns (k: nat)
    requires IsRun(run, moves) && IsFair(run, moves)
    requires i < |run(n).workers| && run(n).workers[i].AtLock? && NobodyProbes(run(n))
    ensures k > n && Measure(run(k)) < Measure(run(n))
  {
    forall s, move | Quiet(run(n), s) && Inv(s) && Enabled(s, move) && Acts(move, WorkerThread(i))
      ensures !IsPoll(s, move)
    {
      QuietNobody(run(n), s);
      NobodyWaitsForNobody(s, i);
    }
    k := ActDrops(run, moves, WorkerThread(i), n);
  }

  /** A polling worker that acts while nobody probes uses up the measure or reaches the lock. */
  lemma PollReachesLock(s: System, i: nat, move: Label)
    requires Inv(s) && NobodyProbes(s) && i < |s.workers| && (s.workers[i].Top? || s.workers[i].AtLock?)
    requires Enabled(s, move) && Acts(move, WorkerThread(i))
    ensures Measure(Next(s, move)) < Measure(s)
            || (NobodyProbes(Next(s, move)) && |Next(s, move).workers| == |s.workers|
                && Next(s, move).workers[i].AtLock?)
  {
    StepDecreases(s, move);
    if s.workers[i].AtLock? {
      NobodyWaitsForNobody(s, i);
    }
  }

  lemma ReachesLock(run: nat -> System, moves: nat -> Option<Label>, m: nat, i: nat)
    requires IsRun(run, moves) && NobodyProbes(run(m))
    requires i < |run(m).workers| && (run(m).workers[i].Top? || run(m).workers[i].AtLock?)
    requires moves(m).Some? && Acts(moves(m).value, WorkerThread(i))
    ensures || Measure(run(m + 1)) < Measure(run(m))
            || (Measure(run(m + 1)) == Measure(run(m)) && NobodyProbes(run(m + 1))
                && i < |run(m + 1).workers| && run(m + 1).workers[i].AtLock?)
  {
    RunInv(run, moves, m);
    assert StepAt(run, moves, m);
    PollReachesLock(run(m), i, moves(m).value);
    StepDecreases(run(m), moves(m).value);
  }

  lemma TopActs(run: nat -> System, moves: nat -> Option<Label>, n: nat, i: nat) returns (k: nat)
    requires IsRun(run, moves) && IsFair(run, moves)
    requires i < |run(n).workers| && run(n).workers[i].Top? && NobodyProbes(run(n))
    ensures k > n && Measure(run(k)) < Measure(run(n))
  {
    assert Scheduled(run, moves, WorkerThread(i), n);
    var m: nat :| m >= n && ActsAt(run, moves, WorkerThread(i), m);
    k := Walk(run, moves, n, m);
    k := k + 1;
    if k == m + 1 {
      QuietNobody(run(n), run(m));
      ReachesLock(run, moves, m, i);
      if Measure(run(m + 1)) >= Measure(run(n)) {
        k := LockedActs(run, moves, m + 1, i);
      }
    }
  }

  lemma MonitorActs(run: nat -> System, moves: nat -> Option<Label>, n: nat) returns (k: nat)
    requires IsRun(run, moves) && IsFair(run, moves)
    requires AllExited(run(n).workers) && !run(n).monitor.Stopped?
    ensures k > n && Measure(run(k)) < Measure(run(n))
  {
    k := ActDrops(run, moves, MonitorThread, n);
  }

  lemma CoordinatorActs(run: nat -> System, moves: nat -> Option<Label>, n: nat) returns (k: nat)
    requires IsRun(run, moves) && IsFair(run, moves)
    requires AllExited(run(n).workers) && run(n).monitor.Stopped? && !run(n).coordinator.Finished?
    ensures k > n && Measure(run(k)) < Measure(run(n))
  {
    k := ActDrops(run, moves, CoordinatorThread, n);
  }

  /** As long as the report is not delivered, some thread makes the measure drop. */
  lemma Progress(run: nat -> System, moves: nat -> Option<Label>, n: nat) returns (k: nat)
    requires IsRun(run, moves) && IsFair(run, moves)
    requires !run(n).coordinator.Finished?
    ensures k > n && Measure(run(k)) < Measure(run(n))
  {
    if !NobodyProbes(run(n)) {
      var i :| 0 <= i < |run(n).workers| && run(n).workers[i].Holding();
      k := HolderActs(run, moves, n, i);
    } else if !AllExited(run(n).workers) {
      var i :| 0 <= i < |run(n).workers| && !run(n).workers[i].Exited?;
      if run(n).workers[i].AtLock? {
        k := LockedActs(run, moves, n, i);
      } else {
        k := TopActs(run, moves, n, i);
      }
    } else if !run(n).monitor.Stopped? {
      k := MonitorActs(run, moves, n);
    } else {
      k := CoordinatorActs(run, moves, n);
    }
  }

  lemma {:induction false} EndsFrom(run: nat -> System, moves: nat -> Option<Label>, n: nat) returns (m: nat)
    requires IsRun(run, moves) && IsFair(run, moves)
    ensures m >= n && run(m).coordinator.Finished?
    decreases Measure(run(n))
  {
    if run(n).coordinator.Finished? {
      m := n;
    } else {
      var k := Progress(run, moves, n);
      m := EndsFrom(run, moves, k);
    }
  }

  /** Under fair scheduling with terminating probes every run ends: all workers
      leave and the coordinator delivers its report. */
  lemma FairRunsEnd(run: nat -> System, moves: nat -> Option<Label>)
    requires IsRun(run, moves) && IsFair(run, moves)
    ensures exists m: nat :: run(m).coordinator.Finished? && AllExited(run(m).workers)
  {
    var m := EndsFrom(run, moves, 0);
    RunInv(run, moves, m);
  }
}

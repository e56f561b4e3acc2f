/** What a search finds: if probing a profile gives the same answer whenever it is probed, the number of good
    servers found does not depend on how the threads were scheduled. */
module BenchAnswers {
  import opened Wrappers
  import opened ServiceProbes
  import opened BenchScheduler
  import opened BenchRuns
  import opened BenchTheorems
  import opened Collections

  /** What the probe of each profile gives when it is not cancelled. */
  type Answer = Profile -> Option<Outcome>

  /** As long as nobody cancels, a probe returns its profile's answer. */
  predicate ReturnsAnswer(s: System, move: Label, answer: Answer)
    requires Enabled(s, move)
  {
    move.Return? && !s.cancel ==> move.result == answer(s.workers[move.i].profile)
  }

  ghost predicate RunsBy(s: System, moves: seq<Label>, answer: Answer)
    requires CanRun(s, moves)
    decreases |moves|
  {
    moves == [] || (ReturnsAnswer(s, moves[0], answer) && RunsBy(Next(s, moves[0]), moves[1..], answer))
  }

  predicate IsGood(result: Option<Outcome>, required: Required) {
    result.Some? && required in result.value.goodFor
  }

  /** The distinct good servers among the answers of the given profiles. */
  function GoodAnswers(profiles: multiset<Profile>, answer: Answer, required: Required): set<string> {
    set profile | profile in profiles && IsGood(answer(profile), required) :: answer(profile).value.profileRaw
  }

  // ------------------------------------------------------ what every step keeps

  predicate Carries(worker: Worker, answer: Answer) {
    match worker
    case Returned(profile, _, result) => result == answer(profile)
    case Publishing(profile, _, result) => result == answer(profile)
    case Recording(profile, _, result) => result == answer(profile)
    case _ => true
  }

  predicate AllCarry(workers: seq<Worker>, answer: Answer) {
    forall i | 0 <= i < |workers| :: Carries(workers[i], answer)
  }

  predicate RecordsAnswers(job: Job, done: multiset<Profile>, answer: Answer) {
    job.search.Some? ==>
      var required := job.search.value.required;
      GoodRaws(job.results, required) == GoodAnswers(done, answer, required)
  }

  /** Until somebody cancels, the workers carry answers and the good results are those of the profiles done. */
  predicate Answering(s: System, answer: Answer) {
    !s.cancel ==> AllCarry(s.workers, answer) && RecordsAnswers(s.job, s.done, answer)
  }

  lemma CarriedOn(s: System, move: Label, answer: Answer)
    requires Enabled(s, move) && ReturnsAnswer(s, move, answer) && !Next(s, move).cancel
    requires AllCarry(s.workers, answer)
    ensures AllCarry(Next(s, move).workers, answer)
  {
    if move.Enter? {
      EnteringCarries(s, move.i, answer);
    }
  }

  lemma EnteringCarries(s: System, i: nat, answer: Answer)
    requires Enabled(s, Enter(i)) && AllCarry(s.workers, answer)
    ensures AllCarry(Entered(s, i).workers, answer)
  {
  }

  lemma OneMoreAnswer(results: seq<Outcome>, done: multiset<Profile>, profile: Profile, answer: Answer,
                      required: Required)
    requires GoodRaws(results, required) == GoodAnswers(done, answer, required)
    ensures var result := answer(profile);
            GoodRaws(if result.Some? then results + [result.value] else results, required)
            == GoodAnswers(done + multiset{profile}, answer, required)
  {
    var result, more := answer(profile), done + multiset{profile};
    var after := if result.Some? then results + [result.value] else results;
    var added := if IsGood(result, required) then {result.value.profileRaw} else {};
    assert forall r :: r in after <==> r in results || (result.Some? && r == result.value);
    assert GoodRaws(after, required) == GoodRaws(results, required) + added;
    assert forall p :: p in more <==> p in done || p == profile;
    assert GoodAnswers(more, answer, required) == GoodAnswers(done, answer, required) + added;
  }

  lemma RecordingAnswers(s: System, i: nat, answer: Answer)
    requires Enabled(s, Record(i)) && Carries(s.workers[i], answer) && RecordsAnswers(s.job, s.done, answer)
    ensures RecordsAnswers(Next(s, Record(i)).job, Next(s, Record(i)).done, answer)
  {
    if s.job.search.Some? {
      OneMoreAnswer(s.job.results, s.done, s.workers[i].profile, answer, s.job.search.value.required);
    }
  }

  /** The search a job was asked for: its target and its required services. */
  function AskedFor(job: Job): Option<(nat, Required)> {
    if job.search.None? then None else Some((job.search.value.targetGood, job.search.value.required))
  }

  lemma EnteringAsksSame(s: System, i: nat)
    requires Enabled(s, Enter(i))
    ensures AskedFor(Entered(s, i).job) == AskedFor(s.job)
    ensures Entered(s, i).job.results == s.job.results && Entered(s, i).done == s.done
  {
  }

  lemma NextAsksSame(s: System, move: Label)
    requires Enabled(s, move)
    ensures AskedFor(Next(s, move).job) == AskedFor(s.job)
  {
    if move.Enter? {
      EnteringAsksSame(s, move.i);
    }
  }

  /** Only recording and, in an ordinary run, the callback touch the results. */
  lemma OthersKeepResults(s: System, move: Label)
    requires Coordinated(s) && Enabled(s, move) && !move.Record? && s.job.search.Some?
    ensures Next(s, move).job.results == s.job.results && Next(s, move).done == s.done
  {
    if move.Enter? {
      EnteringAsksSame(s, move.i);
    }
  }

  lemma AnsweringNext(s: System, move: Label, answer: Answer)
    requires Coordinated(s) && Answering(s, answer) && Enabled(s, move) && ReturnsAnswer(s, move, answer)
    ensures Answering(Next(s, move), answer)
  {
    if !Next(s, move).cancel {
      CarriedOn(s, move, answer);
      NextAsksSame(s, move);
      if move.Record? {
        RecordingAnswers(s, move.i, answer);
      } else if s.job.search.Some? {
        OthersKeepResults(s, move);
      }
    }
  }

  lemma {:induction false} RunAnswers(s: System, moves: seq<Label>, answer: Answer)
    requires Inv(s) && Answering(s, answer) && CanRun(s, moves) && RunsBy(s, moves, answer)
    ensures Answering(RunTo(s, moves), answer) && AskedFor(RunTo(s, moves).job) == AskedFor(s.job)
    decreases |moves|
  {
    if moves != [] {
      AnsweringNext(s, moves[0], answer);
      NextAsksSame(s, moves[0]);
      InvNext(s, moves[0]);
      RunAnswers(Next(s, moves[0]), moves[1..], answer);
    }
  }

  // ------------------------------------------------------ what a search finds

  lemma MoreProfilesMoreGood(some: multiset<Profile>, all: multiset<Profile>, answer: Answer, required: Required)
    requires some <= all
    ensures |GoodAnswers(some, answer, required)| <= |GoodAnswers(all, answer, required)|
  {
    CardinalityOfSubset(GoodAnswers(some, answer, required), GoodAnswers(all, answer, required));
  }

  lemma FinishedSearch(s: System, answer: Answer)
    requires Inv(s) && Answering(s, answer) && s.coordinator.Finished? && !s.cancel && s.job.search.Some?
    ensures var search := s.job.search.value;
            var good := |GoodAnswers(multiset(s.profiles), answer, search.required)|;
            && search.foundGood == (if search.targetGood <= good then search.targetGood else good)
            && search.finishReason == Some(if search.targetGood <= good then TargetReached else Exhausted)
  {
    var search := s.job.search.value;
    assert search.foundGood == |GoodAnswers(s.done, answer, search.required)|;
    if TargetMet(s.job) {
      assert s.done <= s.started <= multiset(s.profiles);
      MoreProfilesMoreGood(s.done, multiset(s.profiles), answer, search.required);
    } else {
      NothingLeft(s);
      NobodyHolds(s.workers);
      assert s.done == s.started == multiset(s.profiles);
    }
  }

  /**
   * However the threads are scheduled, a search that ends uncancelled has found as many good servers as the
   * target asks for or, if the answers of all profiles hold fewer distinct ones, all of those; and it says which.
   */
  lemma SearchFindsAll(start: System, moves: seq<Label>, answer: Answer)
    requires Initial(start) && CanRun(start, moves) && RunsBy(start, moves, answer) && start.job.search.Some?
    requires RunTo(start, moves).coordinator.Finished? && !RunTo(start, moves).cancel
    ensures var asked, s := start.job.search.value, RunTo(start, moves);
            var good := |GoodAnswers(multiset(start.profiles), answer, asked.required)|;
            && s.job.search.Some?
            && s.job.search.value.foundGood == (if asked.targetGood <= good then asked.targetGood else good)
            && s.job.search.value.finishReason == Some(if asked.targetGood <= good then TargetReached else Exhausted)
  {
    InitialInv(start);
    RunAnswers(start, moves, answer);
    RunKeepsInv(start, moves);
    RunKeepsProfiles(start, moves);
    FinishedSearch(RunTo(start, moves), answer);
  }
}

/** What a service check lists and concludes, in terms of the single answers: which services are called, which
    failures are listed, and what counts as evidence. */
module ProbeMeanings {

  import opened ServiceProbes
  import opened Wrappers

  // ------------------------------------------------- which services are called

  /** The number of stable answers before the first unstable one. */
  function StableAnswers(answers: Answers): nat {
    if !answers[0].stable then 0 else if !answers[1].stable then 1 else if !answers[2].stable then 2 else 3
  }

  /** Services are called in order up to the last one asked for and, if the first failure stops the check, up to
      the first whose answer is not stable. */
  lemma CalledAre(last: nat, failFast: bool, answers: Answers)
    requires last <= 2
    ensures var wanted := last + 1;
            var reached := if failFast && StableAnswers(answers) < 3 then StableAnswers(answers) + 1 else 3;
            ProbedUpTo(last, failFast, answers, 3) == SERVICES[..if wanted < reached then wanted else reached]
  {
    assert AllStable(answers, 1) <==> answers[0].stable;
    assert AllStable(answers, 2) <==> answers[0].stable && answers[1].stable;
    assert ProbedUpTo(last, failFast, answers, 1) == ProbedUpTo(last, failFast, answers, 0)
      + if Probed(last, failFast, answers, 0) then [SERVICES[0]] else [];
    assert ProbedUpTo(last, failFast, answers, 2) == ProbedUpTo(last, failFast, answers, 1)
      + if Probed(last, failFast, answers, 1) then [SERVICES[1]] else [];
  }

  /** What is listed for a service that was not called. */
  lemma SkippedIs(id: TestId)
    ensures var test := SkippedTest(id);
            test.id == id && test.attempts == test.successes == 0
            && !test.reachable && !test.stable && !test.inconclusive
  {
  }

  /** The check that the ping gate refused lists all services under their own ids, none of them tried. */
  lemma RejectedAre(mode: BenchMethod, options: Option<Options>, pings: seq<Test>, oracle: Oracle)
    requires RejectsServices(options, pings)
    ensures var tests := PolicyTests(mode, options, pings, oracle);
            && |tests| == 3 && tests[1].id == TelegramMedia && tests[2].id == AiStudio
            && tests[0].id == (if mode.IsAvailability() then YoutubeThumbnails else YoutubePlayback)
            && tests[0].contract == (if mode.IsAvailability() then 1 else 7)
            && tests[1].contract == tests[2].contract == 7
            && forall i | 0 <= i < 3 :: tests[i].attempts == 0 && !tests[i].stable && !tests[i].reachable
  {
  }

  /** The gate refuses exactly when the policy says so and no ping that was tried reached anything. */
  lemma RejectsIff(options: Option<Options>, pings: seq<Test>)
    ensures RejectsServices(options, pings) <==>
            && options.Some? && options.value.rejectNoPing
            && forall test | test in pings ::
                 !(test.id in {PingIcmp, PingTcp, PingProxy} && test.attempts > 0 && test.reachable)
  {
  }

  /** What is listed for a service whose probe gave an error. */
  lemma FailedIs(mode: BenchMethod, oracle: Oracle, service: Service)
    requires oracle(service).Err?
    ensures var test := PolicyAnswer(mode, oracle, service);
            && test.attempts == 1 && test.successes == 0 && !test.reachable && !test.stable && !test.inconclusive
            && match service
               case Youtube =>
                 if mode.IsAvailability() then test.id == YoutubeThumbnails && test.contract == 1
                 else test.id == YoutubePlayback && test.contract == 7
               case Telegram => test.id == TelegramMedia && test.contract == 7
               case Ai => test.id == AiStudio && test.contract == 7
    ensures AdaptiveAnswer(oracle, service) == Test(7, service.PlainId(), 1, 0, false, false, false)
  {
  }

  /** What a check asks of the loop: an explicit policy says how far to go and whether to stop at a failure, and
      only cancellation ends it; without one all services are asked for, the quick modes stop at a failure, and any
      error ends it. */
  lemma RequestMeans(mode: BenchMethod, options: Option<Options>)
    ensures options.None? ==> RequestOf(mode, options) == Request(2, mode.Quick? || mode.AvailabilityQuick?, true)
    ensures options.Some? ==>
              var last := match options.value.required
                          case UpToYoutube => 0
                          case UpToTelegram => 1
                          case _ => 2;
              RequestOf(mode, options) == Request(last, options.value.failFast, false)
  {
  }

  // ------------------------------------------------- errors

  /** Where any error ends the loop and nobody cancels, the loop ends with the error of the first called service
      that has one, and otherwise lists a test for each service. */
  lemma FirstErrorEnds(request: Request, answers: Answers, cancel: Cancel, oracle: Oracle) returns (i: nat)
    requires request.anyError && NeverCancelled(cancel)
    ensures i <= 3
    ensures forall j: nat | j < i :: Probed(request.last, request.failFast, answers, j) ==> oracle(SERVICES[j]).Ok?
    ensures i < 3 ==>
              && Probed(request.last, request.failFast, answers, i) && oracle(SERVICES[i]).Err?
              && LoopOutcome(request, answers, cancel, oracle) == Err(oracle(SERVICES[i]).error)
    ensures i == 3 ==>
              LoopOutcome(request, answers, cancel, oracle)
              == Ok(TestsUpTo(request.last, request.failFast, answers, 3))
  {
    i := FirstError(request, answers, oracle);
    LoopStopIff(request, answers, cancel, oracle, i);
    if i < 3 {
      assert LoopStop(request, answers, cancel, oracle, i + 1) == Some(oracle(SERVICES[i]).error);
      LoopStopStays(request, answers, cancel, oracle, i + 1);
    }
  }

  lemma FirstError(request: Request, answers: Answers, oracle: Oracle) returns (i: nat)
    ensures i <= 3
    ensures forall j: nat | j < i :: Probed(request.last, request.failFast, answers, j) ==> oracle(SERVICES[j]).Ok?
    ensures i < 3 ==> Probed(request.last, request.failFast, answers, i) && oracle(SERVICES[i]).Err?
  {
    i := 0;
    while i < 3 && !(Probed(request.last, request.failFast, answers, i) && oracle(SERVICES[i]).Err?)
      invariant i <= 3
      invariant forall j: nat | j < i :: Probed(request.last, request.failFast, answers, j) ==> oracle(SERVICES[j]).Ok?
    {
      i := i + 1;
    }
  }

  // ------------------------------------------------- listed failures

  /** The services a policy asks for report under these ids. */
  predicate Asks(options: Options, id: TestId) {
    || id.YoutubeThumbnails?
    || (id.TelegramMedia? && !options.required.UpToYoutube?)
    || (id.AiStudio? && (options.required.All? || options.required.UpToAi?))
  }

  lemma AsksIff(options: Options, id: TestId)
    ensures id in RequestedIds(Some(options)) <==> Asks(options, id)
  {
    var rank := RequestedRanks(options, id);
    var ids := RequestedIds(Some(options));
    assert ids[0] == YoutubeThumbnails;
    assert |ids| >= 2 ==> ids[1] == TelegramMedia;
    assert |ids| >= 3 ==> ids[2] == AiStudio;
  }

  /** A test that is no ping, not stable or not conclusive and, under a policy, tried and asked for. */
  predicate IsFailure(test: Test, policy: Option<Options>) {
    && test.id !in {PingIcmp, PingTcp, PingProxy} && (!test.stable || test.inconclusive)
    && (policy.Some? ==> test.attempts > 0 && Asks(policy.value, test.id))
  }

  lemma IsFailureIff(test: Test, policy: Option<Options>)
    ensures CountsAsFailure(test, policy) <==> IsFailure(test, policy)
  {
    if policy.Some? {
      AsksIff(policy.value, test.id);
    }
  }

  lemma {:induction false} ServiceFailuresAre(tests: seq<Test>, policy: Option<Options>, failure: Failure)
    ensures failure in ServiceFailures(tests, policy) <==>
            exists test | test in tests ::
              IsFailure(test, policy) && failure == ServiceFailed(test.id, test.successes, test.attempts)
  {
    if tests != [] {
      IsFailureIff(tests[0], policy);
      ServiceFailuresAre(tests[1..], policy, failure);
      assert tests == [tests[0]] + tests[1..];
    }
  }

  ghost predicate PingReached(tests: seq<Test>) {
    exists test | test in tests :: test.id in {PingIcmp, PingTcp, PingProxy} && test.reachable
  }

  /** A failure is listed exactly when it is that of a failed test, or no ping reached anything and, under a
      policy, one was tried. */
  lemma FailuresAre(tests: seq<Test>, policy: Option<Options>, failure: Failure)
    requires tests != []
    ensures failure in ServiceResourceOutcome(tests, policy).1 <==>
            match failure
            case PingFailed =>
              && !PingReached(tests)
              && (policy.Some? ==> exists test | test in tests ::
                    test.id in {PingIcmp, PingTcp, PingProxy} && test.attempts > 0)
            case ServiceFailed(id, successes, attempts) =>
              exists test | test in tests ::
                IsFailure(test, policy) && failure == ServiceFailed(test.id, test.successes, test.attempts)
  {
    ServiceFailuresAre(tests, policy, failure);
  }

  /** Without a policy a check passes exactly when a ping reached its server and every other test is stable and
      conclusive, and then it lists no failure; nothing at all passes too. */
  lemma OrdinaryVerdictIff(tests: seq<Test>)
    ensures ServiceResourceOutcome(tests, None).0 <==>
            || tests == []
            || (PingReached(tests)
                && forall test | test in tests ::
                     test.id in {PingIcmp, PingTcp, PingProxy} || (test.stable && !test.inconclusive))
    ensures ServiceResourceOutcome(tests, None).0 <==> ServiceResourceOutcome(tests, None).1 == []
  {
    if tests != [] {
      NoFailuresIff(tests, None);
      forall test | test in tests ensures CountsAsFailure(test, None) <==> IsFailure(test, None) {
        IsFailureIff(test, None);
      }
    }
  }

  /** A current test of this id that was tried and is stable and conclusive. */
  predicate IsComplete(test: Test, id: TestId) {
    && test.id == id && test.contract == (if id.YoutubeThumbnails? then 1 else 7)
    && test.attempts > 0 && test.stable && !test.inconclusive
  }

  /** Under a policy a list of tests passes exactly when a ping reached its server, no service asked for failed,
      and each has a complete test; nothing at all never passes. */
  lemma PolicyVerdictMeans(tests: seq<Test>, options: Options)
    ensures ServiceResourceOutcome(tests, Some(options)).0 <==>
            && PingReached(tests)
            && (forall test | test in tests :: !IsFailure(test, Some(options)))
            && forall id | Asks(options, id) :: exists test | test in tests :: IsComplete(test, id)
  {
    NoFailuresIff(tests, Some(options));
    forall test | test in tests ensures CountsAsFailure(test, Some(options)) <==> IsFailure(test, Some(options)) {
      IsFailureIff(test, Some(options));
    }
    CompleteIff(tests, options);
  }

  lemma CompleteIff(tests: seq<Test>, options: Options)
    ensures PrefixComplete(tests, RequestedIds(Some(options))) <==>
            forall id | Asks(options, id) :: exists test | test in tests :: IsComplete(test, id)
  {
    forall id ensures id in RequestedIds(Some(options)) <==> Asks(options, id) { AsksIff(options, id); }
    forall id | Asks(options, id)
      ensures (exists test | test in tests ::
                 test.id == id && test.contract == ContractOf(id) && test.attempts > 0 && test.stable
                 && !test.inconclusive)
              <==> exists test | test in tests :: IsComplete(test, id)
    {
      forall test: Test
        ensures (test.id == id && test.contract == ContractOf(id) && test.attempts > 0 && test.stable
                 && !test.inconclusive) <==> IsComplete(test, id)
      {
      }
    }
  }

  /** Under a policy the services listed as failed are those that were called and did not pass. */
  lemma PolicyFailuresAre(mode: BenchMethod, options: Options, pings: seq<Test>, oracle: Oracle, i: nat)
    requires mode.IsAvailability() && WellFormedOracle(mode, oracle) && WellFormedPings(pings)
    requires !RejectsServices(Some(options), pings) && i <= options.required.LastService().Rank()
    ensures var failures := ServiceResourceOutcome(pings + PolicyTests(mode, Some(options), pings, oracle),
                                                   Some(options)).1;
            (exists failure | failure in failures ::
               failure.ServiceFailed? && failure.id == SERVICES[i].ReportId(true))
            <==> Probed(options.required.LastService().Rank(), options.failFast, PolicyAnswers(mode, oracle), i)
                 && !Passes(oracle, SERVICES[i])
  {
    var services := PolicyTests(mode, Some(options), pings, oracle);
    var tests, id := pings + services, SERVICES[i].ReportId(true);
    PolicyTestsAre(mode, options, pings, oracle);
    PolicyTestOf(mode, options, pings, oracle, i);
    forall failure: Failure | failure.ServiceFailed? && failure.id == id
      ensures failure in ServiceResourceOutcome(tests, Some(options)).1 <==>
              IsFailure(services[i], Some(options))
              && failure == ServiceFailed(id, services[i].successes, services[i].attempts)
    {
      FailuresAre(tests, Some(options), failure);
      assert services[i] in tests;
      forall test | test in tests && test.id == id && test.attempts > 0 ensures test == services[i] {
        OnlyOneReports(mode, options, pings, oracle, i, test);
      }
    }
    assert IsFailure(services[i], Some(options)) ==>
      ServiceFailed(id, services[i].successes, services[i].attempts)
      in ServiceResourceOutcome(tests, Some(options)).1;
  }

  lemma PolicyTestOf(mode: BenchMethod, options: Options, pings: seq<Test>, oracle: Oracle, i: nat)
    requires mode.IsAvailability() && WellFormedOracle(mode, oracle) && !RejectsServices(Some(options), pings)
    requires i <= options.required.LastService().Rank()
    ensures var services := PolicyTests(mode, Some(options), pings, oracle);
            var last, answers := options.required.LastService().Rank(), PolicyAnswers(mode, oracle);
            var probed := Probed(last, options.failFast, answers, i);
            && |services| == 3
            && (probed ==> services[i].id == SERVICES[i].ReportId(true) && services[i].attempts > 0)
            && (!probed ==> services[i].attempts == 0)
            && (IsFailure(services[i], Some(options)) <==> probed && !Passes(oracle, SERVICES[i]))
  {
    PolicyTestsAre(mode, options, pings, oracle);
  }

  lemma OnlyOneReports(mode: BenchMethod, options: Options, pings: seq<Test>, oracle: Oracle, i: nat, test: Test)
    requires mode.IsAvailability() && WellFormedOracle(mode, oracle) && WellFormedPings(pings)
    requires !RejectsServices(Some(options), pings) && i <= options.required.LastService().Rank()
    requires test in pings + PolicyTests(mode, Some(options), pings, oracle)
    requires test.id == SERVICES[i].ReportId(true) && test.attempts > 0
    ensures var services := PolicyTests(mode, Some(options), pings, oracle);
            |services| == 3 && test == services[i]
  {
    var services := PolicyTests(mode, Some(options), pings, oracle);
    PolicyTestsAre(mode, options, pings, oracle);
    assert test !in pings;
    var k :| 0 <= k < 3 && services[k] == test;
    PolicyListedUnderOwnId(mode, options, pings, oracle, k);
  }

  // ------------------------------------------------- evidence

  /** A current, stable and conclusive test with this id; a thumbnail test must also have reached its server. */
  predicate IsEvidence(test: Test, id: TestId) {
    && test.id == id && test.contract == (if id.YoutubeThumbnails? then 1 else 7)
    && 0 < test.successes <= test.attempts && test.stable && !test.inconclusive
    && (id.YoutubeThumbnails? ==> test.reachable)
  }

  ghost predicate HasEvidence(result: BenchResult, id: TestId) {
    exists test | test in result.tests :: IsEvidence(test, id)
  }

  /** A result counts for a prefix exactly when it stems from a search, holds a ping that reached its server under
      the current contract, and holds evidence for each service of the prefix. */
  lemma GoodMeans(result: BenchResult, required: Required)
    ensures AdaptiveResultIsGood(result, required) <==>
            && !result.resultMethod.Ordinary? && !required.NeedUnknown?
            && (exists test | test in result.tests ::
                  && test.id in {PingIcmp, PingTcp, PingProxy} && test.contract == 7
                  && 0 < test.successes <= test.attempts && test.reachable)
            && HasEvidence(result, if result.resultMethod.SearchAvailability? then YoutubeThumbnails
                                   else YoutubePlayback)
            && (!required.NeedYoutube? ==> HasEvidence(result, TelegramMedia))
            && (!required.NeedYoutube? && !required.NeedTelegram? ==> HasEvidence(result, AiStudio))
  {
    var availability := result.resultMethod.SearchAvailability?;
    forall i: nat | i < 3 ensures Proved(result, i) <==> HasEvidence(result, SERVICES[i].ReportId(availability)) {
      ProvedIff(result, i);
    }
    assert (forall i | 0 <= i <= required.Last() :: Proved(result, i)) <==>
           && Proved(result, 0) && (required.Last() >= 1 ==> Proved(result, 1))
           && (required.Last() >= 2 ==> Proved(result, 2));
    forall test | test in result.tests
      ensures ProvesPing(test) <==>
              && test.id in {PingIcmp, PingTcp, PingProxy} && test.contract == 7
              && 0 < test.successes <= test.attempts && test.reachable
    {
    }
    assert AdaptiveResultIsGood(result, required) <==>
           && !result.resultMethod.Ordinary? && !required.NeedUnknown?
           && (exists test | test in result.tests :: ProvesPing(test))
           && forall i | 0 <= i <= required.Last() :: Proved(result, i);
  }

  ghost predicate Proved(result: BenchResult, i: nat)
    requires i < 3
  {
    exists test | test in result.tests ::
      ProvesService(test, SERVICES[i].ReportId(result.resultMethod.SearchAvailability?))
  }

  lemma ProvedIff(result: BenchResult, i: nat)
    requires i < 3
    ensures Proved(result, i) <==>
            HasEvidence(result, SERVICES[i].ReportId(result.resultMethod.SearchAvailability?))
  {
    var id := SERVICES[i].ReportId(result.resultMethod.SearchAvailability?);
    forall test | test in result.tests ensures ProvesService(test, id) <==> IsEvidence(test, id) {
    }
  }
}

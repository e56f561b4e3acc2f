/** The service checks of one server: which services are probed, in which order,
    and the two verdicts computed from what they report. */
module ServiceProbes {

  import opened Wrappers

  datatype BenchMethod = Quick | Full | AvailabilityQuick | AvailabilityFull {
    predicate IsAvailability() {
      AvailabilityQuick? || AvailabilityFull?
    }

    predicate IsFailFast() {
      Quick? || AvailabilityQuick?
    }
  }

  datatype TestId = PingIcmp | PingTcp | PingProxy | YoutubePlayback | YoutubeThumbnails | TelegramMedia | AiStudio {
    predicate IsPing() {
      PingIcmp? || PingTcp? || PingProxy?
    }
  }

  datatype Service = Youtube | Telegram | Ai {
    function Rank(): nat {
      match this case Youtube => 0 case Telegram => 1 case Ai => 2
    }

    /** The id under which skipped and failed checks of this service are listed. */
    function PlainId(): TestId {
      match this case Youtube => YoutubePlayback case Telegram => TelegramMedia case Ai => AiStudio
    }

    /** The id under which a probe of this service reports. */
    function ReportId(availability: bool): TestId {
      if Youtube? && availability then YoutubeThumbnails else PlainId()
    }
  }

  const SERVICES: seq<Service> := [Youtube, Telegram, Ai]

  const QUICK_RESOURCE_CONTRACT: nat := 7
  const YOUTUBE_AVAILABILITY_CONTRACT: nat := 1

  function ContractOf(id: TestId): nat {
    if id.YoutubeThumbnails? then YOUTUBE_AVAILABILITY_CONTRACT else QUICK_RESOURCE_CONTRACT
  }

  datatype Test = Test(contract: nat, id: TestId, attempts: nat, successes: nat,
                       reachable: bool, stable: bool, inconclusive: bool)

  function FailedTest(id: TestId): Test {
    Test(QUICK_RESOURCE_CONTRACT, id, 1, 0, false, false, false)
  }

  function SkippedTest(id: TestId): Test {
    FailedTest(id).(attempts := 0)
  }

  /** An explicit policy asks for the services up to and including `required`. */
  datatype Prefix = All | UpToYoutube | UpToTelegram | UpToAi {
    function LastService(): Service {
      match this case UpToYoutube => Youtube case UpToTelegram => Telegram case All => Ai case UpToAi => Ai
    }

    function Count(): nat {
      match this case UpToYoutube => 1 case UpToTelegram => 2 case All => 3 case UpToAi => 3
    }
  }

  datatype Options = Options(required: Prefix, failFast: bool, rejectNoPing: bool)

  datatype ProbeError = Cancelled | Failed

  /** The program points where the cancellation flag is read; the flag may be
      raised at any time, so each point sees its own value. */
  datatype Poll = BeforePreflight | AfterPreflight | Before(service: Service) | AfterError(service: Service) | AtEnd

  type Cancel = Poll -> bool

  /** What a service would answer if it were probed. */
  type Oracle = Service -> Result<Test, ProbeError>

  ghost predicate NeverCancelled(cancel: Cancel) {
    forall poll :: !cancel(poll)
  }

  // ------------------------------------------------- which services are probed

  /** The answers of the three services, in probing order. */
  type Answers = tests: seq<Test> | |tests| == 3 witness seq(3, _ => SkippedTest(AiStudio))

  predicate AllStable(answers: Answers, n: nat)
    requires n <= 3
  {
    n == 0 || (AllStable(answers, n - 1) && answers[n - 1].stable)
  }

  /** A service is probed when it is asked for and, if the first failure stops the
      check, every service before it was stable. */
  predicate Probed(last: nat, failFast: bool, answers: Answers, i: nat)
    requires i < 3
  {
    i <= last && (failFast ==> AllStable(answers, i))
  }

  /** The tests listed for the first `n` services. */
  function TestsUpTo(last: nat, failFast: bool, answers: Answers, n: nat): seq<Test>
    requires n <= 3
  {
    if n == 0 then []
    else TestsUpTo(last, failFast, answers, n - 1) +
         [if Probed(last, failFast, answers, n - 1) then answers[n - 1] else SkippedTest(SERVICES[n - 1].PlainId())]
  }

  /** The services actually called among the first `n`. */
  function ProbedUpTo(last: nat, failFast: bool, answers: Answers, n: nat): seq<Service>
    requires n <= 3
  {
    if n == 0 then []
    else ProbedUpTo(last, failFast, answers, n - 1) +
         if Probed(last, failFast, answers, n - 1) then [SERVICES[n - 1]] else []
  }

  /** The services called are always the first few of YouTube, Telegram, AI. */
  lemma {:induction false} ProbedIsPrefix(last: nat, failFast: bool, answers: Answers, n: nat)
    requires n <= 3
    ensures var called := ProbedUpTo(last, failFast, answers, n);
            |called| <= n && called == SERVICES[..|called|]
    ensures n > 0 && Probed(last, failFast, answers, n - 1) ==> |ProbedUpTo(last, failFast, answers, n)| == n
  {
    if n > 0 {
      ProbedIsPrefix(last, failFast, answers, n - 1);
      if n > 1 && Probed(last, failFast, answers, n - 1) {
        assert Probed(last, failFast, answers, n - 2);
      }
    }
  }

  lemma ProbedGrows(last: nat, failFast: bool, answers: Answers, n: nat)
    requires n <= 3
    ensures ProbedUpTo(last, failFast, answers, n) <= ProbedUpTo(last, failFast, answers, 3)
    decreases 3 - n
  {
  }

  // ------------------------------------------------- checks under a policy

  /** An error under an explicit policy counts as a failed check of that service. */
  function PolicyAnswer(mode: BenchMethod, oracle: Oracle, service: Service): Test {
    match oracle(service)
    case Ok(test) => test
    case Err(_) =>
      var id := service.ReportId(mode.IsAvailability());
      FailedTest(id).(contract := ContractOf(id))
  }

  function PolicyAnswers(mode: BenchMethod, oracle: Oracle): Answers {
    [PolicyAnswer(mode, oracle, Youtube), PolicyAnswer(mode, oracle, Telegram), PolicyAnswer(mode, oracle, Ai)]
  }

  function LastRank(options: Option<Options>): nat {
    if options.Some? then options.value.required.LastService().Rank() else 2
  }

  function StopsEarly(mode: BenchMethod, options: Option<Options>): bool {
    if options.Some? then options.value.failFast else mode.IsFailFast()
  }

  // ------------------------------------------------- where the loop ends early

  /** What a service loop is asked: how far to go, whether the first failure stops the probing, and
      whether any error ends the loop or, as in a policy check and a search, only cancellation. */
  datatype Request = Request(last: nat, failFast: bool, anyError: bool)

  /** The error with which the probe of a service ends the loop, if it does. */
  function ProbeStop(anyError: bool, cancel: Cancel, oracle: Oracle, service: Service): Option<ProbeError> {
    match oracle(service)
    case Ok(_) => None
    case Err(error) =>
      if anyError then Some(error)
      else if cancel(AfterError(service)) || error == Cancelled then Some(Cancelled)
      else None
  }

  /** The error that ends the loop within its first `n` services, if any. */
  function LoopStop(request: Request, answers: Answers, cancel: Cancel, oracle: Oracle, n: nat): Option<ProbeError>
    requires n <= 3
  {
    if n == 0 then None
    else
      var before, service := LoopStop(request, answers, cancel, oracle, n - 1), SERVICES[n - 1];
      if before.Some? then before
      else if cancel(Before(service)) then Some(Cancelled)
      else if Probed(request.last, request.failFast, answers, n - 1)
      then ProbeStop(request.anyError, cancel, oracle, service)
      else None
  }

  /** What the loop over the three services gives: its first error, or a test for each service. */
  function LoopOutcome(request: Request, answers: Answers, cancel: Cancel, oracle: Oracle)
    : Result<seq<Test>, ProbeError>
  {
    var stop := LoopStop(request, answers, cancel, oracle, 3);
    if stop.Some? then Err(stop.value)
    else if cancel(AtEnd) then Err(Cancelled)
    else Ok(TestsUpTo(request.last, request.failFast, answers, 3))
  }

  lemma {:induction false} LoopStopIff(request: Request, answers: Answers, cancel: Cancel, oracle: Oracle, n: nat)
    requires n <= 3
    ensures LoopStop(request, answers, cancel, oracle, n).None? <==>
            forall i: nat | i < n ::
              && !cancel(Before(SERVICES[i]))
              && (Probed(request.last, request.failFast, answers, i) ==>
                    ProbeStop(request.anyError, cancel, oracle, SERVICES[i]).None?)
    ensures !request.anyError && LoopStop(request, answers, cancel, oracle, n).Some? ==>
              LoopStop(request, answers, cancel, oracle, n).value == Cancelled
  {
    if n > 0 {
      LoopStopIff(request, answers, cancel, oracle, n - 1);
    }
  }

  /** The flag is up where the loop reads it, or the probe of a service that is due was cancelled. */
  ghost predicate LoopCancelled(request: Request, answers: Answers, cancel: Cancel, oracle: Oracle) {
    || (exists i: nat | i < 3 :: cancel(Before(SERVICES[i])))
    || cancel(AtEnd)
    || (exists i: nat | i < 3 ::
          && Probed(request.last, request.failFast, answers, i) && oracle(SERVICES[i]).Err?
          && (cancel(AfterError(SERVICES[i])) || oracle(SERVICES[i]).error == Cancelled))
  }

  /** Where only cancellation ends the loop, it ends in that error exactly when it was cancelled. */
  lemma LoopCancelledIff(request: Request, answers: Answers, cancel: Cancel, oracle: Oracle)
    requires !request.anyError
    ensures LoopOutcome(request, answers, cancel, oracle).Err? <==> LoopCancelled(request, answers, cancel, oracle)
    ensures LoopOutcome(request, answers, cancel, oracle).Err? ==>
              LoopOutcome(request, answers, cancel, oracle).error == Cancelled
  {
    LoopStopIff(request, answers, cancel, oracle, 3);
    assert forall i: nat | i < 3 :: ProbeStop(false, cancel, oracle, SERVICES[i]).Some? <==>
      oracle(SERVICES[i]).Err? && (cancel(AfterError(SERVICES[i])) || oracle(SERVICES[i]).error == Cancelled);
  }

  lemma LoopStopStays(request: Request, answers: Answers, cancel: Cancel, oracle: Oracle, n: nat)
    requires n <= 3
    ensures LoopStop(request, answers, cancel, oracle, n).Some? ==>
              LoopStop(request, answers, cancel, oracle, 3) == LoopStop(request, answers, cancel, oracle, n)
    decreases 3 - n
  {
    if n < 3 {
      LoopStopStays(request, answers, cancel, oracle, n + 1);
    }
  }

  // ------------------------------------------------- the loop of a check

  function RequestOf(mode: BenchMethod, options: Option<Options>): Request {
    Request(LastRank(options), StopsEarly(mode, options), options.None?)
  }

  function CompleteOutcome(mode: BenchMethod, options: Option<Options>, cancel: Cancel, oracle: Oracle)
    : Result<seq<Test>, ProbeError>
  {
    LoopOutcome(RequestOf(mode, options), PolicyAnswers(mode, oracle), cancel, oracle)
  }

  /** Under a policy the check ends in the cancellation error exactly when the flag is up where it is
      read: before a service, after the error of a probed one, or at the end; or a probe was cancelled. */
  lemma PolicyCancelledIff(mode: BenchMethod, options: Option<Options>, cancel: Cancel, oracle: Oracle)
    requires options.Some?
    ensures CompleteOutcome(mode, options, cancel, oracle).Err? <==>
            LoopCancelled(RequestOf(mode, options), PolicyAnswers(mode, oracle), cancel, oracle)
    ensures CompleteOutcome(mode, options, cancel, oracle).Err? ==>
              CompleteOutcome(mode, options, cancel, oracle).error == Cancelled
  {
    LoopCancelledIff(RequestOf(mode, options), PolicyAnswers(mode, oracle), cancel, oracle);
  }

  /** One probe of one service as the loop runs it. */
  method ProbeService(mode: BenchMethod, options: Option<Options>, cancel: Cancel, oracle: Oracle, service: Service)
    returns (result: Result<Test, ProbeError>)
    ensures var stop := ProbeStop(options.None?, cancel, oracle, service);
            result == if stop.Some? then Err(stop.value) else Ok(PolicyAnswer(mode, oracle, service))
  {
    result := oracle(service);
    if result.Err? && options.Some? {
      if cancel(AfterError(service)) || result.error == Cancelled { return Err(Cancelled); }
      var test := FailedTest(service.PlainId());
      if service == Youtube && mode.IsAvailability() {
        test := test.(id := YoutubeThumbnails, contract := YOUTUBE_AVAILABILITY_CONTRACT);
      }
      result := Ok(test);
    }
  }

  /** The part of an iteration that may end the loop: read the flag, then probe the service if it is due. */
  method VisitService(mode: BenchMethod, options: Option<Options>, cancel: Cancel, oracle: Oracle, i: nat, due: bool)
    returns (answer: Result<Test, ProbeError>, asked: bool)
    requires i < 3 && LoopStop(RequestOf(mode, options), PolicyAnswers(mode, oracle), cancel, oracle, i).None?
    requires due == Probed(LastRank(options), StopsEarly(mode, options), PolicyAnswers(mode, oracle), i)
    ensures LoopStop(RequestOf(mode, options), PolicyAnswers(mode, oracle), cancel, oracle, i + 1)
            == if answer.Err? then Some(answer.error) else None
    ensures answer.Ok? ==>
              answer.value == if due then PolicyAnswers(mode, oracle)[i] else SkippedTest(SERVICES[i].PlainId())
    ensures asked == (due && !cancel(Before(SERVICES[i])))
  {
    asked := false;
    if cancel(Before(SERVICES[i])) { return Err(Cancelled), asked; }
    answer := Ok(SkippedTest(SERVICES[i].PlainId()));
    if due {
      asked := true;
      answer := ProbeService(mode, options, cancel, oracle, SERVICES[i]);
    }
  }

  method RunCompleteServiceProbes(mode: BenchMethod, options: Option<Options>, cancel: Cancel, oracle: Oracle)
    returns (result: Result<seq<Test>, ProbeError>, called: seq<Service>)
    ensures result == CompleteOutcome(mode, options, cancel, oracle)
    ensures var last, failFast, answers := LastRank(options), StopsEarly(mode, options), PolicyAnswers(mode, oracle);
            && (result.Ok? ==> called == ProbedUpTo(last, failFast, answers, 3))
            && called <= ProbedUpTo(last, failFast, answers, 3)
  {
    var required := if options.Some? then options.value.required.LastService() else Ai;
    var failFast := StopsEarly(mode, options);
    ghost var last, answers := LastRank(options), PolicyAnswers(mode, oracle);
    var tests := [];
    called := [];
    var requested, skipping := true, false;
    for i := 0 to 3
      invariant requested <==> i <= last
      invariant tests == TestsUpTo(last, failFast, answers, i)
      invariant called == ProbedUpTo(last, failFast, answers, i)
      invariant LoopStop(RequestOf(mode, options), answers, cancel, oracle, i).None?
      invariant i <= last ==> (skipping <==> failFast && !AllStable(answers, i))
    {
      var service := SERVICES[i];
      ProbedGrows(last, failFast, answers, i);
      ProbedGrows(last, failFast, answers, i + 1);
      var answer, asked := VisitService(mode, options, cancel, oracle, i, requested && !skipping);
      if asked {
        called := called + [service];
      }
      if answer.Err? {
        LoopStopStays(RequestOf(mode, options), answers, cancel, oracle, i + 1);
        return Err(answer.error), called;
      }
      var test := answer.value;
      if requested && !skipping && failFast && !test.stable && service != Ai {
        skipping := true;
      }
      if service == required {
        requested := false;
      }
      tests := tests + [test];
    }
    if cancel(AtEnd) { return Err(Cancelled), called; }
    return Ok(tests), called;
  }

  /** The policy asks for a ping and none of the pings answered. */
  predicate RejectsServices(options: Option<Options>, pings: seq<Test>) {
    && options.Some? && options.value.rejectNoPing
    && !exists test | test in pings :: test.id.IsPing() && test.attempts > 0 && test.reachable
  }

  function RejectedTest(mode: BenchMethod, service: Service): Test {
    var id := service.ReportId(mode.IsAvailability());
    SkippedTest(id).(contract := ContractOf(id))
  }

  function PolicyTests(mode: BenchMethod, options: Option<Options>, pings: seq<Test>, oracle: Oracle): seq<Test> {
    if RejectsServices(options, pings)
    then [RejectedTest(mode, Youtube), RejectedTest(mode, Telegram), RejectedTest(mode, Ai)]
    else TestsUpTo(LastRank(options), StopsEarly(mode, options), PolicyAnswers(mode, oracle), 3)
  }

  method RunServiceProbesAfterPing(mode: BenchMethod, options: Option<Options>, pings: seq<Test>,
                                   cancel: Cancel, oracle: Oracle)
    returns (result: Result<seq<Test>, ProbeError>, called: seq<Service>)
    ensures result == if !RejectsServices(options, pings) then CompleteOutcome(mode, options, cancel, oracle)
                      else if cancel(Before(Youtube)) then Err(Cancelled)
                      else Ok(PolicyTests(mode, options, pings, oracle))
    ensures RejectsServices(options, pings) ==> called == []
    ensures called <= SERVICES
  {
    if !RejectsServices(options, pings) {
      ProbedIsPrefix(LastRank(options), StopsEarly(mode, options), PolicyAnswers(mode, oracle), 3);
      result, called := RunCompleteServiceProbes(mode, options, cancel, oracle);
      return;
    }
    if cancel(Before(Youtube)) { return Err(Cancelled), []; }
    var tests := [];
    for i := 0 to 3
      invariant tests == [RejectedTest(mode, Youtube), RejectedTest(mode, Telegram), RejectedTest(mode, Ai)][..i]
    {
      var test := SkippedTest(SERVICES[i].PlainId());
      if SERVICES[i] == Youtube && mode.IsAvailability() {
        test := test.(id := YoutubeThumbnails, contract := YOUTUBE_AVAILABILITY_CONTRACT);
      }
      tests := tests + [test];
    }
    assert tests == PolicyTests(mode, options, pings, oracle);
    return Ok(tests), [];
  }

  // ------------------------------------------------- the verdict of a check

  datatype Failure = PingFailed | ServiceFailed(id: TestId, successes: nat, attempts: nat)

  function RequestedIds(policy: Option<Options>): seq<TestId> {
    [YoutubeThumbnails, TelegramMedia, AiStudio][..if policy.Some? then policy.value.required.Count() else 3]
  }

  predicate PrefixComplete(tests: seq<Test>, ids: seq<TestId>) {
    forall id | id in ids ::
      exists test | test in tests ::
        test.id == id && test.contract == ContractOf(id) && test.attempts > 0 && test.stable && !test.inconclusive
  }

  predicate CountsAsFailure(test: Test, policy: Option<Options>) {
    && !test.id.IsPing()
    && (!test.stable || test.inconclusive)
    && (policy.None? || (test.attempts > 0 && test.id in RequestedIds(policy)))
  }

  function ServiceFailures(tests: seq<Test>, policy: Option<Options>): seq<Failure> {
    if tests == [] then []
    else (if CountsAsFailure(tests[0], policy)
          then [ServiceFailed(tests[0].id, tests[0].successes, tests[0].attempts)] else [])
         + ServiceFailures(tests[1..], policy)
  }

  /** The overall verdict and the listed failures; the error text of a result is
      empty exactly when no failure is listed. */
  function ServiceResourceOutcome(tests: seq<Test>, policy: Option<Options>): (bool, seq<Failure>) {
    if tests == [] then (policy.None?, [])
    else
      var pingPassed := exists test | test in tests :: test.id.IsPing() && test.reachable;
      var pingTried := exists test | test in tests :: test.id.IsPing() && test.attempts > 0;
      var failures := (if !pingPassed && (policy.None? || pingTried) then [PingFailed] else [])
                      + ServiceFailures(tests, policy);
      (failures == [] && (policy.None? || PrefixComplete(tests, RequestedIds(policy))) && (policy.None? || pingPassed),
       failures)
  }

  predicate WellFormedReport(test: Test, id: TestId) {
    && test.id == id
    && test.contract == ContractOf(id)
    && test.attempts > 0
    && (test.stable ==> test.reachable && 0 < test.successes <= test.attempts)
  }

  ghost predicate WellFormedOracle(mode: BenchMethod, oracle: Oracle) {
    forall service: Service ::
      oracle(service).Ok? ==> WellFormedReport(oracle(service).value, service.ReportId(mode.IsAvailability()))
  }

  predicate WellFormedPings(pings: seq<Test>) {
    forall test | test in pings :: test.id.IsPing() && (test.reachable ==> test.attempts > 0)
  }

  /** A service passes when its probe answers, stably and conclusively. */
  predicate Passes(oracle: Oracle, service: Service) {
    oracle(service).Ok? && oracle(service).value.stable && !oracle(service).value.inconclusive
  }

  lemma {:induction false} NoFailuresIff(tests: seq<Test>, policy: Option<Options>)
    ensures ServiceFailures(tests, policy) == [] <==> forall test | test in tests :: !CountsAsFailure(test, policy)
  {
    if tests != [] {
      NoFailuresIff(tests[1..], policy);
      assert tests == [tests[0]] + tests[1..];
    }
  }

  function PolicyVerdict(mode: BenchMethod, options: Options, pings: seq<Test>, oracle: Oracle): bool {
    ServiceResourceOutcome(pings + PolicyTests(mode, Some(options), pings, oracle), Some(options)).0
  }

  /** What the three tests look like when the services were not rejected. */
  lemma PolicyTestsAre(mode: BenchMethod, options: Options, pings: seq<Test>, oracle: Oracle)
    requires !RejectsServices(Some(options), pings)
    ensures var tests := PolicyTests(mode, Some(options), pings, oracle);
            var last, answers := options.required.LastService().Rank(), PolicyAnswers(mode, oracle);
            && |tests| == 3
            && forall i | 0 <= i < 3 ::
                 tests[i] == if Probed(last, options.failFast, answers, i) then answers[i]
                             else SkippedTest(SERVICES[i].PlainId())
  {
    var last, answers := options.required.LastService().Rank(), PolicyAnswers(mode, oracle);
    assert TestsUpTo(last, options.failFast, answers, 1) == TestsUpTo(last, options.failFast, answers, 0)
      + [if Probed(last, options.failFast, answers, 0) then answers[0] else SkippedTest(YoutubePlayback)];
    assert TestsUpTo(last, options.failFast, answers, 2) == TestsUpTo(last, options.failFast, answers, 1)
      + [if Probed(last, options.failFast, answers, 1) then answers[1] else SkippedTest(TelegramMedia)];
  }

  predicate PrefixPasses(options: Options, oracle: Oracle) {
    forall service: Service | service.Rank() < options.required.Count() :: Passes(oracle, service)
  }

  lemma RequestedRanks(options: Options, id: TestId) returns (rank: nat)
    ensures id in RequestedIds(Some(options)) <==>
              rank < options.required.Count() && [YoutubeThumbnails, TelegramMedia, AiStudio][rank] == id
    ensures options.required.Count() == options.required.LastService().Rank() + 1
  {
    var ids := [YoutubeThumbnails, TelegramMedia, AiStudio];
    rank := if id == ids[0] then 0 else if id == ids[1] then 1 else if id == ids[2] then 2 else 3;
    if rank < options.required.Count() {
      assert RequestedIds(Some(options))[rank] == id;
    }
  }

  /** When every requested service passes, each was probed and listed as it answered. */
  lemma PassingIsComplete(mode: BenchMethod, options: Options, pings: seq<Test>, oracle: Oracle)
    requires mode.IsAvailability() && WellFormedOracle(mode, oracle) && WellFormedPings(pings)
    requires !RejectsServices(Some(options), pings)
    requires PrefixPasses(options, oracle)
    ensures var tests := pings + PolicyTests(mode, Some(options), pings, oracle);
            PrefixComplete(tests, RequestedIds(Some(options))) && ServiceFailures(tests, Some(options)) == []
  {
    var services := PolicyTests(mode, Some(options), pings, oracle);
    var tests := pings + services;
    var last, answers := options.required.LastService().Rank(), PolicyAnswers(mode, oracle);
    PolicyTestsAre(mode, options, pings, oracle);
    assert Passes(oracle, Youtube);
    assert last >= 1 ==> Passes(oracle, Telegram);
    assert last >= 2 ==> Passes(oracle, Ai);
    forall i | 0 <= i <= last
      ensures services[i] == answers[i] && services[i] in tests
    {
      assert AllStable(answers, i);
    }
    forall id | id in RequestedIds(Some(options))
      ensures exists test | test in tests ::
                test.id == id && test.contract == ContractOf(id) && test.attempts > 0 && test.stable
                && !test.inconclusive
    {
      var k := RequestedRanks(options, id);
      assert services[k] in tests && services[k].id == SERVICES[k].ReportId(true);
    }
    NoFailuresIff(tests, Some(options));
    forall test | test in tests
      ensures !CountsAsFailure(test, Some(options))
    {
      if test !in pings {
        var i :| 0 <= i < 3 && services[i] == test;
      }
    }
  }

  lemma PolicyListedUnderOwnId(mode: BenchMethod, options: Options, pings: seq<Test>, oracle: Oracle, i: nat)
    requires WellFormedOracle(mode, oracle) && !RejectsServices(Some(options), pings) && i < 3
    ensures var tests, service := PolicyTests(mode, Some(options), pings, oracle), SERVICES[i];
            && |tests| == 3
            && tests[i].id in {service.PlainId(), service.ReportId(mode.IsAvailability())}
            && (tests[i].stable && !tests[i].inconclusive ==> Passes(oracle, service))
  {
    PolicyTestsAre(mode, options, pings, oracle);
  }

  /** When a requested service does not pass, nothing in the list stands in for it. */
  lemma FailingIsIncomplete(mode: BenchMethod, options: Options, pings: seq<Test>, oracle: Oracle)
    requires mode.IsAvailability() && WellFormedOracle(mode, oracle) && WellFormedPings(pings)
    requires !RejectsServices(Some(options), pings)
    requires !PrefixPasses(options, oracle)
    ensures var tests := pings + PolicyTests(mode, Some(options), pings, oracle);
            !PrefixComplete(tests, RequestedIds(Some(options)))
  {
    var services := PolicyTests(mode, Some(options), pings, oracle);
    var service: Service :| service.Rank() < options.required.Count() && !Passes(oracle, service);
    var id := [YoutubeThumbnails, TelegramMedia, AiStudio][service.Rank()];
    var rank := RequestedRanks(options, id);
    assert id in RequestedIds(Some(options));
    forall test | test in pings + services
      ensures !(test.id == id && test.stable && !test.inconclusive)
    {
      if test !in pings {
        PolicyListedUnderOwnId(mode, options, pings, oracle, 0);
        var i :| 0 <= i < 3 && services[i] == test;
        PolicyListedUnderOwnId(mode, options, pings, oracle, i);
      }
    }
  }

  /** With an explicit policy and no cancellation, the verdict means the same
      whether or not the first failure stops the check and whether or not a missing
      ping skips the services: some ping answered and every requested service passes. */
  lemma PolicyVerdictIff(mode: BenchMethod, options: Options, pings: seq<Test>, oracle: Oracle)
    requires mode.IsAvailability() && WellFormedOracle(mode, oracle) && WellFormedPings(pings)
    ensures PolicyVerdict(mode, options, pings, oracle)
            <==> && (exists ping | ping in pings :: ping.reachable)
                 && forall service: Service | service.Rank() < options.required.Count() :: Passes(oracle, service)
  {
    var services := PolicyTests(mode, Some(options), pings, oracle);
    PingsDecidePing(mode, options, pings, oracle);
    if RejectsServices(Some(options), pings) {
      assert forall ping | ping in pings :: !ping.reachable;
    } else if PrefixPasses(options, oracle) {
      PassingIsComplete(mode, options, pings, oracle);
    } else {
      FailingIsIncomplete(mode, options, pings, oracle);
    }
  }

  lemma PingsDecidePing(mode: BenchMethod, options: Options, pings: seq<Test>, oracle: Oracle)
    requires mode.IsAvailability() && WellFormedOracle(mode, oracle) && WellFormedPings(pings)
    ensures var tests := pings + PolicyTests(mode, Some(options), pings, oracle);
            && tests != []
            && ((exists test | test in tests :: test.id.IsPing() && test.reachable)
              <==> exists ping | ping in pings :: ping.reachable)
  {
    var services := PolicyTests(mode, Some(options), pings, oracle);
    var tests := pings + services;
    assert |services| == 3 && forall i | 0 <= i < 3 :: !services[i].id.IsPing() by {
      if !RejectsServices(Some(options), pings) {
        PolicyListedUnderOwnId(mode, options, pings, oracle, 0);
        PolicyListedUnderOwnId(mode, options, pings, oracle, 1);
        PolicyListedUnderOwnId(mode, options, pings, oracle, 2);
      }
    }
    assert forall ping | ping in pings :: ping in tests;
    assert forall test | test in tests :: test in pings || test in services;
  }

  lemma ShortCircuitingPreservesVerdict(mode: BenchMethod, required: Prefix, pings: seq<Test>, oracle: Oracle,
                                        failFast: bool, rejectNoPing: bool, failFast': bool, rejectNoPing': bool)
    requires mode.IsAvailability() && WellFormedOracle(mode, oracle) && WellFormedPings(pings)
    ensures PolicyVerdict(mode, Options(required, failFast, rejectNoPing), pings, oracle)
         == PolicyVerdict(mode, Options(required, failFast', rejectNoPing'), pings, oracle)
  {
    PolicyVerdictIff(mode, Options(required, failFast, rejectNoPing), pings, oracle);
    PolicyVerdictIff(mode, Options(required, failFast', rejectNoPing'), pings, oracle);
  }

  // ------------------------------------------------- adaptive search

  datatype Required = NeedYoutube | NeedTelegram | NeedAi | NeedAll | NeedUnknown {
    predicate Names(service: Service) {
      match service case Youtube => NeedYoutube? case Telegram => NeedTelegram? case Ai => NeedAi?
    }

    function Last(): nat {
      match this case NeedYoutube => 0 case NeedTelegram => 1 case _ => 2
    }
  }

  datatype ResultMethod = Search | SearchAvailability | Ordinary

  datatype BenchResult = BenchResult(profileRaw: string, resultMethod: ResultMethod, success: bool, tests: seq<Test>)

  function AdaptiveAnswer(oracle: Oracle, service: Service): Test {
    match oracle(service)
    case Ok(test) => test
    case Err(_) => FailedTest(service.PlainId())
  }

  function AdaptiveAnswers(oracle: Oracle): Answers {
    [AdaptiveAnswer(oracle, Youtube), AdaptiveAnswer(oracle, Telegram), AdaptiveAnswer(oracle, Ai)]
  }

  /** The tests of a server whose preflight `sample` answered. */
  function AdaptiveTests(required: Required, failFast: bool, sample: Test, oracle: Oracle): seq<Test> {
    [SkippedTest(PingIcmp), SkippedTest(PingTcp), sample] +
    TestsUpTo(required.Last(), failFast, AdaptiveAnswers(oracle), 3)
  }

  function SearchRequest(required: Required, failFast: bool): Request {
    Request(required.Last(), failFast, false)
  }

  predicate PreflightPassed(preflight: Result<Test, ProbeError>) {
    preflight.Ok? && preflight.value.reachable
  }

  /** What the check of one server in a search gives: cancellation, nothing after a failed preflight,
      or its tests. */
  function AdaptiveOutcome(required: Required, failFast: bool, cancel: Cancel, preflight: Result<Test, ProbeError>,
                           oracle: Oracle): Result<Option<seq<Test>>, ProbeError>
  {
    if cancel(BeforePreflight) || cancel(AfterPreflight) then Err(Cancelled)
    else if !PreflightPassed(preflight) then Ok(None)
    else
      match LoopOutcome(SearchRequest(required, failFast), AdaptiveAnswers(oracle), cancel, oracle)
      case Err(error) => Err(error)
      case Ok(services) => Ok(Some([SkippedTest(PingIcmp), SkippedTest(PingTcp), preflight.value] + services))
  }

  /** The flag is up around the preflight or, once that passed, the service loop was cancelled. */
  ghost predicate SearchCancelled(required: Required, failFast: bool, cancel: Cancel,
                                  preflight: Result<Test, ProbeError>, oracle: Oracle) {
    || cancel(BeforePreflight) || cancel(AfterPreflight)
    || (PreflightPassed(preflight)
        && LoopCancelled(SearchRequest(required, failFast), AdaptiveAnswers(oracle), cancel, oracle))
  }

  /** The check of a server ends in cancellation exactly when it was cancelled, and otherwise lists its
      tests exactly when the preflight passed. */
  lemma AdaptiveOutcomeIff(required: Required, failFast: bool, cancel: Cancel, preflight: Result<Test, ProbeError>,
                           oracle: Oracle)
    ensures var outcome := AdaptiveOutcome(required, failFast, cancel, preflight, oracle);
            && (outcome == Err(Cancelled) <==> SearchCancelled(required, failFast, cancel, preflight, oracle))
            && (outcome == Ok(None) <==>
                  && !cancel(BeforePreflight) && !cancel(AfterPreflight)
                  && (preflight.Err? || !preflight.value.reachable))
            && (outcome.Ok? && outcome.value.Some? ==>
                  && preflight.Ok? && preflight.value.reachable
                  && outcome.value.value == AdaptiveTests(required, failFast, preflight.value, oracle))
            && (outcome.Err? ==> outcome.error == Cancelled)
  {
    LoopCancelledIff(SearchRequest(required, failFast), AdaptiveAnswers(oracle), cancel, oracle);
  }

  method ProbeForSearch(cancel: Cancel, oracle: Oracle, service: Service) returns (result: Result<Test, ProbeError>)
    ensures var stop := ProbeStop(false, cancel, oracle, service);
            result == if stop.Some? then Err(stop.value) else Ok(AdaptiveAnswer(oracle, service))
  {
    result := oracle(service);
    if result.Err? {
      if cancel(AfterError(service)) || result.error == Cancelled { return Err(Cancelled); }
      result := Ok(FailedTest(service.PlainId()));
    }
  }

  /** The service loop of a search, after the preflight answered. */
  method RunSearchServices(required: Required, failFast: bool, cancel: Cancel, oracle: Oracle)
    returns (result: Result<seq<Test>, ProbeError>, called: seq<Service>)
    ensures result == LoopOutcome(SearchRequest(required, failFast), AdaptiveAnswers(oracle), cancel, oracle)
    ensures var last, answers := required.Last(), AdaptiveAnswers(oracle);
            && (result.Ok? ==> called == ProbedUpTo(last, failFast, answers, 3))
            && called <= ProbedUpTo(last, failFast, answers, 3)
  {
    ghost var request, last, answers := SearchRequest(required, failFast), required.Last(), AdaptiveAnswers(oracle);
    var tests := [];
    called := [];
    var requested, skipping := true, false;
    for i := 0 to 3
      invariant requested <==> i <= last || (last == 2 && !required.NeedAi?)
      invariant tests == TestsUpTo(last, failFast, answers, i)
      invariant called == ProbedUpTo(last, failFast, answers, i)
      invariant LoopStop(request, answers, cancel, oracle, i).None?
      invariant i <= last ==> (skipping <==> failFast && !AllStable(answers, i))
    {
      var service := SERVICES[i];
      ProbedGrows(last, failFast, answers, i);
      ProbedGrows(last, failFast, answers, i + 1);
      LoopStopStays(request, answers, cancel, oracle, i + 1);
      if cancel(Before(service)) { return Err(Cancelled), called; }
      var test := SkippedTest(service.PlainId());
      if requested && !skipping {
        called := called + [service];
        var answer := ProbeForSearch(cancel, oracle, service);
        if answer.Err? { return Err(Cancelled), called; }
        test := answer.value;
      }
      if failFast && requested && !skipping && !test.stable {
        skipping := true;
      }
      if required.Names(service) {
        requested := false;
      }
      tests := tests + [test];
    }
    if cancel(AtEnd) { return Err(Cancelled), called; }
    return Ok(tests), called;
  }

  method RunAdaptiveResourceProbes(required: Required, failFast: bool, cancel: Cancel,
                                   preflight: Result<Test, ProbeError>, oracle: Oracle)
    returns (result: Result<Option<seq<Test>>, ProbeError>, reported: seq<bool>, called: seq<Service>)
    ensures result == AdaptiveOutcome(required, failFast, cancel, preflight, oracle)
    ensures reported == if cancel(BeforePreflight) || cancel(AfterPreflight) then []
                        else [preflight.Ok? && preflight.value.reachable]
    ensures result.Ok? && result.value.Some? ==>
              called == ProbedUpTo(required.Last(), failFast, AdaptiveAnswers(oracle), 3)
    ensures called <= ProbedUpTo(required.Last(), failFast, AdaptiveAnswers(oracle), 3) <= SERVICES
    ensures reported != [true] ==> called == []
  {
    reported, called := [], [];
    ProbedIsPrefix(required.Last(), failFast, AdaptiveAnswers(oracle), 3);
    if cancel(BeforePreflight) { return Err(Cancelled), reported, called; }
    if cancel(AfterPreflight) { return Err(Cancelled), reported, called; }
    reported := [preflight.Ok? && preflight.value.reachable];
    if preflight.Err? || !preflight.value.reachable { return Ok(None), reported, called; }
    var services;
    services, called := RunSearchServices(required, failFast, cancel, oracle);
    if services.Err? { return Err(services.error), reported, called; }
    return Ok(Some([SkippedTest(PingIcmp), SkippedTest(PingTcp), preflight.value] + services.value)), reported, called;
  }

  function Attempted(tests: seq<Test>): seq<Test> {
    if tests == [] then []
    else (if tests[0].attempts > 0 then [tests[0]] else []) + Attempted(tests[1..])
  }

  /** The result built from the tests: it succeeds when nothing attempted failed. */
  function AdaptiveResult(raw: string, mode: BenchMethod, tests: seq<Test>): BenchResult {
    BenchResult(raw, if mode.IsAvailability() then SearchAvailability else Search,
                ServiceResourceOutcome(Attempted(tests), None).1 == [], tests)
  }

  method BenchmarkAdaptiveProfile(raw: string, mode: BenchMethod, required: Required, failFast: bool, cancel: Cancel,
                                  preflight: Result<Test, ProbeError>, oracle: Oracle)
    returns (result: Option<BenchResult>, reported: seq<bool>)
    ensures reported == if cancel(BeforePreflight) || cancel(AfterPreflight) then []
                        else [preflight.Ok? && preflight.value.reachable]
    ensures result.Some? <==>
            PreflightPassed(preflight) && !SearchCancelled(required, failFast, cancel, preflight, oracle)
    ensures result.Some? ==>
              result.value == AdaptiveResult(raw, mode, AdaptiveTests(required, failFast, preflight.value, oracle))
  {
    var outcome, called;
    outcome, reported, called := RunAdaptiveResourceProbes(required, failFast, cancel, preflight, oracle);
    AdaptiveOutcomeIff(required, failFast, cancel, preflight, oracle);
    if outcome.Err? || outcome.value.None? { return None, reported; }
    return Some(AdaptiveResult(raw, mode, outcome.value.value)), reported;
  }

  predicate ProvesPing(test: Test) {
    && test.contract == QUICK_RESOURCE_CONTRACT && test.id.IsPing()
    && 0 < test.successes <= test.attempts && test.reachable
  }

  predicate ProvesService(test: Test, id: TestId) {
    && test.contract == ContractOf(id) && test.id == id
    && 0 < test.successes <= test.attempts
    && (id.YoutubeThumbnails? ==> test.reachable)
    && test.stable && !test.inconclusive
  }

  /** Whether a search result counts towards the target: ping evidence and a
      current, stable, conclusive test of every required service. */
  predicate AdaptiveResultIsGood(result: BenchResult, required: Required) {
    && !result.resultMethod.Ordinary?
    && !required.NeedUnknown?
    && (exists test | test in result.tests :: ProvesPing(test))
    && forall i | 0 <= i <= required.Last() ::
         exists test | test in result.tests ::
           ProvesService(test, SERVICES[i].ReportId(result.resultMethod.SearchAvailability?))
  }

  predicate RequiredPasses(required: Required, oracle: Oracle) {
    forall service: Service | service.Rank() <= required.Last() :: Passes(oracle, service)
  }

  lemma {:induction false} AttemptedAre(tests: seq<Test>)
    ensures forall test :: test in Attempted(tests) <==> test in tests && test.attempts > 0
  {
    if tests != [] {
      AttemptedAre(tests[1..]);
      assert tests == [tests[0]] + tests[1..];
    }
  }

  lemma AdaptiveTestsAre(required: Required, failFast: bool, sample: Test, oracle: Oracle)
    ensures var tests := AdaptiveTests(required, failFast, sample, oracle);
            var last, answers := required.Last(), AdaptiveAnswers(oracle);
            && |tests| == 6
            && tests[0] == SkippedTest(PingIcmp) && tests[1] == SkippedTest(PingTcp) && tests[2] == sample
            && forall i | 0 <= i < 3 ::
                 tests[3 + i] == if Probed(last, failFast, answers, i) then answers[i]
                                 else SkippedTest(SERVICES[i].PlainId())
  {
    var last, answers := required.Last(), AdaptiveAnswers(oracle);
    assert TestsUpTo(last, failFast, answers, 1) == TestsUpTo(last, failFast, answers, 0)
      + [if Probed(last, failFast, answers, 0) then answers[0] else SkippedTest(YoutubePlayback)];
    assert TestsUpTo(last, failFast, answers, 2) == TestsUpTo(last, failFast, answers, 1)
      + [if Probed(last, failFast, answers, 1) then answers[1] else SkippedTest(TelegramMedia)];
  }

  /** When every required service passes, no attempted test is a failure. */
  lemma PassingHasNoFailure(mode: BenchMethod, required: Required, failFast: bool, sample: Test, oracle: Oracle, i: nat)
    requires WellFormedOracle(mode, oracle) && sample.id.IsPing()
    requires RequiredPasses(required, oracle)
    requires i < 6
    ensures var tests := AdaptiveTests(required, failFast, sample, oracle);
            |tests| == 6 && (tests[i].attempts > 0 ==> !CountsAsFailure(tests[i], None))
  {
    AdaptiveTestsAre(required, failFast, sample, oracle);
    if i >= 3 {
      var answers := AdaptiveAnswers(oracle);
      var test := AdaptiveTests(required, failFast, sample, oracle)[3 + (i - 3)];
      if Probed(required.Last(), failFast, answers, i - 3) {
        assert Passes(oracle, SERVICES[i - 3]);
        assert test == answers[i - 3];
      } else {
        assert test == SkippedTest(SERVICES[i - 3].PlainId());
      }
    }
  }

  /** The flag stored in the result means: every required service passes. */
  lemma SuccessIff(raw: string, mode: BenchMethod, required: Required, failFast: bool, sample: Test, oracle: Oracle)
    requires WellFormedOracle(mode, oracle) && WellFormedReport(sample, PingProxy) && sample.reachable && sample.stable
    ensures AdaptiveResult(raw, mode, AdaptiveTests(required, failFast, sample, oracle)).success
            <==> RequiredPasses(required, oracle)
  {
    var tests := AdaptiveTests(required, failFast, sample, oracle);
    AdaptiveTestsAre(required, failFast, sample, oracle);
    AttemptedAre(tests);
    NoFailuresIff(Attempted(tests), None);
    assert tests[2] in Attempted(tests);
    if RequiredPasses(required, oracle) {
      forall test | test in Attempted(tests)
        ensures !CountsAsFailure(test, None)
      {
        var i :| 0 <= i < 6 && tests[i] == test;
        PassingHasNoFailure(mode, required, failFast, sample, oracle, i);
      }
    } else {
      FirstFailureIsListed(mode, required, failFast, sample, oracle);
    }
  }

  /** The first required service that does not pass is probed even when failures
      stop the check, so it shows among the attempted tests. */
  lemma FirstFailureIsListed(mode: BenchMethod, required: Required, failFast: bool, sample: Test, oracle: Oracle)
    requires WellFormedOracle(mode, oracle)
    requires !RequiredPasses(required, oracle)
    ensures exists test ::
              && test in AdaptiveTests(required, failFast, sample, oracle) && test.attempts > 0
              && CountsAsFailure(test, None)
  {
    AdaptiveTestsAre(required, failFast, sample, oracle);
    var i := FirstFailure(mode, required, failFast, oracle);
    assert AdaptiveTests(required, failFast, sample, oracle)[3 + i] == AdaptiveAnswers(oracle)[i];
  }

  lemma FirstFailure(mode: BenchMethod, required: Required, failFast: bool, oracle: Oracle) returns (i: nat)
    requires WellFormedOracle(mode, oracle)
    requires !RequiredPasses(required, oracle)
    ensures i < 3 && Probed(required.Last(), failFast, AdaptiveAnswers(oracle), i)
    ensures AdaptiveAnswers(oracle)[i].attempts > 0 && CountsAsFailure(AdaptiveAnswers(oracle)[i], None)
  {
    i := if !Passes(oracle, Youtube) then 0 else if !Passes(oracle, Telegram) then 1 else 2;
  }

  lemma PassingIsGood(result: BenchResult, mode: BenchMethod, required: Required, failFast: bool, sample: Test,
                      oracle: Oracle)
    requires WellFormedOracle(mode, oracle) && WellFormedReport(sample, PingProxy) && sample.reachable && sample.stable
    requires result.tests == AdaptiveTests(required, failFast, sample, oracle)
    requires result.resultMethod == if mode.IsAvailability() then SearchAvailability else Search
    requires !required.NeedUnknown? && RequiredPasses(required, oracle)
    ensures AdaptiveResultIsGood(result, required)
  {
    var tests, last, answers := result.tests, required.Last(), AdaptiveAnswers(oracle);
    AdaptiveTestsAre(required, failFast, sample, oracle);
    assert ProvesPing(tests[2]);
    assert Passes(oracle, Youtube) && (last >= 1 ==> Passes(oracle, Telegram)) && (last >= 2 ==> Passes(oracle, Ai));
    forall i | 0 <= i <= last
      ensures exists test | test in tests :: ProvesService(test, SERVICES[i].ReportId(mode.IsAvailability()))
    {
      assert AllStable(answers, i) && Probed(last, failFast, answers, i);
      assert ProvesService(tests[3 + i], SERVICES[i].ReportId(mode.IsAvailability()));
    }
  }

  lemma FailingIsNotGood(result: BenchResult, mode: BenchMethod, required: Required, failFast: bool, sample: Test,
                         oracle: Oracle)
    requires WellFormedOracle(mode, oracle) && WellFormedReport(sample, PingProxy)
    requires result.tests == AdaptiveTests(required, failFast, sample, oracle)
    requires result.resultMethod == if mode.IsAvailability() then SearchAvailability else Search
    requires !RequiredPasses(required, oracle)
    ensures !AdaptiveResultIsGood(result, required)
  {
    AdaptiveTestsAre(required, failFast, sample, oracle);
    var service: Service :| service.Rank() <= required.Last() && !Passes(oracle, service);
    forall test | test in result.tests
      ensures !ProvesService(test, service.ReportId(mode.IsAvailability()))
    {
      var k :| 0 <= k < 6 && result.tests[k] == test;
      NotProvedBy(mode, required, failFast, sample, oracle, service, k);
    }
    assert SERVICES[service.Rank()] == service;
  }

  /** No listed test proves a service that does not pass. */
  lemma NotProvedBy(mode: BenchMethod, required: Required, failFast: bool, sample: Test, oracle: Oracle,
                    service: Service, k: nat)
    requires WellFormedOracle(mode, oracle) && WellFormedReport(sample, PingProxy)
    requires !Passes(oracle, service) && k < 6
    ensures var tests := AdaptiveTests(required, failFast, sample, oracle);
            |tests| == 6 && !ProvesService(tests[k], service.ReportId(mode.IsAvailability()))
  {
    AdaptiveTestsAre(required, failFast, sample, oracle);
    if k >= 3 {
      ListedUnderOwnId(mode, required, failFast, sample, oracle, k - 3);
    }
  }

  lemma GoodIff(raw: string, mode: BenchMethod, required: Required, failFast: bool, sample: Test, oracle: Oracle)
    requires WellFormedOracle(mode, oracle) && WellFormedReport(sample, PingProxy) && sample.reachable && sample.stable
    ensures AdaptiveResultIsGood(AdaptiveResult(raw, mode, AdaptiveTests(required, failFast, sample, oracle)), required)
            <==> !required.NeedUnknown? && RequiredPasses(required, oracle)
  {
    var result := AdaptiveResult(raw, mode, AdaptiveTests(required, failFast, sample, oracle));
    if !RequiredPasses(required, oracle) {
      FailingIsNotGood(result, mode, required, failFast, sample, oracle);
    } else if !required.NeedUnknown? {
      PassingIsGood(result, mode, required, failFast, sample, oracle);
    }
  }

  /** The test listed for a service carries an id of that service and nothing it did not report. */
  lemma ListedUnderOwnId(mode: BenchMethod, required: Required, failFast: bool, sample: Test, oracle: Oracle, i: nat)
    requires WellFormedOracle(mode, oracle) && i < 3
    ensures var tests, service := AdaptiveTests(required, failFast, sample, oracle), SERVICES[i];
            && |tests| == 6
            && tests[3 + i].id in {service.PlainId(), service.ReportId(mode.IsAvailability())}
            && (tests[3 + i].stable && !tests[3 + i].inconclusive ==> Passes(oracle, service))
  {
    AdaptiveTestsAre(required, failFast, sample, oracle);
  }

  /** The two verdicts of an adaptive search, written separately, agree for every
      prefix a search may require, and neither depends on whether the first failure
      stops the check. */
  lemma VerdictsAgree(raw: string, mode: BenchMethod, required: Required, failFast: bool, otherFailFast: bool,
                      sample: Test, oracle: Oracle)
    requires WellFormedOracle(mode, oracle) && WellFormedReport(sample, PingProxy) && sample.reachable && sample.stable
    requires !required.NeedUnknown?
    ensures var result := AdaptiveResult(raw, mode, AdaptiveTests(required, failFast, sample, oracle));
            var other := AdaptiveResult(raw, mode, AdaptiveTests(required, otherFailFast, sample, oracle));
            result.success == AdaptiveResultIsGood(result, required)
            == other.success == AdaptiveResultIsGood(other, required)
  {
    SuccessIff(raw, mode, required, failFast, sample, oracle);
    SuccessIff(raw, mode, required, otherFailFast, sample, oracle);
    GoodIff(raw, mode, required, failFast, sample, oracle);
    GoodIff(raw, mode, required, otherFailFast, sample, oracle);
  }

  /** Asking for everything and asking for the last service are the same request. */
  lemma AllMeansAi(raw: string, mode: BenchMethod, failFast: bool, sample: Test, oracle: Oracle)
    ensures var all := AdaptiveResult(raw, mode, AdaptiveTests(NeedAll, failFast, sample, oracle));
            var ai := AdaptiveResult(raw, mode, AdaptiveTests(NeedAi, failFast, sample, oracle));
            all == ai && (AdaptiveResultIsGood(all, NeedAll) <==> AdaptiveResultIsGood(ai, NeedAi))
  {
  }
}

/** Login throttling: a bounded table of per-address buckets and one bucket
    shared by every address the table has no room for. */
module LoginThrottle {
  import opened Collections
  import opened Wrappers

  const U64_MAX: nat := 0xFFFF_FFFF_FFFF_FFFF
  const LOGIN_WINDOW_SECS: nat := 300
  const LOGIN_MAX_FAILURES: nat := 5
  const LOGIN_BLOCK_SECS: nat := 900
  const MAX_LOGIN_SOURCES: nat := 256

  type Time = n: nat | n <= U64_MAX

  datatype Source = Source(address: nat)

  datatype SourceState = SourceState(failures: seq<Time>, blockedUntil: Time)

  datatype Limiter = Limiter(sources: map<Source, SourceState>, overflow: SourceState)

  datatype Outcome = Admitted(retryAfterOnFailure: Option<nat>) | Refused(retryAfter: nat)

  const EMPTY := SourceState([], 0)
  const DEFAULT := Limiter(map[], EMPTY)

  function SaturatingAdd(time: Time, seconds: nat): Time {
    if time + seconds <= U64_MAX then time + seconds else U64_MAX
  }

  predicate IsRecent(failure: Time, now: Time) {
    (if now < failure then 0 else now - failure) <= LOGIN_WINDOW_SECS
  }

  function Recent(failures: seq<Time>, now: Time): seq<Time> {
    if failures == [] then []
    else (if IsRecent(failures[0], now) then [failures[0]] else []) + Recent(failures[1..], now)
  }

  function CompactState(state: SourceState, now: Time): SourceState {
    SourceState(Recent(state.failures, now), if state.blockedUntil <= now then 0 else state.blockedUntil)
  }

  predicate Live(state: SourceState, now: Time) {
    state.blockedUntil > now || state.failures != []
  }

  function Compact(limiter: Limiter, now: Time): Limiter {
    Limiter(
      map source | source in limiter.sources && Live(CompactState(limiter.sources[source], now), now)
                 :: CompactState(limiter.sources[source], now),
      CompactState(limiter.overflow, now))
  }

  /** Whether `source` is charged to its own bucket rather than the shared one. */
  predicate OwnsBucket(limiter: Limiter, source: Source, now: Time) {
    || source in limiter.sources
    || (|limiter.sources| < MAX_LOGIN_SOURCES && limiter.overflow.blockedUntil <= now
      && limiter.overflow.failures == [])
  }

  function Charge(state: SourceState, now: Time): (SourceState, Outcome) {
    if state.blockedUntil > now then (state, Refused(state.blockedUntil - now))
    else if |state.failures| + 1 >= LOGIN_MAX_FAILURES then
      (SourceState([], SaturatingAdd(now, LOGIN_BLOCK_SECS)), Admitted(Some(LOGIN_BLOCK_SECS)))
    else (state.(failures := state.failures + [now]), Admitted(None))
  }

  function BucketOf(limiter: Limiter, source: Source): SourceState {
    if source in limiter.sources then limiter.sources[source] else EMPTY
  }

  function Reserve(limiter: Limiter, source: Source, now: Time): (Limiter, Outcome) {
    var compacted := Compact(limiter, now);
    if OwnsBucket(compacted, source, now) then
      var (state, outcome) := Charge(BucketOf(compacted, source), now);
      (compacted.(sources := compacted.sources[source := state]), outcome)
    else
      var (state, outcome) := Charge(compacted.overflow, now);
      (compacted.(overflow := state), outcome)
  }

  function Forget(limiter: Limiter, source: Source): Limiter {
    limiter.(sources := limiter.sources - {source})
  }

  // ------------------------------------------------------- the limiter itself

  /** The table while the buckets in `todo` are still as they were. */
  function PartlyCompacted(sources: map<Source, SourceState>, todo: set<Source>, now: Time): map<Source, SourceState> {
    map source | source in sources && (source in todo || Live(CompactState(sources[source], now), now))
               :: if source in todo then sources[source] else CompactState(sources[source], now)
  }

  lemma CompactOne(sources: map<Source, SourceState>, todo: set<Source>, source: Source, now: Time)
    requires source in todo && source in sources
    ensures var before, state := PartlyCompacted(sources, todo, now), CompactState(sources[source], now);
            && source in before && before[source] == sources[source]
            && PartlyCompacted(sources, todo - {source}, now)
               == if Live(state, now) then before[source := state] else before - {source}
  {
  }

  method RetainRecent(failures: seq<Time>, now: Time) returns (kept: seq<Time>)
    ensures kept == Recent(failures, now)
  {
    kept := [];
    for i := 0 to |failures|
      invariant Recent(failures, now) == kept + Recent(failures[i..], now)
    {
      RestOf(failures, i);
      MovePart(kept, if IsRecent(failures[i], now) then [failures[i]] else [], Recent(failures[i + 1..], now));
      if IsRecent(failures[i], now) {
        kept := kept + [failures[i]];
      }
    }
  }

  class LoginLimiter {
    var sources: map<Source, SourceState>
    var overflow: SourceState

    function View(): Limiter
      reads this
    {
      Limiter(sources, overflow)
    }

    constructor ()
      ensures View() == DEFAULT
    {
      sources := map[];
      overflow := EMPTY;
    }

    method CompactAll(now: Time)
      modifies this
      ensures View() == Compact(old(View()), now)
    {
      var todo := sources.Keys;
      while todo != {}
        invariant todo <= old(sources).Keys
        invariant sources == PartlyCompacted(old(sources), todo, now)
        invariant overflow == old(overflow)
      {
        var source :| source in todo;
        CompactOne(old(sources), todo, source, now);
        todo := todo - {source};
        var failures := RetainRecent(sources[source].failures, now);
        var until := sources[source].blockedUntil;
        var state := SourceState(failures, if until <= now then 0 else until);
        sources := if Live(state, now) then sources[source := state] else sources - {source};
      }
      var failures := RetainRecent(overflow.failures, now);
      overflow := SourceState(failures, if overflow.blockedUntil <= now then 0 else overflow.blockedUntil);
    }

    /** Charge the attempt to its bucket, or refuse it while that bucket is blocked. */
    method ReserveAttempt(source: Source, now: Time) returns (outcome: Outcome)
      modifies this
      ensures (View(), outcome) == Reserve(old(View()), source, now)
    {
      CompactAll(now);
      ghost var compacted := View();
      var owns := source in sources
               || (|sources| < MAX_LOGIN_SOURCES && overflow.blockedUntil <= now && overflow.failures == []);
      if owns && source !in sources {
        sources := sources[source := EMPTY];
      }
      var state := if owns then sources[source] else overflow;
      if state.blockedUntil > now {
        assert owns ==> sources == sources[source := state];
        return Refused(state.blockedUntil - now);
      }
      state := state.(failures := state.failures + [now]);
      outcome := Admitted(None);
      if |state.failures| >= LOGIN_MAX_FAILURES {
        state := SourceState([], SaturatingAdd(now, LOGIN_BLOCK_SECS));
        outcome := Admitted(Some(LOGIN_BLOCK_SECS));
      }
      if owns {
        sources := sources[source := state];
        assert sources == compacted.sources[source := state];
      } else {
        overflow := state;
      }
    }

    method RecordSuccess(source: Source)
      modifies this
      ensures View() == Forget(old(View()), source)
    {
      sources := sources - {source};
    }
  }

  // ------------------------------------------------------------------ runs

  datatype Event = Attempt(source: Source, now: Time) | Success(source: Source)

  function Step(limiter: Limiter, event: Event): Limiter {
    match event
    case Attempt(source, now) => Reserve(limiter, source, now).0
    case Success(source) => Forget(limiter, source)
  }

  function After(limiter: Limiter, events: seq<Event>): Limiter {
    if events == [] then limiter
    else Step(After(limiter, events[..|events| - 1]), events[|events| - 1])
  }

  predicate IsAdmitted(limiter: Limiter, event: Event) {
    event.Attempt? && Reserve(limiter, event.source, event.now).1.Admitted?
  }

  /** How many attempts of `events` were admitted, for one address or for all. */
  function CountAdmitted(limiter: Limiter, events: seq<Event>, only: Option<Source>): nat {
    if events == [] then 0
    else
      var before, last := events[..|events| - 1], events[|events| - 1];
      CountAdmitted(limiter, before, only) +
      if IsAdmitted(After(limiter, before), last) && (only.None? || only.value == last.source) then 1 else 0
  }

  predicate Valid(limiter: Limiter) {
    && |limiter.sources| <= MAX_LOGIN_SOURCES
    && |limiter.overflow.failures| < LOGIN_MAX_FAILURES
    && forall source | source in limiter.sources :: |limiter.sources[source].failures| < LOGIN_MAX_FAILURES
  }

  lemma RecentIsShorter(failures: seq<Time>, now: Time)
    ensures |Recent(failures, now)| <= |failures|
  {
  }

  lemma CompactKeepsValid(limiter: Limiter, now: Time)
    requires Valid(limiter)
    ensures Valid(Compact(limiter, now))
  {
    var compacted := Compact(limiter, now);
    assert compacted.sources.Keys <= limiter.sources.Keys;
    CardinalityOfSubset(compacted.sources.Keys, limiter.sources.Keys);
    RecentIsShorter(limiter.overflow.failures, now);
    forall source | source in compacted.sources
      ensures |compacted.sources[source].failures| < LOGIN_MAX_FAILURES
    {
      RecentIsShorter(limiter.sources[source].failures, now);
    }
  }

  lemma ReserveKeepsValid(limiter: Limiter, source: Source, now: Time)
    requires Valid(limiter)
    ensures Valid(Reserve(limiter, source, now).0)
  {
    CompactKeepsValid(limiter, now);
    var compacted := Compact(limiter, now);
    if OwnsBucket(compacted, source, now) {
      var state := Charge(BucketOf(compacted, source), now).0;
      assert |state.failures| < LOGIN_MAX_FAILURES;
      assert compacted.sources[source := state].Keys == compacted.sources.Keys + {source};
    }
  }

  lemma StepKeepsValid(limiter: Limiter, event: Event)
    requires Valid(limiter)
    ensures Valid(Step(limiter, event))
  {
    if event.Attempt? {
      ReserveKeepsValid(limiter, event.source, event.now);
    } else {
      CardinalityOfSubset(limiter.sources.Keys - {event.source}, limiter.sources.Keys);
      assert Forget(limiter, event.source).sources.Keys == limiter.sources.Keys - {event.source};
    }
  }

  /** Whatever happens, the table never exceeds its 256 entries. */
  lemma {:induction false} TableStaysBounded(limiter: Limiter, events: seq<Event>)
    requires Valid(limiter)
    ensures Valid(After(limiter, events))
  {
    if events != [] {
      TableStaysBounded(limiter, events[..|events| - 1]);
      StepKeepsValid(After(limiter, events[..|events| - 1]), events[|events| - 1]);
    }
  }

  // ------------------------------------------------- attempts in a window

  predicate InWindow(events: seq<Event>, lo: Time, hi: Time) {
    forall event | event in events :: event.Attempt? ==> lo <= event.now <= hi
  }

  function CountWithin(failures: seq<Time>, lo: Time, hi: Time): nat {
    if failures == [] then 0
    else (if lo <= failures[0] <= hi then 1 else 0) + CountWithin(failures[1..], lo, hi)
  }

  lemma {:induction false} CompactionKeepsWindow(failures: seq<Time>, now: Time, lo: Time, hi: Time)
    requires lo <= now <= hi <= lo + LOGIN_WINDOW_SECS
    ensures CountWithin(Recent(failures, now), lo, hi) == CountWithin(failures, lo, hi) <= |failures|
  {
    if failures != [] {
      CompactionKeepsWindow(failures[1..], now, lo, hi);
      var kept := Recent(failures[1..], now);
      assert ([failures[0]] + kept)[1..] == kept;
      assert [] + kept == kept;
    }
  }

  lemma {:induction false} AppendedIsCounted(failures: seq<Time>, now: Time, lo: Time, hi: Time)
    requires lo <= now <= hi
    ensures CountWithin(failures + [now], lo, hi) == CountWithin(failures, lo, hi) + 1
  {
    if failures != [] {
      AppendedIsCounted(failures[1..], now, lo, hi);
      assert (failures + [now])[1..] == failures[1..] + [now];
    }
  }

  /** A bucket that admitted `charged` attempts in the window still remembers
      them all, or is blocked until the window has passed. */
  predicate Spent(state: SourceState, charged: nat, lo: Time, hi: Time) {
    && charged <= LOGIN_MAX_FAILURES
    && (state.blockedUntil > hi || charged <= CountWithin(state.failures, lo, hi))
  }

  lemma CompactionKeepsSpent(state: SourceState, charged: nat, now: Time, lo: Time, hi: Time)
    requires lo <= now <= hi <= lo + LOGIN_WINDOW_SECS
    requires Spent(state, charged, lo, hi)
    ensures Spent(CompactState(state, now), charged, lo, hi)
    ensures charged > 0 ==> Live(CompactState(state, now), now)
    ensures |CompactState(state, now).failures| <= |state.failures|
  {
    CompactionKeepsWindow(state.failures, now, lo, hi);
    RecentIsShorter(state.failures, now);
  }

  lemma ChargeIsSpent(state: SourceState, charged: nat, now: Time, lo: Time, hi: Time)
    requires lo <= now <= hi <= lo + LOGIN_WINDOW_SECS
    requires hi < U64_MAX
    requires |state.failures| < LOGIN_MAX_FAILURES
    requires Spent(state, charged, lo, hi)
    ensures var (next, outcome) := Charge(state, now);
            Spent(next, charged + if outcome.Admitted? then 1 else 0, lo, hi)
  {
    CompactionKeepsWindow(state.failures, now, lo, hi);
    AppendedIsCounted(state.failures, now, lo, hi);
  }

  /** The bucket that answers for `source` in the window. */
  function Answering(limiter: Limiter, source: Source): SourceState {
    if source in limiter.sources then limiter.sources[source] else limiter.overflow
  }

  lemma StepKeepsAddressSpent(limiter: Limiter, event: Event, source: Source, charged: nat, lo: Time, hi: Time)
    requires Valid(limiter)
    requires hi <= lo + LOGIN_WINDOW_SECS && hi < U64_MAX
    requires event.Attempt? ==> lo <= event.now <= hi
    requires event != Success(source)
    requires Spent(Answering(limiter, source), charged, lo, hi)
    ensures Spent(Answering(Step(limiter, event), source),
                  charged + if IsAdmitted(limiter, event) && event.source == source then 1 else 0, lo, hi)
  {
    if event.Attempt? {
      var now := event.now;
      var compacted := Compact(limiter, now);
      CompactionKeepsSpent(Answering(limiter, source), charged, now, lo, hi);
      CompactionKeepsSpent(Answering(limiter, event.source), 0, now, lo, hi);
      CompactionKeepsSpent(limiter.overflow, 0, now, lo, hi);
      if charged > 0 {
        assert Answering(compacted, source) == CompactState(Answering(limiter, source), now);
        ChargeIsSpent(Answering(compacted, source), charged, now, lo, hi);
      } else {
        ChargeIsSpent(BucketOf(compacted, source), 0, now, lo, hi);
        ChargeIsSpent(compacted.overflow, 0, now, lo, hi);
      }
    }
  }

  lemma {:induction false} AddressSpentAfter(limiter: Limiter, events: seq<Event>, source: Source, lo: Time, hi: Time)
    requires Valid(limiter)
    requires hi <= lo + LOGIN_WINDOW_SECS && hi < U64_MAX
    requires InWindow(events, lo, hi)
    requires Success(source) !in events
    ensures Spent(Answering(After(limiter, events), source), CountAdmitted(limiter, events, Some(source)), lo, hi)
  {
    if events != [] {
      var before, last := events[..|events| - 1], events[|events| - 1];
      AddressSpentAfter(limiter, before, source, lo, hi);
      TableStaysBounded(limiter, before);
      StepKeepsAddressSpent(After(limiter, before), last, source,
                            CountAdmitted(limiter, before, Some(source)), lo, hi);
    }
  }

  /** What the buckets still in use have admitted in the window. */
  predicate AllSpent(limiter: Limiter, own: map<Source, nat>, shared: nat, lo: Time, hi: Time) {
    && Spent(limiter.overflow, shared, lo, hi)
    && forall source | source in own ::
         source in limiter.sources && own[source] > 0 && Spent(limiter.sources[source], own[source], lo, hi)
  }

  lemma CompactKeepsAllSpent(limiter: Limiter, now: Time, own: map<Source, nat>, shared: nat, lo: Time, hi: Time)
    requires lo <= now <= hi <= lo + LOGIN_WINDOW_SECS && AllSpent(limiter, own, shared, lo, hi)
    ensures AllSpent(Compact(limiter, now), own, shared, lo, hi)
  {
    CompactionKeepsSpent(limiter.overflow, shared, now, lo, hi);
    var compacted := Compact(limiter, now);
    forall source | source in own
      ensures source in compacted.sources && Spent(compacted.sources[source], own[source], lo, hi)
    {
      CompactionKeepsSpent(limiter.sources[source], own[source], now, lo, hi);
    }
  }

  function SpentBy(own: map<Source, nat>, source: Source): nat {
    if source in own then own[source] else 0
  }

  lemma OwnCharge(compacted: Limiter, source: Source, now: Time, own: map<Source, nat>, shared: nat, lo: Time, hi: Time)
    returns (own': map<Source, nat>)
    requires Valid(compacted) && lo <= now <= hi <= lo + LOGIN_WINDOW_SECS && hi < U64_MAX
    requires AllSpent(compacted, own, shared, lo, hi)
    ensures var (state, outcome) := Charge(BucketOf(compacted, source), now);
            && AllSpent(compacted.(sources := compacted.sources[source := state]), own', shared, lo, hi)
            && Sum(own') == Sum(own) + if outcome.Admitted? then 1 else 0
  {
    var charged := SpentBy(own, source);
    ChargeIsSpent(BucketOf(compacted, source), charged, now, lo, hi);
    own' := own;
    if Charge(BucketOf(compacted, source), now).1.Admitted? {
      own' := own[source := charged + 1];
      SumUpdate(own, source, charged + 1);
    }
  }

  lemma StepKeepsAllSpent(limiter: Limiter, event: Event, own: map<Source, nat>, shared: nat, lo: Time, hi: Time)
    returns (own': map<Source, nat>, shared': nat)
    requires Valid(limiter)
    requires hi <= lo + LOGIN_WINDOW_SECS && hi < U64_MAX
    requires event.Attempt? && lo <= event.now <= hi
    requires AllSpent(limiter, own, shared, lo, hi)
    ensures AllSpent(Step(limiter, event), own', shared', lo, hi)
    ensures Sum(own') + shared' == Sum(own) + shared + if IsAdmitted(limiter, event) then 1 else 0
  {
    var Attempt(source, now) := event;
    var compacted := Compact(limiter, now);
    CompactKeepsValid(limiter, now);
    CompactKeepsAllSpent(limiter, now, own, shared, lo, hi);
    own', shared' := own, shared;
    if OwnsBucket(compacted, source, now) {
      own' := OwnCharge(compacted, source, now, own, shared, lo, hi);
    } else {
      ChargeIsSpent(compacted.overflow, shared, now, lo, hi);
      if IsAdmitted(limiter, event) {
        shared' := shared + 1;
      }
    }
  }

  /** A success forgets what one bucket admitted, which is at most five attempts. */
  lemma SuccessKeepsAllSpent(limiter: Limiter, source: Source, own: map<Source, nat>, shared: nat, lo: Time, hi: Time)
    requires AllSpent(limiter, own, shared, lo, hi)
    ensures AllSpent(Forget(limiter, source), own - {source}, shared, lo, hi)
    ensures Sum(own) <= Sum(own - {source}) + LOGIN_MAX_FAILURES
  {
    if source in own {
      SumWithout(own, source);
    } else {
      assert own - {source} == own;
    }
  }

  function CountSuccesses(events: seq<Event>): nat {
    if events == [] then 0
    else CountSuccesses(events[..|events| - 1]) + if events[|events| - 1].Success? then 1 else 0
  }

  lemma {:induction false} AllSpentAfter(limiter: Limiter, events: seq<Event>, lo: Time, hi: Time)
    returns (own: map<Source, nat>, shared: nat)
    requires Valid(limiter)
    requires hi <= lo + LOGIN_WINDOW_SECS && hi < U64_MAX
    requires InWindow(events, lo, hi)
    ensures AllSpent(After(limiter, events), own, shared, lo, hi)
    ensures CountAdmitted(limiter, events, None) <= Sum(own) + shared + LOGIN_MAX_FAILURES * CountSuccesses(events)
  {
    if events == [] {
      own, shared := map[], 0;
    } else {
      var before, last := events[..|events| - 1], events[|events| - 1];
      own, shared := AllSpentAfter(limiter, before, lo, hi);
      TableStaysBounded(limiter, before);
      if last.Attempt? {
        own, shared := StepKeepsAllSpent(After(limiter, before), last, own, shared, lo, hi);
      } else {
        SuccessKeepsAllSpent(After(limiter, before), last.source, own, shared, lo, hi);
        own := own - {last.source};
      }
    }
  }

  /** In any stretch of a run that fits a closed 300-second window one address is
      admitted at most five times before its own success, whatever the others do
      and whichever bucket it is charged to. */
  lemma AddressBudget(history: seq<Event>, i: nat, j: nat, source: Source, lo: Time, hi: Time)
    requires i <= j <= |history|
    requires hi <= lo + LOGIN_WINDOW_SECS && hi < U64_MAX
    requires InWindow(history[i..j], lo, hi)
    requires Success(source) !in history[i..j]
    ensures CountAdmitted(After(DEFAULT, history[..i]), history[i..j], Some(source)) <= LOGIN_MAX_FAILURES
  {
    TableStaysBounded(DEFAULT, history[..i]);
    AddressSpentAfter(After(DEFAULT, history[..i]), history[i..j], source, lo, hi);
  }

  /** The window admits at most 5 * (256 + 1) attempts over arbitrarily many addresses, and five more
      for each success in it. */
  lemma GlobalBudget(history: seq<Event>, i: nat, j: nat, lo: Time, hi: Time)
    requires i <= j <= |history|
    requires hi <= lo + LOGIN_WINDOW_SECS && hi < U64_MAX
    requires InWindow(history[i..j], lo, hi)
    ensures CountAdmitted(After(DEFAULT, history[..i]), history[i..j], None)
            <= LOGIN_MAX_FAILURES * (MAX_LOGIN_SOURCES + 1 + CountSuccesses(history[i..j]))
  {
    var start := After(DEFAULT, history[..i]);
    TableStaysBounded(DEFAULT, history[..i]);
    TableStaysBounded(start, history[i..j]);
    var own, shared := AllSpentAfter(start, history[i..j], lo, hi);
    SumAtMost(own, LOGIN_MAX_FAILURES);
    CardinalityOfSubset(own.Keys, After(start, history[i..j]).sources.Keys);
  }

  lemma AdmittedAtClockEnd(limiter: Limiter, source: Source)
    ensures IsAdmitted(limiter, Attempt(source, U64_MAX))
  {
  }

  function LastSecond(source: Source, n: nat): seq<Event> {
    seq(n, _ => Attempt(source, U64_MAX))
  }

  lemma LastSecondStep(source: Source, n: nat)
    ensures LastSecond(source, n + 1)[..n] == LastSecond(source, n)
    ensures LastSecond(source, n + 1)[n] == Attempt(source, U64_MAX)
  {
  }

  /** At the last second a 64-bit clock can show, a block is over as soon as it begins. */
  lemma {:induction false} ClockEndAdmitsAll(limiter: Limiter, source: Source, n: nat)
    ensures CountAdmitted(limiter, LastSecond(source, n), Some(source)) == n
  {
    if n > 0 {
      ClockEndAdmitsAll(limiter, source, n - 1);
      LastSecondStep(source, n - 1);
      AdmittedAtClockEnd(After(limiter, LastSecond(source, n - 1)), source);
    }
  }

  ghost predicate HoldsAddressBudget(lo: Time, hi: Time) {
    forall limiter, events, source |
      Valid(limiter) && InWindow(events, lo, hi) && Success(source) !in events ::
      CountAdmitted(limiter, events, Some(source)) <= LOGIN_MAX_FAILURES
  }

  /** The budget holds in exactly the windows that end before the clock does. */
  lemma AddressBudgetIff(lo: Time, hi: Time)
    requires lo <= hi <= lo + LOGIN_WINDOW_SECS
    ensures HoldsAddressBudget(lo, hi) <==> hi < U64_MAX
  {
    if hi < U64_MAX {
      forall limiter, events, source |
        Valid(limiter) && InWindow(events, lo, hi) && Success(source) !in events
        ensures CountAdmitted(limiter, events, Some(source)) <= LOGIN_MAX_FAILURES
      {
        AddressSpentAfter(limiter, events, source, lo, hi);
      }
    } else {
      var events := LastSecond(Source(0), 6);
      ClockEndAdmitsAll(DEFAULT, Source(0), 6);
      assert Valid(DEFAULT) && InWindow(events, lo, hi) && Success(Source(0)) !in events;
      assert CountAdmitted(DEFAULT, events, Some(Source(0))) == 6;
    }
  }

  // ------------------------------------------------------- the whole budget

  function AttemptsBy(events: seq<Event>, source: Source): nat {
    if events == [] then 0
    else AttemptsBy(events[..|events| - 1], source) +
         if events[|events| - 1].Attempt? && events[|events| - 1].source == source then 1 else 0
  }

  /** The address has its own unblocked bucket with `k` failures, all of them in the window. */
  predicate HasSpent(limiter: Limiter, source: Source, k: nat, lo: Time, hi: Time) {
    && source in limiter.sources
    && limiter.sources[source].blockedUntil == 0
    && |limiter.sources[source].failures| == k
    && forall i | 0 <= i < k :: lo <= limiter.sources[source].failures[i] <= hi
  }

  lemma {:induction false} WindowIsRecent(failures: seq<Time>, now: Time, lo: Time, hi: Time)
    requires lo <= now <= hi <= lo + LOGIN_WINDOW_SECS
    requires forall i | 0 <= i < |failures| :: lo <= failures[i] <= hi
    ensures Recent(failures, now) == failures
  {
    if failures != [] {
      WindowIsRecent(failures[1..], now, lo, hi);
      assert failures == [failures[0]] + failures[1..];
    }
  }

  lemma CompactKeepsSpent(limiter: Limiter, source: Source, k: nat, now: Time, lo: Time, hi: Time)
    requires HasSpent(limiter, source, k, lo, hi) && k >= 1 && lo <= now <= hi <= lo + LOGIN_WINDOW_SECS
    ensures HasSpent(Compact(limiter, now), source, k, lo, hi)
  {
    WindowIsRecent(limiter.sources[source].failures, now, lo, hi);
  }

  lemma StepKeepsHasSpent(limiter: Limiter, event: Event, source: Source, k: nat, lo: Time, hi: Time)
    requires HasSpent(limiter, source, k, lo, hi) && hi <= lo + LOGIN_WINDOW_SECS && 1 <= k
    requires event.Attempt? ==> lo <= event.now <= hi
    requires event != Success(source) && k + AttemptsBy([event], source) < LOGIN_MAX_FAILURES
    ensures HasSpent(Step(limiter, event), source, k + AttemptsBy([event], source), lo, hi)
    ensures IsAdmitted(limiter, event) && event.source == source <==> AttemptsBy([event], source) == 1
  {
    assert [event][..0] == [];
    if event.Attempt? {
      CompactKeepsSpent(limiter, source, k, event.now, lo, hi);
    }
  }

  lemma AttemptsByLast(events: seq<Event>, source: Source)
    requires events != []
    ensures var n := |events| - 1;
            AttemptsBy(events, source) == AttemptsBy(events[..n], source) + AttemptsBy([events[n]], source)
  {
    assert [events[|events| - 1]][..0] == [];
  }

  lemma {:induction false} BudgetIsGiven(limiter: Limiter, events: seq<Event>, source: Source, k: nat, lo: Time,
                                         hi: Time)
    requires HasSpent(limiter, source, k, lo, hi) && hi <= lo + LOGIN_WINDOW_SECS
    requires InWindow(events, lo, hi) && Success(source) !in events
    requires 1 <= k && k + AttemptsBy(events, source) < LOGIN_MAX_FAILURES
    ensures HasSpent(After(limiter, events), source, k + AttemptsBy(events, source), lo, hi)
    ensures CountAdmitted(limiter, events, Some(source)) == AttemptsBy(events, source)
  {
    if events != [] {
      var before, last := events[..|events| - 1], events[|events| - 1];
      AttemptsByLast(events, source);
      assert InWindow(before, lo, hi) && last in events;
      BudgetIsGiven(limiter, before, source, k, lo, hi);
      StepKeepsHasSpent(After(limiter, before), last, source, k + AttemptsBy(before, source), lo, hi);
    }
  }

  /** The budget is given in full: once an address has its own bucket, its next attempts in the window
      are admitted up to the fifth, which is the one that blocks it, whatever the others do. */
  lemma FifthAttemptBlocks(limiter: Limiter, events: seq<Event>, source: Source, k: nat, now: Time, lo: Time, hi: Time)
    requires HasSpent(limiter, source, k, lo, hi) && lo <= now <= hi <= lo + LOGIN_WINDOW_SECS
    requires InWindow(events, lo, hi) && Success(source) !in events
    requires 1 <= k && k + AttemptsBy(events, source) < LOGIN_MAX_FAILURES
    ensures CountAdmitted(limiter, events, Some(source)) == AttemptsBy(events, source)
    ensures IsAdmitted(After(limiter, events), Attempt(source, now))
    ensures Triggers(After(limiter, events), source, now) <==> k + AttemptsBy(events, source) == LOGIN_MAX_FAILURES - 1
  {
    BudgetIsGiven(limiter, events, source, k, lo, hi);
    CompactKeepsSpent(After(limiter, events), source, k + AttemptsBy(events, source), now, lo, hi);
  }

  // ---------------------------------------------------------------- blocks

  predicate Triggers(limiter: Limiter, source: Source, now: Time) {
    Reserve(limiter, source, now).1 == Admitted(Some(LOGIN_BLOCK_SECS))
  }

  lemma {:induction false} BlockStays(limiter: Limiter, events: seq<Event>, source: Source, until: Time)
    requires Answering(limiter, source).blockedUntil == until
    requires forall event | event in events :: event.Attempt? ==> event.now < until
    requires source in limiter.sources ==> Success(source) !in events
    ensures var after := After(limiter, events);
            && Answering(after, source).blockedUntil == until
            && (source in after.sources <==> source in limiter.sources)
  {
    if events != [] {
      BlockStays(limiter, events[..|events| - 1], source, until);
    }
  }

  /** A block cannot be evicted, shortened or prolonged: from the attempt at `t`
      that triggers it, every attempt of that address before the block ends is
      refused with exactly the seconds left, whatever other addresses do. Only the
      address's own success lifts it, and not even that when the block sits in the
      shared bucket. */
  lemma BlockHolds(limiter: Limiter, source: Source, t: Time, events: seq<Event>, n: Time)
    requires Triggers(limiter, source, t)
    requires forall event | event in events :: event.Attempt? ==> t <= event.now <= n
    requires t <= n < SaturatingAdd(t, LOGIN_BLOCK_SECS)
    requires Success(source) in events ==> !OwnsBucket(Compact(limiter, t), source, t)
    ensures var blocked := Reserve(limiter, source, t).0;
            Reserve(After(blocked, events), source, n).1 == Refused(SaturatingAdd(t, LOGIN_BLOCK_SECS) - n)
  {
    BlockStays(Reserve(limiter, source, t).0, events, source, SaturatingAdd(t, LOGIN_BLOCK_SECS));
  }
}

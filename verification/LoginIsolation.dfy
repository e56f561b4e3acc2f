/** How the login limiter keeps addresses apart: what an address meets depends on its own attempts alone as long as
    the table has room for everybody. */
module LoginIsolation {

  import opened Collections
  import opened LoginThrottle
  import opened Wrappers

  /** The addresses that occur in a history. */
  function Named(events: seq<Event>): set<Source> {
    set event | event in events :: event.source
  }

  lemma NamedGrows(events: seq<Event>, event: Event)
    ensures Named(events + [event]) == Named(events) + {event.source}
  {
    assert forall e :: e in events + [event] <==> e in events || e == event;
  }

  // ------------------------------------------------------- the shared bucket

  lemma StepKeepsSharedIdle(limiter: Limiter, event: Event, named: set<Source>)
    requires limiter.overflow == EMPTY && limiter.sources.Keys <= named && |named + {event.source}| <= MAX_LOGIN_SOURCES
    ensures Step(limiter, event).overflow == EMPTY
    ensures Step(limiter, event).sources.Keys <= named + {event.source}
    ensures event.Attempt? ==> OwnsBucket(Compact(limiter, event.now), event.source, event.now)
  {
    if event.Attempt? {
      var compacted := Compact(limiter, event.now);
      if event.source !in compacted.sources {
        CardinalityOfSubset(compacted.sources.Keys + {event.source}, named + {event.source});
        assert |compacted.sources| == |compacted.sources.Keys|;
      }
    }
  }

  /** As long as no more addresses occur than the table holds, every address has its own bucket: the shared
      one is never touched. */
  lemma {:induction false} SharedBucketStaysEmpty(events: seq<Event>)
    requires |Named(events)| <= MAX_LOGIN_SOURCES
    ensures After(DEFAULT, events).overflow == EMPTY && After(DEFAULT, events).sources.Keys <= Named(events)
  {
    if events != [] {
      var before, last := events[..|events| - 1], events[|events| - 1];
      assert events == before + [last];
      NamedGrows(before, last);
      CardinalityOfSubset(Named(before), Named(events));
      SharedBucketStaysEmpty(before);
      StepKeepsSharedIdle(After(DEFAULT, before), last, Named(before));
    }
  }

  // ------------------------------------------------------- one address alone

  function By(events: seq<Event>, source: Source): seq<Event> {
    if events == [] then []
    else By(events[..|events| - 1], source) +
         if events[|events| - 1].source == source then [events[|events| - 1]] else []
  }

  lemma {:induction false} ByNamesOne(events: seq<Event>, source: Source)
    ensures forall event | event in By(events, source) :: event.source == source && event in events
    ensures |Named(By(events, source))| <= 1
  {
    if events != [] {
      ByNamesOne(events[..|events| - 1], source);
    }
    assert Named(By(events, source)) <= {source};
    CardinalityOfSubset(Named(By(events, source)), {source});
  }

  /** Attempts come in the order of their clock readings, none later than `now`. */
  predicate ClockRuns(events: seq<Event>, now: Time) {
    events == [] ||
    var last := events[|events| - 1];
    if last.Attempt? then last.now <= now && ClockRuns(events[..|events| - 1], last.now)
    else ClockRuns(events[..|events| - 1], now)
  }

  lemma {:induction false} RecentTwice(failures: seq<Time>, earlier: Time, now: Time)
    requires earlier <= now
    ensures Recent(Recent(failures, earlier), now) == Recent(failures, now)
  {
    if failures != [] {
      RecentTwice(failures[1..], earlier, now);
      var kept := Recent(failures[1..], earlier);
      assert ([failures[0]] + kept)[1..] == kept && [] + kept == kept;
    }
  }

  lemma CompactTwice(state: SourceState, earlier: Time, now: Time)
    requires earlier <= now
    ensures CompactState(CompactState(state, earlier), now) == CompactState(state, now)
  {
    RecentTwice(state.failures, earlier, now);
  }

  /** A bucket dropped from the table is as good as one that holds nothing. */
  lemma CompactBucket(limiter: Limiter, source: Source, now: Time)
    ensures BucketOf(Compact(limiter, now), source) == CompactState(BucketOf(limiter, source), now)
  {
  }

  /** What one event makes of the bucket of an address when everybody has a bucket. */
  lemma BucketAfter(limiter: Limiter, event: Event, source: Source, named: set<Source>)
    requires limiter.overflow == EMPTY && limiter.sources.Keys <= named && |named + {event.source}| <= MAX_LOGIN_SOURCES
    ensures var bucket, after := BucketOf(limiter, source), BucketOf(Step(limiter, event), source);
            match event
            case Success(other) => after == if other == source then EMPTY else bucket
            case Attempt(other, now) =>
              if other == source then after == Charge(CompactState(bucket, now), now).0
              else after == CompactState(bucket, now)
  {
    StepKeepsSharedIdle(limiter, event, named);
    if event.Attempt? {
      CompactBucket(limiter, source, event.now);
    }
  }

  lemma ByLast(events: seq<Event>, source: Source)
    requires events != []
    ensures var before, last := events[..|events| - 1], events[|events| - 1];
            && events == before + [last]
            && By(events, source) == By(before, source) + (if last.source == source then [last] else [])
  {
  }

  lemma AfterLast(limiter: Limiter, events: seq<Event>, event: Event)
    ensures After(limiter, events + [event]) == Step(After(limiter, events), event)
  {
    assert (events + [event])[..|events|] == events;
  }

  /** The bucket of an address is that of its own events alone. */
  lemma {:induction false} SameBucketAlone(events: seq<Event>, source: Source, now: Time)
    requires |Named(events)| <= MAX_LOGIN_SOURCES && ClockRuns(events, now)
    ensures CompactState(BucketOf(After(DEFAULT, events), source), now)
            == CompactState(BucketOf(After(DEFAULT, By(events, source)), source), now)
  {
    if events != [] {
      var before, last := events[..|events| - 1], events[|events| - 1];
      ByLast(events, source);
      NamedGrows(before, last);
      CardinalityOfSubset(Named(before), Named(events));
      SameBucketAlone(before, source, if last.Attempt? then last.now else now);
      SharedBucketStaysEmpty(before);
      BucketAfter(After(DEFAULT, before), last, source, Named(before));
      if last.source == source {
        OwnEventAlone(before, last);
      } else if last.Attempt? {
        CompactTwice(BucketOf(After(DEFAULT, before), source), last.now, now);
        CompactTwice(BucketOf(After(DEFAULT, By(before, source)), source), last.now, now);
        AddNothing(By(before, source));
      } else {
        AddNothing(By(before, source));
      }
    }
  }

  lemma AddNothing(events: seq<Event>)
    ensures events + [] == events
  {
  }

  /** The same own event after two histories that leave the address the same bucket. */
  lemma OwnEventAlone(before: seq<Event>, last: Event)
    ensures var alone := By(before, last.source);
            var bucket := BucketOf(After(DEFAULT, alone), last.source);
            BucketOf(After(DEFAULT, alone + [last]), last.source) ==
              match last
              case Success(_) => EMPTY
              case Attempt(_, now) => Charge(CompactState(bucket, now), now).0
  {
    var alone := By(before, last.source);
    ByNamesOne(before, last.source);
    SharedBucketStaysEmpty(alone);
    assert Named(alone) + {last.source} == {last.source};
    AfterLast(DEFAULT, alone, last);
    BucketAfter(After(DEFAULT, alone), last, last.source, Named(alone));
  }

  /** Whatever other addresses do, an address meets exactly what it would meet if it were alone, as long as no
      more addresses occur than the table holds and the clock does not go back. */
  lemma OutcomeIsOwn(events: seq<Event>, source: Source, now: Time)
    requires |Named(events) + {source}| <= MAX_LOGIN_SOURCES && ClockRuns(events, now)
    ensures Reserve(After(DEFAULT, events), source, now).1 == Reserve(After(DEFAULT, By(events, source)), source, now).1
  {
    var alone := By(events, source);
    CardinalityOfSubset(Named(events), Named(events) + {source});
    SharedBucketStaysEmpty(events);
    SameBucketAlone(events, source, now);
    ByNamesOne(events, source);
    SharedBucketStaysEmpty(alone);
    assert Named(alone) + {source} == {source};
    OutcomeOfBucket(After(DEFAULT, events), source, now, Named(events));
    OutcomeOfBucket(After(DEFAULT, alone), source, now, Named(alone));
  }

  lemma OutcomeOfBucket(limiter: Limiter, source: Source, now: Time, named: set<Source>)
    requires limiter.overflow == EMPTY && limiter.sources.Keys <= named && |named + {source}| <= MAX_LOGIN_SOURCES
    ensures Reserve(limiter, source, now).1 == Charge(CompactState(BucketOf(limiter, source), now), now).1
  {
    StepKeepsSharedIdle(limiter, Attempt(source, now), named);
    CompactBucket(limiter, source, now);
  }

  /** After its own success an address that is alone starts afresh. */
  lemma SuccessStartsAfresh(events: seq<Event>, source: Source)
    requires forall event | event in events :: event.source == source
    ensures After(DEFAULT, events + [Success(source)]) == DEFAULT
  {
    assert Named(events) <= {source};
    CardinalityOfSubset(Named(events), {source});
    SharedBucketStaysEmpty(events);
    AfterLast(DEFAULT, events, Success(source));
    assert After(DEFAULT, events + [Success(source)]).sources == map[];
  }

  // ------------------------------------------------------- a rate that is never refused

  /** The clock readings of attempts at or before `now` that are at most a window old. */
  function CountAt(times: seq<Time>, now: Time): nat {
    if times == [] then 0
    else CountAt(times[..|times| - 1], now) + if times[|times| - 1] + LOGIN_WINDOW_SECS >= now then 1 else 0
  }

  /** Readings in order, and never five of them within one window. */
  predicate Sparse(times: seq<Time>) {
    && (forall i, j | 0 <= i <= j < |times| :: times[i] <= times[j])
    && forall k | 0 <= k < |times| :: CountAt(times[..k + 1], times[k]) < LOGIN_MAX_FAILURES
  }

  function AttemptsAt(source: Source, times: seq<Time>): (events: seq<Event>)
    ensures |events| == |times| && forall i | 0 <= i < |times| :: events[i] == Attempt(source, times[i])
  {
    seq(|times|, i requires 0 <= i < |times| => Attempt(source, times[i]))
  }

  lemma {:induction false} RecentLast(times: seq<Time>, time: Time, now: Time)
    ensures Recent(times + [time], now) == Recent(times, now) + if IsRecent(time, now) then [time] else []
  {
    if times == [] {
      assert times + [time] == [time] && [time][1..] == [];
    } else {
      assert (times + [time])[1..] == times[1..] + [time];
      RecentLast(times[1..], time, now);
      MovePart(if IsRecent(times[0], now) then [times[0]] else [], Recent(times[1..], now),
               if IsRecent(time, now) then [time] else []);
    }
  }

  lemma {:induction false} RecentCount(times: seq<Time>, now: Time)
    requires forall i | 0 <= i < |times| :: times[i] <= now
    ensures |Recent(times, now)| == CountAt(times, now)
  {
    if times != [] {
      var before, last := times[..|times| - 1], times[|times| - 1];
      assert times == before + [last];
      RecentCount(before, now);
      RecentLast(before, last, now);
    }
  }

  lemma SparseBefore(times: seq<Time>)
    requires Sparse(times) && times != []
    ensures Sparse(times[..|times| - 1])
  {
    var before := times[..|times| - 1];
    forall k | 0 <= k < |before| ensures CountAt(before[..k + 1], before[k]) < LOGIN_MAX_FAILURES {
      assert before[..k + 1] == times[..k + 1];
    }
  }

  /** A bucket that remembers exactly the attempts of the last window and is not blocked. */
  predicate Remembers(bucket: SourceState, times: seq<Time>, now: Time) {
    bucket.blockedUntil == 0 && CompactState(bucket, now).failures == Recent(times, now)
  }

  lemma AttemptsAtLast(source: Source, before: seq<Time>, last: Time)
    ensures AttemptsAt(source, before + [last]) == AttemptsAt(source, before) + [Attempt(source, last)]
  {
  }

  /** What an attempt makes of the bucket of an address that is alone. */
  lemma AloneAttempt(source: Source, before: seq<Time>, last: Time)
    ensures var state := CompactState(BucketOf(After(DEFAULT, AttemptsAt(source, before)), source), last);
            && BucketOf(After(DEFAULT, AttemptsAt(source, before + [last])), source) == Charge(state, last).0
            && Reserve(After(DEFAULT, AttemptsAt(source, before)), source, last).1 == Charge(state, last).1
  {
    var events := AttemptsAt(source, before);
    AttemptsAtLast(source, before, last);
    assert Named(events) + {source} == {source};
    CardinalityOfSubset(Named(events), {source});
    SharedBucketStaysEmpty(events);
    AfterLast(DEFAULT, events, Attempt(source, last));
    BucketAfter(After(DEFAULT, events), Attempt(source, last), source, Named(events));
    OutcomeOfBucket(After(DEFAULT, events), source, last, Named(events));
  }

  lemma LastOfSparse(before: seq<Time>, last: Time)
    requires Sparse(before + [last])
    ensures Sparse(before) && CountAt(before + [last], last) < LOGIN_MAX_FAILURES
    ensures forall i | 0 <= i < |before| :: before[i] <= last
  {
    var times := before + [last];
    SparseBefore(times);
    assert times[..|before|] == before && times[..|before| + 1] == times;
    assert forall i | 0 <= i < |before| :: before[i] == times[i] <= times[|before|];
  }

  lemma {:induction false} SparseIsRemembered(source: Source, times: seq<Time>, now: Time)
    requires Sparse(times) && forall i | 0 <= i < |times| :: times[i] <= now
    ensures Remembers(BucketOf(After(DEFAULT, AttemptsAt(source, times)), source), times, now)
  {
    if times == [] {
      NothingRemembered(source, now);
    } else {
      var before, last := times[..|times| - 1], times[|times| - 1];
      assert times == before + [last];
      LastOfSparse(before, last);
      SparseIsRemembered(source, before, last);
      AloneAttempt(source, before, last);
      SparseIsCharged(BucketOf(After(DEFAULT, AttemptsAt(source, before)), source), before, last, now);
    }
  }

  lemma NothingRemembered(source: Source, now: Time)
    ensures Remembers(BucketOf(After(DEFAULT, AttemptsAt(source, [])), source), [], now)
  {
    assert AttemptsAt(source, []) == [];
  }

  lemma SparseIsCharged(bucket: SourceState, before: seq<Time>, last: Time, now: Time)
    requires Remembers(bucket, before, last) && last <= now && forall i | 0 <= i < |before| :: before[i] <= last
    requires CountAt(before + [last], last) < LOGIN_MAX_FAILURES
    ensures var (next, outcome) := Charge(CompactState(bucket, last), last);
            outcome == Admitted(None) && Remembers(next, before + [last], now)
  {
    assert (before + [last])[..|before|] == before;
    RecentCount(before, last);
    RecentLast(before, last, last);
    RecentTwice(before + [last], last, now);
  }

  /** An address that never makes five attempts within one window is never refused and never blocked, whatever
      others do, as long as the table has room for everybody. */
  lemma SparseIsNeverRefused(events: seq<Event>, source: Source, times: seq<Time>, now: Time)
    requires |Named(events) + {source}| <= MAX_LOGIN_SOURCES && ClockRuns(events, now)
    requires By(events, source) == AttemptsAt(source, times) && Sparse(times + [now])
    ensures Reserve(After(DEFAULT, events), source, now).1 == Admitted(None)
  {
    OutcomeIsOwn(events, source, now);
    LastOfSparse(times, now);
    SparseIsRemembered(source, times, now);
    AloneAttempt(source, times, now);
    SparseIsCharged(BucketOf(After(DEFAULT, AttemptsAt(source, times)), source), times, now, now);
  }

  // ------------------------------------------------------- the end of a block

  /** A block ends on time: once it is over, the next attempt is admitted, and its address starts afresh. */
  lemma BlockEnds(limiter: Limiter, source: Source, t: Time, now: Time)
    requires Triggers(limiter, source, t) && OwnsBucket(Compact(limiter, t), source, t)
    requires t + LOGIN_BLOCK_SECS <= now
    ensures CompactState(BucketOf(Reserve(limiter, source, t).0, source), now) == EMPTY
  {
    var state := BucketOf(Reserve(limiter, source, t).0, source);
    assert state == SourceState([], t + LOGIN_BLOCK_SECS);
    assert state.failures == [] && Recent(state.failures, now) == [];
    assert CompactState(state, now) == SourceState(Recent(state.failures, now), 0);
  }

  // ------------------------------------------------------- a bucket of one's own

  /** The addresses with a block that is not over or a failure that is not a window old. */
  function LiveSources(limiter: Limiter, now: Time): set<Source> {
    set source | source in limiter.sources && IsBusy(limiter.sources[source], now)
  }

  predicate IsBusy(state: SourceState, now: Time) {
    state.blockedUntil > now || exists failure | failure in state.failures :: now <= failure + LOGIN_WINDOW_SECS
  }

  lemma {:induction false} RecentIsEmptyIff(failures: seq<Time>, now: Time)
    ensures Recent(failures, now) == [] <==> forall failure | failure in failures :: failure + LOGIN_WINDOW_SECS < now
  {
    if failures != [] {
      RecentIsEmptyIff(failures[1..], now);
      assert forall failure :: failure in failures <==> failure == failures[0] || failure in failures[1..];
      assert failures[0] in failures && (IsRecent(failures[0], now) <==> now <= failures[0] + LOGIN_WINDOW_SECS);
      if IsRecent(failures[0], now) {
        assert Recent(failures, now)[0] == failures[0];
      } else {
        assert Recent(failures, now) == Recent(failures[1..], now);
      }
    }
  }

  lemma BusyIsLive(state: SourceState, now: Time)
    ensures Live(CompactState(state, now), now) <==> IsBusy(state, now)
  {
    RecentIsEmptyIff(state.failures, now);
  }

  lemma NewBucket(limiter: Limiter, source: Source, now: Time)
    requires source !in limiter.sources
    ensures HasSpent(Reserve(limiter, source, now).0, source, 1, now, now)
            <==> OwnsBucket(Compact(limiter, now), source, now)
    ensures OwnsBucket(Compact(limiter, now), source, now) ==> Reserve(limiter, source, now).1 == Admitted(None)
  {
  }

  lemma CompactedAreBusy(limiter: Limiter, now: Time)
    ensures Compact(limiter, now).sources.Keys == LiveSources(limiter, now)
  {
    forall other ensures other in Compact(limiter, now).sources <==> other in LiveSources(limiter, now) {
      if other in limiter.sources {
        BusyIsLive(limiter.sources[other], now);
      }
    }
  }

  /** An address without a bucket gets one, and its first attempt is admitted, exactly when fewer than 256
      addresses are busy and the shared bucket is not. */
  lemma FirstAttempt(limiter: Limiter, source: Source, now: Time)
    requires source !in limiter.sources
    ensures HasSpent(Reserve(limiter, source, now).0, source, 1, now, now)
            <==> |LiveSources(limiter, now)| < MAX_LOGIN_SOURCES && !IsBusy(limiter.overflow, now)
    ensures |LiveSources(limiter, now)| < MAX_LOGIN_SOURCES && !IsBusy(limiter.overflow, now) ==>
              Reserve(limiter, source, now).1 == Admitted(None)
  {
    var compacted := Compact(limiter, now);
    NewBucket(limiter, source, now);
    CompactedAreBusy(limiter, now);
    BusyIsLive(limiter.overflow, now);
    assert |compacted.sources| == |compacted.sources.Keys|;
    assert source !in compacted.sources;
  }
}

/** Bounded, fair scheduling of the members of a VPN pool. */
module PoolScheduling {

  import opened Wrappers

  const MAX_TRANSITIONS: nat := 20
  const U64_MAX: nat := 0xFFFF_FFFF_FFFF_FFFF

  type Time = n: nat | n <= U64_MAX

  datatype PoolEvent = PoolEvent(timestamp: Time, serverRef: Option<string>, outcome: string)

  datatype Pool = Pool(cursor: nat, lastProbe: Option<PoolEvent>, nextAttempt: Time, transitions: seq<PoolEvent>)

  /** What one scheduling round sees and how its probe ends. */
  datatype Round = Round(available: seq<string>, cooldown: map<string, Time>, now: Time, outcome: string,
                         selected: bool)

  predicate Eligible(round: Round, member: string) {
    && member in round.available
    && (member in round.cooldown ==> round.cooldown[member] <= round.now)
  }

  /** The pool member `offset` places after the cursor, counting cyclically. */
  function MemberAt(cursor: nat, refs: seq<string>, offset: nat): string
    requires refs != []
  {
    refs[Slot(cursor, offset, |refs|)]
  }

  function Slot(cursor: nat, offset: nat, n: nat): (slot: nat)
    requires n > 0
    ensures slot < n
  {
    (cursor + offset) % n
  }

  /** The first eligible member at or after `offset` places from the cursor. */
  function NextFrom(cursor: nat, refs: seq<string>, round: Round, offset: nat): (next: Option<string>)
    requires offset <= |refs|
    decreases |refs| - offset
  {
    if offset == |refs| then None
    else if Eligible(round, MemberAt(cursor, refs, offset)) then Some(MemberAt(cursor, refs, offset))
    else NextFrom(cursor, refs, round, offset + 1)
  }

  function Next(pool: Pool, refs: seq<string>, round: Round): Option<string> {
    NextFrom(pool.cursor, refs, round, 0)
  }

  function Position(refs: seq<string>, member: string): (index: Option<nat>)
    ensures index.None? <==> member !in refs
    ensures index.Some? ==> index.value < |refs| && refs[index.value] == member && member !in refs[..index.value]
  {
    if refs == [] then None
    else if refs[0] == member then Some(0)
    else match Position(refs[1..], member)
         case None => None
         case Some(index) =>
           assert refs[..index + 1] == [refs[0]] + refs[1..][..index];
           Some(index + 1)
  }

  predicate SameTransition(left: PoolEvent, right: PoolEvent) {
    left.serverRef == right.serverRef && left.outcome == right.outcome
  }

  function Trimmed(log: seq<PoolEvent>): seq<PoolEvent> {
    if |log| > MAX_TRANSITIONS then log[|log| - MAX_TRANSITIONS..] else log
  }

  function Logged(log: seq<PoolEvent>, event: PoolEvent): seq<PoolEvent> {
    if log != [] && SameTransition(log[|log| - 1], event) then log else log + [event]
  }

  function CursorAfter(cursor: nat, refs: seq<string>, reference: Option<string>): nat {
    if reference.Some? && reference.value in refs
    then (Position(refs, reference.value).value + 1) % |refs|
    else cursor
  }

  function Delay(selected: bool): nat {
    if selected then 60 else 10
  }

  /** The next attempt's time, in the machine's 64 bits. */
  function NextAttempt(now: Time, selected: bool): Time {
    (now + Delay(selected)) % (U64_MAX + 1)
  }

  /** The next attempt is due a minute after a selection and ten seconds after a failure, exactly when that
      moment fits the clock; otherwise it wraps to a moment before now. */
  lemma NextAttemptIff(now: Time, selected: bool)
    ensures var due := now + if selected then 60 else 10;
            && (NextAttempt(now, selected) == due <==> due <= U64_MAX)
            && (due > U64_MAX ==> NextAttempt(now, selected) == due - U64_MAX - 1 < now)
  {
    if now + Delay(selected) > U64_MAX {
      assert now + Delay(selected) == (U64_MAX + 1) + (now + Delay(selected) - U64_MAX - 1);
    }
  }

  function Recorded(pool: Pool, refs: seq<string>, event: PoolEvent, selected: bool): Pool {
    Pool(
      CursorAfter(pool.cursor, refs, event.serverRef),
      Some(event),
      NextAttempt(event.timestamp, selected),
      if pool.transitions != [] && SameTransition(pool.transitions[|pool.transitions| - 1], event)
      then pool.transitions else Trimmed(pool.transitions + [event]))
  }

  class PoolRuntime {
    var cursor: nat
    var lastProbe: Option<PoolEvent>
    var nextAttempt: Time
    var transitions: seq<PoolEvent>

    function View(): Pool
      reads this
    {
      Pool(cursor, lastProbe, nextAttempt, transitions)
    }

    constructor ()
      ensures View() == Pool(0, None, 0, [])
    {
      cursor, lastProbe, nextAttempt, transitions := 0, None, 0, [];
    }

    /** The trimming loop. */
    method TrimLog()
      modifies this`transitions
      ensures transitions == Trimmed(old(transitions))
    {
      ghost var log := transitions;
      while |transitions| > MAX_TRANSITIONS
        invariant |transitions| <= |log| && transitions == log[|log| - |transitions|..]
        invariant |transitions| < |log| ==> |transitions| >= MAX_TRANSITIONS
      {
        transitions := transitions[1..];
      }
    }

    method Record(refs: seq<string>, reference: Option<string>, outcome: string, now: Time, selected: bool)
      modifies this
      ensures View() == Recorded(old(View()), refs, PoolEvent(now, reference, outcome), selected)
    {
      if reference.Some? {
        var index := Position(refs, reference.value);
        if index.Some? {
          cursor := (index.value + 1) % |refs|;
        }
      }
      var event := PoolEvent(now, reference, outcome);
      lastProbe := Some(event);
      nextAttempt := NextAttempt(now, selected);
      if transitions == [] || !SameTransition(transitions[|transitions| - 1], event) {
        transitions := transitions + [event];
        TrimLog();
      }
    }
  }

  // ------------------------------------------------------------- fairness

  function AfterRound(pool: Pool, refs: seq<string>, round: Round): Pool {
    Recorded(pool, refs, PoolEvent(round.now, Next(pool, refs, round), round.outcome), round.selected)
  }

  function AfterRounds(pool: Pool, refs: seq<string>, rounds: seq<Round>): Pool
    decreases |rounds|
  {
    if rounds == [] then pool
    else AfterRounds(AfterRound(pool, refs, rounds[0]), refs, rounds[1..])
  }

  /** The search finds the nearest eligible member; it fails only past the last one. */
  lemma {:induction false} NearestFrom(cursor: nat, refs: seq<string>, round: Round, offset: nat) returns (o: nat)
    requires offset <= |refs|
    ensures offset <= o <= |refs|
    ensures forall earlier | offset <= earlier < o :: !Eligible(round, MemberAt(cursor, refs, earlier))
    ensures var next := NextFrom(cursor, refs, round, offset);
            if o == |refs| then next == None
            else next == Some(MemberAt(cursor, refs, o)) && Eligible(round, MemberAt(cursor, refs, o))
    decreases |refs| - offset
  {
    if offset < |refs| && !Eligible(round, MemberAt(cursor, refs, offset)) {
      o := NearestFrom(cursor, refs, round, offset + 1);
    } else {
      o := offset;
    }
  }

  /** A round chooses nobody exactly when nobody is eligible, and otherwise an
      eligible member of the pool. */
  lemma NextIsNoneIff(pool: Pool, refs: seq<string>, round: Round)
    ensures var next := Next(pool, refs, round);
            && (next.None? <==> forall member | member in refs :: !Eligible(round, member))
            && (next.Some? ==> next.value in refs && Eligible(round, next.value))
  {
    var o := NearestFrom(pool.cursor, refs, round, 0);
    if o == |refs| {
      forall index | 0 <= index < |refs|
        ensures !Eligible(round, refs[index])
      {
        var offset := OffsetOf(pool.cursor, index, |refs|);
        assert !Eligible(round, MemberAt(pool.cursor, refs, offset));
      }
    }
  }

  /** Whom a round chooses, in terms of what it sees: of the members that are available and whose cooldown is
      over, the one that comes first when counting on from the cursor. */
  lemma NextIsFirstReady(pool: Pool, refs: seq<string>, round: Round) returns (offset: nat)
    ensures var next := Next(pool, refs, round);
            && offset <= |refs|
            && (next.Some? <==> offset < |refs|)
            && (next.Some? ==>
                  && next == Some(refs[(pool.cursor + offset) % |refs|])
                  && next.value in round.available
                  && (next.value !in round.cooldown || round.cooldown[next.value] <= round.now))
            && forall earlier | 0 <= earlier < offset ::
                 var member := refs[Slot(pool.cursor, earlier, |refs|)];
                 member !in round.available || (member in round.cooldown && round.now < round.cooldown[member])
  {
    offset := NearestFrom(pool.cursor, refs, round, 0);
    forall earlier | 0 <= earlier < offset
      ensures var member := refs[Slot(pool.cursor, earlier, |refs|)];
              member !in round.available || (member in round.cooldown && round.now < round.cooldown[member])
    {
      assert !Eligible(round, MemberAt(pool.cursor, refs, earlier));
    }
  }

  lemma MulBetween(n: int, x: int, y: int)
    requires n > 0 && n * x == y && -n < y < n
    ensures x == 0
  {
    assert x >= 1 ==> n * x >= n;
    assert x <= -1 ==> n * x <= -n;
  }

  lemma ModShift(a: nat, n: nat)
    requires n > 0
    ensures (a + n) % n == a % n
  {
    MulBetween(n, a / n + 1 - (a + n) / n, (a + n) % n - a % n);
  }

  /** The remainder by repeated subtraction, which keeps the cyclic arithmetic linear. */
  ghost function Mod(a: nat, n: nat): nat
    requires n > 0
  {
    if a < n then a else Mod(a - n, n)
  }

  lemma {:induction false} ModIsRemainder(a: nat, n: nat)
    requires n > 0
    ensures Mod(a, n) == a % n
    decreases a
  {
    if a >= n {
      ModIsRemainder(a - n, n);
      ModShift(a - n, n);
    }
  }

  lemma {:induction false} ModAdd(a: nat, b: nat, n: nat)
    requires n > 0
    ensures Mod(Mod(a, n) + b, n) == Mod(a + b, n)
    decreases a
  {
    if a >= n {
      ModAdd(a - n, b, n);
    }
  }

  lemma SlotIsMod(cursor: nat, offset: nat, n: nat)
    requires n > 0
    ensures Slot(cursor, offset, n) == Mod(cursor + offset, n)
  {
    ModIsRemainder(cursor + offset, n);
  }

  /** How far ahead of the cursor an index lies, counting cyclically. */
  lemma OffsetOf(cursor: nat, index: nat, n: nat) returns (offset: nat)
    requires index < n
    ensures offset < n && Slot(cursor, offset, n) == index
  {
    SlotIsMod(cursor, 0, n);
    var start := Slot(cursor, 0, n);
    offset := if index >= start then index - start else index - start + n;
    SlotIsMod(cursor, offset, n);
    ModAdd(cursor, offset, n);
    assert Mod(start + offset, n) == index;
  }

  /** Choosing somebody `o` places ahead brings a member `d` places ahead to `d - o - 1`. */
  lemma Closer(cursor: nat, o: nat, d: nat, n: nat)
    requires o < d < n
    ensures Slot((Slot(cursor, o, n) + 1) % n, d - o - 1, n) == Slot(cursor, d, n)
  {
    var slot := Slot(cursor, o, n);
    SlotIsMod(cursor, o, n);
    SlotIsMod(cursor, d, n);
    ModIsRemainder(slot + 1, n);
    SlotIsMod(Mod(slot + 1, n), d - o - 1, n);
    ModAdd(slot + 1, d - o - 1, n);
    ModAdd(cursor + o, d - o, n);
  }

  lemma {:induction false} ChosenWithin(pool: Pool, refs: seq<string>, rounds: seq<Round>, index: nat, distance: nat)
    returns (k: nat)
    requires forall i, j | 0 <= i < j < |refs| :: refs[i] != refs[j]
    requires index < |refs| && distance < |refs| && Slot(pool.cursor, distance, |refs|) == index
    requires distance < |rounds|
    requires forall round | round in rounds :: Eligible(round, refs[index])
    ensures k <= distance
    ensures Next(AfterRounds(pool, refs, rounds[..k]), refs, rounds[k]) == Some(refs[index])
    decreases distance
  {
    var round := rounds[0];
    var o := NearestFrom(pool.cursor, refs, round, 0);
    assert Eligible(round, MemberAt(pool.cursor, refs, distance));
    assert o <= distance;
    if o == distance {
      k := 0;
    } else {
      var chosen := MemberAt(pool.cursor, refs, o);
      Closer(pool.cursor, o, distance, |refs|);
      var next := AfterRound(pool, refs, round);
      assert Position(refs, chosen).value == Slot(pool.cursor, o, |refs|);
      k := ChosenWithin(next, refs, rounds[1..], index, distance - o - 1);
      k := k + 1;
      assert rounds[..k][1..] == rounds[1..][..k - 1];
    }
  }

  /** A member that stays available and off cooldown is chosen within one round
      per pool member, wherever the cursor starts and whatever the others do. */
  lemma PoolIsFair(pool: Pool, refs: seq<string>, rounds: seq<Round>, member: string)
    requires forall i, j | 0 <= i < j < |refs| :: refs[i] != refs[j]
    requires member in refs
    requires |rounds| == |refs|
    requires forall round | round in rounds :: Eligible(round, member)
    ensures exists k :: 0 <= k < |refs| && Next(AfterRounds(pool, refs, rounds[..k]), refs, rounds[k]) == Some(member)
  {
    var index :| 0 <= index < |refs| && refs[index] == member;
    var distance := OffsetOf(pool.cursor, index, |refs|);
    var k := ChosenWithin(pool, refs, rounds, index, distance);
  }

  // ------------------------------------------------------------ event log

  /** What a history of events and selections leaves. */
  function AfterEvents(pool: Pool, refs: seq<string>, events: seq<(PoolEvent, bool)>): Pool {
    if events == [] then pool
    else Recorded(AfterEvents(pool, refs, events[..|events| - 1]), refs, events[|events| - 1].0, events[|events| - 1].1)
  }

  /** The event names another server or another outcome than the one before it. */
  predicate IsChange(events: seq<(PoolEvent, bool)>, i: nat)
    requires i < |events|
  {
    i == 0 || events[i].0.serverRef != events[i - 1].0.serverRef || events[i].0.outcome != events[i - 1].0.outcome
  }

  /** The events of a history that are changes, in order. */
  function Changes(events: seq<(PoolEvent, bool)>, n: nat): seq<PoolEvent>
    requires n <= |events|
  {
    if n == 0 then [] else Changes(events, n - 1) + if IsChange(events, n - 1) then [events[n - 1].0] else []
  }

  predicate NoEqualNeighbours(log: seq<PoolEvent>) {
    forall i | 0 <= i < |log| - 1 :: log[i].serverRef != log[i + 1].serverRef || log[i].outcome != log[i + 1].outcome
  }

  lemma TrimLogged(log: seq<PoolEvent>, event: PoolEvent)
    ensures Trimmed(log) == [] <==> log == []
    ensures log != [] ==> Trimmed(log)[|Trimmed(log)| - 1] == log[|log| - 1]
    ensures Trimmed(Trimmed(log) + [event]) == Trimmed(log + [event])
  {
  }

  lemma RecordLogs(pool: Pool, refs: seq<string>, history: seq<PoolEvent>, event: PoolEvent, selected: bool)
    requires pool.transitions == Trimmed(history)
    ensures Recorded(pool, refs, event, selected).transitions == Trimmed(Logged(history, event))
  {
    TrimLogged(history, event);
  }

  /** The last change carries the transition of the last event, and changes differ from their neighbours. */
  lemma {:induction false} LastChange(events: seq<(PoolEvent, bool)>, n: nat)
    requires n <= |events|
    ensures NoEqualNeighbours(Changes(events, n))
    ensures n > 0 ==>
              var changes := Changes(events, n);
              && changes != []
              && changes[|changes| - 1].serverRef == events[n - 1].0.serverRef
              && changes[|changes| - 1].outcome == events[n - 1].0.outcome
  {
    if n > 0 {
      LastChange(events, n - 1);
    }
  }

  lemma {:induction false} ChangesOfPrefix(events: seq<(PoolEvent, bool)>, n: nat, m: nat)
    requires n <= m <= |events|
    ensures Changes(events[..m], n) == Changes(events, n)
  {
    if n > 0 {
      ChangesOfPrefix(events, n - 1, m);
    }
  }

  lemma LoggedIsChange(events: seq<(PoolEvent, bool)>, n: nat)
    requires 0 < n <= |events|
    ensures Changes(events, n) == Logged(Changes(events, n - 1), events[n - 1].0)
  {
    LastChange(events, n - 1);
    AddNothing(Changes(events, n - 1));
  }

  lemma AddNothing(log: seq<PoolEvent>)
    ensures log + [] == log
  {
  }

  lemma TrimmedNeighbours(log: seq<PoolEvent>)
    requires NoEqualNeighbours(log)
    ensures NoEqualNeighbours(Trimmed(log))
  {
  }

  lemma {:induction false} LogIsTrimmed(refs: seq<string>, events: seq<(PoolEvent, bool)>)
    ensures AfterEvents(Pool(0, None, 0, []), refs, events).transitions == Trimmed(Changes(events, |events|))
  {
    if events != [] {
      var before, last := events[..|events| - 1], events[|events| - 1];
      LogIsTrimmed(refs, before);
      ChangesOfPrefix(events, |before|, |before|);
      LoggedIsChange(events, |events|);
      RecordLogs(AfterEvents(Pool(0, None, 0, []), refs, before), refs, Changes(before, |before|), last.0, last.1);
    }
  }

  /** The log of a fresh runtime is exactly the last twenty changes of its history, so no two neighbours are
      equal. */
  lemma LogIsCollapsedHistory(refs: seq<string>, events: seq<(PoolEvent, bool)>)
    ensures var log, changes := AfterEvents(Pool(0, None, 0, []), refs, events).transitions, Changes(events, |events|);
            && log == (if |changes| <= 20 then changes else changes[|changes| - 20..])
            && NoEqualNeighbours(log)
  {
    LogIsTrimmed(refs, events);
    LastChange(events, |events|);
    TrimmedNeighbours(Changes(events, |events|));
  }

  /** The status shows the last event, and when the next attempt is due after it. */
  lemma StatusShowsLast(refs: seq<string>, events: seq<(PoolEvent, bool)>)
    requires events != []
    ensures var pool, last := AfterEvents(Pool(0, None, 0, []), refs, events), events[|events| - 1];
            var due := last.0.timestamp + if last.1 then 60 else 10;
            && pool.lastProbe == Some(last.0)
            && (due <= U64_MAX ==> pool.nextAttempt == due)
  {
    NextAttemptIff(events[|events| - 1].0.timestamp, events[|events| - 1].1);
  }

  /** The cursor stands behind the last event of a member, and an event of nobody or of a stranger leaves it. */
  lemma CursorStandsBehind(pool: Pool, refs: seq<string>, event: PoolEvent, selected: bool, index: nat)
    requires forall i, j | 0 <= i < j < |refs| :: refs[i] != refs[j]
    requires index < |refs|
    ensures event.serverRef == Some(refs[index]) ==>
              Recorded(pool, refs, event, selected).cursor == if index + 1 < |refs| then index + 1 else 0
    ensures event.serverRef.None? || event.serverRef.value !in refs ==>
              Recorded(pool, refs, event, selected).cursor == pool.cursor
  {
    if event.serverRef == Some(refs[index]) {
      var position := Position(refs, refs[index]).value;
      assert position == index;
      Wraps(index + 1, |refs|);
    }
  }

  lemma Wraps(slot: nat, n: nat)
    requires 0 < slot <= n
    ensures slot % n == if slot < n then slot else 0
  {
  }
}

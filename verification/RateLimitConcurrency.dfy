/** `Allow` under concurrent callers: every goroutine takes the lock, reads the clock, sweeps one
    entry at a time in any order, decides and unlocks, interleaved with everybody else's steps and
    with the clock. Every interleaving answers as some sequential history does, in lock order. */
module RateLimitConcurrency {
  import opened Wrappers
  import opened RateLimit
  import H = RateLimitHistory

  datatype Phase =
    | Waiting                                    // called, lock not held
    | Locked                                     // lock held, clock not read
    | Sweeping(now: int, pending: set<string>)   // lock held, entries still to look at
    | Decided(answer: bool)                      // lock held, unlock deferred
    | Done(answer: bool)

  datatype Goroutine = Goroutine(key: string, phase: Phase)

  datatype Entry = Entry(id: nat, call: Call, ok: bool)

  /** `log` and `acquired` only record what happened: decisions as they fall, and the lock order. */
  datatype State = State(clock: int, holder: Option<nat>, seen: Table, running: map<nat, Goroutine>,
                         log: seq<Entry>, acquired: seq<nat>)

  datatype Event =
    | Tick(clock: int)
    | Invoke(id: nat, key: string)
    | Bypass(id: nat)
    | Acquire(id: nat)
    | ReadClock(id: nat)
    | Inspect(id: nat, key: string)
    | Decide(id: nat)
    | Release(id: nat)

  const INITIAL := State(0, None, map[], map[], [], [])

  predicate Waits(st: State, id: nat) {
    id in st.running && st.running[id].phase.Waiting?
  }

  predicate Sweeps(st: State, id: nat) {
    id in st.running && st.running[id].phase.Sweeping?
  }

  predicate Settled(st: State, id: nat) {
    id in st.running && (st.running[id].phase.Decided? || st.running[id].phase.Done?)
  }

  function Move(st: State, id: nat, phase: Phase): State
    requires id in st.running
  {
    st.(running := st.running[id := st.running[id].(phase := phase)])
  }

  /** One step of one goroutine, or of the clock; None when the step is not enabled. */
  function Fire(s: Settings, st: State, e: Event): Option<State> {
    match e
    case Tick(clock) =>
      if st.clock <= clock then Some(st.(clock := clock)) else None
    case Invoke(id, key) =>
      if id in st.running then None
      else Some(st.(running := st.running[id := Goroutine(key, Waiting)]))
    case Bypass(id) =>
      if s.limit <= 0 && Waits(st, id) then Some(Move(st, id, Done(true))) else None
    case Acquire(id) =>
      if s.limit > 0 && Waits(st, id) && st.holder.None?
      then Some(Move(st, id, Locked).(holder := Some(id), acquired := st.acquired + [id]))
      else None
    case ReadClock(id) =>
      if id in st.running && st.running[id].phase.Locked?
      then Some(Move(st, id, Sweeping(st.clock, st.seen.Keys)))
      else None
    case Inspect(id, key) =>
      if Sweeps(st, id) && key in st.running[id].phase.pending
      then
        var phase := st.running[id].phase;
        var expired := key in st.seen && phase.now > st.seen[key].reset;
        Some(Move(st, id, phase.(pending := phase.pending - {key}))
             .(seen := if expired then st.seen - {key} else st.seen))
      else None
    case Decide(id) =>
      if Sweeps(st, id) && st.running[id].phase.pending == {}
      then
        var g := st.running[id];
        var v := Judge(s, Lookup(st.seen, g.key), g.phase.now);
        Some(Move(st, id, Decided(v.ok))
             .(seen := if v.ok then st.seen[g.key := v.slot] else st.seen,
               log := st.log + [Entry(id, Call(g.key, g.phase.now), v.ok)]))
      else None
    case Release(id) =>
      if id in st.running && st.running[id].phase.Decided?
      then Some(Move(st, id, Done(st.running[id].phase.answer)).(holder := None))
      else None
  }

  function AfterFrom(s: Settings, st: State, events: seq<Event>): Option<State> {
    if events == [] then Some(st)
    else
      var before := AfterFrom(s, st, events[..|events| - 1]);
      if before.None? then None else Fire(s, before.value, events[|events| - 1])
  }

  /** The state one interleaving leads to from the start, if all its steps are enabled. */
  function After(s: Settings, events: seq<Event>): Option<State> {
    AfterFrom(s, INITIAL, events)
  }

  // ---- the sequential history a log spells out ----

  function Calls(log: seq<Entry>): (calls: seq<Call>)
    ensures |calls| == |log| && forall i :: 0 <= i < |log| ==> calls[i] == log[i].call
  {
    seq(|log|, i requires 0 <= i < |log| => log[i].call)
  }

  function Answers(log: seq<Entry>): (answers: seq<bool>)
    ensures |answers| == |log| && forall i :: 0 <= i < |log| ==> answers[i] == log[i].ok
  {
    seq(|log|, i requires 0 <= i < |log| => log[i].ok)
  }

  function Ids(log: seq<Entry>): (ids: seq<nat>)
    ensures |ids| == |log| && forall i :: 0 <= i < |log| ==> ids[i] == log[i].id
  {
    seq(|log|, i requires 0 <= i < |log| => log[i].id)
  }

  /** The log is a sequential run of the limiter under a clock that never ran backwards. */
  ghost predicate Sequential(s: Settings, st: State) {
    && Monotone(Calls(st.log))
    && Answers(st.log) == Decisions(s, Calls(st.log))
    && (st.log != [] ==> st.log[|st.log| - 1].call.now <= st.clock)
  }

  /** What the table is while the lock is held, and free. */
  ghost predicate TableMatches(s: Settings, st: State) {
    TableIs(st, TableAfter(s, Calls(st.log)))
  }

  /** The same, for the table `t` the sequential run has reached. */
  ghost predicate TableIs(st: State, t: Table) {
    match st.holder
    case None => st.seen == t
    case Some(id) =>
      id in st.running &&
      match st.running[id].phase
      case Locked => st.seen == t
      case Decided(_) => st.seen == t
      case Sweeping(now, pending) =>
        && now <= st.clock
        && (st.log != [] ==> st.log[|st.log| - 1].call.now <= now)
        && pending <= st.seen.Keys
        && st.seen == map k | k in t && (k in pending || !(now > t[k].reset)) :: t[k]
      case _ => false
  }

  /** Only the holder is inside the critical section, and locks are taken in log order. */
  ghost predicate Exclusive(s: Settings, st: State) {
    && (forall id :: id in st.running && st.holder != Some(id) ==>
          st.running[id].phase.Waiting? || st.running[id].phase.Done?)
    && st.acquired == Ids(st.log) +
         (if st.holder.Some? && !Settled(st, st.holder.value) then [st.holder.value] else [])
    && (s.limit <= 0 ==> st.holder.None? && st.log == [])
  }

  ghost predicate Logged(log: seq<Entry>, id: nat, key: string, ok: bool) {
    exists i :: 0 <= i < |log| && log[i].id == id && log[i].call.key == key && log[i].ok == ok
  }

  /** Every call is decided at most once, and the answer it returns is the one in the log. */
  ghost predicate AnsweredOnce(s: Settings, st: State) {
    && (forall i, j :: 0 <= i < j < |st.log| ==> st.log[i].id != st.log[j].id)
    && (forall i :: 0 <= i < |st.log| ==> Settled(st, st.log[i].id))
    && (s.limit > 0 ==>
          forall id :: Settled(st, id) ==>
            Logged(st.log, id, st.running[id].key, st.running[id].phase.answer))
    && (s.limit <= 0 ==> forall id :: id in st.running && st.running[id].phase.Done? ==> st.running[id].phase.answer)
  }

  ghost predicate Inv(s: Settings, st: State) {
    Sequential(s, st) && TableMatches(s, st) && Exclusive(s, st) && AnsweredOnce(s, st)
  }

  lemma CallsSnoc(log: seq<Entry>, e: Entry)
    ensures Calls(log + [e]) == Calls(log) + [e.call]
    ensures Answers(log + [e]) == Answers(log) + [e.ok]
    ensures Ids(log + [e]) == Ids(log) + [e.id]
  {
  }

  /** Once nothing is left to inspect, the table is the swept one, so the decision is the
      sequential limiter's. */
  lemma DecideIsSequential(s: Settings, st: State, id: nat)
    requires Inv(s, st) && Fire(s, st, Decide(id)).Some?
    ensures var g := st.running[id];
            var c := Call(g.key, g.phase.now);
            var next := Fire(s, st, Decide(id)).value;
            && s.limit > 0 && st.holder == Some(id)
            && Judge(s, Lookup(st.seen, g.key), g.phase.now).ok == Admits(s, TableAfter(s, Calls(st.log)), c)
            && next.seen == Step(s, TableAfter(s, Calls(st.log)), c)
  {
    var g := st.running[id];
    assert st.seen == Sweep(TableAfter(s, Calls(st.log)), g.phase.now);
  }

  lemma DecideKeepsHistory(s: Settings, st: State, id: nat)
    requires Inv(s, st) && Fire(s, st, Decide(id)).Some?
    ensures Sequential(s, Fire(s, st, Decide(id)).value)
    ensures TableMatches(s, Fire(s, st, Decide(id)).value)
  {
    var next := Fire(s, st, Decide(id)).value;
    var e := next.log[|st.log|];
    DecideAppends(s, st, id, e);
    LogSnoc(s, st, e.call, e);
    assert next.log == st.log + [e];
    DecidedTable(next, id, TableAfter(s, Calls(st.log + [e])));
  }

  /** What a decision writes to the log is the caller's call, at the clock read under the lock, decided as
      the sequential limiter would. */
  lemma DecideAppends(s: Settings, st: State, id: nat, e: Entry)
    requires Inv(s, st) && Fire(s, st, Decide(id)).Some?
    requires e == Fire(s, st, Decide(id)).value.log[|st.log|]
    ensures var next := Fire(s, st, Decide(id)).value;
            && next.log == st.log + [e] && next.clock == st.clock && next.holder == Some(id)
            && id in next.running && next.running[id].phase.Decided?
            && next.seen == Step(s, TableAfter(s, Calls(st.log)), e.call)
            && e.ok == Admits(s, TableAfter(s, Calls(st.log)), e.call)
            && e.call.now <= st.clock && (st.log != [] ==> st.log[|st.log| - 1].call.now <= e.call.now)
  {
    DecideIsSequential(s, st, id);
  }

  lemma DecidedTable(next: State, id: nat, t: Table)
    requires next.holder == Some(id) && id in next.running && next.running[id].phase.Decided? && next.seen == t
    ensures TableIs(next, t)
  {
  }

  /** The log stays a sequential run when it grows by a call decided as the limiter would. */
  lemma LogSnoc(s: Settings, st: State, c: Call, e: Entry)
    requires Sequential(s, st) && e.call == c && e.ok == Admits(s, TableAfter(s, Calls(st.log)), c)
    requires c.now <= st.clock && (st.log != [] ==> st.log[|st.log| - 1].call.now <= c.now)
    ensures Sequential(s, st.(log := st.log + [e]))
    ensures TableAfter(s, Calls(st.log + [e])) == Step(s, TableAfter(s, Calls(st.log)), c)
  {
    CallsSnoc(st.log, e);
    HistorySnoc(s, Calls(st.log), c);
    H.MonotoneSnoc(Calls(st.log), c);
  }

  lemma DecideKeepsLock(s: Settings, st: State, id: nat)
    requires Exclusive(s, st) && TableMatches(s, st) && Fire(s, st, Decide(id)).Some?
    ensures Exclusive(s, Fire(s, st, Decide(id)).value)
  {
    var g := st.running[id];
    CallsSnoc(st.log, Entry(id, Call(g.key, g.phase.now), Judge(s, Lookup(st.seen, g.key), g.phase.now).ok));
    assert st.holder == Some(id);
  }

  lemma LoggedGrows(log: seq<Entry>, e: Entry, id: nat, key: string, ok: bool)
    requires Logged(log, id, key, ok)
    ensures Logged(log + [e], id, key, ok)
  {
    var i :| 0 <= i < |log| && log[i].id == id && log[i].call.key == key && log[i].ok == ok;
    assert (log + [e])[i] == log[i];
  }

  lemma DecideAnswersOnce(s: Settings, st: State, id: nat)
    requires Exclusive(s, st) && AnsweredOnce(s, st) && Fire(s, st, Decide(id)).Some?
    ensures AnsweredOnce(s, Fire(s, st, Decide(id)).value)
  {
    var next := Fire(s, st, Decide(id)).value;
    var e := next.log[|st.log|];
    assert next.log == st.log + [e];
    assert st.holder == Some(id);
    forall other | Settled(next, other)
      ensures Logged(next.log, other, next.running[other].key, next.running[other].phase.answer)
    {
      if other != id {
        assert Settled(st, other);
        LoggedGrows(st.log, e, other, st.running[other].key, st.running[other].phase.answer);
      }
    }
  }

  lemma SequentialStays(s: Settings, st: State, e: Event)
    requires Sequential(s, st) && Fire(s, st, e).Some? && !e.Decide?
    ensures Sequential(s, Fire(s, st, e).value)
  {
    assert Fire(s, st, e).value.log == st.log;
  }

  lemma TableStays(s: Settings, st: State, e: Event)
    requires TableMatches(s, st) && Exclusive(s, st) && Sequential(s, st) && Fire(s, st, e).Some? && !e.Decide?
    ensures TableMatches(s, Fire(s, st, e).value)
  {
    var t := TableAfter(s, Calls(st.log));
    assert Fire(s, st, e).value.log == st.log;
    match e
    case Inspect(id, key) => InspectKeepsTable(s, st, id, key, t);
    case ReadClock(id) => ReadClockKeepsTable(s, st, id, t);
    case _ => OthersKeepTable(s, st, e, t);
  }

  lemma ReadClockKeepsTable(s: Settings, st: State, id: nat, t: Table)
    requires TableIs(st, t) && Exclusive(s, st) && Sequential(s, st) && Fire(s, st, ReadClock(id)).Some?
    ensures TableIs(Fire(s, st, ReadClock(id)).value, t)
  {
    assert st.holder == Some(id);
  }

  lemma OthersKeepTable(s: Settings, st: State, e: Event, t: Table)
    requires TableIs(st, t) && Exclusive(s, st) && Fire(s, st, e).Some?
    requires !e.Decide? && !e.Inspect? && !e.ReadClock?
    ensures TableIs(Fire(s, st, e).value, t)
  {
  }

  lemma InspectKeepsTable(s: Settings, st: State, id: nat, key: string, t: Table)
    requires TableIs(st, t) && Exclusive(s, st) && Fire(s, st, Inspect(id, key)).Some?
    ensures TableIs(Fire(s, st, Inspect(id, key)).value, t)
  {
    assert st.holder == Some(id);
  }

  lemma LockStays(s: Settings, st: State, e: Event)
    requires TableMatches(s, st) && Exclusive(s, st) && Fire(s, st, e).Some? && !e.Decide?
    ensures Exclusive(s, Fire(s, st, e).value)
  {
    assert Fire(s, st, e).value.log == st.log;
  }

  lemma AnswersStay(s: Settings, st: State, e: Event)
    requires AnsweredOnce(s, st) && Exclusive(s, st) && Fire(s, st, e).Some? && !e.Decide?
    ensures AnsweredOnce(s, Fire(s, st, e).value)
  {
    SettledStays(s, st, e);
    AnsweredAfter(s, st, Fire(s, st, e).value);
  }

  /** No step but a decision settles a call while the limiter is on, or changes an answer. */
  ghost predicate SameAnswers(s: Settings, st: State, next: State) {
    && next.log == st.log
    && (forall id :: Settled(st, id) ==> Settled(next, id))
    && (s.limit > 0 ==> forall id :: Settled(next, id) ==>
          Settled(st, id) && next.running[id].key == st.running[id].key
          && next.running[id].phase.answer == st.running[id].phase.answer)
    && (s.limit <= 0 ==> forall id :: id in next.running && next.running[id].phase.Done? ==>
          next.running[id].phase.answer || (id in st.running && st.running[id].phase == next.running[id].phase))
  }

  lemma SettledStays(s: Settings, st: State, e: Event)
    requires Exclusive(s, st) && Fire(s, st, e).Some? && !e.Decide?
    ensures SameAnswers(s, st, Fire(s, st, e).value)
  {
  }

  lemma AnsweredAfter(s: Settings, st: State, next: State)
    requires AnsweredOnce(s, st) && SameAnswers(s, st, next)
    ensures AnsweredOnce(s, next)
  {
  }

  lemma FirePreserves(s: Settings, st: State, e: Event)
    requires Inv(s, st) && Fire(s, st, e).Some?
    ensures Inv(s, Fire(s, st, e).value)
  {
    if e.Decide? {
      DecideKeepsHistory(s, st, e.id);
      DecideKeepsLock(s, st, e.id);
      DecideAnswersOnce(s, st, e.id);
    } else {
      SequentialStays(s, st, e);
      TableStays(s, st, e);
      LockStays(s, st, e);
      AnswersStay(s, st, e);
    }
  }

  // ---- every interleaving ----

  lemma Reachable(s: Settings, events: seq<Event>)
    requires After(s, events).Some?
    ensures Inv(s, After(s, events).value)
  {
    InitialIsFine(s);
    InvStays(s, INITIAL, events);
  }

  lemma InitialIsFine(s: Settings)
    ensures Inv(s, INITIAL)
  {
  }

  /** Whatever the interleaving, the decisions are those of a sequential run in the order the lock
      was taken, under a clock that never ran backwards, and the free table is that run's. */
  lemma Serializable(s: Settings, events: seq<Event>)
    requires After(s, events).Some?
    ensures var st := After(s, events).value;
            && Monotone(Calls(st.log))
            && Answers(st.log) == Decisions(s, Calls(st.log))
            && Ids(st.log) <= st.acquired
            && (st.holder.None? ==> Ids(st.log) == st.acquired && st.seen == TableAfter(s, Calls(st.log)))
  {
    Reachable(s, events);
  }

  /** A finished call returned the one decision the log holds for it. */
  lemma FinishedCallsAreLogged(s: Settings, events: seq<Event>, id: nat)
    requires After(s, events).Some?
    requires var st := After(s, events).value; id in st.running && st.running[id].phase.Done?
    ensures var st := After(s, events).value;
            var g := st.running[id];
            if s.limit <= 0 then g.phase.answer
            else exists i :: 0 <= i < |st.log|
                   && st.log[i] == Entry(id, Call(g.key, st.log[i].call.now), g.phase.answer)
                             && forall j :: 0 <= j < |st.log| && st.log[j].id == id ==> j == i
  {
    Reachable(s, events);
    var st := After(s, events).value;
    if s.limit > 0 {
      var g := st.running[id];
      assert Settled(st, id);
      var i :| 0 <= i < |st.log| && st.log[i].id == id && st.log[i].call.key == g.key && st.log[i].ok == g.phase.answer;
      assert st.log[i] == Entry(id, Call(g.key, st.log[i].call.now), g.phase.answer);
    }
  }

  lemma {:induction false} LogOnlyGrows(s: Settings, events: seq<Event>, more: seq<Event>)
    requires After(s, events + more).Some?
    ensures After(s, events).Some? && After(s, events).value.log <= After(s, events + more).value.log
  {
    if more == [] {
      assert events + more == events;
    } else {
      var most := events + more[..|more| - 1];
      assert (events + more)[..|events + more| - 1] == most;
      LogOnlyGrows(s, events, more[..|more| - 1]);
    }
  }

  lemma PrefixOrder(s: Settings, st: State, end: State, early: nat, late: nat, i: nat, j: nat)
    requires s.limit > 0 && AnsweredOnce(s, st) && AnsweredOnce(s, end) && st.log <= end.log
    requires Settled(st, early) && late !in st.running
    requires i < |end.log| && end.log[i].id == early
    requires j < |end.log| && end.log[j].id == late
    ensures i < |st.log| <= j
  {
    var k :| 0 <= k < |st.log| && st.log[k].id == early;
    assert end.log[k] == st.log[k];
  }

  /** The order respects real time: a call that returned before another one was made is ahead of it. */
  lemma RealTimeOrder(s: Settings, events: seq<Event>, more: seq<Event>, early: nat, late: nat, i: nat, j: nat)
    requires s.limit > 0 && After(s, events + more).Some? && After(s, events).Some?
    requires var st := After(s, events).value;
             early in st.running && st.running[early].phase.Done? && late !in st.running
    requires var log := After(s, events + more).value.log;
             i < |log| && log[i].id == early && j < |log| && log[j].id == late
    ensures i < j
  {
    LogOnlyGrows(s, events, more);
    Reachable(s, events);
    Reachable(s, events + more);
    PrefixOrder(s, After(s, events).value, After(s, events + more).value, early, late, i, j);
  }

  lemma ThenFire(s: Settings, st: State, events: seq<Event>, e: Event)
    requires AfterFrom(s, st, events).Some?
    ensures AfterFrom(s, st, events + [e]) == Fire(s, AfterFrom(s, st, events).value, e)
  {
    assert (events + [e])[..|events + [e]| - 1] == events;
  }

  lemma {:induction false} ThenAll(s: Settings, st: State, events: seq<Event>, more: seq<Event>)
    requires AfterFrom(s, st, events).Some?
    ensures AfterFrom(s, st, events + more) == AfterFrom(s, AfterFrom(s, st, events).value, more)
  {
    if more == [] {
      assert events + more == events;
    } else {
      var n := |more| - 1;
      assert (events + more)[..|events + more| - 1] == events + more[..n];
      ThenAll(s, st, events, more[..n]);
    }
  }

  lemma StepFirst(s: Settings, st: State, e: Event, events: seq<Event>)
    requires Fire(s, st, e).Some?
    ensures AfterFrom(s, st, [e] + events) == AfterFrom(s, Fire(s, st, e).value, events)
  {
    ThenFire(s, st, [], e);
    assert [] + [e] == [e];
    ThenAll(s, st, [e], events);
  }

  /** Only this goroutine moved, and the clock stood still. */
  ghost predicate Alone(a: State, b: State, id: nat) {
    && b.clock == a.clock
    && forall other :: other in a.running && other != id ==> other in b.running && b.running[other] == a.running[other]
  }

  /** The sweep ends, whatever it finds. */
  lemma {:induction false} SweepFinishes(s: Settings, st: State, id: nat) returns (events: seq<Event>)
    requires Sweeps(st, id)
    ensures AfterFrom(s, st, events).Some?
    ensures var end := AfterFrom(s, st, events).value;
            && Sweeps(end, id) && end.log == st.log && Alone(st, end, id)
            && end.running[id] == st.running[id].(phase := Sweeping(st.running[id].phase.now, {}))
    decreases st.running[id].phase.pending
  {
    if st.running[id].phase.pending == {} {
      events := [];
    } else {
      var key :| key in st.running[id].phase.pending;
      events := SweepFinishes(s, Fire(s, st, Inspect(id, key)).value, id);
      StepFirst(s, st, Inspect(id, key), events);
      events := [Inspect(id, key)] + events;
    }
  }

  /** What a goroutine's last steps leave: the lock free, the call answered and logged. */
  ghost predicate Answered(s: Settings, st: State, end: State, id: nat, now: int) {
    && end.holder.None? && Alone(st, end, id) && id in end.running && id in st.running
    && var call := Call(st.running[id].key, now);
       var ok := Admits(s, TableAfter(s, Calls(st.log)), call);
       end.log == st.log + [Entry(id, call, ok)] && end.running[id].phase == Done(ok)
  }

  lemma AnsweredFromEarlier(s: Settings, st: State, next: State, end: State, id: nat, now: int)
    requires Answered(s, next, end, id, now) && Alone(st, next, id) && next.log == st.log
    requires id in st.running && next.running[id].key == st.running[id].key
    ensures Answered(s, st, end, id, now)
  {
  }

  lemma DecideThenRelease(s: Settings, st: State, id: nat) returns (end: State)
    requires Inv(s, st) && Sweeps(st, id) && st.running[id].phase.pending == {}
    ensures Fire(s, st, Decide(id)).Some? && Fire(s, Fire(s, st, Decide(id)).value, Release(id)) == Some(end)
    ensures Answered(s, st, end, id, st.running[id].phase.now)
  {
    DecideIsSequential(s, st, id);
    end := Fire(s, Fire(s, st, Decide(id)).value, Release(id)).value;
  }

  /** From anywhere in its sweep, a goroutine can run to its answer. */
  lemma SweepToAnswer(s: Settings, st: State, id: nat) returns (events: seq<Event>)
    requires Inv(s, st) && Sweeps(st, id)
    ensures AfterFrom(s, st, events).Some?
    ensures Answered(s, st, AfterFrom(s, st, events).value, id, st.running[id].phase.now)
  {
    events := SweepFinishes(s, st, id);
    InvStays(s, st, events);
    var end := DecideThenRelease(s, AfterFrom(s, st, events).value, id);
    ThenFire(s, st, events, Decide(id));
    ThenFire(s, st, events + [Decide(id)], Release(id));
    events := events + [Decide(id)] + [Release(id)];
  }

  /** A step that only moves this goroutine's phase on. */
  ghost predicate Moves(s: Settings, st: State, next: State, e: Event, id: nat, phase: Phase) {
    && Fire(s, st, e) == Some(next) && Alone(st, next, id) && next.log == st.log
    && id in st.running && id in next.running && next.running[id] == st.running[id].(phase := phase)
  }

  lemma ReadsClock(s: Settings, st: State, id: nat) returns (next: State, keys: set<string>)
    requires id in st.running && st.running[id].phase.Locked?
    ensures Moves(s, st, next, ReadClock(id), id, Sweeping(st.clock, keys))
  {
    next, keys := Fire(s, st, ReadClock(id)).value, st.seen.Keys;
  }

  lemma Acquires(s: Settings, st: State, id: nat) returns (next: State)
    requires s.limit > 0 && st.holder.None? && Waits(st, id)
    ensures Moves(s, st, next, Acquire(id), id, Locked)
  {
    next := Fire(s, st, Acquire(id)).value;
  }

  /** And so from the moment it has the lock. */
  lemma LockedToAnswer(s: Settings, st: State, id: nat) returns (events: seq<Event>)
    requires Inv(s, st) && id in st.running && st.running[id].phase.Locked?
    ensures AfterFrom(s, st, events).Some?
    ensures Answered(s, st, AfterFrom(s, st, events).value, id, st.clock)
  {
    var next, _ := ReadsClock(s, st, id);
    FirePreserves(s, st, ReadClock(id));
    events := SweepToAnswer(s, next, id);
    AnsweredFromEarlier(s, st, next, AfterFrom(s, next, events).value, id, st.clock);
    StepFirst(s, st, ReadClock(id), events);
    events := [ReadClock(id)] + events;
  }

  /** Whoever holds the lock can always finish and give it up, moving nobody else. */
  lemma HolderCanFinish(s: Settings, st: State, id: nat) returns (events: seq<Event>)
    requires Inv(s, st) && st.holder == Some(id)
    ensures AfterFrom(s, st, events).Some?
    ensures var end := AfterFrom(s, st, events).value;
            end.holder.None? && Alone(st, end, id) && id in end.running && end.running[id].phase.Done?
  {
    match st.running[id].phase
    case Locked => events := LockedToAnswer(s, st, id);
    case Sweeping(_, _) => events := SweepToAnswer(s, st, id);
    case Decided(_) =>
      StepFirst(s, st, Release(id), []);
      events := [Release(id)] + [];
  }

  /** With the lock free, a waiting call can take it and run to its answer. */
  lemma FreeLockCanBeUsed(s: Settings, st: State, id: nat) returns (events: seq<Event>)
    requires s.limit > 0 && Inv(s, st) && st.holder.None? && Waits(st, id)
    ensures AfterFrom(s, st, events).Some?
    ensures Answered(s, st, AfterFrom(s, st, events).value, id, st.clock)
  {
    var next := Acquires(s, st, id);
    FirePreserves(s, st, Acquire(id));
    events := LockedToAnswer(s, next, id);
    AnsweredFromEarlier(s, st, next, AfterFrom(s, next, events).value, id, st.clock);
    StepFirst(s, st, Acquire(id), events);
    events := [Acquire(id)] + events;
  }

  /** A waiting call can run to its answer whoever holds the lock; nothing else is decided after it, and
      the answer is the sequential limiter's at the clock as it stands. */
  lemma WaitingCallsCanFinish(s: Settings, st: State, id: nat) returns (events: seq<Event>)
    requires s.limit > 0 && Inv(s, st) && Waits(st, id)
    ensures AfterFrom(s, st, events).Some?
    ensures var end := AfterFrom(s, st, events).value;
            && id in end.running && end.running[id].phase.Done? && end.log != []
            && end.log[|end.log| - 1] == Entry(id, Call(st.running[id].key, st.clock), end.running[id].phase.answer)
  {
    if st.holder.None? {
      events := FreeLockCanBeUsed(s, st, id);
    } else {
      var first := HolderCanFinish(s, st, st.holder.value);
      var free := AfterFrom(s, st, first).value;
      InvStays(s, st, first);
      assert st.holder != Some(id);
      events := FreeLockCanBeUsed(s, free, id);
      ThenAll(s, st, first, events);
      events := first + events;
    }
  }

  lemma Finishes(s: Settings, st: State, id: nat) returns (events: seq<Event>)
    requires Inv(s, st) && id in st.running
    ensures AfterFrom(s, st, events).Some?
    ensures id in AfterFrom(s, st, events).value.running
    ensures AfterFrom(s, st, events).value.running[id].phase.Done?
  {
    if st.running[id].phase.Done? {
      events := [];
    } else if st.holder == Some(id) {
      events := HolderCanFinish(s, st, id);
    } else if s.limit > 0 {
      events := WaitingCallsCanFinish(s, st, id);
    } else {
      StepFirst(s, st, Bypass(id), []);
      events := [Bypass(id)] + [];
    }
  }

  /** Nobody is ever stuck: after any interleaving, any call that was made can still return, and what it
      returns is what the sequential run decides. */
  lemma EveryCallCanFinish(s: Settings, events: seq<Event>, id: nat) returns (more: seq<Event>)
    requires After(s, events).Some? && id in After(s, events).value.running
    ensures After(s, events + more).Some?
    ensures var end := After(s, events + more).value;
            && id in end.running && end.running[id].phase.Done?
            && Answers(end.log) == Decisions(s, Calls(end.log))
            && (s.limit > 0 ==> Logged(end.log, id, end.running[id].key, end.running[id].phase.answer))
  {
    Reachable(s, events);
    more := Finishes(s, After(s, events).value, id);
    ThenAll(s, INITIAL, events, more);
    Reachable(s, events + more);
    assert Settled(After(s, events + more).value, id);
  }

  lemma {:induction false} InvStays(s: Settings, st: State, events: seq<Event>)
    requires Inv(s, st) && AfterFrom(s, st, events).Some?
    ensures Inv(s, AfterFrom(s, st, events).value)
  {
    if events != [] {
      InvStays(s, st, events[..|events| - 1]);
      FirePreserves(s, AfterFrom(s, st, events[..|events| - 1]).value, events[|events| - 1]);
    }
  }

  /** Grants to `key` whose clock reading lies in [from, to], counted straight off the log. */
  function GrantsIn(log: seq<Entry>, key: string, from: int, to: int): nat {
    if log == [] then 0
    else
      var e := log[|log| - 1];
      GrantsIn(log[..|log| - 1], key, from, to)
      + (if e.ok && e.call.key == key && from <= e.call.now <= to then 1 else 0)
  }

  lemma {:induction false} GrantsAreAdmissions(s: Settings, log: seq<Entry>, key: string, from: int, to: int)
    requires Answers(log) == Decisions(s, Calls(log))
    ensures GrantsIn(log, key, from, to) == H.AdmittedIn(s, Calls(log), key, from, to)
  {
    if log != [] {
      var front, e := log[..|log| - 1], log[|log| - 1];
      assert log == front + [e];
      CallsSnoc(front, e);
      AdmittedSnoc(s, Calls(front), e.call, key, from, to);
      assert Answers(log)[|front|] == e.ok;
      assert Answers(front) == Answers(log)[..|front|] == Decisions(s, Calls(front));
      GrantsAreAdmissions(s, front, key, from, to);
    }
  }

  lemma AdmittedSnoc(s: Settings, calls: seq<Call>, c: Call, key: string, from: int, to: int)
    ensures Decisions(s, calls + [c]) == Decisions(s, calls) + [LastAdmitted(s, calls + [c])]
    ensures H.AdmittedIn(s, calls + [c], key, from, to) ==
            H.AdmittedIn(s, calls, key, from, to)
            + (if LastAdmitted(s, calls + [c]) && c.key == key && from <= c.now <= to then 1 else 0)
  {
    HistorySnoc(s, calls, c);
    FrontOfSnoc(calls, c);
  }

  /** So the interval bound holds for the concurrent service too. */
  lemma ConcurrentIntervalBound(s: Settings, events: seq<Event>, key: string, from: int, k: nat)
    requires s.limit > 0 && s.period >= 0 && After(s, events).Some?
    ensures GrantsIn(After(s, events).value.log, key, from, from + k * s.period)
            <= if k == 0 then s.limit else (k + 1) * s.limit - 1
  {
    var log := After(s, events).value.log;
    Serializable(s, events);
    GrantsAreAdmissions(s, log, key, from, from + k * s.period);
    H.IntervalBound(s, Calls(log), key, from, k);
  }
}

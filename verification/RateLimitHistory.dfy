/** What the limiter guarantees over whole histories: the table is an optimisation of a function of
    each caller's own requests, and that function bounds every interval of time. */
module RateLimitHistory {
  import opened Wrappers
  import opened RateLimit

  // ---- the table against the caller's own history ----

  /** A caller's latest window, computed from the history with nothing ever evicted. */
  function WindowOf(s: Settings, calls: seq<Call>, key: string): Option<Slot> {
    if calls == [] then None
    else
      var before := WindowOf(s, Front(calls), key);
      if Last(calls).key != key then before
      else Some(Judge(s, before, Last(calls).now).slot)
  }

  function Own(calls: seq<Call>, key: string): (own: seq<Call>)
    ensures forall c :: c in own ==> c.key == key
  {
    if calls == [] then []
    else Own(Front(calls), key) + (if Last(calls).key == key then [Last(calls)] else [])
  }

  /** The decision a caller's own history calls for. */
  predicate Deserves(s: Settings, own: seq<Call>, c: Call) {
    s.limit <= 0 || Judge(s, WindowOf(s, own, c.key), c.now).ok
  }

  lemma {:induction false} WindowIsOwn(s: Settings, calls: seq<Call>, key: string)
    ensures WindowOf(s, Own(calls, key), key) == WindowOf(s, calls, key)
  {
    if calls != [] {
      WindowIsOwn(s, Front(calls), key);
      if Last(calls).key == key {
        FrontOfSnoc(Own(Front(calls), key), Last(calls));
      } else {
        assert Own(calls, key) == Own(Front(calls), key);
      }
    }
  }

  /** The swept table holds a caller's window unless that window has already ended. */
  lemma {:induction false} TableHoldsLiveWindows(s: Settings, calls: seq<Call>, key: string)
    requires s.limit > 0 && Monotone(calls)
    ensures var t, w := TableAfter(s, calls), WindowOf(s, calls, key);
            && (key in t ==> w == Some(t[key]))
            && (key !in t && w.Some? ==> calls != [] && Last(calls).now > w.value.reset)
  {
    if calls != [] {
      TableHoldsLiveWindows(s, Front(calls), key);
    }
  }

  /** Every decision is the one the caller's own requests call for, whatever everybody else did. */
  lemma DecidedByOwnHistory(s: Settings, calls: seq<Call>, c: Call)
    requires Monotone(calls + [c])
    ensures Admits(s, TableAfter(s, calls), c) == Deserves(s, Own(calls, c.key), c)
    ensures Admits(s, TableAfter(s, calls), c) == Deserves(s, calls, c)
  {
    MonotoneSnoc(calls, c);
    WindowIsOwn(s, calls, c.key);
    if s.limit > 0 {
      TableHoldsLiveWindows(s, calls, c.key);
    }
  }

  predicate Arrives(calls: seq<Call>, c: Call) {
    Monotone(calls) && (calls != [] ==> Last(calls).now <= c.now)
  }

  lemma MonotoneSnoc(calls: seq<Call>, c: Call)
    ensures Monotone(calls + [c]) <==> Arrives(calls, c)
  {
    FrontOfSnoc(calls, c);
  }

  lemma MonotoneParts(calls: seq<Call>)
    requires calls != [] && Monotone(calls)
    ensures Front(calls) + [Last(calls)] == calls
    ensures Arrives(Front(calls), Last(calls))
  {
  }

  lemma {:induction false} LastIsLatest(calls: seq<Call>)
    requires Monotone(calls)
    ensures forall i, j :: 0 <= i < j < |calls| ==> calls[i].now <= calls[j].now
  {
    if calls != [] {
      LastIsLatest(Front(calls));
      forall i, j | 0 <= i < j < |calls|
        ensures calls[i].now <= calls[j].now
      {
        assert calls[i] == Front(calls)[i];
        if j < |calls| - 1 {
          assert calls[j] == Front(calls)[j];
        } else {
          assert Last(Front(calls)) == Front(calls)[|calls| - 2];
        }
      }
    }
  }

  // ---- the sweep changes nothing a caller can see ----

  /** A table that never drops a key. */
  function HoardingStep(s: Settings, t: Table, c: Call): Table {
    if s.limit <= 0 then t else t[c.key := Judge(s, Lookup(t, c.key), c.now).slot]
  }

  function HoardAfter(s: Settings, calls: seq<Call>): Table {
    if calls == [] then map[] else HoardingStep(s, HoardAfter(s, Front(calls)), Last(calls))
  }

  lemma {:induction false} HoardHoldsEveryWindow(s: Settings, calls: seq<Call>, key: string)
    requires s.limit > 0
    ensures Lookup(HoardAfter(s, calls), key) == WindowOf(s, calls, key)
  {
    if calls != [] {
      HoardHoldsEveryWindow(s, Front(calls), key);
    }
  }

  lemma SweepChangesNoDecision(s: Settings, calls: seq<Call>, c: Call)
    requires Monotone(calls + [c])
    ensures Admits(s, TableAfter(s, calls), c)
            == (s.limit <= 0 || Judge(s, Lookup(HoardAfter(s, calls), c.key), c.now).ok)
  {
    DecidedByOwnHistory(s, calls, c);
    if s.limit > 0 {
      HoardHoldsEveryWindow(s, calls, c.key);
    }
  }

  function One(b: bool): nat {
    if b then 1 else 0
  }

  predicate Opens(w: Option<Slot>, now: int) {
    w.None? || now > w.value.reset
  }

  // ---- what stays in the table ----

  /** The callers admitted at `from` or later. */
  function AdmittedSince(s: Settings, calls: seq<Call>, from: int): set<string> {
    if calls == [] then {}
    else
      AdmittedSince(s, Front(calls), from) +
      (if LastAdmitted(s, calls) && from <= Last(calls).now then {Last(calls).key} else {})
  }

  /** After a call that swept at `now`, every entry is a window opened in [now - period, now] for a
      caller admitted at that moment. */
  lemma {:induction false} TableIsRecent(s: Settings, calls: seq<Call>, key: string)
    requires s.limit > 0 && s.period >= 0
    requires calls != [] && Monotone(calls)
    requires key in TableAfter(s, calls)
    ensures var began := TableAfter(s, calls)[key].reset - s.period;
            && Last(calls).now - s.period <= began <= Last(calls).now
            && key in AdmittedSince(s, calls, began)
  {
    MonotoneParts(calls);
    var before := TableAfter(s, Front(calls));
    var began := TableAfter(s, calls)[key].reset - s.period;
    if key in before && before[key].reset == TableAfter(s, calls)[key].reset {
      TableIsRecent(s, Front(calls), key);
    }
  }

  /** How many submissions, by anybody, were admitted at `from` or later. */
  function AdmissionsSince(s: Settings, calls: seq<Call>, from: int): nat {
    if calls == [] then 0
    else
      AdmissionsSince(s, Front(calls), from) +
      One(LastAdmitted(s, calls) && from <= Last(calls).now)
  }

  lemma TableKeyIsRecent(s: Settings, calls: seq<Call>, key: string)
    requires s.limit > 0 && s.period >= 0
    requires calls != [] && Monotone(calls)
    requires key in TableAfter(s, calls)
    ensures key in AdmittedSince(s, calls, Last(calls).now - s.period)
  {
    TableIsRecent(s, calls, key);
    AdmittedSinceGrows(s, calls, TableAfter(s, calls)[key].reset - s.period, Last(calls).now - s.period);
  }

  /** So the map cannot outgrow the callers admitted in the last period, */
  lemma TableWithinCallers(s: Settings, calls: seq<Call>, t: Table, callers: set<string>)
    requires s.limit > 0 && s.period >= 0
    requires calls != [] && Monotone(calls)
    requires t == TableAfter(s, calls) && callers == AdmittedSince(s, calls, Last(calls).now - s.period)
    ensures |t| <= |callers|
  {
    forall key | key in t.Keys
      ensures key in callers
    {
      TableKeyIsRecent(s, calls, key);
    }
    SubsetIsNoLarger(t.Keys, callers);
    assert |t| == |t.Keys|;
  }

  /** let alone the admissions. */
  lemma TableIsBounded(s: Settings, calls: seq<Call>)
    requires s.limit > 0 && s.period >= 0
    requires calls != [] && Monotone(calls)
    ensures |TableAfter(s, calls)| <= AdmissionsSince(s, calls, Last(calls).now - s.period)
  {
    var t, callers := TableAfter(s, calls), AdmittedSince(s, calls, Last(calls).now - s.period);
    TableWithinCallers(s, calls, t, callers);
    FewerCallersThanAdmissions(s, calls, Last(calls).now - s.period);
  }

  lemma {:induction false} AdmittedSinceGrows(s: Settings, calls: seq<Call>, later: int, earlier: int)
    requires earlier <= later
    ensures AdmittedSince(s, calls, later) <= AdmittedSince(s, calls, earlier)
  {
    if calls != [] {
      AdmittedSinceGrows(s, Front(calls), later, earlier);
    }
  }

  lemma {:induction false} FewerCallersThanAdmissions(s: Settings, calls: seq<Call>, from: int)
    ensures |AdmittedSince(s, calls, from)| <= AdmissionsSince(s, calls, from)
  {
    if calls != [] {
      FewerCallersThanAdmissions(s, Front(calls), from);
    }
  }

  lemma {:induction false} SubsetIsNoLarger<T>(a: set<T>, b: set<T>)
    requires a <= b
    ensures |a| <= |b|
  {
    if a != {} {
      var x :| x in a;
      SubsetIsNoLarger(a - {x}, b - {x});
    }
  }

  // ---- counting admissions and windows ----

  predicate Hits(c: Call, key: string, from: int, to: int) {
    c.key == key && from <= c.now <= to
  }

  /** Submissions of `key` admitted in the closed interval [from, to]. */
  function AdmittedIn(s: Settings, calls: seq<Call>, key: string, from: int, to: int): nat {
    if calls == [] then 0
    else
      AdmittedIn(s, Front(calls), key, from, to) +
      One(LastAdmitted(s, calls) && Hits(Last(calls), key, from, to))
  }

  /** The same count, read off the caller's own history. */
  function DeservedIn(s: Settings, calls: seq<Call>, key: string, from: int, to: int): nat {
    if calls == [] then 0
    else
      DeservedIn(s, Front(calls), key, from, to) +
      One(Deserves(s, Front(calls), Last(calls)) && Hits(Last(calls), key, from, to))
  }

  lemma {:induction false} AdmittedIsDeserved(s: Settings, calls: seq<Call>, key: string, from: int, to: int)
    requires Monotone(calls)
    ensures AdmittedIn(s, calls, key, from, to) == DeservedIn(s, calls, key, from, to)
  {
    if calls != [] {
      MonotoneParts(calls);
      AdmittedIsDeserved(s, Front(calls), key, from, to);
      DecidedByOwnHistory(s, Front(calls), Last(calls));
    }
  }

  /** Windows of `key` opened in the closed interval [from, to]. */
  function OpenedIn(s: Settings, calls: seq<Call>, key: string, from: int, to: int): nat {
    if calls == [] then 0
    else
      OpenedIn(s, Front(calls), key, from, to) +
      One(Hits(Last(calls), key, from, to) && Opens(WindowOf(s, Front(calls), key), Last(calls).now))
  }

  /** When the caller's latest window opened. */
  function Opening(s: Settings, w: Slot): int {
    w.reset - s.period
  }

  /** One window admits at least one submission and at most `limit`, and opened no later than now. */
  lemma {:induction false} WindowIsWithinLimit(s: Settings, calls: seq<Call>, key: string)
    requires s.limit > 0 && s.period >= 0 && Monotone(calls)
    ensures var w := WindowOf(s, calls, key);
            w.Some? ==> 1 <= w.value.count <= s.limit && calls != [] && Opening(s, w.value) <= Last(calls).now
  {
    if calls != [] {
      MonotoneParts(calls);
      WindowIsWithinLimit(s, Front(calls), key);
    }
  }

  lemma WindowBeforeCall(s: Settings, calls: seq<Call>, key: string)
    requires s.limit > 0 && s.period >= 0 && calls != [] && Monotone(calls)
    ensures var w := WindowOf(s, Front(calls), key);
            w.Some? ==> 1 <= w.value.count <= s.limit && Opening(s, w.value) <= Last(calls).now
  {
    MonotoneParts(calls);
    WindowIsWithinLimit(s, Front(calls), key);
  }

  /** No window opens after the latest one. */
  lemma {:induction false} NothingOpensAfterLatest(s: Settings, calls: seq<Call>, key: string, from: int, to: int)
    requires s.period >= 0
    ensures var w := WindowOf(s, calls, key);
            && (w.None? ==> OpenedIn(s, calls, key, from, to) == 0)
            && (w.Some? && Opening(s, w.value) <= to ==>
                  OpenedIn(s, calls, key, from, to) == OpenedIn(s, calls, key, from, Opening(s, w.value)))
            && (w.Some? && Opening(s, w.value) < from ==> OpenedIn(s, calls, key, from, to) == 0)
  {
    if calls != [] {
      var before := WindowOf(s, Front(calls), key);
      NothingOpensAfterLatest(s, Front(calls), key, from, to);
      if Last(calls).key == key && Opens(WindowOf(s, Front(calls), key), Last(calls).now) {
        NothingOpensAfterLatest(s, Front(calls), key, from, Last(calls).now);
      }
    }
  }

  /** Windows open more than a period apart: n of them need more than (n - 1) periods. */
  lemma {:induction false} WindowsAreSpaced(s: Settings, calls: seq<Call>, key: string, from: int, to: int)
    requires s.period >= 0
    ensures var n := OpenedIn(s, calls, key, from, to);
            && (n >= 1 ==> from <= to)
            && (n >= 2 ==> (n - 1) * s.period < to - from)
  {
    if calls != [] {
      var c, before := Last(calls), WindowOf(s, Front(calls), key);
      if Hits(c, key, from, to) && Opens(before, c.now) && before.Some? {
        var began := Opening(s, before.value);
        NothingOpensAfterLatest(s, Front(calls), key, from, to);
        WindowsAreSpaced(s, Front(calls), key, from, began);
        var n := OpenedIn(s, Front(calls), key, from, began);
        assert n * s.period == (n - 1) * s.period + s.period;
      } else {
        WindowsAreSpaced(s, Front(calls), key, from, to);
        NothingOpensAfterLatest(s, Front(calls), key, from, to);
      }
    }
  }

  lemma {:induction false} OpenedInSplits(s: Settings, calls: seq<Call>, key: string, from: int, mid: int, to: int)
    requires from <= mid <= to + 1
    ensures OpenedIn(s, calls, key, from, to) ==
            OpenedIn(s, calls, key, from, mid - 1) + OpenedIn(s, calls, key, mid, to)
  {
    if calls != [] {
      OpenedInSplits(s, Front(calls), key, from, mid, to);
    }
  }

  /** The budget an interval has: `limit` for each window opened inside it and one less for each
      window that straddles its start, because that window's first admission lies before it. */
  function Budget(s: Settings, inside: int, straddling: int): int {
    s.limit * inside + (s.limit - 1) * straddling
  }

  lemma BudgetSteps(s: Settings, inside: int, straddling: int)
    ensures Budget(s, inside + 1, straddling) == Budget(s, inside, straddling) + s.limit
    ensures Budget(s, inside, straddling + 1) == Budget(s, inside, straddling) + s.limit - 1
  {
  }

  /** What the latest window has left of the budget of [from, to]. */
  function Unspent(s: Settings, w: Option<Slot>, from: int, to: int): int {
    if w.None? then 0
    else if from - s.period <= Opening(s, w.value) <= to then s.limit - w.value.count
    else 0
  }

  /** One call by the caller: what it admits and what it leaves unspent fit what it adds. */
  lemma BudgetCoversCall(s: Settings, before: Option<Slot>, now: int, from: int, to: int,
                         admitted: nat, inside: nat, straddling: nat)
    requires s.limit > 0 && s.period >= 0 && from <= to
    requires before.Some? ==> 1 <= before.value.count <= s.limit && Opening(s, before.value) <= now
    requires admitted + Unspent(s, before, from, to) <= Budget(s, inside, straddling)
    ensures var v := Judge(s, before, now);
            admitted + One(v.ok && from <= now <= to) + Unspent(s, Some(v.slot), from, to)
            <= Budget(s, inside + One(Opens(before, now) && from <= now <= to),
                      straddling + One(Opens(before, now) && from - s.period <= now <= from - 1))
  {
    BudgetSteps(s, inside, straddling);
  }

  /** What one call by the caller adds to the counts, in terms of the caller's window before it. */
  lemma CountsStep(s: Settings, calls: seq<Call>, key: string, from: int, to: int)
    requires s.limit > 0 && calls != [] && Last(calls).key == key
    ensures var w, now := WindowOf(s, Front(calls), key), Last(calls).now;
            && WindowOf(s, calls, key) == Some(Judge(s, w, now).slot)
            && DeservedIn(s, calls, key, from, to)
               == DeservedIn(s, Front(calls), key, from, to) + One(Judge(s, w, now).ok && from <= now <= to)
            && OpenedIn(s, calls, key, from, to)
               == OpenedIn(s, Front(calls), key, from, to) + One(Opens(w, now) && from <= now <= to)
  {
  }

  predicate FitsBudget(s: Settings, calls: seq<Call>, key: string, from: int, to: int) {
    DeservedIn(s, calls, key, from, to) + Unspent(s, WindowOf(s, calls, key), from, to)
    <= Budget(s, OpenedIn(s, calls, key, from, to), OpenedIn(s, calls, key, from - s.period, from - 1))
  }

  lemma BudgetCoversOwnCall(s: Settings, calls: seq<Call>, key: string, from: int, to: int)
    requires s.limit > 0 && s.period >= 0 && calls != [] && Monotone(calls) && from <= to
    requires Last(calls).key == key && FitsBudget(s, Front(calls), key, from, to)
    ensures FitsBudget(s, calls, key, from, to)
  {
    var front, now := Front(calls), Last(calls).now;
    WindowBeforeCall(s, calls, key);
    CountsStep(s, calls, key, from, to);
    CountsStep(s, calls, key, from - s.period, from - 1);
    BudgetCoversCall(s, WindowOf(s, front, key), now, from, to, DeservedIn(s, front, key, from, to),
                     OpenedIn(s, front, key, from, to), OpenedIn(s, front, key, from - s.period, from - 1));
  }

  lemma {:induction false} AdmissionsFitBudget(s: Settings, calls: seq<Call>, key: string, from: int, to: int)
    requires s.limit > 0 && s.period >= 0 && Monotone(calls) && from <= to
    ensures FitsBudget(s, calls, key, from, to)
  {
    if calls != [] {
      MonotoneParts(calls);
      AdmissionsFitBudget(s, Front(calls), key, from, to);
      if Last(calls).key == key {
        BudgetCoversOwnCall(s, calls, key, from, to);
      }
    }
  }

  // ---- the bounds ----

  /** Any closed interval of `k` periods holds at most (k + 1) * limit - 1 admissions of one caller,
      and a single instant at most `limit`. */
  lemma IntervalBound(s: Settings, calls: seq<Call>, key: string, from: int, k: nat)
    requires s.limit > 0 && s.period >= 0 && Monotone(calls)
    ensures AdmittedIn(s, calls, key, from, from + k * s.period) <= if k == 0 then s.limit else (k + 1) * s.limit - 1
  {
    var to := from + k * s.period;
    assert k * s.period >= 0;
    var inside := OpenedIn(s, calls, key, from, to);
    var straddling := OpenedIn(s, calls, key, from - s.period, from - 1);
    AdmittedIsDeserved(s, calls, key, from, to);
    AdmissionsFitBudget(s, calls, key, from, to);
    WindowIsWithinLimit(s, calls, key);
    WindowsAreSpaced(s, calls, key, from, to);
    WindowsAreSpaced(s, calls, key, from - s.period, from - 1);
    AtMost(inside, k, s.period);
    AtMost(straddling, 1, s.period);
    if k == 0 {
      OpenedInSplits(s, calls, key, from - s.period, from, to);
      WindowsAreSpaced(s, calls, key, from - s.period, to);
      AtMost(inside + straddling, 1, s.period);
    }
    BudgetIsMonotone(s, inside, straddling, k);
  }

  lemma MulOrder(a: int, b: int, p: int)
    requires a <= b && p >= 0
    ensures a * p <= b * p
  {
    assert b * p - a * p == (b - a) * p;
  }

  lemma AtMost(n: nat, k: nat, period: int)
    requires period >= 0
    requires n >= 2 ==> (n - 1) * period < k * period
    ensures n <= k || n <= 1
  {
    if n >= 2 && k <= n - 1 {
      MulOrder(k, n - 1, period);
      assert false;
    }
  }

  lemma BudgetIsMonotone(s: Settings, inside: nat, straddling: nat, k: nat)
    requires s.limit > 0
    ensures inside <= k && straddling <= 1 ==> Budget(s, inside, straddling) <= (k + 1) * s.limit - 1
    ensures inside + straddling <= 1 ==> Budget(s, inside, straddling) <= s.limit
  {
  }

  // ---- the bound cannot be improved ----

  function Repeat(n: nat, c: Call): (r: seq<Call>)
    ensures |r| == n && forall d :: d in r ==> d == c
  {
    if n == 0 then [] else [c] + Repeat(n - 1, c)
  }

  lemma RepeatFirst(calls: seq<Call>, n: nat, c: Call)
    ensures calls + Repeat(0, c) == calls
    ensures n > 0 ==> calls + Repeat(n, c) == (calls + [c]) + Repeat(n - 1, c)
  {
  }

  /** The window a call falls in, before it is counted. */
  function Room(s: Settings, calls: seq<Call>, c: Call): Slot {
    var w := WindowOf(s, calls, c.key);
    if Opens(w, c.now) then Slot(0, c.now + s.period) else w.value
  }

  lemma AdmitOne(s: Settings, calls: seq<Call>, c: Call)
    requires s.limit > 0 && s.period >= 0 && Arrives(calls, c)
    requires Room(s, calls, c).count < s.limit
    ensures Arrives(calls + [c], c)
    ensures var w := Slot(Room(s, calls, c).count + 1, Room(s, calls, c).reset);
            WindowOf(s, calls + [c], c.key) == Some(w) && Room(s, calls + [c], c) == w
  {
    MonotoneSnoc(calls, c);
    FrontOfSnoc(calls, c);
  }

  lemma CountOne(s: Settings, calls: seq<Call>, c: Call, from: int, to: int)
    requires s.limit > 0 && Room(s, calls, c).count < s.limit
    ensures DeservedIn(s, calls + [c], c.key, from, to)
            == DeservedIn(s, calls, c.key, from, to) + One(from <= c.now <= to)
  {
    FrontOfSnoc(calls, c);
  }

  /** Submissions at one instant are all admitted while the window they fall in has room. */
  lemma {:induction false} FillWindow(s: Settings, calls: seq<Call>, c: Call, n: nat, all: seq<Call>)
    requires s.limit > 0 && s.period >= 0 && Arrives(calls, c) && all == calls + Repeat(n, c)
    requires n > 0 && Room(s, calls, c).count + n <= s.limit
    ensures Arrives(all, c)
    ensures WindowOf(s, all, c.key) == Some(Slot(Room(s, calls, c).count + n, Room(s, calls, c).reset))
    decreases n
  {
    AdmitOne(s, calls, c);
    RepeatFirst(calls, n, c);
    if n == 1 {
      RepeatFirst(calls + [c], 0, c);
    } else {
      FillWindow(s, calls + [c], c, n - 1, all);
    }
  }

  lemma {:induction false} CountFilled(s: Settings, calls: seq<Call>, c: Call, n: nat, from: int, to: int)
    requires s.limit > 0 && s.period >= 0 && Arrives(calls, c)
    requires n > 0 ==> Room(s, calls, c).count + n <= s.limit
    ensures DeservedIn(s, calls + Repeat(n, c), c.key, from, to)
            == DeservedIn(s, calls, c.key, from, to) + (if from <= c.now <= to then n else 0)
    decreases n
  {
    RepeatFirst(calls, n, c);
    if n > 0 {
      AdmitOne(s, calls, c);
      CountOne(s, calls, c, from, to);
      CountFilled(s, calls + [c], c, n - 1, from, to);
    }
  }

  /** When the n-th window after the first opens, at the earliest. */
  function Start(s: Settings, n: nat): int {
    if n == 0 then 0 else Start(s, n - 1) + s.period + 1
  }

  function Share(s: Settings, windows: nat): int {
    if windows == 0 then s.limit - 1 else Share(s, windows - 1) + s.limit
  }

  lemma {:induction false} ClosedForms(s: Settings, n: nat)
    ensures Start(s, n) == n * s.period + n
    ensures Share(s, n) == (n + 1) * s.limit - 1
  {
    if n > 0 {
      ClosedForms(s, n - 1);
    }
  }

  /** A history whose last window opened at `start` and is full, with `share` admissions counted. */
  predicate EndsFull(s: Settings, calls: seq<Call>, start: int, share: int, to: int) {
    && Monotone(calls) && calls != [] && Last(calls).now <= start + s.period
    && WindowOf(s, calls, "") == Some(Slot(s.limit, start + s.period))
    && DeservedIn(s, calls, "", s.period, to) == share
  }

  /** One submission early and the rest of the window at its last instant. */
  lemma FirstWindow(s: Settings, to: int) returns (calls: seq<Call>)
    requires s.limit > 0 && 0 < s.period <= to
    ensures EndsFull(s, calls, 0, s.limit - 1, to)
  {
    var early, late := [Call("", 0)], Call("", s.period);
    assert Front(early) == [] && Last(early) == Call("", 0);
    assert WindowOf(s, early, "") == Some(Slot(1, s.period));
    assert DeservedIn(s, early, "", s.period, to) == 0;
    calls := early + Repeat(s.limit - 1, late);
    if s.limit == 1 {
      assert calls == early;
    } else {
      FillWindow(s, early, late, s.limit - 1, calls);
    }
    CountFilled(s, early, late, s.limit - 1, s.period, to);
    assert Last(calls) in calls;
  }

  /** The next window, filled the moment it can open. */
  lemma NextWindow(s: Settings, before: seq<Call>, start: int, share: int, to: int) returns (calls: seq<Call>)
    requires s.limit > 0 && s.period > 0
    requires 0 <= start && start + s.period + 1 <= to
    requires EndsFull(s, before, start, share, to)
    ensures EndsFull(s, calls, start + s.period + 1, share + s.limit, to)
  {
    var c := Call("", start + s.period + 1);
    calls := before + Repeat(s.limit, c);
    FillWindow(s, before, c, s.limit, calls);
    CountFilled(s, before, c, s.limit, s.period, to);
    assert Last(calls) == Last(Repeat(s.limit, c));
  }

  lemma {:induction false} FullWindows(s: Settings, windows: nat, to: int) returns (calls: seq<Call>)
    requires s.limit > 0 && s.period > 0
    requires Start(s, windows) <= to && s.period <= to
    ensures 0 <= Start(s, windows)
    ensures EndsFull(s, calls, Start(s, windows), Share(s, windows), to)
  {
    if windows == 0 {
      calls := FirstWindow(s, to);
    } else {
      calls := FullWindows(s, windows - 1, to);
      calls := NextWindow(s, calls, Start(s, windows - 1), Share(s, windows - 1), to);
    }
  }

  /** For every limit and every period long enough for `k` windows to fit, some history reaches the
      bound of `IntervalBound` exactly. */
  lemma IntervalBoundIsReached(s: Settings, k: nat) returns (calls: seq<Call>, from: int)
    requires s.limit > 0 && 1 <= k <= s.period
    ensures Monotone(calls)
    ensures AdmittedIn(s, calls, "", from, from + k * s.period) == (k + 1) * s.limit - 1
  {
    from := s.period;
    MulOrder(0, k, s.period);
    ClosedForms(s, k);
    calls := FullWindows(s, k, from + k * s.period);
    AdmittedIsDeserved(s, calls, "", from, from + k * s.period);
  }

  // ---- refusals ----

  /** Nobody is admitted after their window has ended without a new one opening. */
  lemma {:induction false} NobodyAdmittedPastReset(s: Settings, calls: seq<Call>, key: string, from: int, to: int)
    requires s.limit > 0 && s.period >= 0 && Monotone(calls)
    requires var w := WindowOf(s, calls, key); w.Some? ==> from > w.value.reset
    ensures DeservedIn(s, calls, key, from, to) == 0
  {
    if calls != [] {
      MonotoneParts(calls);
      if Last(calls).key == key {
        CountsStep(s, calls, key, from, to);
        NobodyAdmittedPastReset(s, Front(calls), key, from, to);
      } else {
        NobodyAdmittedPastReset(s, Front(calls), key, from, to);
      }
    }
  }

  /** A window's count is the number of its caller's admissions since it opened. */
  lemma {:induction false} CountIsAdmissions(s: Settings, calls: seq<Call>, key: string, to: int)
    requires s.limit > 0 && s.period >= 0 && Monotone(calls)
    requires calls != [] ==> Last(calls).now <= to
    requires WindowOf(s, calls, key).Some?
    ensures var w := WindowOf(s, calls, key).value;
            DeservedIn(s, calls, key, Opening(s, w), to) == w.count
  {
    MonotoneParts(calls);
    var front, now := Front(calls), Last(calls).now;
    var w := WindowOf(s, calls, key).value;
    if Last(calls).key != key {
      CountIsAdmissions(s, front, key, to);
    } else {
      CountsStep(s, calls, key, Opening(s, w), to);
      WindowIsWithinLimit(s, front, key);
      if Opens(WindowOf(s, front, key), now) {
        NobodyAdmittedPastReset(s, front, key, now, to);
      } else {
        CountIsAdmissions(s, front, key, to);
      }
    }
  }

  /** The caller's window is still open and already holds `limit` admissions. */
  predicate WindowIsFull(s: Settings, calls: seq<Call>, c: Call) {
    var w := WindowOf(s, calls, c.key);
    && w.Some? && c.now <= Opening(s, w.value) + s.period
    && AdmittedIn(s, calls, c.key, Opening(s, w.value), c.now) >= s.limit
  }

  lemma FullMeansCounted(s: Settings, calls: seq<Call>, c: Call)
    requires s.limit > 0 && s.period >= 0 && Monotone(calls + [c])
    ensures WindowIsFull(s, calls, c) <==> !Deserves(s, calls, c)
  {
    MonotoneSnoc(calls, c);
    if WindowOf(s, calls, c.key).Some? {
      var opening := Opening(s, WindowOf(s, calls, c.key).value);
      CountIsAdmissions(s, calls, c.key, c.now);
      AdmittedIsDeserved(s, calls, c.key, opening, c.now);
    }
  }

  /** A call is refused exactly when its caller's window is full; in particular the caller was
      admitted `limit` times in the last period. */
  lemma RefusedIffWindowIsFull(s: Settings, calls: seq<Call>, c: Call)
    requires s.period >= 0 && Monotone(calls + [c])
    ensures !Admits(s, TableAfter(s, calls), c) <==> s.limit > 0 && WindowIsFull(s, calls, c)
    ensures !Admits(s, TableAfter(s, calls), c) ==>
              AdmittedIn(s, calls, c.key, c.now - s.period, c.now) >= s.limit
  {
    DecidedByOwnHistory(s, calls, c);
    if s.limit > 0 {
      FullMeansCounted(s, calls, c);
      if WindowIsFull(s, calls, c) {
        AdmittedInWidens(s, calls, c.key, Opening(s, WindowOf(s, calls, c.key).value), c.now - s.period, c.now);
      }
    }
  }

  lemma {:induction false} AdmittedInWidens(s: Settings, calls: seq<Call>, key: string, later: int, earlier: int,
                                            to: int)
    requires earlier <= later
    ensures AdmittedIn(s, calls, key, later, to) <= AdmittedIn(s, calls, key, earlier, to)
  {
    if calls != [] {
      AdmittedInWidens(s, Front(calls), key, later, earlier, to);
    }
  }

  /** More than a period after the caller's last window opened, the caller is admitted again. */
  lemma ForgivenAfterPeriod(s: Settings, calls: seq<Call>, c: Call)
    requires Monotone(calls + [c])
    requires var w := WindowOf(s, calls, c.key); w.Some? ==> c.now > Opening(s, w.value) + s.period
    ensures Admits(s, TableAfter(s, calls), c)
  {
    DecidedByOwnHistory(s, calls, c);
  }

  /** The elements whose flag is set. */
  function Keep<T>(xs: seq<T>, flags: seq<bool>): seq<T>
    requires |xs| == |flags|
  {
    if xs == [] then []
    else
      var n := |xs| - 1;
      Keep(xs[..n], flags[..n]) + (if flags[n] then [xs[n]] else [])
  }

  lemma KeepStep<T>(xs: seq<T>, flags: seq<bool>)
    requires xs != [] && |xs| == |flags|
    ensures var n := |xs| - 1;
            Keep(xs, flags) == if flags[n] then Keep(xs[..n], flags[..n]) + [xs[n]] else Keep(xs[..n], flags[..n])
  {
  }

  predicate KeepsAdmitted(s: Settings, calls: seq<Call>, flags: seq<bool>)
    requires |calls| == |flags|
  {
    forall i :: 0 <= i < |calls| && Decisions(s, calls)[i] ==> flags[i]
  }

  /** Two histories after which no caller can be told apart. */
  ghost predicate SameWindows(s: Settings, a: seq<Call>, b: seq<Call>) {
    forall key :: WindowOf(s, a, key) == WindowOf(s, b, key)
  }

  lemma SameWindowsDecideAlike(s: Settings, a: seq<Call>, b: seq<Call>, c: Call)
    requires Monotone(a + [c]) && Monotone(b + [c])
    requires s.limit > 0 ==> SameWindows(s, a, b)
    ensures Admits(s, TableAfter(s, a), c) == Admits(s, TableAfter(s, b), c)
  {
    DecidedByOwnHistory(s, a, c);
    DecidedByOwnHistory(s, b, c);
  }

  lemma SameWindowsSnoc(s: Settings, a: seq<Call>, b: seq<Call>, c: Call)
    requires SameWindows(s, a, b)
    ensures SameWindows(s, a + [c], b + [c])
    ensures !Deserves(s, b, c) ==> SameWindows(s, a, b + [c])
  {
    FrontOfSnoc(a, c);
    FrontOfSnoc(b, c);
  }

  lemma {:induction false} KeptAreMembers<T>(xs: seq<T>, flags: seq<bool>)
    requires |xs| == |flags|
    ensures forall x :: x in Keep(xs, flags) ==> x in xs
  {
    if xs != [] {
      KeptAreMembers(xs[..|xs| - 1], flags[..|xs| - 1]);
    }
  }

  lemma {:induction false} KeptStayMonotone(calls: seq<Call>, flags: seq<bool>)
    requires |calls| == |flags| && Monotone(calls)
    ensures Monotone(Keep(calls, flags))
  {
    if calls != [] {
      var kept := Keep(Front(calls), flags[..|calls| - 1]);
      KeepStep(calls, flags);
      KeptStayMonotone(Front(calls), flags[..|calls| - 1]);
      LastIsLatest(calls);
      KeptAreMembers(Front(calls), flags[..|calls| - 1]);
      assert kept != [] ==> Last(kept) in Front(calls);
      MonotoneSnoc(kept, Last(calls));
    }
  }

  lemma KeepsAdmittedFront(s: Settings, calls: seq<Call>, flags: seq<bool>)
    requires calls != [] && |calls| == |flags| && KeepsAdmitted(s, calls, flags)
    ensures KeepsAdmitted(s, Front(calls), flags[..|calls| - 1])
    ensures LastAdmitted(s, calls) ==> flags[|calls| - 1]
  {
    DecisionsOfFront(s, calls);
    assert forall i :: 0 <= i < |calls| - 1 ==> Decisions(s, Front(calls))[i] == Decisions(s, calls)[i];
  }

  /** Refusals are free: deleting any of them from a history changes no caller's window ... */
  lemma {:induction false} RefusalsLeaveNoTrace(s: Settings, calls: seq<Call>, flags: seq<bool>)
    requires |calls| == |flags| && Monotone(calls) && KeepsAdmitted(s, calls, flags) && s.limit > 0
    ensures SameWindows(s, Keep(calls, flags), calls)
  {
    if calls != [] {
      var n := |calls| - 1;
      KeepStep(calls, flags);
      KeepsAdmittedFront(s, calls, flags);
      RefusalsLeaveNoTrace(s, Front(calls), flags[..n]);
      MonotoneParts(calls);
      DecidedByOwnHistory(s, Front(calls), Last(calls));
      SameWindowsSnoc(s, Keep(Front(calls), flags[..n]), Front(calls), Last(calls));
    }
  }

  lemma LastDecisionStays(s: Settings, calls: seq<Call>, flags: seq<bool>)
    requires calls != [] && |calls| == |flags| && Monotone(calls) && KeepsAdmitted(s, calls, flags)
    requires flags[|calls| - 1]
    ensures var kept := Keep(Front(calls), flags[..|calls| - 1]);
            Admits(s, TableAfter(s, kept), Last(calls)) == LastAdmitted(s, calls)
  {
    var front, kept := Front(calls), Keep(Front(calls), flags[..|calls| - 1]);
    KeepStep(calls, flags);
    KeepsAdmittedFront(s, calls, flags);
    KeptStayMonotone(calls, flags);
    MonotoneParts(calls);
    if s.limit > 0 {
      RefusalsLeaveNoTrace(s, front, flags[..|calls| - 1]);
    }
    SameWindowsDecideAlike(s, kept, front, Last(calls));
  }

  /** ... and no decision that is left. */
  lemma {:induction false} RefusalsAreFree(s: Settings, calls: seq<Call>, flags: seq<bool>)
    requires |calls| == |flags| && Monotone(calls) && KeepsAdmitted(s, calls, flags)
    ensures Decisions(s, Keep(calls, flags)) == Keep(Decisions(s, calls), flags)
  {
    if calls != [] {
      var n := |calls| - 1;
      var kept := Keep(Front(calls), flags[..n]);
      KeepStep(calls, flags);
      KeepStep(Decisions(s, calls), flags);
      DecisionsOfFront(s, calls);
      KeepsAdmittedFront(s, calls, flags);
      RefusalsAreFree(s, Front(calls), flags[..n]);
      if flags[n] {
        LastDecisionStays(s, calls, flags);
        HistorySnoc(s, kept, Last(calls));
      }
    }
  }

  lemma DecisionsOfFront(s: Settings, calls: seq<Call>)
    requires calls != []
    ensures Decisions(s, calls)[..|calls| - 1] == Decisions(s, Front(calls))
    ensures Decisions(s, calls)[|calls| - 1] == LastAdmitted(s, calls)
  {
  }
}

/** internal/ratelimit/memory.go: the fixed-window limiter, as a transition on values and as the
    object that performs it. Times are the readings of one clock, in any unit. */
module RateLimit {
  import opened Wrappers

  datatype Settings = Settings(limit: int, period: int)

  /** One caller's window: how many submissions it has admitted and when it ends. */
  datatype Slot = Slot(count: int, reset: int)

  type Table = map<string, Slot>

  /** One call of `Allow`: the caller, and the clock as read under the lock. */
  datatype Call = Call(key: string, now: int)

  datatype Verdict = Verdict(ok: bool, slot: Slot)

  function Lookup(t: Table, key: string): Option<Slot> {
    if key in t then Some(t[key]) else None
  }

  /** What `Allow` decides from the caller's own window. A window still applies at its last instant. */
  function Judge(s: Settings, w: Option<Slot>, now: int): Verdict {
    if w.None? || now > w.value.reset then Verdict(true, Slot(1, now + s.period))
    else if w.value.count >= s.limit then Verdict(false, w.value)
    else Verdict(true, w.value.(count := w.value.count + 1))
  }

  function Sweep(t: Table, now: int): Table {
    map k | k in t && !(now > t[k].reset) :: t[k]
  }

  /** The decision of one call. A limit of zero or less turns the limiter off. */
  predicate Admits(s: Settings, t: Table, c: Call) {
    s.limit <= 0 || Judge(s, Lookup(Sweep(t, c.now), c.key), c.now).ok
  }

  /** The table one call leaves behind. */
  function Step(s: Settings, t: Table, c: Call): Table {
    if s.limit <= 0 then t
    else
      var live := Sweep(t, c.now);
      var v := Judge(s, Lookup(live, c.key), c.now);
      if v.ok then live[c.key := v.slot] else live
  }

  // ---- histories ----

  function Front(calls: seq<Call>): seq<Call>
    requires calls != []
  {
    calls[..|calls| - 1]
  }

  function Last(calls: seq<Call>): Call
    requires calls != []
  {
    calls[|calls| - 1]
  }

  function TableAfter(s: Settings, calls: seq<Call>): Table {
    if calls == [] then map[] else Step(s, TableAfter(s, Front(calls)), Last(calls))
  }

  /** Whether the last call of a non-empty history was admitted. */
  predicate LastAdmitted(s: Settings, calls: seq<Call>)
    requires calls != []
  {
    Admits(s, TableAfter(s, Front(calls)), Last(calls))
  }

  /** Every decision of a history, in order. */
  function Decisions(s: Settings, calls: seq<Call>): (ds: seq<bool>)
    ensures |ds| == |calls|
  {
    if calls == [] then [] else Decisions(s, Front(calls)) + [LastAdmitted(s, calls)]
  }

  /** The clock never ran backwards. */
  predicate Monotone(calls: seq<Call>) {
    |calls| <= 1 || (Last(Front(calls)).now <= Last(calls).now && Monotone(Front(calls)))
  }

  lemma FrontOfSnoc(calls: seq<Call>, c: Call)
    ensures Front(calls + [c]) == calls && Last(calls + [c]) == c
  {
  }

  lemma HistorySnoc(s: Settings, calls: seq<Call>, c: Call)
    ensures TableAfter(s, calls + [c]) == Step(s, TableAfter(s, calls), c)
    ensures LastAdmitted(s, calls + [c]) == Admits(s, TableAfter(s, calls), c)
    ensures Decisions(s, calls + [c]) == Decisions(s, calls) + [Admits(s, TableAfter(s, calls), c)]
  {
    FrontOfSnoc(calls, c);
  }

  // ---- the object ----

  class Window {
    var count: int
    var reset: int

    constructor (count: int, reset: int)
      ensures this.count == count && this.reset == reset
    {
      this.count := count;
      this.reset := reset;
    }
  }

  class Memory {
    var seen: map<string, Window>
    const limit: int
    const period: int
    /** Every call so far; what the table holds is a function of it. */
    ghost var history: seq<Call>
    /** The windows this limiter has allocated. */
    ghost var windows: set<Window>

    ghost function Config(): Settings {
      Settings(limit, period)
    }

    /** The entries are this limiter's own windows, and no two callers share one. */
    ghost predicate Owns()
      reads this
    {
      && (forall k :: k in seen ==> seen[k] in windows)
      && (forall k, l :: k in seen && l in seen && seen[k] == seen[l] ==> k == l)
    }

    /** The table the windows spell out. */
    ghost function View(): Table
      requires Owns()
      reads this, windows
    {
      map k | k in seen :: Slot(seen[k].count, seen[k].reset)
    }

    ghost predicate Valid()
      reads this, windows
    {
      Owns() && View() == TableAfter(Config(), history)
    }

    constructor (limit: int, period: int)
      ensures Valid() && history == [] && View() == map[] && windows == {}
      ensures this.limit == limit && this.period == period
    {
      this.seen := map[];
      this.limit := limit;
      this.period := period;
      this.history := [];
      this.windows := {};
    }

    /** `now` is the clock as read after taking the lock. */
    method Allow(key: string, now: int) returns (ok: bool)
      requires Valid()
      modifies this, windows
      ensures Valid() && fresh(windows - old(windows)) && history == old(history) + [Call(key, now)]
      ensures ok == Admits(Config(), old(View()), Call(key, now))
      ensures ok == LastAdmitted(Config(), history)
      ensures View() == Step(Config(), old(View()), Call(key, now))
    {
      ok := Count(key, now);
      HistorySnoc(Config(), history, Call(key, now));
      history := history + [Call(key, now)];
    }

    /** `Allow` without the log. */
    method Count(key: string, now: int) returns (ok: bool)
      requires Owns()
      modifies this`seen, this`windows, windows
      ensures Owns() && fresh(windows - old(windows))
      ensures ok == Admits(Config(), old(View()), Call(key, now))
      ensures View() == Step(Config(), old(View()), Call(key, now))
    {
      if limit <= 0 {
        return true;
      }
      SweepExpired(now);
      ok := Decide(key, now);
    }

    /** The rest of `Allow`, once the expired entries are gone. */
    method Decide(key: string, now: int) returns (ok: bool)
      requires Owns()
      modifies this`seen, this`windows, windows
      ensures Owns() && fresh(windows - old(windows))
      ensures var v := Judge(Config(), Lookup(old(View()), key), now);
              ok == v.ok && View() == if ok then old(View())[key := v.slot] else old(View())
    {
      if key !in seen || now > seen[key].reset {
        var w := new Window(1, now + period);
        seen := seen[key := w];
        windows := windows + {w};
        return true;
      }
      if seen[key].count >= limit {
        return false;
      }
      seen[key].count := seen[key].count + 1;
      return true;
    }

    /** The range-and-delete loop: keys come in whatever order the map yields them. */
    method SweepExpired(now: int)
      requires Owns()
      modifies this`seen
      ensures Owns() && View() == Sweep(old(View()), now)
    {
      var pending := seen.Keys;
      while pending != {}
        invariant pending <= seen.Keys
        invariant seen == map k | k in old(seen) && (k in pending || !(now > old(seen)[k].reset)) :: old(seen)[k]
        decreases pending
      {
        var k :| k in pending;
        pending := pending - {k};
        if now > seen[k].reset {
          seen := map l | l in seen && l != k :: seen[l];
        }
      }
    }
  }
}

/** A form's handler as net/http runs it: one goroutine a request, meeting only in the limiter. */
module ConcurrentRuns {
  import opened Contact
  import opened FormRuns
  import opened Handler
  import opened Wrappers
  import RC = RateLimitConcurrency
  import RL = RateLimit

  /** Which request each goroutine carries. */
  type Assignment = nat -> Request

  /** The request as it was decided: its clock reading is the one taken under the lock. */
  function Decided(reqOf: Assignment, e: RC.Entry): Request {
    reqOf(e.id).(now := e.call.now)
  }

  /** The requests of a log, in lock order. */
  function RunOf(reqOf: Assignment, log: seq<RC.Entry>): seq<Request> {
    if log == [] then [] else RunOf(reqOf, Front(log)) + [Decided(reqOf, Last(log))]
  }

  /** What a goroutine answers, once the limiter has told it whether to go on. */
  function Answer(f: Form, r: Request, ok: bool): Outcome {
    if ok then Process(f, CorsHeaders(f, r.origin), r) else TooMany(f, r)
  }

  function AnswersOf(f: Form, reqOf: Assignment, log: seq<RC.Entry>): seq<Outcome> {
    if log == [] then []
    else AnswersOf(f, reqOf, Front(log)) + [Answer(f, Decided(reqOf, Last(log)), Last(log).ok)]
  }

  /** The goroutines at the limiter carry requests that reach it, each under its own key. */
  ghost predicate Carries(f: Form, reqOf: Assignment, st: RC.State) {
    forall id :: id in st.running ==>
      && ReachesLimiter(f, reqOf(id))
      && st.running[id].key == f.caller(reqOf(id).remoteAddr, reqOf(id).forwarded)
  }

  /** Every entry is the limiter call of its goroutine's request. */
  ghost predicate Matches(f: Form, reqOf: Assignment, log: seq<RC.Entry>) {
    forall e :: e in log ==> ReachesLimiter(f, reqOf(e.id)) && e.call == LimiterCall(f, Decided(reqOf, e))
  }

  lemma {:induction false} AnswersAreOutcomes(f: Form, reqOf: Assignment, log: seq<RC.Entry>)
    requires Matches(f, reqOf, log) && RC.Answers(log) == RL.Decisions(f.limit, RC.Calls(log))
    ensures LimiterCalls(f, RunOf(reqOf, log)) == RC.Calls(log)
    ensures Outcomes(f, RunOf(reqOf, log)) == AnswersOf(f, reqOf, log)
  {
    if log != [] {
      var front, e := Front(log), Last(log);
      var r := Decided(reqOf, e);
      assert log == front + [e] && e in log;
      RC.CallsSnoc(front, e);
      RL.HistorySnoc(f.limit, RC.Calls(front), e.call);
      DecisionsOfFront(front, e, RL.Decisions(f.limit, RC.Calls(front)),
                       RL.Admits(f.limit, RL.TableAfter(f.limit, RC.Calls(front)), e.call));
      AnswersAreOutcomes(f, reqOf, front);
      OneMore(f, RunOf(reqOf, front), r, e.ok);
    }
  }

  lemma DecisionsOfFront(front: seq<RC.Entry>, e: RC.Entry, ds: seq<bool>, d: bool)
    requires RC.Answers(front) + [e.ok] == ds + [d] && |ds| == |front|
    ensures RC.Answers(front) == ds && e.ok == d
  {
    assert (RC.Answers(front) + [e.ok])[..|front|] == RC.Answers(front);
    assert (ds + [d])[..|front|] == ds;
    assert (RC.Answers(front) + [e.ok])[|front|] == e.ok && (ds + [d])[|front|] == d;
  }

  lemma OneMore(f: Form, run: seq<Request>, r: Request, ok: bool)
    requires ReachesLimiter(f, r)
    requires ok == RL.Admits(f.limit, RL.TableAfter(f.limit, LimiterCalls(f, run)), LimiterCall(f, r))
    ensures LimiterCalls(f, run + [r]) == LimiterCalls(f, run) + [LimiterCall(f, r)]
    ensures Outcomes(f, run + [r]) == Outcomes(f, run) + [Answer(f, r, ok)]
  {
    assert Front(run + [r]) == run && Last(run + [r]) == r;
    TableIsLimiterHistory(f, run);
    ReactChooses(f, TableOf(f, run), r);
  }

  lemma LogMatches(f: Form, reqOf: Assignment, st: RC.State)
    requires RC.Inv(f.limit, st) && Carries(f, reqOf, st) && f.limit.limit > 0
    ensures Matches(f, reqOf, st.log)
  {
    forall e | e in st.log
      ensures ReachesLimiter(f, reqOf(e.id)) && e.call == LimiterCall(f, Decided(reqOf, e))
    {
      var i :| 0 <= i < |st.log| && st.log[i] == e;
      EntryIsOwn(f.limit, st, i);
    }
  }

  lemma EntryIsOwn(s: RL.Settings, st: RC.State, i: nat)
    requires RC.AnsweredOnce(s, st) && s.limit > 0 && i < |st.log|
    ensures var e := st.log[i];
            && e.id in st.running && e.call.key == st.running[e.id].key
            && RC.Settled(st, e.id) && e.ok == st.running[e.id].phase.answer
  {
    var e := st.log[i];
    assert RC.Logged(st.log, e.id, st.running[e.id].key, st.running[e.id].phase.answer);
    var j :| 0 <= j < |st.log| && st.log[j].id == e.id && st.log[j].call.key == st.running[e.id].key
             && st.log[j].ok == st.running[e.id].phase.answer;
    assert i == j;
  }

  /** Handlers running side by side answer as one after the other in lock order: whatever the interleaving,
      the answers are those of that sequential run, under a clock that never runs backwards. */
  lemma HandlersSerialize(f: Form, reqOf: Assignment, events: seq<RC.Event>)
    requires f.limit.limit > 0 && RC.After(f.limit, events).Some?
    requires Carries(f, reqOf, RC.After(f.limit, events).value)
    ensures var log := RC.After(f.limit, events).value.log;
            && AnswersOf(f, reqOf, log) == Outcomes(f, RunOf(reqOf, log))
            && ClockedRun(f, RunOf(reqOf, log))
  {
    var st := RC.After(f.limit, events).value;
    RC.Reachable(f.limit, events);
    LogMatches(f, reqOf, st);
    AnswersAreOutcomes(f, reqOf, st.log);
  }

  lemma {:induction false} AnswerAt(f: Form, reqOf: Assignment, log: seq<RC.Entry>, i: nat)
    requires i < |log|
    ensures |AnswersOf(f, reqOf, log)| == |log|
    ensures AnswersOf(f, reqOf, log)[i] == Answer(f, Decided(reqOf, log[i]), log[i].ok)
    decreases |log|
  {
    if |log| > 1 {
      AnswerAt(f, reqOf, Front(log), if i < |log| - 1 then i else 0);
    }
  }

  /** What a finished goroutine answers is its answer in that run. */
  lemma FinishedAnswersAreThere(f: Form, reqOf: Assignment, events: seq<RC.Event>, id: nat) returns (i: nat)
    requires f.limit.limit > 0 && RC.After(f.limit, events).Some?
    requires var st := RC.After(f.limit, events).value;
             Carries(f, reqOf, st) && id in st.running && st.running[id].phase.Done?
    ensures var st := RC.After(f.limit, events).value;
            && i < |st.log| && st.log[i].id == id
            && |Outcomes(f, RunOf(reqOf, st.log))| == |st.log|
            && Outcomes(f, RunOf(reqOf, st.log))[i] ==
               Answer(f, Decided(reqOf, st.log[i]), st.running[id].phase.answer)
  {
    var st := RC.After(f.limit, events).value;
    RC.Reachable(f.limit, events);
    assert RC.Settled(st, id);
    var j :| 0 <= j < |st.log| && st.log[j].id == id && st.log[j].call.key == st.running[id].key
             && st.log[j].ok == st.running[id].phase.answer;
    i := j;
    HandlersSerialize(f, reqOf, events);
    AnswerAt(f, reqOf, st.log, i);
  }

  /** So what holds of runs holds of handlers side by side: one caller's allowance, for one. */
  lemma ConcurrentMailIsBounded(f: Form, reqOf: Assignment, events: seq<RC.Event>, key: string, from: int, k: nat)
    requires f.limit.limit > 0 && f.limit.period >= 0 && RC.After(f.limit, events).Some?
    requires Carries(f, reqOf, RC.After(f.limit, events).value)
    ensures AttemptsIn(f, RunOf(reqOf, RC.After(f.limit, events).value.log), key, from, PeriodsAfter(f, from, k))
            <= Allowance(f, k)
  {
    HandlersSerialize(f, reqOf, events);
    MailIsBounded(f, RunOf(reqOf, RC.After(f.limit, events).value.log), key, from, k);
  }
}

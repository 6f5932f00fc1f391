/** internal/server/server.go and access.go as one transition: route a request, let the form or one of
    the service's own handlers answer it, and write the access line. */
module Service {
  import opened Wrappers
  import opened Contact
  import opened Handler
  import opened Http
  import opened Wording
  import opened FormRuns
  import C = Config
  import Text
  import RL = RateLimit

  const FORM_PREFIX := "/contact/"
  const DEFAULT_PATH := "/contact"
  const HEALTH_PATH := "/healthz"

  // ---- routes ----

  type Routes = map<string, nat>

  function PatternsOf(id: string): seq<string> {
    if id == C.DEFAULT_FORM_ID then [FORM_PREFIX + id, DEFAULT_PATH] else [FORM_PREFIX + id]
  }

  /** Registering the patterns of one form; the mux panics on a pattern it already holds. */
  function Register(routes: Routes, patterns: seq<string>, form: nat): Option<Routes>
    decreases |patterns|
  {
    if patterns == [] then Some(routes)
    else if patterns[0] in routes then None
    else Register(routes[patterns[0] := form], patterns[1..], form)
  }

  /** The routes of the forms, in order; None where the mux would have panicked. */
  function RoutesFor(ids: seq<string>): Option<Routes> {
    if ids == [] then Some(map[])
    else
      match RoutesFor(Front(ids))
      case None => None
      case Some(routes) => Register(routes, PatternsOf(Last(ids)), |ids| - 1)
  }

  /** Pairwise different, and none the empty id whose pattern would be the catch-all. */
  predicate DistinctIds(ids: seq<string>) {
    && (forall i, j :: 0 <= i < j < |ids| ==> ids[i] != ids[j])
    && "" !in ids
  }

  predicate Serves(id: string, path: string) {
    path == FORM_PREFIX + id || (path == DEFAULT_PATH && id == C.DEFAULT_FORM_ID)
  }

  /** Every registered path is the endpoint of the form it leads to, and every endpoint is there. */
  ghost predicate Fits(ids: seq<string>, routes: Routes) {
    && (forall path :: path in routes ==> routes[path] < |ids| && Serves(ids[routes[path]], path))
    && (forall path, i :: 0 <= i < |ids| && Serves(ids[i], path) ==> path in routes && routes[path] == i)
  }

  lemma PrefixCancels(a: string, b: string)
    ensures FORM_PREFIX + a == FORM_PREFIX + b ==> a == b
  {
    assert (FORM_PREFIX + a)[|FORM_PREFIX|..] == a;
    assert (FORM_PREFIX + b)[|FORM_PREFIX|..] == b;
  }

  lemma DifferentIdsServeApart(a: string, b: string, path: string)
    requires Serves(a, path) && Serves(b, path)
    ensures a == b
  {
    PrefixCancels(a, b);
  }

  lemma RegisterForm(ids: seq<string>, routes: Routes, id: string)
    requires Fits(ids, routes) && id !in ids
    ensures Register(routes, PatternsOf(id), |ids|).Some?
    ensures Fits(ids + [id], Register(routes, PatternsOf(id), |ids|).value)
  {
    forall path | Serves(id, path)
      ensures path !in routes
    {
      if path in routes {
        DifferentIdsServeApart(ids[routes[path]], id, path);
      }
    }
    var all := ids + [id];
    var n := |ids|;
    var own := FORM_PREFIX + id;
    assert Serves(id, own);
    var one := routes[own := n];
    assert PatternsOf(id)[0] == own;
    var result := if id == C.DEFAULT_FORM_ID then one[DEFAULT_PATH := n] else one;
    if id == C.DEFAULT_FORM_ID {
      assert Serves(id, DEFAULT_PATH) && |own| > |DEFAULT_PATH|;
      assert PatternsOf(id)[1..] == [DEFAULT_PATH] && [DEFAULT_PATH][1..] == [];
      assert Register(one, [DEFAULT_PATH], n) == Some(result);
    } else {
      assert PatternsOf(id)[1..] == [];
    }
    assert Register(routes, PatternsOf(id), n) == Some(result);
    forall path, i | 0 <= i < |all| && Serves(all[i], path)
      ensures path in result && result[path] == i
    {
      if i < n {
        assert path in routes && !Serves(id, path);
      }
    }
  }

  /** Distinct ids never collide, the catch-all and the health check stay free, and a path leads to
      exactly the form whose endpoint it is, `/contact` being the default form's second one. */
  lemma {:induction false} DistinctIdsRoute(ids: seq<string>)
    requires DistinctIds(ids)
    ensures RoutesFor(ids).Some? && Fits(ids, RoutesFor(ids).value)
    ensures FORM_PREFIX !in RoutesFor(ids).value && HEALTH_PATH !in RoutesFor(ids).value
  {
    if ids != [] {
      DistinctIdsRoute(Front(ids));
      RegisterForm(Front(ids), RoutesFor(Front(ids)).value, Last(ids));
      assert Front(ids) + [Last(ids)] == ids;
    }
    NothingElseIsRouted(ids, RoutesFor(ids).value);
  }

  lemma OtherPathsAreFree(id: string)
    requires id != ""
    ensures !Serves(id, FORM_PREFIX) && !Serves(id, HEALTH_PATH)
  {
    var pattern := FORM_PREFIX + id;
    assert |pattern| > |FORM_PREFIX|;
    assert pattern[1] == 'c' && HEALTH_PATH[1] == 'h';
  }

  lemma NothingElseIsRouted(ids: seq<string>, routes: Routes)
    requires "" !in ids && Fits(ids, routes)
    ensures FORM_PREFIX !in routes && HEALTH_PATH !in routes
  {
    forall id | id in ids
      ensures !Serves(id, FORM_PREFIX) && !Serves(id, HEALTH_PATH)
    {
      OtherPathsAreFree(id);
    }
  }

  // ---- one request ----

  /** The wired service: its forms and which form each registered path leads to. */
  datatype Wiring = Wiring(forms: seq<Form>, routes: Routes)

  predicate Routable(v: Wiring) {
    forall path :: path in v.routes ==> v.routes[path] < |v.forms|
  }

  datatype Target = FormAt(i: nat) | NoSuchForm | Health | Unclaimed

  /** Exact patterns first, then the catch-all below /contact/. */
  function Route(v: Wiring, path: string): Target {
    if path in v.routes then FormAt(v.routes[path])
    else if FORM_PREFIX <= path then NoSuchForm
    else if path == HEALTH_PATH then Health
    else Unclaimed
  }

  const NOT_FOUND := Outcome(Response(404, map[], []), [], [], [])

  /** What the service's own handlers answer; `Unclaimed` is the mux's own 404. */
  function OwnAnswer(target: Target): Outcome {
    match target
    case NoSuchForm => Outcome(Json(404, map[], Plain(UnknownForm)), [Reason("", 404, Refused(UnknownForm))], [], [])
    case Health => Outcome(Json(200, map[], StatusBody(Alive)), [], [], [])
    case _ => NOT_FOUND
  }

  type Tables = seq<RL.Table>

  datatype Served = Served(tables: Tables, outcome: Outcome)

  function Serve(v: Wiring, ts: Tables, r: Request): Served
    requires Routable(v) && |ts| == |v.forms|
  {
    match Route(v, r.path)
    case FormAt(i) =>
      var e := React(v.forms[i], ts[i], r);
      Served(ts[i := e.table], e.outcome)
    case other => Served(ts, OwnAnswer(other))
  }

  /** The handler's reason lines, then the access line. */
  function LogOf(r: Request, o: Outcome): seq<LogLine> {
    o.lines + [Access(r.verb, r.path, o.response.status)]
  }

  lemma LogGrows(before: seq<LogLine>, r: Request, o: Outcome)
    ensures before + o.lines + [Access(r.verb, r.path, o.response.status)] == before + LogOf(r, o)
  {
  }

  lemma LogAppends(a: seq<LogLine>, b: seq<LogLine>, c: seq<LogLine>)
    ensures a + b + c == a + (b + c)
  {
  }

  // ---- whole runs ----

  function TablesAfter(v: Wiring, reqs: seq<Request>): (ts: Tables)
    requires Routable(v)
    ensures |ts| == |v.forms|
  {
    if reqs == [] then seq(|v.forms|, _ => map[]) else Serve(v, TablesAfter(v, Front(reqs)), Last(reqs)).tables
  }

  function ServiceOutcomes(v: Wiring, reqs: seq<Request>): (os: seq<Outcome>)
    requires Routable(v)
    ensures |os| == |reqs|
  {
    if reqs == [] then []
    else ServiceOutcomes(v, Front(reqs)) + [Serve(v, TablesAfter(v, Front(reqs)), Last(reqs)).outcome]
  }

  /** The lines a run leaves in the log. */
  function LogOfRun(reqs: seq<Request>, os: seq<Outcome>): seq<LogLine>
    requires |os| == |reqs|
  {
    if reqs == [] then [] else LogOfRun(Front(reqs), Front(os)) + LogOf(Last(reqs), Last(os))
  }

  function ResponsesOf(os: seq<Outcome>): seq<Response> {
    if os == [] then [] else ResponsesOf(Front(os)) + [Last(os).response]
  }

  lemma RunSnoc(v: Wiring, reqs: seq<Request>, r: Request, e: Served)
    requires Routable(v) && e == Serve(v, TablesAfter(v, reqs), r)
    ensures TablesAfter(v, reqs + [r]) == e.tables
    ensures ServiceOutcomes(v, reqs + [r]) == ServiceOutcomes(v, reqs) + [e.outcome]
    ensures ResponsesOf(ServiceOutcomes(v, reqs + [r])) == ResponsesOf(ServiceOutcomes(v, reqs)) + [e.outcome.response]
    ensures LogOfRun(reqs + [r], ServiceOutcomes(v, reqs + [r])) ==
            LogOfRun(reqs, ServiceOutcomes(v, reqs)) + LogOf(r, e.outcome)
  {
    var all := reqs + [r];
    assert Front(all) == reqs && Last(all) == r;
    var os := ServiceOutcomes(v, reqs) + [e.outcome];
    assert Front(os) == ServiceOutcomes(v, reqs) && Last(os) == e.outcome;
  }

  /** The requests that lead to the i-th form, in order. */
  function RequestsFor(v: Wiring, i: nat, reqs: seq<Request>): seq<Request> {
    if reqs == [] then []
    else RequestsFor(v, i, Front(reqs)) + (if Route(v, Last(reqs).path) == FormAt(i) then [Last(reqs)] else [])
  }

  /** What those requests brought about. */
  function OutcomesFor(v: Wiring, i: nat, reqs: seq<Request>): seq<Outcome>
    requires Routable(v)
  {
    if reqs == [] then []
    else
      OutcomesFor(v, i, Front(reqs)) +
      (if Route(v, Last(reqs).path) == FormAt(i)
       then [Serve(v, TablesAfter(v, Front(reqs)), Last(reqs)).outcome] else [])
  }

  /** A form lives its own life: its table and everything its requests brought about are what the form
      alone would have done with those requests. */
  lemma {:induction false} FormRunsAlone(v: Wiring, i: nat, reqs: seq<Request>)
    requires Routable(v) && i < |v.forms|
    ensures TablesAfter(v, reqs)[i] == TableOf(v.forms[i], RequestsFor(v, i, reqs))
    ensures OutcomesFor(v, i, reqs) == Outcomes(v.forms[i], RequestsFor(v, i, reqs))
  {
    if reqs != [] {
      FormRunsAlone(v, i, Front(reqs));
      var own := RequestsFor(v, i, Front(reqs));
      if Route(v, Last(reqs).path) == FormAt(i) {
        assert Front(own + [Last(reqs)]) == own && Last(own + [Last(reqs)]) == Last(reqs);
      } else {
        assert RequestsFor(v, i, reqs) == own;
      }
    }
  }

  /** Isolation: any two runs with the same requests for a form, whatever else they hold and however
      it is interleaved, leave that form with the same answers, mail, log lines and limiter. */
  lemma Isolation(v: Wiring, i: nat, reqs: seq<Request>, others: seq<Request>)
    requires Routable(v) && i < |v.forms|
    requires RequestsFor(v, i, reqs) == RequestsFor(v, i, others)
    ensures TablesAfter(v, reqs)[i] == TablesAfter(v, others)[i]
    ensures OutcomesFor(v, i, reqs) == OutcomesFor(v, i, others)
  {
    FormRunsAlone(v, i, reqs);
    FormRunsAlone(v, i, others);
  }

  /** In particular every request to another form can be deleted from the run. */
  lemma {:induction false} DeletingOthersKeepsOwn(v: Wiring, i: nat, reqs: seq<Request>)
    ensures RequestsFor(v, i, RequestsFor(v, i, reqs)) == RequestsFor(v, i, reqs)
  {
    if reqs != [] {
      DeletingOthersKeepsOwn(v, i, Front(reqs));
      var own := RequestsFor(v, i, Front(reqs));
      if Route(v, Last(reqs).path) == FormAt(i) {
        assert Front(own + [Last(reqs)]) == own && Last(own + [Last(reqs)]) == Last(reqs);
      } else {
        assert RequestsFor(v, i, reqs) == own;
      }
    }
  }

  /** The same request by another path to the same place. */
  predicate SamePlace(v: Wiring, a: Request, b: Request) {
    b == a.(path := b.path) && Route(v, a.path) == Route(v, b.path)
  }

  /** `/contact` and `/contact/default` are one endpoint over one limiter: swapping them anywhere in a
      run changes no answer, no mail and no later decision. */
  lemma {:induction false} AliasesShareState(v: Wiring, reqs: seq<Request>, others: seq<Request>)
    requires Routable(v) && |reqs| == |others|
    requires forall j :: 0 <= j < |reqs| ==> SamePlace(v, reqs[j], others[j])
    ensures TablesAfter(v, reqs) == TablesAfter(v, others)
    ensures ServiceOutcomes(v, reqs) == ServiceOutcomes(v, others)
  {
    if reqs != [] {
      AliasesShareState(v, Front(reqs), Front(others));
      PathIsNotRead(v, TablesAfter(v, Front(reqs)), Last(reqs), Last(others));
    }
  }

  lemma PathIsNotRead(v: Wiring, ts: Tables, a: Request, b: Request)
    requires Routable(v) && |ts| == |v.forms| && SamePlace(v, a, b)
    ensures Serve(v, ts, a) == Serve(v, ts, b)
  {
  }

  lemma DefaultHasTwoPaths(ids: seq<string>, routes: Routes)
    requires Fits(ids, routes) && C.DEFAULT_FORM_ID in ids
    ensures DEFAULT_PATH in routes && FORM_PREFIX + C.DEFAULT_FORM_ID in routes
    ensures routes[DEFAULT_PATH] == routes[FORM_PREFIX + C.DEFAULT_FORM_ID]
  {
    var i :| 0 <= i < |ids| && ids[i] == C.DEFAULT_FORM_ID;
    assert Serves(ids[i], DEFAULT_PATH) && Serves(ids[i], FORM_PREFIX + C.DEFAULT_FORM_ID);
  }

  // ---- the honeypot ----

  /** The run with some requests' payloads replaced. */
  function Swapped(reqs: seq<Request>, swaps: seq<Option<Submission>>): (rs: seq<Request>)
    requires |reqs| == |swaps|
    ensures |rs| == |reqs|
  {
    seq(|reqs|, i requires 0 <= i < |reqs| =>
      if swaps[i].Some? then reqs[i].(payload := swaps[i]) else reqs[i])
  }

  /** Every replacement fills the honeypot and replaces a submission that was delivered. */
  predicate ReplacesDelivered(v: Wiring, reqs: seq<Request>, swaps: seq<Option<Submission>>)
    requires Routable(v) && |reqs| == |swaps|
  {
    forall i :: 0 <= i < |reqs| && swaps[i].Some? ==>
      !Text.Blank(swaps[i].value.website) && ServiceOutcomes(v, reqs)[i].outbox != []
  }

  /** Dropped instead of delivered: same answer, no mail, another reason in the log. */
  predicate SilentlyDropped(delivered: Outcome, dropped: Outcome) {
    && dropped.response == delivered.response
    && dropped.attempts == [] && dropped.outbox == []
    && |dropped.lines| == 1 && dropped.lines[0].Reason? && dropped.lines[0].cause == Honeypot
  }

  lemma DroppingIsInvisible(f: Form, t: RL.Table, r: Request, s: Submission)
    requires React(f, t, r).outcome.outbox != [] && !Text.Blank(s.website)
    ensures React(f, t, r.(payload := Some(s))).table == React(f, t, r).table
    ensures SilentlyDropped(React(f, t, r).outcome, React(f, t, r.(payload := Some(s))).outcome)
  {
    StatusTable(f, t, r);
    OneRequest(f, t, r);
  }

  lemma ServedByForm(v: Wiring, ts: Tables, r: Request, i: nat, e: Reaction)
    requires Routable(v) && |ts| == |v.forms| && Route(v, r.path) == FormAt(i) && e == React(v.forms[i], ts[i], r)
    ensures Serve(v, ts, r) == Served(ts[i := e.table], e.outcome)
  {
  }

  lemma OwnAnswersSendNothing(v: Wiring, ts: Tables, r: Request)
    requires Routable(v) && |ts| == |v.forms| && !Route(v, r.path).FormAt?
    ensures Serve(v, ts, r).outcome.outbox == []
  {
  }

  /** The same for the service, given how its form reacts to the two. */
  lemma ServedAlike(v: Wiring, ts: Tables, r: Request, r': Request, i: nat, e: Reaction, e': Reaction)
    requires Routable(v) && |ts| == |v.forms| && Route(v, r.path) == FormAt(i) && r'.path == r.path
    requires e == React(v.forms[i], ts[i], r) && e' == React(v.forms[i], ts[i], r')
    requires e'.table == e.table && SilentlyDropped(e.outcome, e'.outcome)
    ensures Serve(v, ts, r').tables == Serve(v, ts, r).tables
    ensures SilentlyDropped(Serve(v, ts, r).outcome, Serve(v, ts, r').outcome)
  {
    ServedByForm(v, ts, r, i, e);
    ServedByForm(v, ts, r', i, e');
  }

  lemma ServedSilently(v: Wiring, ts: Tables, r: Request, s: Submission)
    requires Routable(v) && |ts| == |v.forms|
    requires Serve(v, ts, r).outcome.outbox != [] && !Text.Blank(s.website)
    ensures Serve(v, ts, r.(payload := Some(s))).tables == Serve(v, ts, r).tables
    ensures SilentlyDropped(Serve(v, ts, r).outcome, Serve(v, ts, r.(payload := Some(s))).outcome)
  {
    if !Route(v, r.path).FormAt? {
      OwnAnswersSendNothing(v, ts, r);
    } else {
      var i, r' := Route(v, r.path).i, r.(payload := Some(s));
      var e, e' := React(v.forms[i], ts[i], r), React(v.forms[i], ts[i], r');
      ServedByForm(v, ts, r, i, e);
      DroppingIsInvisible(v.forms[i], ts[i], r, s);
      ServedAlike(v, ts, r, r', i, e, e');
    }
  }

  /** What the i-th request brings about in the two runs. */
  predicate LooksTheSame(swap: Option<Submission>, a: Outcome, b: Outcome) {
    if swap.Some? then SilentlyDropped(a, b) else a == b
  }

  lemma LastLooksTheSame(v: Wiring, ts: Tables, r: Request, swap: Option<Submission>)
    requires Routable(v) && |ts| == |v.forms|
    requires swap.Some? ==> Serve(v, ts, r).outcome.outbox != [] && !Text.Blank(swap.value.website)
    ensures var r' := if swap.Some? then r.(payload := swap) else r;
            && Serve(v, ts, r').tables == Serve(v, ts, r).tables
            && LooksTheSame(swap, Serve(v, ts, r).outcome, Serve(v, ts, r').outcome)
  {
    if swap.Some? {
      ServedSilently(v, ts, r, swap.value);
    }
  }

  predicate LookAlike(swaps: seq<Option<Submission>>, as': seq<Outcome>, bs: seq<Outcome>) {
    && |as'| == |bs| == |swaps|
    && forall i :: 0 <= i < |swaps| ==> LooksTheSame(swaps[i], as'[i], bs[i])
  }

  lemma LookAlikeSnoc(swaps: seq<Option<Submission>>, as': seq<Outcome>, bs: seq<Outcome>, a: Outcome, b: Outcome)
    requires swaps != [] && LookAlike(Front(swaps), as', bs) && LooksTheSame(Last(swaps), a, b)
    ensures LookAlike(swaps, as' + [a], bs + [b])
  {
  }

  lemma ReplacesDeliveredFront(v: Wiring, reqs: seq<Request>, swaps: seq<Option<Submission>>)
    requires Routable(v) && reqs != [] && |reqs| == |swaps| && ReplacesDelivered(v, reqs, swaps)
    ensures ReplacesDelivered(v, Front(reqs), Front(swaps))
    ensures Last(swaps).Some? ==> Serve(v, TablesAfter(v, Front(reqs)), Last(reqs)).outcome.outbox != []
                                  && !Text.Blank(Last(swaps).value.website)
    ensures Front(Swapped(reqs, swaps)) == Swapped(Front(reqs), Front(swaps))
  {
    var os := ServiceOutcomes(v, Front(reqs));
    assert forall i :: 0 <= i < |reqs| - 1 ==> os[i] == ServiceOutcomes(v, reqs)[i];
  }

  /** Whoever fills the honeypot cannot tell: replacing any delivered submissions of a run by honeypot
      ones from the same callers leaves every answer, every limiter and every access line of the whole
      run as they were; only the replaced messages are missing and only their reason lines differ. */
  lemma {:induction false} HoneypotIsInvisible(v: Wiring, reqs: seq<Request>, swaps: seq<Option<Submission>>)
    requires Routable(v) && |reqs| == |swaps| && ReplacesDelivered(v, reqs, swaps)
    ensures TablesAfter(v, Swapped(reqs, swaps)) == TablesAfter(v, reqs)
    ensures LookAlike(swaps, ServiceOutcomes(v, reqs), ServiceOutcomes(v, Swapped(reqs, swaps)))
  {
    if reqs != [] {
      var ts := TablesAfter(v, Front(reqs));
      var r, r' := Last(reqs), Last(Swapped(reqs, swaps));
      ReplacesDeliveredFront(v, reqs, swaps);
      HoneypotIsInvisible(v, Front(reqs), Front(swaps));
      LastLooksTheSame(v, ts, r, Last(swaps));
      LookAlikeSnoc(swaps, ServiceOutcomes(v, Front(reqs)), ServiceOutcomes(v, Front(Swapped(reqs, swaps))),
                    Serve(v, ts, r).outcome, Serve(v, ts, r').outcome);
    }
  }

  // ---- one answer, one account ----

  /** How many reason lines a request owes: one to every form request but a preflight, and one to a
      path below /contact/ that no form has. */
  function ReasonsOwed(v: Wiring, r: Request): nat {
    match Route(v, r.path)
    case FormAt(_) => if r.verb == OPTIONS then 0 else 1
    case NoSuchForm => 1
    case _ => 0
  }

  /** The reason lines owed, each carrying the status of the answer. */
  predicate Accounts(owed: nat, o: Outcome) {
    |o.lines| == owed && forall line :: line in o.lines ==> line.Reason? && line.status == o.response.status
  }

  /** Every request leaves the reason lines it owes, each carrying the status it was answered with, and
      then exactly one access line, carrying that status too. */
  lemma OneAccount(v: Wiring, ts: Tables, r: Request)
    requires Routable(v) && |ts| == |v.forms|
    ensures Accounts(ReasonsOwed(v, r), Serve(v, ts, r).outcome)
  {
    if Route(v, r.path).FormAt? {
      FormAccounts(v.forms[Route(v, r.path).i], ts[Route(v, r.path).i], r);
    } else {
      OwnAnswersAccount(Route(v, r.path));
    }
  }

  /** What the service answers where no form has the path: an unknown form below /contact/, a sign of life,
      and otherwise nothing found. No form is touched. */
  lemma OtherPathsAreAnswered(v: Wiring, ids: seq<string>, ts: Tables, r: Request)
    requires Routable(v) && |ts| == |v.forms| && |ids| == |v.forms| && Fits(ids, v.routes)
    requires forall id :: id in ids ==> !Serves(id, r.path)
    ensures var e := Serve(v, ts, r);
            && e.tables == ts && e.outcome.attempts == [] && e.outcome.outbox == []
            && ("/contact/" <= r.path ==>
                  e.outcome.response == Response(404, map[ContentType := JsonUtf8], [ErrorBody(UnknownForm, None)])
                  && e.outcome.lines == [Reason("", 404, Refused(UnknownForm))])
            && (r.path == "/healthz" ==>
                  e.outcome.response == Response(200, map[ContentType := JsonUtf8], [StatusBody(Alive)])
                  && e.outcome.lines == [])
            && (!("/contact/" <= r.path) && r.path != "/healthz" ==>
                  e.outcome.response.status == 404 && e.outcome.lines == [])
  {
    assert r.path !in v.routes;
  }

  /** The access lines of a log. */
  function AccessLines(lines: seq<LogLine>): seq<LogLine> {
    if lines == [] then []
    else AccessLines(Front(lines)) + (if Last(lines).Access? then [Last(lines)] else [])
  }

  lemma {:induction false} NoAccessLines(before: seq<LogLine>, lines: seq<LogLine>)
    requires forall line :: line in lines ==> line.Reason?
    ensures AccessLines(before + lines) == AccessLines(before)
  {
    if lines == [] {
      assert before + lines == before;
    } else {
      NoAccessLines(before, Front(lines));
      assert Front(before + lines) == before + Front(lines) && Last(before + lines) == Last(lines);
      assert Last(lines) in lines;
    }
  }

  lemma OneMoreAccessLine(before: seq<LogLine>, lines: seq<LogLine>, line: LogLine)
    requires (forall l :: l in lines ==> l.Reason?) && line.Access?
    ensures AccessLines(before + (lines + [line])) == AccessLines(before) + [line]
  {
    NoAccessLines(before, lines);
    var all := before + (lines + [line]);
    assert Front(all) == before + lines && Last(all) == line;
  }

  /** One access line for each request of a run, in order, with its method, its path and the status it was
      answered with, and no other. */
  predicate AccessLogOf(reqs: seq<Request>, os: seq<Outcome>, lines: seq<LogLine>) {
    && |lines| == |reqs| == |os|
    && forall i :: 0 <= i < |reqs| ==> lines[i] == Access(reqs[i].verb, reqs[i].path, os[i].response.status)
  }

  lemma AccessLogSnoc(reqs: seq<Request>, os: seq<Outcome>, lines: seq<LogLine>, r: Request, o: Outcome)
    requires AccessLogOf(reqs, os, lines)
    ensures AccessLogOf(reqs + [r], os + [o], lines + [Access(r.verb, r.path, o.response.status)])
  {
  }

  /** Whatever a run's handlers log, its access lines are one for each request. */
  lemma {:induction false} EveryAnswerIsLoggedOnce(v: Wiring, reqs: seq<Request>)
    requires Routable(v)
    ensures AccessLogOf(reqs, ServiceOutcomes(v, reqs), AccessLines(LogOfRun(reqs, ServiceOutcomes(v, reqs))))
  {
    if reqs != [] {
      var front, r := Front(reqs), Last(reqs);
      var ts, before := TablesAfter(v, front), ServiceOutcomes(v, front);
      var e := Serve(v, ts, r);
      EveryAnswerIsLoggedOnce(v, front);
      OneAccount(v, ts, r);
      assert front + [r] == reqs;
      RunSnoc(v, front, r, e);
      OneMoreAccessLine(LogOfRun(front, before), e.outcome.lines, Access(r.verb, r.path, e.outcome.response.status));
      AccessLogSnoc(front, before, AccessLines(LogOfRun(front, before)), r, e.outcome);
    }
  }

  lemma OwnAnswersAccount(target: Target)
    requires !target.FormAt?
    ensures Accounts(if target == NoSuchForm then 1 else 0, OwnAnswer(target))
  {
  }

  lemma JudgedAccounts(f: Form, h: Headers, verdict: Result<Message, Rejection>, sendOk: bool)
    ensures Accounts(1, Judged(f, h, verdict, sendOk))
  {
  }

  lemma RefusalAccounts(id: string, h: Headers, status: int, body: Body)
    requires body.ErrorBody?
    ensures Accounts(1, Refusal(id, h, status, body))
  {
  }

  lemma ProcessAccounts(f: Form, h: Headers, r: Request)
    ensures Accounts(1, Process(f, h, r))
  {
    if r.payload.Some? {
      JudgedAccounts(f, h, Validate(f.parse, r.payload.value), r.sendOk);
    } else {
      RefusalAccounts(f.id, h, 400, Plain(UnreadableSubmission));
    }
  }

  lemma TurnedAwayAccounts(f: Form, r: Request)
    requires !ReachesLimiter(f, r)
    ensures Accounts(if r.verb == OPTIONS then 0 else 1, TurnedAway(f, r))
  {
  }

  lemma FormAccounts(f: Form, t: RL.Table, r: Request)
    ensures Accounts(if r.verb == OPTIONS then 0 else 1, React(f, t, r).outcome)
  {
    if !ReachesLimiter(f, r) {
      TurnedAwayAccounts(f, r);
    } else {
      ProcessAccounts(f, CorsHeaders(f, r.origin), r);
      RefusalAccounts(f.id, CorsHeaders(f, r.origin), 429, Plain(TooManySubmissions));
    }
  }
}

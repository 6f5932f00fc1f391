/** Whole runs of one form: what every request together did to the limiter, the mailer and the log. */
module FormRuns {
  import opened Wrappers
  import opened Contact
  import opened Handler
  import opened Http
  import opened Wording
  import Text
  import RL = RateLimit
  import H = RateLimitHistory

  function Front<T>(xs: seq<T>): seq<T>
    requires xs != []
  {
    xs[..|xs| - 1]
  }

  function Last<T>(xs: seq<T>): T
    requires xs != []
  {
    xs[|xs| - 1]
  }

  function TableOf(f: Form, reqs: seq<Request>): RL.Table {
    if reqs == [] then map[] else React(f, TableOf(f, Front(reqs)), Last(reqs)).table
  }

  function OutcomeOfLast(f: Form, reqs: seq<Request>): Outcome
    requires reqs != []
  {
    React(f, TableOf(f, Front(reqs)), Last(reqs)).outcome
  }

  function Outcomes(f: Form, reqs: seq<Request>): (os: seq<Outcome>)
    ensures |os| == |reqs|
  {
    if reqs == [] then [] else Outcomes(f, Front(reqs)) + [OutcomeOfLast(f, reqs)]
  }

  // ---- the limiter's share of a run ----

  /** The calls a run makes on the form's limiter. */
  function LimiterCalls(f: Form, reqs: seq<Request>): seq<RL.Call> {
    if reqs == [] then []
    else LimiterCalls(f, Front(reqs)) + (if ReachesLimiter(f, Last(reqs)) then [LimiterCall(f, Last(reqs))] else [])
  }

  /** The form's table is the limiter's history of the requests that reached it; preflights, wrong
      methods and refused origins leave no trace there. */
  lemma {:induction false} TableIsLimiterHistory(f: Form, reqs: seq<Request>)
    ensures TableOf(f, reqs) == RL.TableAfter(f.limit, LimiterCalls(f, reqs))
  {
    if reqs != [] {
      TableIsLimiterHistory(f, Front(reqs));
      if ReachesLimiter(f, Last(reqs)) {
        RL.HistorySnoc(f.limit, LimiterCalls(f, Front(reqs)), LimiterCall(f, Last(reqs)));
      } else {
        assert LimiterCalls(f, reqs) == LimiterCalls(f, Front(reqs));
      }
    }
  }

  /** Requests that reach the limiter carry a clock that never ran backwards. */
  predicate ClockedRun(f: Form, reqs: seq<Request>) {
    RL.Monotone(LimiterCalls(f, reqs))
  }

  // ---- conservation ----

  function WithStatus(os: seq<Outcome>, status: int): nat {
    if os == [] then 0 else WithStatus(Front(os), status) + H.One(Last(os).response.status == status)
  }

  predicate LogsHoneypot(o: Outcome) {
    |o.lines| == 1 && o.lines[0].Reason? && o.lines[0].cause == Honeypot
  }

  /** Submissions logged as dropped by the honeypot. */
  function Dropped(os: seq<Outcome>): nat {
    if os == [] then 0 else Dropped(Front(os)) + H.One(LogsHoneypot(Last(os)))
  }

  function Attempts(os: seq<Outcome>): seq<Message> {
    if os == [] then [] else Attempts(Front(os)) + Last(os).attempts
  }

  function Outbox(os: seq<Outcome>): seq<Message> {
    if os == [] then [] else Outbox(Front(os)) + Last(os).outbox
  }

  function Approvals(ds: seq<bool>): nat {
    if ds == [] then 0 else Approvals(Front(ds)) + H.One(Last(ds))
  }

  /** What one answer says about mail: 502 for a failed send, 202 for a delivered or a dropped one. */
  predicate Tallies(o: Outcome) {
    && |o.attempts| == H.One(o.response.status == 502) + |o.outbox|
    && H.One(o.response.status == 202) == |o.outbox| + H.One(LogsHoneypot(o))
  }

  predicate BeforeLimiter(status: int) {
    status == 204 || status == 403 || status == 405
  }

  predicate BehindLimiter(status: int) {
    status == 400 || status == 422 || status == 202 || status == 500 || status == 502
  }

  lemma TurnedAwayTallies(f: Form, r: Request)
    requires !ReachesLimiter(f, r)
    ensures BeforeLimiter(TurnedAway(f, r).response.status) && Tallies(TurnedAway(f, r))
  {
  }

  lemma JudgedTallies(f: Form, h: Headers, verdict: Result<Message, Rejection>, sendOk: bool)
    ensures BehindLimiter(Judged(f, h, verdict, sendOk).response.status)
    ensures Tallies(Judged(f, h, verdict, sendOk))
  {
  }

  lemma ProcessTallies(f: Form, h: Headers, r: Request)
    ensures BehindLimiter(Process(f, h, r).response.status) && Tallies(Process(f, h, r))
  {
    if r.payload.Some? {
      JudgedTallies(f, h, Validate(f.parse, r.payload.value), r.sendOk);
    }
  }

  function TooMany(f: Form, r: Request): Outcome {
    Refusal(f.id, CorsHeaders(f, r.origin), 429, Plain(TooManySubmissions))
  }

  /** One request, by how far it gets; `processed` is what the pipeline behind the limiter makes of it. */
  predicate Chosen(f: Form, r: Request, admitted: bool, processed: Outcome, o: Outcome) {
    if !ReachesLimiter(f, r) then o == TurnedAway(f, r)
    else if admitted then o == processed
    else o == TooMany(f, r)
  }

  lemma ReactChooses(f: Form, t: RL.Table, r: Request)
    ensures Chosen(f, r, RL.Admits(f.limit, t, LimiterCall(f, r)), Process(f, CorsHeaders(f, r.origin), r),
                   React(f, t, r).outcome)
  {
  }

  lemma ChosenStatus(f: Form, r: Request, admitted: bool, processed: Outcome, o: Outcome)
    requires Chosen(f, r, admitted, processed, o)
    requires BehindLimiter(processed.response.status) && Tallies(processed)
    ensures var status := o.response.status;
            && (!ReachesLimiter(f, r) <==> BeforeLimiter(status))
            && (ReachesLimiter(f, r) && !admitted <==> status == 429)
            && (ReachesLimiter(f, r) && admitted <==> BehindLimiter(status))
            && Tallies(o)
  {
    if !ReachesLimiter(f, r) {
      TurnedAwayTallies(f, r);
    }
  }

  /** How one request is answered, by how far it gets. */
  lemma OneRequest(f: Form, t: RL.Table, r: Request)
    ensures var o := React(f, t, r).outcome;
            var status := o.response.status;
            && (!ReachesLimiter(f, r) <==> BeforeLimiter(status))
            && (ReachesLimiter(f, r) && !RL.Admits(f.limit, t, LimiterCall(f, r)) <==> status == 429)
            && (ReachesLimiter(f, r) && RL.Admits(f.limit, t, LimiterCall(f, r)) <==> BehindLimiter(status))
            && Tallies(o)
  {
    ReactChooses(f, t, r);
    ProcessTallies(f, CorsHeaders(f, r.origin), r);
    ChosenStatus(f, r, RL.Admits(f.limit, t, LimiterCall(f, r)), Process(f, CorsHeaders(f, r.origin), r),
                 React(f, t, r).outcome);
  }

  lemma StatusSnoc(os: seq<Outcome>, o: Outcome, status: int)
    ensures WithStatus(os + [o], status) == WithStatus(os, status) + H.One(o.response.status == status)
  {
    assert Front(os + [o]) == os && Last(os + [o]) == o;
  }

  lemma MailSnoc(os: seq<Outcome>, o: Outcome)
    ensures Dropped(os + [o]) == Dropped(os) + H.One(LogsHoneypot(o))
    ensures Attempts(os + [o]) == Attempts(os) + o.attempts
    ensures Outbox(os + [o]) == Outbox(os) + o.outbox
  {
    assert Front(os + [o]) == os && Last(os + [o]) == o;
  }

  lemma ApprovalsSnoc(s: RL.Settings, calls: seq<RL.Call>, c: RL.Call)
    ensures Approvals(RL.Decisions(s, calls + [c]))
            == Approvals(RL.Decisions(s, calls)) + H.One(RL.Admits(s, RL.TableAfter(s, calls), c))
  {
    RL.HistorySnoc(s, calls, c);
    var ds, d := RL.Decisions(s, calls), RL.Admits(s, RL.TableAfter(s, calls), c);
    assert Front(ds + [d]) == ds && Last(ds + [d]) == d;
  }

  // ---- what each answer means ----

  predicate PassesLimiter(f: Form, t: RL.Table, r: Request) {
    ReachesLimiter(f, r) && RL.Admits(f.limit, t, LimiterCall(f, r))
  }

  /** What became of the payload: nothing decoded, a rejection, or a message. */
  function VerdictOn(f: Form, r: Request): Option<Result<Message, Rejection>> {
    if r.payload.None? then None else Some(Validate(f.parse, r.payload.value))
  }

  predicate Malformed(v: Option<Result<Message, Rejection>>) {
    v.None?
  }

  predicate Spammy(v: Option<Result<Message, Rejection>>) {
    v == Some(Err(Spam))
  }

  predicate Rejected(v: Option<Result<Message, Rejection>>) {
    v.Some? && v.value.Err? && v.value.error.Invalid?
  }

  predicate Sendable(v: Option<Result<Message, Rejection>>) {
    v.Some? && v.value.Ok?
  }

  function Rendered(f: Form, m: Message): Option<string> {
    f.subject(m.name, m.email, f.id)
  }

  /** The documented meaning of the statuses behind the limiter, read both ways. */
  predicate AnswersVerdict(f: Form, h: Headers, v: Option<Result<Message, Rejection>>, sendOk: bool, o: Outcome) {
    var status := o.response.status;
    && (status == 400 <==> Malformed(v))
    && (status == 422 <==> Rejected(v))
    && (status == 500 <==> Sendable(v) && Rendered(f, v.value.value).None?)
    && (status == 502 <==> Sendable(v) && Rendered(f, v.value.value).Some? && !sendOk)
    && (status == 202 <==> Spammy(v) || (Sendable(v) && Rendered(f, v.value.value).Some? && sendOk))
    && o.response.headers == h[ContentType := JsonUtf8]
    && |o.response.body| == 1
    && (status == 422 ==>
          o.response.body == [ErrorBody(InvalidSubmission, Some((v.value.error.field, v.value.error.reason)))])
  }

  /** What reaches the mailer is the validated message under the rendered subject, stripped of line
      breaks, and nothing else does. */
  predicate MailsVerdict(f: Form, v: Option<Result<Message, Rejection>>, sendOk: bool, o: Outcome) {
    && (o.attempts != [] <==> Sendable(v) && Rendered(f, v.value.value).Some?)
    && (o.attempts != [] ==>
          o.attempts == [v.value.value.(subject := Text.StripBreaks(Rendered(f, v.value.value).value))])
    && o.outbox == if sendOk then o.attempts else []
  }

  lemma JudgedMeans(f: Form, h: Headers, verdict: Result<Message, Rejection>, sendOk: bool)
    ensures AnswersVerdict(f, h, Some(verdict), sendOk, Judged(f, h, verdict, sendOk))
    ensures MailsVerdict(f, Some(verdict), sendOk, Judged(f, h, verdict, sendOk))
  {
  }

  lemma ProcessMeans(f: Form, h: Headers, r: Request)
    ensures AnswersVerdict(f, h, VerdictOn(f, r), r.sendOk, Process(f, h, r))
    ensures MailsVerdict(f, VerdictOn(f, r), r.sendOk, Process(f, h, r))
  {
    if r.payload.Some? {
      JudgedMeans(f, h, Validate(f.parse, r.payload.value), r.sendOk);
    }
  }

  /** The documented status table: 204, 405, 403 and 429 each in its own case, and everything else
      only past the limiter, where the answer follows the verdict on the payload. */
  lemma StatusTable(f: Form, t: RL.Table, r: Request)
    ensures var o := React(f, t, r).outcome;
            && (o.response.status == 204 <==> r.verb == OPTIONS)
            && (o.response.status == 405 <==> r.verb != OPTIONS && r.verb != POST)
            && (o.response.status == 403 <==> r.verb == POST && r.origin !in f.origins)
            && (o.response.status == 429 <==> ReachesLimiter(f, r) && !PassesLimiter(f, t, r))
            && (PassesLimiter(f, t, r) ==>
                  && AnswersVerdict(f, CorsHeaders(f, r.origin), VerdictOn(f, r), r.sendOk, o)
                  && MailsVerdict(f, VerdictOn(f, r), r.sendOk, o))
            && (!PassesLimiter(f, t, r) ==> o.attempts == [] && o.outbox == [])
  {
    OneRequest(f, t, r);
    if PassesLimiter(f, t, r) {
      ProcessMeans(f, CorsHeaders(f, r.origin), r);
    }
  }

  /** Within every bound, and under a subject that cannot break out of its header. */
  predicate SafeToSend(parse: AddressParser, m: Message) {
    Deliverable(parse, m.(subject := "")) && Text.BreakFree(m.subject)
  }

  lemma VerdictMailIsSafe(f: Form, v: Option<Result<Message, Rejection>>, sendOk: bool, o: Outcome)
    requires MailsVerdict(f, v, sendOk, o)
    requires Sendable(v) ==> Deliverable(f.parse, v.value.value)
    ensures forall m :: m in o.attempts ==> SafeToSend(f.parse, m)
  {
    if o.attempts != [] {
      assert o.attempts[0].(subject := "") == v.value.value;
    }
  }

  lemma SendableIsDeliverable(f: Form, r: Request)
    ensures Sendable(VerdictOn(f, r)) ==> Deliverable(f.parse, VerdictOn(f, r).value.value)
  {
    if Sendable(VerdictOn(f, r)) {
      AcceptedIsDeliverable(f.parse, r.payload.value);
    }
  }

  lemma ProcessMails(f: Form, h: Headers, r: Request)
    ensures forall m :: m in Process(f, h, r).attempts ==> SafeToSend(f.parse, m)
  {
    ProcessMeans(f, h, r);
    SendableIsDeliverable(f, r);
    VerdictMailIsSafe(f, VerdictOn(f, r), r.sendOk, Process(f, h, r));
  }

  /** Every message any request hands to the mailer is safe to send. */
  lemma MailIsSafe(f: Form, t: RL.Table, r: Request)
    ensures forall m :: m in React(f, t, r).outcome.attempts ==> SafeToSend(f.parse, m)
  {
    OneRequest(f, t, r);
    if PassesLimiter(f, t, r) {
      ProcessMails(f, CorsHeaders(f, r.origin), r);
    }
  }

  /** The CORS headers an answer owes an origin. */
  predicate CorsRight(f: Form, origin: string, headers: Headers) {
    && (AllowOrigin in headers <==> origin in f.origins)
    && (origin in f.origins ==> headers[AllowOrigin] == Echo(origin) && Vary in headers && headers[Vary] == OriginName)
  }

  lemma ChosenCors(f: Form, r: Request, admitted: bool, processed: Outcome, o: Outcome)
    requires Chosen(f, r, admitted, processed, o)
    requires processed.response.headers == CorsHeaders(f, r.origin)[ContentType := JsonUtf8]
    ensures CorsRight(f, r.origin, o.response.headers)
  {
  }

  /** A page on another site is never told it may read the answer; one on an allowed site always is. */
  lemma CorsFollowsOrigins(f: Form, t: RL.Table, r: Request)
    ensures CorsRight(f, r.origin, React(f, t, r).outcome.response.headers)
  {
    var h := CorsHeaders(f, r.origin);
    ReactChooses(f, t, r);
    ProcessMeans(f, h, r);
    ChosenCors(f, r, RL.Admits(f.limit, t, LimiterCall(f, r)), Process(f, h, r), React(f, t, r).outcome);
  }

  // ---- what each answer says ----

  /** The headers of an answer besides the two that CORS decides. */
  predicate Carries(o: Outcome, own: Headers) {
    o.response.headers - {AllowOrigin, Vary} == own
  }

  /** An answer that names a problem and gives no detail. */
  predicate Complains(o: Outcome, problem: Problem, own: Headers) {
    o.response.body == [ErrorBody(problem, None)] && Carries(o, own)
  }

  /** One reason line, for this form and with the status of the answer. */
  predicate Explains(o: Outcome, id: string, cause: Cause) {
    o.lines == [Reason(id, o.response.status, cause)]
  }

  /** The answers given before the limiter is asked, word for word. */
  predicate TurnsAwayWith(id: string, o: Outcome) {
    && (o.response.status == 204 ==>
          && o.response.body == [] && o.lines == []
          && Carries(o, map[AllowMethods := PostAndOptions, AllowHeaders := ContentTypeName, MaxAge := OneDay]))
    && (o.response.status == 405 ==>
          && Complains(o, MethodNotAllowed, map[Allow := PostAndOptions, ContentType := JsonUtf8])
          && Explains(o, id, Refused(MethodNotAllowed)))
    && (o.response.status == 403 ==>
          && Complains(o, OriginNotAllowed, map[ContentType := JsonUtf8])
          && Explains(o, id, Refused(OriginNotAllowed)))
  }

  /** The limiter's refusal. */
  predicate LimitsWith(id: string, o: Outcome) {
    o.response.status == 429 ==>
      && Complains(o, TooManySubmissions, map[ContentType := JsonUtf8])
      && Explains(o, id, Refused(TooManySubmissions))
  }

  /** The answers behind the limiter; only a rejected submission is told what to correct. */
  predicate RepliesWith(id: string, v: Option<Result<Message, Rejection>>, o: Outcome) {
    && (o.response.status == 400 ==>
          && Complains(o, UnreadableSubmission, map[ContentType := JsonUtf8])
          && Explains(o, id, Refused(UnreadableSubmission)))
    && (o.response.status == 422 ==>
          && Rejected(v)
          && o.response.body == [ErrorBody(InvalidSubmission, Some((v.value.error.field, v.value.error.reason)))]
          && Carries(o, map[ContentType := JsonUtf8])
          && Explains(o, id, Refused(InvalidSubmission)))
    && (o.response.status == 500 ==>
          Complains(o, CouldNotSend, map[ContentType := JsonUtf8]) && Explains(o, id, NoSubject))
    && (o.response.status == 502 ==>
          Complains(o, CouldNotSend, map[ContentType := JsonUtf8]) && Explains(o, id, SendFailed))
    && (o.response.status == 202 ==>
          && o.response.body == [StatusBody(Accepted)] && Carries(o, map[ContentType := JsonUtf8])
          && Explains(o, id, if Spammy(v) then Honeypot else Sent))
  }

  predicate CorsOnly(h: Headers) {
    h.Keys <= {AllowOrigin, Vary}
  }

  lemma JsonAddsContentType(h: Headers)
    requires CorsOnly(h)
    ensures h[ContentType := JsonUtf8] - {AllowOrigin, Vary} == map[ContentType := JsonUtf8]
  {
  }

  lemma TurnedAwayReplies(f: Form, r: Request)
    requires !ReachesLimiter(f, r)
    ensures TurnsAwayWith(f.id, TurnedAway(f, r))
  {
    var h := CorsHeaders(f, r.origin);
    JsonAddsContentType(h);
    assert h[Allow := PostAndOptions][ContentType := JsonUtf8] - {AllowOrigin, Vary} ==
           map[Allow := PostAndOptions, ContentType := JsonUtf8];
    assert Preflight(h).headers - {AllowOrigin, Vary} ==
           map[AllowMethods := PostAndOptions, AllowHeaders := ContentTypeName, MaxAge := OneDay];
  }

  lemma TooManyReplies(f: Form, r: Request)
    ensures LimitsWith(f.id, TooMany(f, r))
  {
    JsonAddsContentType(CorsHeaders(f, r.origin));
  }

  lemma JudgedReplies(f: Form, h: Headers, verdict: Result<Message, Rejection>, sendOk: bool)
    requires CorsOnly(h)
    ensures RepliesWith(f.id, Some(verdict), Judged(f, h, verdict, sendOk))
  {
    JsonAddsContentType(h);
  }

  lemma ProcessReplies(f: Form, h: Headers, r: Request)
    requires CorsOnly(h)
    ensures RepliesWith(f.id, VerdictOn(f, r), Process(f, h, r))
  {
    if r.payload.Some? {
      JudgedReplies(f, h, Validate(f.parse, r.payload.value), r.sendOk);
    } else {
      JsonAddsContentType(h);
    }
  }

  lemma ChosenReplies(f: Form, r: Request, admitted: bool, processed: Outcome, o: Outcome)
    requires Chosen(f, r, admitted, processed, o)
    requires BehindLimiter(processed.response.status) && RepliesWith(f.id, VerdictOn(f, r), processed)
    ensures TurnsAwayWith(f.id, o) && LimitsWith(f.id, o) && RepliesWith(f.id, VerdictOn(f, r), o)
  {
    if !ReachesLimiter(f, r) {
      TurnedAwayTallies(f, r);
      TurnedAwayReplies(f, r);
    } else {
      TooManyReplies(f, r);
    }
  }

  /** What every answer of a form says, by its status: the body, the headers beyond CORS, and the one
      line in the log. A lost message is never called accepted, and only a 422 names a field. */
  lemma AnswersAreSpelledOut(f: Form, t: RL.Table, r: Request)
    ensures var o := React(f, t, r).outcome;
            TurnsAwayWith(f.id, o) && LimitsWith(f.id, o) && RepliesWith(f.id, VerdictOn(f, r), o)
  {
    var h := CorsHeaders(f, r.origin);
    ReactChooses(f, t, r);
    ProcessTallies(f, h, r);
    ProcessReplies(f, h, r);
    ChosenReplies(f, r, RL.Admits(f.limit, t, LimiterCall(f, r)), Process(f, h, r), React(f, t, r).outcome);
  }

  // ---- what is mailed ----

  /** A message of these parts, under the form's subject for them. */
  predicate MadeOf(f: Form, name: string, email: string, text: string, m: Message) {
    && m.name == name && m.email == email && m.body == text
    && f.subject(name, email, f.id).Some?
    && m.subject == Text.StripBreaks(f.subject(name, email, f.id).value)
  }

  lemma VerdictMailsSubmission(f: Form, verdict: Result<Message, Rejection>, name: string,
                               email: string, text: string, sendOk: bool, o: Outcome)
    requires MailsVerdict(f, Some(verdict), sendOk, o)
    requires verdict.Ok? ==> verdict.value == Message(name, email, "", text)
    ensures forall m :: m in o.attempts ==> MadeOf(f, name, email, text, m)
  {
  }

  lemma MailedIsSubmitted(f: Form, s: Submission, sendOk: bool, o: Outcome)
    requires MailsVerdict(f, Some(Validate(f.parse, s)), sendOk, o)
    ensures forall m :: m in o.attempts ==>
              MadeOf(f, Text.TrimSpace(s.name), Text.TrimSpace(s.email), Text.TrimSpace(s.message), m)
  {
    var verdict := Validate(f.parse, s);
    if verdict.Ok? {
      AcceptedIsDeliverable(f.parse, s);
    }
    VerdictMailsSubmission(f, verdict, Text.TrimSpace(s.name), Text.TrimSpace(s.email), Text.TrimSpace(s.message),
                           sendOk, o);
  }

  /** Nothing is mailed but what the visitor submitted, trimmed, under the subject the form's template
      makes of it. */
  lemma MailSaysWhatWasSubmitted(f: Form, t: RL.Table, r: Request, m: Message)
    requires m in React(f, t, r).outcome.attempts
    ensures r.payload.Some?
    ensures var s := r.payload.value;
            MadeOf(f, Text.TrimSpace(s.name), Text.TrimSpace(s.email), Text.TrimSpace(s.message), m)
  {
    StatusTable(f, t, r);
    if r.payload.Some? {
      MailedIsSubmitted(f, r.payload.value, r.sendOk, React(f, t, r).outcome);
    }
  }

  /** The counts of a run, as the answers and the mailer keep them. */
  predicate Balanced(os: seq<Outcome>, calls: nat, approved: nat) {
    && approved == WithStatus(os, 400) + WithStatus(os, 422) + WithStatus(os, 202)
                   + WithStatus(os, 500) + WithStatus(os, 502)
    && calls == approved + WithStatus(os, 429)
    && |os| == calls + WithStatus(os, 204) + WithStatus(os, 403) + WithStatus(os, 405)
    && |Attempts(os)| == WithStatus(os, 502) + |Outbox(os)|
    && WithStatus(os, 202) == |Outbox(os)| + Dropped(os)
  }

  lemma BalancedSnoc(os: seq<Outcome>, o: Outcome, calls: nat, approved: nat, reached: bool, admitted: bool)
    requires Balanced(os, calls, approved) && Tallies(o)
    requires !reached <==> BeforeLimiter(o.response.status)
    requires reached && !admitted <==> o.response.status == 429
    requires reached && admitted <==> BehindLimiter(o.response.status)
    ensures Balanced(os + [o], calls + H.One(reached), approved + H.One(reached && admitted))
  {
    MailSnoc(os, o);
    StatusSnoc(os, o, 400);
    StatusSnoc(os, o, 422);
    StatusSnoc(os, o, 202);
    StatusSnoc(os, o, 500);
    StatusSnoc(os, o, 502);
    StatusSnoc(os, o, 429);
    StatusSnoc(os, o, 204);
    StatusSnoc(os, o, 403);
    StatusSnoc(os, o, 405);
  }

  lemma CallsSnoc(f: Form, reqs: seq<Request>, r: Request)
    requires reqs != [] && r == Last(reqs)
    ensures |LimiterCalls(f, reqs)| == |LimiterCalls(f, Front(reqs))| + H.One(ReachesLimiter(f, r))
    ensures Approvals(RL.Decisions(f.limit, LimiterCalls(f, reqs))) ==
            Approvals(RL.Decisions(f.limit, LimiterCalls(f, Front(reqs))))
            + H.One(ReachesLimiter(f, r) && RL.Admits(f.limit, TableOf(f, Front(reqs)), LimiterCall(f, r)))
  {
    TableIsLimiterHistory(f, Front(reqs));
    if ReachesLimiter(f, r) {
      ApprovalsSnoc(f.limit, LimiterCalls(f, Front(reqs)), LimiterCall(f, r));
    } else {
      assert LimiterCalls(f, reqs) == LimiterCalls(f, Front(reqs));
    }
  }

  /** Every approval the limiter gave is accounted for by exactly one answer: malformed, invalid,
      failed subject, failed send, dropped or delivered. */
  lemma {:induction false} Conservation(f: Form, reqs: seq<Request>)
    ensures Balanced(Outcomes(f, reqs), |LimiterCalls(f, reqs)|,
                     Approvals(RL.Decisions(f.limit, LimiterCalls(f, reqs))))
  {
    if reqs != [] {
      var front, r := Front(reqs), Last(reqs);
      var admitted := RL.Admits(f.limit, TableOf(f, front), LimiterCall(f, r));
      Conservation(f, front);
      OneRequest(f, TableOf(f, front), r);
      CallsSnoc(f, reqs, r);
      BalancedSnoc(Outcomes(f, front), OutcomeOfLast(f, reqs), |LimiterCalls(f, front)|,
                   Approvals(RL.Decisions(f.limit, LimiterCalls(f, front))), ReachesLimiter(f, r), admitted);
    }
  }

  // ---- the bound on mail ----

  /** Messages handed to the mailer for requests of `key` whose clock lies in [from, to]. */
  function AttemptsIn(f: Form, reqs: seq<Request>, key: string, from: int, to: int): nat {
    if reqs == [] then 0
    else
      AttemptsIn(f, Front(reqs), key, from, to) +
      (if H.Hits(LimiterCall(f, Last(reqs)), key, from, to) then |OutcomeOfLast(f, reqs).attempts| else 0)
  }

  lemma {:induction false} AttemptsAreAdmitted(f: Form, reqs: seq<Request>, key: string, from: int, to: int)
    ensures AttemptsIn(f, reqs, key, from, to) <= H.AdmittedIn(f.limit, LimiterCalls(f, reqs), key, from, to)
  {
    if reqs != [] {
      var front, r := Front(reqs), Last(reqs);
      AttemptsAreAdmitted(f, front, key, from, to);
      TableIsLimiterHistory(f, front);
      OneRequest(f, TableOf(f, front), r);
      if ReachesLimiter(f, r) {
        RL.HistorySnoc(f.limit, LimiterCalls(f, front), LimiterCall(f, r));
        RL.FrontOfSnoc(LimiterCalls(f, front), LimiterCall(f, r));
      } else {
        assert LimiterCalls(f, reqs) == LimiterCalls(f, front);
      }
    }
  }

  /** What one caller may send in k periods. */
  function Allowance(f: Form, k: nat): int {
    if k == 0 then f.limit.limit else (k + 1) * f.limit.limit - 1
  }

  function PeriodsAfter(f: Form, from: int, k: nat): int {
    from + k * f.limit.period
  }

  /** One caller cannot make the form send more than (k + 1) * limit - 1 messages in k periods. */
  lemma MailIsBounded(f: Form, reqs: seq<Request>, key: string, from: int, k: nat)
    requires f.limit.limit > 0 && f.limit.period >= 0 && ClockedRun(f, reqs)
    ensures AttemptsIn(f, reqs, key, from, PeriodsAfter(f, from, k)) <= Allowance(f, k)
  {
    AttemptsAreAdmitted(f, reqs, key, from, PeriodsAfter(f, from, k));
    H.IntervalBound(f.limit, LimiterCalls(f, reqs), key, from, k);
  }

  /** Messages handed to the mailer for requests that are `whose`, with a clock reading in [from, to]. */
  function AttemptsBy(f: Form, reqs: seq<Request>, whose: Request -> bool, from: int, to: int): nat {
    if reqs == [] then 0
    else
      AttemptsBy(f, Front(reqs), whose, from, to) +
      (if whose(Last(reqs)) && from <= Last(reqs).now <= to then |OutcomeOfLast(f, reqs).attempts| else 0)
  }

  /** Every one of these requests is counted under `key`. */
  predicate CountedAs(f: Form, reqs: seq<Request>, whose: Request -> bool, key: string) {
    forall r :: r in reqs && whose(r) ==> LimiterCall(f, r).key == key
  }

  lemma {:induction false} AttemptsByAreIn(f: Form, reqs: seq<Request>, whose: Request -> bool, key: string,
                                           from: int, to: int)
    requires CountedAs(f, reqs, whose, key)
    ensures AttemptsBy(f, reqs, whose, from, to) <= AttemptsIn(f, reqs, key, from, to)
  {
    if reqs != [] {
      assert Last(reqs) in reqs;
      AttemptsByAreIn(f, Front(reqs), whose, key, from, to);
    }
  }

  lemma NoMoreThan(f: Form, reqs: seq<Request>, whose: Request -> bool, key: string, from: int, to: int, most: int)
    requires CountedAs(f, reqs, whose, key) && AttemptsIn(f, reqs, key, from, to) <= most
    ensures AttemptsBy(f, reqs, whose, from, to) <= most
  {
    AttemptsByAreIn(f, reqs, whose, key, from, to);
  }

  /** Requests counted under one key share one allowance. */
  lemma OneKeyOneAllowance(f: Form, reqs: seq<Request>, whose: Request -> bool, key: string, from: int, k: nat)
    requires f.limit.limit > 0 && f.limit.period >= 0 && ClockedRun(f, reqs) && CountedAs(f, reqs, whose, key)
    ensures AttemptsBy(f, reqs, whose, from, PeriodsAfter(f, from, k)) <= Allowance(f, k)
  {
    MailIsBounded(f, reqs, key, from, k);
    NoMoreThan(f, reqs, whose, key, from, PeriodsAfter(f, from, k), Allowance(f, k));
  }
}

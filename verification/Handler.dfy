/** internal/contact/handler.go: one form's endpoint, as a reaction on values and as the object that
    performs it. */
module Handler {
  import opened Adapters
  import opened Wrappers
  import Text
  import opened Contact
  import opened Http
  import opened Wording
  import RL = RateLimit

  /** The client address, as a limiter key: from the connection's address and X-Forwarded-For. */
  type CallerFinder = (string, string) -> string

  /** What a handler is wired with and never changes. */
  datatype Form = Form(id: string, origins: set<string>, subject: Template, parse: AddressParser, limit: RL.Settings,
                       caller: CallerFinder, adapter: Adapter)

  datatype Verb = OPTIONS | POST | Other(name: string)

  /** One request, with what is outside the model resolved: `now` is the clock as the limiter reads it,
      `payload` the decoded body if it decodes, and `sendOk` whether the mailer would deliver. */
  datatype Request = Request(path: string, verb: Verb, origin: string, remoteAddr: string, forwarded: string,
                             now: int, payload: Option<Submission>, sendOk: bool)

  /** Why a request was answered as it was. */
  datatype Cause = Refused(problem: Problem) | Honeypot | NoSubject | SendFailed | Sent

  datatype LogLine =
    | Reason(form: string, status: int, cause: Cause)
    | Access(verb: Verb, path: string, status: int)

  /** What one request brings about besides counting: the answer, the handler's own log lines, what
      was handed to the mailer and what of that was delivered. */
  datatype Outcome = Outcome(response: Response, lines: seq<LogLine>, attempts: seq<Message>, outbox: seq<Message>)

  datatype Reaction = Reaction(table: RL.Table, outcome: Outcome)

  function CorsHeaders(f: Form, origin: string): Headers {
    if origin in f.origins then map[AllowOrigin := Echo(origin)][Vary := OriginName] else map[]
  }

  function Preflight(h: Headers): Response {
    Response(204,
             h[AllowMethods := PostAndOptions][AllowHeaders := ContentTypeName][MaxAge := OneDay],
             [])
  }

  function Plain(problem: Problem): Body {
    ErrorBody(problem, None)
  }

  /** `refuse`: a line that says why, and the answer. */
  function Refusal(id: string, h: Headers, status: int, body: Body): Outcome
    requires body.ErrorBody?
  {
    Outcome(Json(status, h, body), [Reason(id, status, Refused(body.error))], [], [])
  }

  /** The request's call on the limiter, if it gets that far. */
  predicate ReachesLimiter(f: Form, r: Request) {
    r.verb == POST && r.origin in f.origins
  }

  function LimiterCall(f: Form, r: Request): RL.Call {
    RL.Call(f.caller(r.remoteAddr, r.forwarded), r.now)
  }

  function React(f: Form, t: RL.Table, r: Request): Reaction {
    if !ReachesLimiter(f, r) then Reaction(t, TurnedAway(f, r))
    else if RL.Admits(f.limit, t, LimiterCall(f, r))
    then Reaction(RL.Step(f.limit, t, LimiterCall(f, r)), Process(f, CorsHeaders(f, r.origin), r))
    else Reaction(RL.Step(f.limit, t, LimiterCall(f, r)),
                  Refusal(f.id, CorsHeaders(f, r.origin), 429, Plain(TooManySubmissions)))
  }

  /** Preflights, wrong methods and refused origins: answered before the limiter is asked. */
  function TurnedAway(f: Form, r: Request): Outcome
    requires !ReachesLimiter(f, r)
  {
    var h := CorsHeaders(f, r.origin);
    if r.verb == OPTIONS then Outcome(Preflight(h), [], [], [])
    else if r.verb != POST then Refusal(f.id, h[Allow := PostAndOptions], 405, Plain(MethodNotAllowed))
    else Refusal(f.id, h, 403, Plain(OriginNotAllowed))
  }

  /** Decode and validate: what the limiter let through becomes a message or is turned down. */
  function Process(f: Form, h: Headers, r: Request): Outcome {
    if r.payload.None? then Refusal(f.id, h, 400, Plain(UnreadableSubmission))
    else Judged(f, h, Validate(f.parse, r.payload.value), r.sendOk)
  }

  function Judged(f: Form, h: Headers, verdict: Result<Message, Rejection>, sendOk: bool): Outcome {
    match verdict
    case Err(Spam) => Outcome(Json(202, h, StatusBody(Accepted)), [Reason(f.id, 202, Honeypot)], [], [])
    case Err(Invalid(field, why)) => Refusal(f.id, h, 422, ErrorBody(InvalidSubmission, Some((field, why))))
    case Ok(msg) => Delivery(f, h, msg, sendOk)
  }

  function Delivery(f: Form, h: Headers, msg: Message, sendOk: bool): Outcome {
    match f.subject(msg.name, msg.email, f.id)
    case None =>
      Outcome(Json(500, h, Plain(CouldNotSend)), [Reason(f.id, 500, NoSubject)], [], [])
    case Some(text) =>
      var m := msg.(subject := Text.StripBreaks(text));
      if sendOk
      then Outcome(Json(202, h, StatusBody(Accepted)), [Reason(f.id, 202, Sent)], [m], [m])
      else Outcome(Json(502, h, Plain(CouldNotSend)), [Reason(f.id, 502, SendFailed)], [m], [])
  }

  // ---- the objects ----

  class Logger {
    var lines: seq<LogLine>

    constructor ()
      ensures lines == []
    {
      lines := [];
    }

    method Log(line: LogLine)
      modifies this
      ensures lines == old(lines) + [line]
    {
      lines := lines + [line];
    }
  }

  /** Somewhere to send a message; whether it takes one is up to the world. */
  class Mailer {
    const adapter: Adapter
    var attempts: seq<Message>
    var outbox: seq<Message>

    constructor (adapter: Adapter)
      ensures this.adapter == adapter && attempts == [] && outbox == []
    {
      this.adapter := adapter;
      attempts, outbox := [], [];
    }

    method Send(m: Message, deliverable: bool) returns (ok: bool)
      modifies this
      ensures ok == deliverable && attempts == old(attempts) + [m]
      ensures outbox == if ok then old(outbox) + [m] else old(outbox)
    {
      attempts := attempts + [m];
      if deliverable {
        outbox := outbox + [m];
      }
      ok := deliverable;
    }
  }

  /** The non-blank origins, trimmed. */
  function TrimmedOrigins(origins: seq<string>): set<string> {
    set o | o in origins && Text.TrimSpace(o) != "" :: Text.TrimSpace(o)
  }

  method CollectOrigins(origins: seq<string>) returns (allowed: set<string>)
    ensures allowed == TrimmedOrigins(origins)
  {
    allowed := {};
    for i := 0 to |origins|
      invariant allowed == TrimmedOrigins(origins[..i])
    {
      assert origins[..i + 1] == origins[..i] + [origins[i]];
      var o := Text.TrimSpace(origins[i]);
      if o != "" {
        allowed := allowed + {o};
      }
    }
    assert origins[..|origins|] == origins;
  }

  class Handler {
    const form: Form
    const limiter: RL.Memory
    const mailer: Mailer
    const log: Logger

    constructor (form: Form, limiter: RL.Memory, mailer: Mailer, log: Logger)
      ensures this.form == form && this.limiter == limiter && this.mailer == mailer && this.log == log
    {
      this.form := form;
      this.limiter := limiter;
      this.mailer := mailer;
      this.log := log;
    }

    ghost predicate Valid()
      reads this, limiter, limiter.windows
    {
      limiter.Valid() && form.limit == limiter.Config() && mailer.adapter == form.adapter
    }

    /** What the limiter holds, as its history spells it out. */
    ghost function Table(): RL.Table
      reads limiter
    {
      RL.TableAfter(form.limit, limiter.history)
    }

    /** The recorder, the log and the mailer carry out this outcome. */
    twostate predicate Performed(w: Recorder, o: Outcome)
      reads w, w.inner, log, mailer
    {
      && w.Recorded(o.response)
      && log.lines == old(log.lines) + o.lines
      && mailer.attempts == old(mailer.attempts) + o.attempts
      && mailer.outbox == old(mailer.outbox) + o.outbox
    }

    method ServeHTTP(w: Recorder, r: Request)
      requires Valid() && w.Fresh()
      modifies w, w.inner, limiter, limiter.windows, mailer, log
      ensures Valid() && fresh(limiter.windows - old(limiter.windows))
      ensures limiter.history == old(limiter.history) + (if ReachesLimiter(form, r) then [LimiterCall(form, r)] else [])
      ensures Table() == React(form, old(Table()), r).table
      ensures Performed(w, React(form, old(Table()), r).outcome)
    {
      if r.origin in form.origins {
        w.SetHeader(AllowOrigin, Echo(r.origin));
        w.SetHeader(Vary, OriginName);
      }
      assert w.inner.header == CorsHeaders(form, r.origin);
      if !(r.verb == POST && r.origin in form.origins) {
        TurnAway(w, r);
        return;
      }
      Submit(w, r);
    }

    /** An allowed site's POST: count it, then handle it or refuse it. */
    method Submit(w: Recorder, r: Request)
      requires Valid() && ReachesLimiter(form, r)
      requires w.inner.codes == [] && w.inner.body == [] && w.inner.header == CorsHeaders(form, r.origin)
      modifies w, w.inner, limiter, limiter.windows, mailer, log
      ensures Valid() && fresh(limiter.windows - old(limiter.windows))
      ensures limiter.history == old(limiter.history) + [LimiterCall(form, r)]
      ensures Table() == React(form, old(Table()), r).table
      ensures Performed(w, React(form, old(Table()), r).outcome)
    {
      var ok := MayGoOn(r);
      if ok {
        Admitted(w, r);
      } else {
        Refuse(w, 429, Plain(TooManySubmissions));
      }
    }

    /** The limiter's answer for the caller. */
    method MayGoOn(r: Request) returns (ok: bool)
      requires Valid()
      modifies limiter, limiter.windows
      ensures Valid() && fresh(limiter.windows - old(limiter.windows))
      ensures limiter.history == old(limiter.history) + [LimiterCall(form, r)]
      ensures ok == RL.Admits(form.limit, old(Table()), LimiterCall(form, r))
      ensures Table() == RL.Step(form.limit, old(Table()), LimiterCall(form, r))
    {
      RL.HistorySnoc(form.limit, limiter.history, LimiterCall(form, r));
      ok := limiter.Allow(form.caller(r.remoteAddr, r.forwarded), r.now);
    }

    /** `decode`, then `validate` and `deliver`. */
    method Admitted(w: Recorder, r: Request)
      requires w.inner.codes == [] && w.inner.body == []
      modifies w, w.inner, mailer, log
      ensures Performed(w, Process(form, old(w.inner.header), r))
    {
      if r.payload.None? {
        Refuse(w, 400, Plain(UnreadableSubmission));
        return;
      }
      Answer(w, Validate(form.parse, r.payload.value), r.sendOk);
    }

    method TurnAway(w: Recorder, r: Request)
      requires w.inner.codes == [] && w.inner.body == [] && w.inner.header == CorsHeaders(form, r.origin)
      requires !ReachesLimiter(form, r)
      modifies w, w.inner, log
      ensures Performed(w, TurnedAway(form, r))
    {
      if r.verb == OPTIONS {
        w.SetHeader(AllowMethods, PostAndOptions);
        w.SetHeader(AllowHeaders, ContentTypeName);
        w.SetHeader(MaxAge, OneDay);
        w.WriteHeader(204);
      } else if r.verb != POST {
        w.SetHeader(Allow, PostAndOptions);
        Refuse(w, 405, Plain(MethodNotAllowed));
      } else {
        Refuse(w, 403, Plain(OriginNotAllowed));
      }
    }

    /** `validate` once the verdict is in, then `deliver`. */
    method Answer(w: Recorder, verdict: Result<Message, Rejection>, sendOk: bool)
      requires w.inner.codes == [] && w.inner.body == []
      modifies w, w.inner, mailer, log
      ensures Performed(w, Judged(form, old(w.inner.header), verdict, sendOk))
    {
      match verdict {
        case Ok(msg) =>
          Deliver(w, msg, sendOk);
        case Err(Spam) =>
          log.Log(Reason(form.id, 202, Honeypot));
          w.WriteJson(202, StatusBody(Accepted));
        case Err(Invalid(field, why)) =>
          Refuse(w, 422, ErrorBody(InvalidSubmission, Some((field, why))));
      }
    }

    method Deliver(w: Recorder, msg: Message, sendOk: bool)
      requires w.inner.codes == [] && w.inner.body == []
      modifies w, w.inner, mailer, log
      ensures Performed(w, Delivery(form, old(w.inner.header), msg, sendOk))
    {
      match form.subject(msg.name, msg.email, form.id) {
        case None =>
          log.Log(Reason(form.id, 500, NoSubject));
          w.WriteJson(500, Plain(CouldNotSend));
        case Some(text) =>
          var ok := mailer.Send(msg.(subject := Text.StripBreaks(text)), sendOk);
          if !ok {
            log.Log(Reason(form.id, 502, SendFailed));
            w.WriteJson(502, Plain(CouldNotSend));
          } else {
            log.Log(Reason(form.id, 202, Sent));
            w.WriteJson(202, StatusBody(Accepted));
          }
      }
    }

    method Refuse(w: Recorder, status: int, body: Body)
      requires w.inner.codes == [] && w.inner.body == [] && status != 0 && body.ErrorBody?
      modifies w, w.inner, log
      ensures Performed(w, Refusal(form.id, old(w.inner.header), status, body))
    {
      log.Log(Reason(form.id, status, Refused(body.error)));
      w.WriteJson(status, body);
    }
  }
}

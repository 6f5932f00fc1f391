/** internal/server/server.go and access.go as objects: the mux over the forms' handlers, wrapped in the
    access log. */
module Server {
  import opened Wording
  import opened Handler
  import opened Http
  import opened Service
  import Text

  class Mux {
    const handlers: seq<Handler>
    const routes: Routes
    const log: Logger

    constructor (handlers: seq<Handler>, routes: Routes, log: Logger)
      ensures this.handlers == handlers && this.routes == routes && this.log == log
    {
      this.handlers := handlers;
      this.routes := routes;
      this.log := log;
    }

    ghost function Wired(): Wiring {
      Wiring(seq(|handlers|, i requires 0 <= i < |handlers| => handlers[i].form), routes)
    }

    /** Everything a request may change. */
    ghost function Footprint(): set<object>
      reads set h | h in handlers :: h.limiter
    {
      (set h | h in handlers :: h.limiter as object)
      + (set h, x | h in handlers && x in h.limiter.windows :: x as object)
      + (set h | h in handlers :: h.mailer as object)
      + {log}
    }

    /** What the forms' limiters hold. */
    ghost predicate Holds(ts: Tables)
      reads set h | h in handlers :: h.limiter
    {
      |ts| == |handlers| && forall i :: 0 <= i < |handlers| ==> handlers[i].Table() == ts[i]
    }

    /** A limiter and a mailer each: nothing one form counts or sends is another's. */
    ghost predicate Separate()
      reads set h | h in handlers :: h.limiter
    {
      forall i, j :: 0 <= i < j < |handlers| ==>
        && handlers[i].limiter != handlers[j].limiter && handlers[i].mailer != handlers[j].mailer
        && handlers[i].limiter.windows !! handlers[j].limiter.windows
    }

    ghost predicate Valid()
      reads set h | h in handlers :: h
      reads set h | h in handlers :: h.limiter
      reads set h, x | h in handlers && x in h.limiter.windows :: x
    {
      && Separate()
      && (forall path :: path in routes ==> routes[path] < |handlers|)
      && (forall h :: h in handlers ==> h.Valid() && h.log == log)
    }

    /** The limiters kept their windows or allocated new ones. */
    twostate predicate GrewFresh()
      reads set h | h in handlers :: h.limiter
    {
      forall h, x :: h in handlers && x in h.limiter.windows && x !in old(h.limiter.windows) ==> fresh(x)
    }

    /** What was handed to the mailer and delivered went through the target's own mailer, and every
        other form's is as it was. */
    twostate predicate Mailed(target: Target, o: Outcome)
      reads set h | h in handlers :: h.mailer
    {
      forall j :: 0 <= j < |handlers| ==>
        if target == FormAt(j) then Posted(handlers[j].mailer, o) else unchanged(handlers[j].mailer)
    }

    twostate predicate Posted(mailer: Mailer, o: Outcome)
      reads mailer
    {
      mailer.attempts == old(mailer.attempts) + o.attempts && mailer.outbox == old(mailer.outbox) + o.outbox
    }

    method ToForm(i: nat, w: Recorder, r: Request, ghost ts: Tables, ghost e: Reaction)
      requires Valid() && i < |handlers| && w.Fresh() && Holds(ts)
      requires e == Reacts(i, r)
      modifies w, w.inner, handlers[i].limiter, handlers[i].limiter.windows, handlers[i].mailer, log
      ensures Valid() && GrewFresh() && Holds(ts[i := e.table]) && Mailed(FormAt(i), e.outcome)
      ensures w.Recorded(e.outcome.response) && log.lines == old(log.lines) + e.outcome.lines
    {
      Delegate(i, w, r, e);
    }

    /** Serving one form leaves every other form's limiter alone. */
    method Delegate(i: nat, w: Recorder, r: Request, ghost e: Reaction)
      requires Valid() && i < |handlers| && w.Fresh()
      requires e == Reacts(i, r)
      modifies w, w.inner, handlers[i].limiter, handlers[i].limiter.windows, handlers[i].mailer, log
      ensures handlers[i].Valid() && fresh(handlers[i].limiter.windows - old(handlers[i].limiter.windows))
      ensures handlers[i].Table() == e.table
      ensures forall j :: 0 <= j < |handlers| && j != i ==> unchanged(handlers[j].limiter) && handlers[j].Valid()
      ensures Separate() && Posted(handlers[i].mailer, e.outcome)
      ensures forall j :: 0 <= j < |handlers| && j != i ==> unchanged(handlers[j].mailer)
      ensures w.Recorded(e.outcome.response) && log.lines == old(log.lines) + e.outcome.lines
    {
      assert forall j :: 0 <= j < |handlers| && j != i ==>
               && handlers[j].limiter != handlers[i].limiter && handlers[j].mailer != handlers[i].mailer
               && handlers[j].limiter.windows !! handlers[i].limiter.windows;
      handlers[i].ServeHTTP(w, r);
      forall j | 0 <= j < |handlers| && j != i
        ensures handlers[j].limiter.windows !! handlers[i].limiter.windows
      {
        assert handlers[j].limiter.windows == old(handlers[j].limiter.windows);
      }
    }

    ghost function Reacts(i: nat, r: Request): (e: Reaction)
      requires i < |handlers|
      reads handlers[i].limiter
    {
      React(handlers[i].form, handlers[i].Table(), r)
    }

    /** The service's own handlers, and the mux's 404. */
    method OwnHandler(w: Recorder, path: string)
      requires path !in routes && w.Fresh()
      modifies w, w.inner, log
      ensures var o := OwnAnswer(Route(Wired(), path));
              w.Recorded(o.response) && log.lines == old(log.lines) + o.lines
    {
      if FORM_PREFIX <= path {
        log.Log(Reason("", 404, Refused(UnknownForm)));
        w.WriteJson(404, Plain(UnknownForm));
      } else if path == HEALTH_PATH {
        w.WriteJson(200, StatusBody(Alive));
      } else {
        w.WriteHeader(404);
      }
    }

    /** The mux's own dispatch. */
    method Dispatch(w: Recorder, r: Request, ghost ts: Tables, ghost e: Served)
      requires Valid() && w.Fresh() && Holds(ts)
      requires e == Serve(Wired(), ts, r)
      modifies w, w.inner, Footprint()
      ensures Valid() && GrewFresh() && Holds(e.tables) && Mailed(Route(Wired(), r.path), e.outcome)
      ensures w.Recorded(e.outcome.response) && log.lines == old(log.lines) + e.outcome.lines
    {
      if r.path in routes {
        ghost var reaction := Reacts(routes[r.path], r);
        ServedByForm(Wired(), ts, r, routes[r.path], reaction);
        ToForm(routes[r.path], w, r, ts, reaction);
      } else {
        OwnHandler(w, r.path);
      }
    }

    /** One access line, with the status the recorder saw; nothing the forms own is touched. */
    method Account(rec: Recorder, r: Request, ghost ts: Tables, ghost answer: Response)
      requires Valid() && Holds(ts)
      requires rec.inner.Answered(answer) && answer.status == if rec.status == 0 then 200 else rec.status
      modifies rec, log
      ensures Valid() && Holds(ts)
      ensures forall h :: h in handlers ==> unchanged(h.limiter) && unchanged(h.mailer)
      ensures rec.inner.Answered(answer) && rec.status == answer.status
      ensures log.lines == old(log.lines) + [Access(r.verb, r.path, answer.status)]
    {
      if rec.status == 0 {
        rec.status := 200;
      }
      log.Log(Access(r.verb, r.path, rec.status));
    }

    /** `logRequests` around its recorder: answer, then account for the answer. One status header
        reaches the client, and one access line carries it. */
    method ServeHTTP(rec: Recorder, r: Request, ghost ts: Tables, ghost e: Served)
      requires Valid() && rec.Fresh() && Holds(ts)
      requires e == Serve(Wired(), ts, r)
      modifies rec, rec.inner, Footprint()
      ensures Valid() && GrewFresh() && Holds(e.tables) && Mailed(Route(Wired(), r.path), e.outcome)
      ensures rec.inner.Answered(e.outcome.response)
      ensures log.lines == old(log.lines) + LogOf(r, e.outcome)
    {
      LogGrows(log.lines, r, e.outcome);
      Dispatch(rec, r, ts, e);
      Account(rec, r, e.tables, e.outcome.response);
    }

    /** One request on a connection of its own. */
    method Exchange(r: Request, ghost ts: Tables, ghost e: Served) returns (answer: Response)
      requires Valid() && Holds(ts) && e == Serve(Wired(), ts, r)
      modifies Footprint()
      ensures Valid() && GrewFresh() && Holds(e.tables)
      ensures answer == e.outcome.response
      ensures log.lines == old(log.lines) + LogOf(r, e.outcome)
    {
      var w := new ResponseWriter();
      var rec := new Recorder(w);
      assert forall h :: h in handlers ==> h.limiter.windows == old(h.limiter.windows);
      ServeHTTP(rec, r, ts, e);
      answer := Response(w.codes[0], w.sent, w.body);
    }

    /** The server's loop over one request after another: what a run of the objects answers, logs and leaves
        in the limiters is what the run of the model says. */
    method ServeRun(reqs: seq<Request>) returns (answers: seq<Response>)
      requires Valid() && Holds(seq(|handlers|, _ => map[]))
      modifies Footprint()
      ensures Valid() && GrewFresh() && Holds(TablesAfter(Wired(), reqs))
      ensures answers == ResponsesOf(ServiceOutcomes(Wired(), reqs))
      ensures log.lines == old(log.lines) + LogOfRun(reqs, ServiceOutcomes(Wired(), reqs))
    {
      answers := [];
      ghost var v := Wired();
      for i := 0 to |reqs|
        invariant Valid() && GrewFresh() && Holds(TablesAfter(v, reqs[..i]))
        invariant answers == ResponsesOf(ServiceOutcomes(v, reqs[..i]))
        invariant log.lines == old(log.lines) + LogOfRun(reqs[..i], ServiceOutcomes(v, reqs[..i]))
      {
        ghost var ts := TablesAfter(v, reqs[..i]);
        ghost var e := Serve(v, ts, reqs[i]);
        RunSnoc(v, reqs[..i], reqs[i], e);
        Text.TakeSnoc(reqs, i);
        LogAppends(old(log.lines), LogOfRun(reqs[..i], ServiceOutcomes(v, reqs[..i])), LogOf(reqs[i], e.outcome));
        var answer := Exchange(reqs[i], ts, e);
        answers := answers + [answer];
      }
      Text.TakeAll(reqs);
    }
  }
}

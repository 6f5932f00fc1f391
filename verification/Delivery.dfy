/** Where the pipeline meets the SMTP adapter: what a visitor is told, by what the mail server does. */
module Delivery {
  import opened Wrappers
  import Contact
  import FR = FormRuns
  import H = Handler
  import RL = RateLimit
  import SM = Smtp

  /** The script that sends this message through this adapter. */
  function ScriptFor(s: SM.Sender, lib: SM.Library, host: string, server: SM.Server, m: Contact.Message)
    : seq<SM.Step>
  {
    SM.WholeScript(s, host, server.offersTls, SM.Text(s, lib, m))
  }

  lemma AttemptDecides(f: H.Form, t: RL.Table, r: H.Request)
    requires H.React(f, t, r).outcome.attempts != []
    ensures H.React(f, t, r).outcome.response.status == if r.sendOk then 202 else 502
  {
    FR.StatusTable(f, t, r);
  }

  lemma MeansForStatus(s: SM.Sender, host: string, server: SM.Server, text: string, issued: seq<SM.Step>,
                       err: Option<SM.DeliveryError>, sendOk: bool, status: int)
    requires SM.Conversation(server, SM.WholeScript(s, host, server.offersTls, text), issued, err)
    requires sendOk == err.None? && status == if sendOk then 202 else 502
    ensures var script := SM.WholeScript(s, host, server.offersTls, text);
            && (status == 202 <==> SM.AllAccepted(server, script))
            && (status == 502 && SM.Taken(server, issued) <==>
                  SM.AllAccepted(server, script[..|script| - 1]) && !server.accepts(script))
  {
    SM.NilIffAllSucceeded(server, SM.WholeScript(s, host, server.offersTls, text), issued, err);
    SM.TakenYetReportedIff(s, host, server, text, issued, err);
  }

  /** A submission that gets as far as an SMTP adapter, which then runs against any server: the visitor is
      told 202 exactly when every step is accepted, and 502 otherwise; and 502 for a message the server has
      taken exactly when it accepts everything but QUIT. */
  lemma AnswerFollowsServer(f: H.Form, t: RL.Table, r: H.Request, m: Contact.Message, lib: SM.Library, host: string,
                            server: SM.Server, issued: seq<SM.Step>, err: Option<SM.DeliveryError>)
    requires f.adapter.ViaSmtp? && lib.hostOf(f.adapter.smtp.addr) == Some(host)
    requires H.React(f, t, r).outcome.attempts == [m]
    requires SM.Conversation(server, ScriptFor(f.adapter.smtp, lib, host, server, m), issued, err)
    requires r.sendOk == err.None?
    ensures var script := ScriptFor(f.adapter.smtp, lib, host, server, m);
            var status := H.React(f, t, r).outcome.response.status;
            && (status == 202 || status == 502)
            && (status == 202 <==> SM.AllAccepted(server, script))
            && (status == 502 && SM.Taken(server, issued) <==>
                  SM.AllAccepted(server, script[..|script| - 1]) && !server.accepts(script))
  {
    AttemptDecides(f, t, r);
    MeansForStatus(f.adapter.smtp, host, server, SM.Text(f.adapter.smtp, lib, m), issued, err, r.sendOk,
                   H.React(f, t, r).outcome.response.status);
  }

  /** An address that names no host fails before anything is sent, and the visitor is told 502. */
  lemma NoHostIsReported(f: H.Form, t: RL.Table, r: H.Request, err: Option<SM.DeliveryError>)
    requires H.React(f, t, r).outcome.attempts != []
    requires err == Some(SM.DeliveryError(SM.ProviderSmtp, SM.OpConfig)) && r.sendOk == err.None?
    ensures H.React(f, t, r).outcome.response.status == 502
  {
    AttemptDecides(f, t, r);
  }
}

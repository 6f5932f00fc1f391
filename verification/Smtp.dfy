/** `Send` and `deliver` in internal/mail/smtp/smtp.go, run against an arbitrary server. */
module Smtp {
  import opened Wrappers
  import opened Contact
  import opened T = Text
  import MailText

  /** One call on the connection or on the library's SMTP client. */
  datatype Step =
    | Dial(addr: string)
    | SetDeadline
    | Greeting(host: string)
    | StartTls(host: string)
    | Auth(username: string, password: string, host: string)
    | MailFrom(from: string)
    | RcptTo(to: string)
    | Data
    | Write(text: string)
    | CloseBody
    | Quit

  /** DeliveryError.Op. */
  datatype Op = OpConfig | OpDial | OpHandshake | OpStartTls | OpAuth | OpMailFrom | OpRcptTo | OpData
              | OpWriteBody | OpCloseBody | OpQuit

  function OpOf(step: Step): Op {
    match step
    case Dial(_) => OpDial
    case SetDeadline => OpDial
    case Greeting(_) => OpHandshake
    case StartTls(_) => OpStartTls
    case Auth(_, _, _) => OpAuth
    case MailFrom(_) => OpMailFrom
    case RcptTo(_) => OpRcptTo
    case Data => OpData
    case Write(_) => OpWriteBody
    case CloseBody => OpCloseBody
    case Quit => OpQuit
  }

  datatype Provider = ProviderSmtp | ProviderMailgun

  datatype DeliveryError = DeliveryError(provider: Provider, op: Op)

  /** The other end: whether it offers STARTTLS, and whether it lets the last of the steps taken so far
      succeed. It may answer differently after a different past. */
  datatype Server = Server(offersTls: bool, accepts: seq<Step> -> bool)

  datatype Sender = Sender(addr: string, username: string, password: string, from: string, to: string)

  /** What Send takes from the library: net.SplitHostPort, the Q-encoder and the formatted clock. */
  datatype Library = Library(hostOf: string -> Option<string>, encode: string -> string, date: string)

  function Text(s: Sender, lib: Library, m: Message): string {
    var e := MailText.Envelope(s.from, s.to, lib.encode, lib.date);
    MailText.Printed(MailText.HeadersOf(e, m, MailText.ORDER), MailText.BodyOf(m))
  }

  /** What comes before the mail transaction, if anything: each step depends on one side's setup. */
  function Preamble(s: Sender, host: string, offersTls: bool): seq<Step> {
    (if offersTls then [StartTls(host)] else []) +
    (if s.username != "" then [Auth(s.username, s.password, host)] else [])
  }

  function Transaction(s: Sender, text: string): seq<Step> {
    [MailFrom(s.from), RcptTo(s.to), Data, Write(text), CloseBody, Quit]
  }

  function Opening(s: Sender, host: string): seq<Step> {
    [Dial(s.addr), SetDeadline, Greeting(host)]
  }

  function WholeScript(s: Sender, host: string, offersTls: bool, text: string): seq<Step> {
    Opening(s, host) + Preamble(s, host, offersTls) + Transaction(s, text)
  }

  ghost predicate AllAccepted(server: Server, steps: seq<Step>) {
    forall i :: 0 < i <= |steps| ==> server.accepts(steps[..i])
  }

  /** What a run of a script must look like: the steps taken are a prefix of it; without an error that
      is all of it and every step succeeded; with one, the last step taken is the first that failed and
      gives the error its Op. */
  ghost predicate Conversation(server: Server, script: seq<Step>, issued: seq<Step>, err: Option<DeliveryError>) {
    && issued <= script
    && match err
       case None => issued == script && AllAccepted(server, script)
       case Some(e) =>
         && issued != []
         && AllAccepted(server, issued[..|issued| - 1])
         && !server.accepts(issued)
         && e == DeliveryError(ProviderSmtp, OpOf(issued[|issued| - 1]))
  }

  /** A connection to the server and the steps taken on it. */
  class Client {
    const server: Server
    var issued: seq<Step>
    var connected: bool

    constructor (server: Server)
      ensures this.server == server && issued == [] && !connected
    {
      this.server := server;
      issued := [];
      connected := false;
    }

    /** Takes one step; the ghost script says it is the one that is due. */
    method Do(step: Step, ghost script: seq<Step>) returns (err: Option<DeliveryError>)
      requires issued + [step] <= script && AllAccepted(server, issued)
      modifies this`issued
      ensures issued == old(issued) + [step] <= script
      ensures err.None? ==> AllAccepted(server, issued)
      ensures err.Some? ==> Conversation(server, script, issued, err)
    {
      ghost var before := issued;
      issued := issued + [step];
      assert issued[..|before|] == before;
      if server.accepts(issued) {
        err := None;
        forall i | 0 < i <= |issued|
          ensures server.accepts(issued[..i])
        {
          assert i <= |before| ==> issued[..i] == before[..i];
          assert i == |issued| ==> issued[..i] == issued;
        }
      } else {
        err := Some(DeliveryError(ProviderSmtp, OpOf(step)));
      }
    }

    method Close()
      modifies this`connected
      ensures !connected
    {
      connected := false;
    }
  }

  /** The part of `deliver` before the mail transaction. */
  method Secure(s: Sender, client: Client, host: string, ghost script: seq<Step>)
    returns (err: Option<DeliveryError>)
    requires client.issued + Preamble(s, host, client.server.offersTls) <= script
    requires AllAccepted(client.server, client.issued)
    modifies client`issued
    ensures err.Some? ==> Conversation(client.server, script, client.issued, err)
    ensures err.None? ==> AllAccepted(client.server, client.issued)
    ensures err.None? ==> client.issued == old(client.issued) + Preamble(s, host, client.server.offersTls)
  {
    err := None;
    if client.server.offersTls {
      err := client.Do(StartTls(host), script);
      if err.Some? {
        return;
      }
    }
    if s.username != "" {
      err := client.Do(Auth(s.username, s.password, host), script);
    }
  }

  /** The whole conversation on an open connection: preamble, then transaction. */
  method Deliver(s: Sender, client: Client, host: string, text: string, ghost script: seq<Step>)
    returns (err: Option<DeliveryError>)
    requires client.issued + Preamble(s, host, client.server.offersTls) + Transaction(s, text) == script
    requires AllAccepted(client.server, client.issued)
    modifies client`issued
    ensures Conversation(client.server, script, client.issued, err)
  {
    err := Secure(s, client, host, script);
    if err.Some? {
      return;
    }
    err := client.Do(MailFrom(s.from), script);
    if err.Some? {
      return;
    }
    err := client.Do(RcptTo(s.to), script);
    if err.Some? {
      return;
    }
    err := client.Do(Data, script);
    if err.Some? {
      return;
    }
    err := client.Do(Write(text), script);
    if err.Some? {
      return;
    }
    err := client.Do(CloseBody, script);
    if err.Some? {
      return;
    }
    err := client.Do(Quit, script);
  }

  method Open(s: Sender, client: Client, host: string, ghost script: seq<Step>)
    returns (err: Option<DeliveryError>)
    requires client.issued == [] && Opening(s, host) <= script
    modifies client
    ensures err.Some? ==> Conversation(client.server, script, client.issued, err)
    ensures err.None? ==> AllAccepted(client.server, client.issued) && client.issued == Opening(s, host)
  {
    err := client.Do(Dial(s.addr), script);
    if err.Some? {
      return;
    }
    client.connected := true;
    err := client.Do(SetDeadline, script);
    if err.Some? {
      return;
    }
    err := client.Do(Greeting(host), script);
  }

  /** Delivers one message over a fresh connection, which is closed again however it went. */
  method Send(s: Sender, lib: Library, m: Message, client: Client) returns (err: Option<DeliveryError>)
    requires client.issued == [] && !client.connected
    modifies client
    ensures !client.connected
    ensures lib.hostOf(s.addr).None? ==>
              err == Some(DeliveryError(ProviderSmtp, OpConfig)) && client.issued == []
    ensures lib.hostOf(s.addr).Some? ==>
              var script := WholeScript(s, lib.hostOf(s.addr).value, client.server.offersTls, Text(s, lib, m));
              Conversation(client.server, script, client.issued, err)
  {
    if lib.hostOf(s.addr).None? {
      return Some(DeliveryError(ProviderSmtp, OpConfig));
    }
    var host := lib.hostOf(s.addr).value;
    var text := MailText.Compose(MailText.Envelope(s.from, s.to, lib.encode, lib.date), m);
    ghost var script := WholeScript(s, host, client.server.offersTls, text);
    err := Open(s, client, host, script);
    if err.None? {
      err := Deliver(s, client, host, text, script);
    }
    client.Close();
  }

  // ---- what every conversation means ----

  /** A run that went on past some steps had them accepted. */
  lemma PassedIsAccepted(server: Server, script: seq<Step>, i: seq<Step>, j: seq<Step>, f: Option<DeliveryError>)
    requires i <= script && Conversation(server, script, j, f) && 0 < |i| <= |j|
    ensures i <= j
    ensures |i| < |j| || f.None? ==> server.accepts(i)
  {
    assert script[..|i|] == i == j[..|i|];
    assert |i| < |j| ==> j[..|j| - 1][..|i|] == i;
  }

  /** The server's answers leave no choice: they fix which steps are taken and what Send returns. */
  lemma OutcomeIsDetermined(server: Server, script: seq<Step>, i: seq<Step>, e: Option<DeliveryError>,
                            j: seq<Step>, f: Option<DeliveryError>)
    requires Conversation(server, script, i, e) && Conversation(server, script, j, f)
    ensures i == j && e == f
  {
    if 0 < |i| <= |j| {
      PassedIsAccepted(server, script, i, j, f);
    }
    if 0 < |j| <= |i| {
      PassedIsAccepted(server, script, j, i, e);
    }
  }

  /** No error means every step of the script succeeded, and the other way round. */
  lemma NilIffAllSucceeded(server: Server, script: seq<Step>, issued: seq<Step>, err: Option<DeliveryError>)
    requires Conversation(server, script, issued, err)
    ensures err.None? <==> AllAccepted(server, script)
  {
    assert script[..|issued|] == issued;
  }

  // ---- legal order, section 4.1.4 of RFC 5321 with the AUTH and STARTTLS extensions ----

  datatype Phase = Closed | Connected | Timed | Ready(secure: bool, authed: bool) | Mailing | Recipients | Content
                 | Written | Delivered | Ended

  predicate Legal(offersTls: bool, phase: Phase, step: Step) {
    match step
    case Dial(_) => phase == Closed
    case SetDeadline => phase == Connected
    case Greeting(_) => phase == Timed
    case StartTls(_) => phase.Ready? && offersTls && !phase.secure && !phase.authed
    case Auth(_, _, _) => phase.Ready? && !phase.authed && (offersTls ==> phase.secure)
    case MailFrom(_) => phase.Ready? && (offersTls ==> phase.secure)
    case RcptTo(_) => phase == Mailing || phase == Recipients
    case Data => phase == Recipients
    case Write(_) => phase == Content
    case CloseBody => phase == Content || phase == Written
    case Quit => phase != Closed && phase != Content && phase != Written && phase != Ended
  }

  function Next(phase: Phase, step: Step): Phase {
    match step
    case Dial(_) => Connected
    case SetDeadline => Timed
    case Greeting(_) => Ready(false, false)
    case StartTls(_) => Ready(true, false)
    case Auth(_, _, _) => if phase.Ready? then Ready(phase.secure, true) else phase
    case MailFrom(_) => Mailing
    case RcptTo(_) => Recipients
    case Data => Content
    case Write(_) => Written
    case CloseBody => Delivered
    case Quit => Ended
  }

  predicate LegalOrder(offersTls: bool, phase: Phase, steps: seq<Step>)
    decreases |steps|
  {
    steps == [] || (Legal(offersTls, phase, steps[0]) && LegalOrder(offersTls, Next(phase, steps[0]), steps[1..]))
  }

  lemma {:induction false} PrefixIsLegal(offersTls: bool, phase: Phase, steps: seq<Step>, k: nat)
    requires LegalOrder(offersTls, phase, steps) && k <= |steps|
    ensures LegalOrder(offersTls, phase, steps[..k])
    decreases k
  {
    if k > 0 {
      PrefixIsLegal(offersTls, Next(phase, steps[0]), steps[1..], k - 1);
      assert steps[..k][1..] == steps[1..][..k - 1];
    }
  }

  lemma LegalCons(offersTls: bool, phase: Phase, step: Step, rest: seq<Step>)
    requires Legal(offersTls, phase, step) && LegalOrder(offersTls, Next(phase, step), rest)
    ensures LegalOrder(offersTls, phase, [step] + rest)
  {
    assert ([step] + rest)[1..] == rest;
  }

  lemma TransactionIsLegal(offersTls: bool, secure: bool, authed: bool, s: Sender, text: string)
    requires offersTls ==> secure
    ensures LegalOrder(offersTls, Ready(secure, authed), Transaction(s, text))
  {
    LegalCons(offersTls, Delivered, Quit, []);
    LegalCons(offersTls, Written, CloseBody, [Quit]);
    LegalCons(offersTls, Content, Write(text), [CloseBody] + [Quit]);
    LegalCons(offersTls, Recipients, Data, [Write(text)] + ([CloseBody] + [Quit]));
    LegalCons(offersTls, Mailing, RcptTo(s.to), [Data] + ([Write(text)] + ([CloseBody] + [Quit])));
    LegalCons(offersTls, Ready(secure, authed), MailFrom(s.from),
              [RcptTo(s.to)] + ([Data] + ([Write(text)] + ([CloseBody] + [Quit]))));
    assert Transaction(s, text) ==
           [MailFrom(s.from)] + ([RcptTo(s.to)] + ([Data] + ([Write(text)] + ([CloseBody] + [Quit]))));
  }

  lemma WholeScriptIsLegal(s: Sender, host: string, offersTls: bool, text: string)
    ensures LegalOrder(offersTls, Closed, WholeScript(s, host, offersTls, text))
  {
    var rest := Transaction(s, text);
    TransactionIsLegal(offersTls, offersTls, s.username != "", s, text);
    if s.username != "" {
      LegalCons(offersTls, Ready(offersTls, false), Auth(s.username, s.password, host), rest);
      rest := [Auth(s.username, s.password, host)] + rest;
    }
    if offersTls {
      LegalCons(offersTls, Ready(false, false), StartTls(host), rest);
      rest := [StartTls(host)] + rest;
    }
    LegalCons(offersTls, Timed, Greeting(host), rest);
    LegalCons(offersTls, Connected, SetDeadline, [Greeting(host)] + rest);
    LegalCons(offersTls, Closed, Dial(s.addr), [SetDeadline] + ([Greeting(host)] + rest));
    assert WholeScript(s, host, offersTls, text) == [Dial(s.addr)] + ([SetDeadline] + ([Greeting(host)] + rest));
  }

  /** Against every server the steps taken are in a legal order: in particular no AUTH and no MAIL on a
      plain connection where TLS was offered, and no DATA without an accepted recipient. */
  lemma ConversationIsLegal(s: Sender, host: string, server: Server, text: string, issued: seq<Step>,
                            err: Option<DeliveryError>)
    requires Conversation(server, WholeScript(s, host, server.offersTls, text), issued, err)
    ensures LegalOrder(server.offersTls, Closed, issued)
  {
    var script := WholeScript(s, host, server.offersTls, text);
    WholeScriptIsLegal(s, host, server.offersTls, text);
    PrefixIsLegal(server.offersTls, Closed, script, |issued|);
    assert script[..|issued|] == issued;
  }

  // ---- was the message taken? ----

  /** The server has answered the end of the body with success: the message is its responsibility. */
  ghost predicate Taken(server: Server, issued: seq<Step>) {
    exists i :: 0 < i <= |issued| && issued[i - 1] == CloseBody && server.accepts(issued[..i])
  }

  lemma ScriptShape(s: Sender, host: string, offersTls: bool, text: string) returns (n: nat)
    ensures var script := WholeScript(s, host, offersTls, text);
            n == |script| >= 6
            && script[n - 2] == CloseBody && script[n - 1] == Quit
            && (forall i :: 0 <= i < n - 2 ==> script[i] != CloseBody && OpOf(script[i]) != OpQuit)
  {
    n := |WholeScript(s, host, offersTls, text)|;
  }

  /** An error does not mean the message was refused: the server has taken it exactly when Send returned
      no error or failed at QUIT. */
  lemma TakenUnlessEarlierFailure(s: Sender, host: string, server: Server, text: string, issued: seq<Step>,
                                  err: Option<DeliveryError>)
    requires Conversation(server, WholeScript(s, host, server.offersTls, text), issued, err)
    ensures Taken(server, issued) <==> err.None? || err.value.op == OpQuit
  {
    var script := WholeScript(s, host, server.offersTls, text);
    var n := ScriptShape(s, host, server.offersTls, text);
    assert issued[..|issued|] == issued;
    assert forall i :: 0 <= i < |issued| ==> issued[i] == script[i];
    if |issued| == n {
      assert issued[..n - 1][..n - 1] == issued[..n - 1];
    }
  }

  /** Said of the server alone: the message is taken exactly when it accepts every step up to the end of
      the body, and a taken message is reported as a failure exactly when it then refuses QUIT. */
  lemma TakenYetReportedIff(s: Sender, host: string, server: Server, text: string, issued: seq<Step>,
                            err: Option<DeliveryError>)
    requires Conversation(server, WholeScript(s, host, server.offersTls, text), issued, err)
    ensures var script := WholeScript(s, host, server.offersTls, text);
            && (Taken(server, issued) <==> AllAccepted(server, script[..|script| - 1]))
            && (Taken(server, issued) && err.Some? <==>
                  AllAccepted(server, script[..|script| - 1]) && !server.accepts(script))
  {
    var script := WholeScript(s, host, server.offersTls, text);
    var n := ScriptShape(s, host, server.offersTls, text);
    TakenUnlessEarlierFailure(s, host, server, text, issued, err);
    BodyAcceptedMeans(server, script, issued, err);
    assert err.Some? && |issued| < n ==> issued[|issued| - 1] == script[|issued| - 1];
  }

  lemma BodyAcceptedMeans(server: Server, script: seq<Step>, issued: seq<Step>, err: Option<DeliveryError>)
    requires script != [] && Conversation(server, script, issued, err)
    ensures AllAccepted(server, script[..|script| - 1]) <==> err.None? || |issued| == |script|
    ensures err.Some? && |issued| == |script| ==> !server.accepts(script)
    ensures err.None? ==> server.accepts(script)
  {
    var front := script[..|script| - 1];
    assert forall i :: 0 < i < |script| ==> front[..i] == script[..i];
    assert issued == script[..|issued|];
    assert script[..|script|] == script;
    assert |issued| == |script| ==> issued[..|issued| - 1] == front;
  }

  predicate EndsWithoutQuit(steps: seq<Step>) {
    steps == [] || steps[|steps| - 1] != Quit
  }

  lemma AcceptsWithoutQuit(offersTls: bool, steps: seq<Step>)
    requires forall i :: 0 <= i < |steps| ==> steps[i] != Quit
    ensures AllAccepted(Server(offersTls, EndsWithoutQuit), steps)
  {
    forall i | 0 < i <= |steps|
      ensures EndsWithoutQuit(steps[..i])
    {
      assert steps[..i][i - 1] == steps[i - 1];
    }
  }

  /** A server that takes everything and then drops the connection at QUIT: the message is delivered and
      Send reports a failure. */
  lemma DeliveredYetReported(s: Sender, host: string, text: string)
    returns (server: Server, issued: seq<Step>, err: Option<DeliveryError>)
    ensures Conversation(server, WholeScript(s, host, server.offersTls, text), issued, err)
    ensures Taken(server, issued) && err.Some?
  {
    server := Server(true, EndsWithoutQuit);
    issued := WholeScript(s, host, true, text);
    err := Some(DeliveryError(ProviderSmtp, OpQuit));
    var n := ScriptShape(s, host, true, text);
    assert forall i :: 0 <= i < n - 1 ==> OpOf(issued[i]) != OpQuit;
    AcceptsWithoutQuit(true, issued[..n - 1]);
    TakenUnlessEarlierFailure(s, host, server, text, issued, err);
  }

  function Rank(step: Step): nat {
    match step
    case Dial(_) => 0
    case SetDeadline => 1
    case Greeting(_) => 2
    case StartTls(_) => 3
    case Auth(_, _, _) => 4
    case MailFrom(_) => 5
    case RcptTo(_) => 6
    case Data => 7
    case Write(_) => 8
    case CloseBody => 9
    case Quit => 10
  }

  /** A step with the configured addresses and this text. */
  predicate Configured(s: Sender, text: string, step: Step) {
    && (step.MailFrom? ==> step.from == s.from)
    && (step.RcptTo? ==> step.to == s.to)
    && (step.Write? ==> step.text == text)
  }

  /** Configured steps of ascending rank, all from `lo` to `hi`. */
  predicate Orderly(s: Sender, text: string, steps: seq<Step>, lo: nat, hi: nat) {
    && (forall i :: 0 <= i < |steps| ==> Configured(s, text, steps[i]) && lo <= Rank(steps[i]) < hi)
    && (forall i, j :: 0 <= i < j < |steps| ==> Rank(steps[i]) < Rank(steps[j]))
  }

  lemma OrderlyConcat(s: Sender, text: string, a: seq<Step>, b: seq<Step>, lo: nat, mid: nat, hi: nat)
    requires lo <= mid <= hi && Orderly(s, text, a, lo, mid) && Orderly(s, text, b, mid, hi)
    ensures Orderly(s, text, a + b, lo, hi)
  {
    var c := a + b;
    assert forall i :: 0 <= i < |a| ==> c[i] == a[i];
    assert forall i :: |a| <= i < |c| ==> c[i] == b[i - |a|];
  }

  lemma PreambleIsOrderly(s: Sender, host: string, offersTls: bool, text: string)
    ensures Orderly(s, text, Preamble(s, host, offersTls), 3, 5)
  {
    var tls := if offersTls then [StartTls(host)] else [];
    var auth := if s.username != "" then [Auth(s.username, s.password, host)] else [];
    OrderlyConcat(s, text, tls, auth, 3, 4, 5);
  }

  lemma TransactionIsOrderly(s: Sender, text: string)
    ensures Orderly(s, text, Transaction(s, text), 5, 11)
  {
    var steps := Transaction(s, text);
    assert forall i :: 0 <= i < 6 ==> Rank(steps[i]) == i + 5;
  }

  lemma ScriptIsOrderly(s: Sender, host: string, offersTls: bool, text: string)
    ensures Orderly(s, text, WholeScript(s, host, offersTls, text), 0, 11)
  {
    PreambleIsOrderly(s, host, offersTls, text);
    TransactionIsOrderly(s, text);
    ThreePieces(s, text, Opening(s, host), Preamble(s, host, offersTls), Transaction(s, text));
  }

  lemma ThreePieces(s: Sender, text: string, a: seq<Step>, b: seq<Step>, c: seq<Step>)
    requires Orderly(s, text, a, 0, 3) && Orderly(s, text, b, 3, 5) && Orderly(s, text, c, 5, 11)
    ensures Orderly(s, text, a + b + c, 0, 11)
  {
    OrderlyConcat(s, text, a, b, 0, 3, 5);
    OrderlyConcat(s, text, a + b, c, 0, 5, 11);
  }

  /** The envelope is the configured one whatever the visitor sent, and no step is taken twice, so the
      message is handed over at most once. */
  lemma EnvelopeIsConfigured(s: Sender, host: string, server: Server, text: string, issued: seq<Step>,
                             err: Option<DeliveryError>)
    requires Conversation(server, WholeScript(s, host, server.offersTls, text), issued, err)
    ensures forall a :: MailFrom(a) in issued ==> a == s.from
    ensures forall a :: RcptTo(a) in issued ==> a == s.to
    ensures forall t :: Write(t) in issued ==> t == text
    ensures forall i, j :: 0 <= i < j < |issued| ==> issued[i] != issued[j]
  {
    ScriptIsOrderly(s, host, server.offersTls, text);
    OrderlyPrefix(s, text, WholeScript(s, host, server.offersTls, text), issued);
  }

  lemma OrderlyPrefix(s: Sender, text: string, script: seq<Step>, issued: seq<Step>)
    requires issued <= script && Orderly(s, text, script, 0, 11)
    ensures forall step :: step in issued ==> Configured(s, text, step)
    ensures forall i, j :: 0 <= i < j < |issued| ==> issued[i] != issued[j]
  {
    assert forall i :: 0 <= i < |issued| ==> issued[i] == script[i];
  }

  // ---- what each step says ----

  lemma OpeningSays(s: Sender, host: string, step: Step)
    requires step in Opening(s, host)
    ensures step == Dial(s.addr) || step == SetDeadline || step == Greeting(host)
  {
  }

  lemma PreambleSays(s: Sender, host: string, offersTls: bool, step: Step)
    requires step in Preamble(s, host, offersTls)
    ensures (offersTls && step == StartTls(host)) || (s.username != "" && step == Auth(s.username, s.password, host))
  {
  }

  lemma TransactionSays(s: Sender, text: string, step: Step)
    requires step in Transaction(s, text)
    ensures !step.Dial? && !step.SetDeadline? && !step.Greeting? && !step.StartTls? && !step.Auth?
  {
  }

  /** Once the transaction has begun, everything before it has been done. */
  lemma MailComesAfter(s: Sender, host: string, offersTls: bool, text: string, issued: seq<Step>)
    requires issued <= WholeScript(s, host, offersTls, text)
    requires exists step :: step in issued && step.MailFrom?
    ensures Opening(s, host) + Preamble(s, host, offersTls) <= issued
  {
    var before := Opening(s, host) + Preamble(s, host, offersTls);
    var i :| 0 <= i < |issued| && issued[i].MailFrom?;
    assert issued[i] == WholeScript(s, host, offersTls, text)[i];
    if i < |before| {
      assert before[i] == issued[i];
      if i < 3 {
        OpeningSays(s, host, before[i]);
      } else {
        assert before[i] == Preamble(s, host, offersTls)[i - 3];
        PreambleSays(s, host, offersTls, before[i]);
      }
    }
  }

  lemma IssuedSays(s: Sender, host: string, offersTls: bool, text: string, issued: seq<Step>, step: Step)
    requires issued <= WholeScript(s, host, offersTls, text) && step in issued
    ensures step.Dial? ==> step == Dial(s.addr)
    ensures step.Greeting? ==> step == Greeting(host)
    ensures step.StartTls? ==> offersTls && step == StartTls(host)
    ensures step.Auth? ==> s.username != "" && step == Auth(s.username, s.password, host)
  {
    var i :| 0 <= i < |issued| && issued[i] == step;
    assert step == WholeScript(s, host, offersTls, text)[i];
    if step in Opening(s, host) {
      OpeningSays(s, host, step);
    } else if step in Preamble(s, host, offersTls) {
      PreambleSays(s, host, offersTls, step);
    } else {
      TransactionSays(s, text, step);
    }
  }

  /** A configured sender logs in before it mails, and only then and only so; TLS is started exactly when
      it is offered; and the connection is to the configured server. */
  lemma SenderLogsIn(s: Sender, host: string, server: Server, text: string, issued: seq<Step>,
                     err: Option<DeliveryError>)
    requires Conversation(server, WholeScript(s, host, server.offersTls, text), issued, err)
    ensures MailFrom(s.from) in issued && s.username != "" ==> Auth(s.username, s.password, host) in issued
    ensures MailFrom(s.from) in issued && server.offersTls ==> StartTls(host) in issued
    ensures MailFrom(s.from) in issued ==> Dial(s.addr) in issued && SetDeadline in issued && Greeting(host) in issued
    ensures forall st :: st in issued && st.Auth? ==> s.username != "" && st == Auth(s.username, s.password, host)
    ensures forall st :: st in issued && st.StartTls? ==> server.offersTls && st == StartTls(host)
    ensures forall st :: st in issued && st.Dial? ==> st == Dial(s.addr)
    ensures forall st :: st in issued && st.Greeting? ==> st == Greeting(host)
  {
    forall st | st in issued
      ensures st.Dial? ==> st == Dial(s.addr)
      ensures st.Greeting? ==> st == Greeting(host)
      ensures st.StartTls? ==> server.offersTls && st == StartTls(host)
      ensures st.Auth? ==> s.username != "" && st == Auth(s.username, s.password, host)
    {
      IssuedSays(s, host, server.offersTls, text, issued, st);
    }
    if MailFrom(s.from) in issued {
      MailComesAfter(s, host, server.offersTls, text, issued);
      BeforeMail(s, host, server.offersTls, issued);
    }
  }

  lemma BeforeMail(s: Sender, host: string, offersTls: bool, issued: seq<Step>)
    requires Opening(s, host) + Preamble(s, host, offersTls) <= issued
    ensures s.username != "" ==> Auth(s.username, s.password, host) in issued
    ensures offersTls ==> StartTls(host) in issued
    ensures Dial(s.addr) in issued && SetDeadline in issued && Greeting(host) in issued
  {
    var before := Opening(s, host) + Preamble(s, host, offersTls);
    assert forall step :: step in before ==> step in issued by {
      assert issued == before + issued[|before|..];
    }
    assert before[0] == Dial(s.addr) && before[1] == SetDeadline && before[2] == Greeting(host);
    if offersTls {
      assert before[3] == StartTls(host);
    }
    if s.username != "" {
      assert before[|before| - 1] == Auth(s.username, s.password, host);
    }
  }

  /** An error names the kind of the last step taken, dialling and its deadline sharing one name. */
  lemma ErrorNamesLastStep(server: Server, script: seq<Step>, issued: seq<Step>, err: Option<DeliveryError>)
    requires Conversation(server, script, issued, err) && err.Some?
    ensures issued != [] && err.value.provider == ProviderSmtp
    ensures var last, op := issued[|issued| - 1], err.value.op;
            && (op == OpDial <==> last.Dial? || last.SetDeadline?)
            && (op == OpHandshake <==> last.Greeting?)
            && (op == OpStartTls <==> last.StartTls?)
            && (op == OpAuth <==> last.Auth?)
            && (op == OpMailFrom <==> last.MailFrom?)
            && (op == OpRcptTo <==> last.RcptTo?)
            && (op == OpData <==> last.Data?)
            && (op == OpWriteBody <==> last.Write?)
            && (op == OpCloseBody <==> last.CloseBody?)
            && (op == OpQuit <==> last.Quit?)
  {
  }

  /** What the server is given to keep reads, header by header, as the form's configuration and the
      submission say, and its body is the message's. */
  lemma WrittenTextReads(s: Sender, lib: Library, m: Message, host: string, server: Server, issued: seq<Step>,
                         err: Option<DeliveryError>, text: string)
    requires Conversation(server, WholeScript(s, host, server.offersTls, Text(s, lib, m)), issued, err)
    requires BreakFree(lib.encode(StripBreaks(m.subject))) && BreakFree(lib.date)
    requires MailText.NoCRLF(s.from) && MailText.NoCRLF(s.to)
    requires Write(text) in issued
    ensures MailText.Parse(text) == Some(([
              ("From", s.from),
              ("To", s.to),
              ("Reply-To", StripBreaks(m.email)),
              ("Subject", lib.encode(StripBreaks(m.subject))),
              ("Date", lib.date),
              ("MIME-Version", "1.0"),
              ("Content-Type", "text/plain; charset=utf-8"),
              ("Content-Transfer-Encoding", "8bit")
            ], MailText.BodyOf(m)))
  {
    EnvelopeIsConfigured(s, host, server, Text(s, lib, m), issued, err);
    MailText.ReaderSees(MailText.Envelope(s.from, s.to, lib.encode, lib.date), m);
  }
}

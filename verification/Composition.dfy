/** `New` and `mailerFor` in internal/server/server.go: building the service from a configuration. */
module Composition {
  import opened Adapters
  import opened Wrappers
  import opened Service
  import opened Server
  import C = Config
  import Contact
  import CI = ClientIp
  import FR = FormRuns
  import H = Handler
  import MG = Mailgun
  import RL = RateLimit
  import SM = Smtp
  import Text

  /** time.Hour in nanoseconds: every form's period. */
  const HOUR := 3_600_000_000_000

  /** `spell` is netip.Addr.String, and the word for a client that could not be established. */
  datatype Library = Library(config: C.Library, ip: CI.Library, spell: CI.Client -> string, api: MG.Api,
                             parse: Contact.AddressParser)

  datatype Error =
    | TrustedProxies(problem: CI.Problem)
    | NoMailProvider(id: string)
    | BadMailgun(id: string, error: MG.Error)
    | BadSubject(id: string)
    | PatternTaken(id: string)

  function SettingsOf(f: C.Form, m: C.Mailgun): MG.Settings {
    MG.Settings(m.domain, m.apiKey, m.region, m.baseURL, f.from, f.to)
  }

  function AdapterFor(lib: Library, f: C.Form): Result<Adapter, Error> {
    match f.mailgun
    case Some(m) =>
      (match MG.Built(lib.config, lib.api, SettingsOf(f, m))
       case Err(e) => Err(BadMailgun(f.id, e))
       case Ok(sender) => Ok(ViaMailgun(sender)))
    case None =>
      match f.smtp
      case Some(c) => Ok(ViaSmtp(SM.Sender(c.addr, c.username, c.password, f.from, f.to)))
      case None => Err(NoMailProvider(f.id))
  }

  function SubjectPattern(lib: Library, f: C.Form): string {
    if lib.config.TrimsToNothing(f.subject) then Contact.DEFAULT_SUBJECT else f.subject
  }

  /** Who a request is from, as every handler of the service asks it. */
  function CallerBy(lib: Library, resolver: CI.Resolver): H.CallerFinder {
    (remoteAddr, forwarded) => lib.spell(CI.Sender(lib.ip, resolver, remoteAddr, forwarded))
  }

  /** One form's handler, wired: mailer first, then limiter, then the handler with its template. */
  function WireForm(lib: Library, caller: H.CallerFinder, f: C.Form): Result<H.Form, Error> {
    match AdapterFor(lib, f)
    case Err(e) => Err(e)
    case Ok(adapter) =>
      match lib.config.parseTemplate(SubjectPattern(lib, f))
      case None => Err(BadSubject(f.id))
      case Some(t) =>
        Ok(H.Form(f.id, H.TrimmedOrigins(f.origins), t, lib.parse, RL.Settings(f.rateLimitPerHour, HOUR),
                  caller, adapter))
  }

  /** The first n forms wired and their patterns registered. */
  ghost predicate WiredUpTo(lib: Library, caller: H.CallerFinder, forms: seq<C.Form>, wired: seq<H.Form>,
                            routes: Routes, n: nat)
    requires n <= |forms|
  {
    && |wired| == n
    && (forall i :: 0 <= i < n ==> WireForm(lib, caller, forms[i]) == Ok(wired[i]))
    && RoutesFor(C.Ids(forms)[..n]) == Some(routes)
  }

  /** The n-th form stops the assembly, being the first to do so. */
  ghost predicate StopsAt(lib: Library, caller: H.CallerFinder, forms: seq<C.Form>, n: nat, e: Error)
    requires n < |forms|
  {
    && (forall i :: 0 <= i < n ==> WireForm(lib, caller, forms[i]).Ok?)
    && RoutesFor(C.Ids(forms)[..n]).Some?
    && (WireForm(lib, caller, forms[n]) == Err(e)
        || (RoutesFor(C.Ids(forms)[..n + 1]).None? && e == PatternTaken(forms[n].id)))
  }

  /** Every form wired, all to one resolver that trusts exactly what the configuration names. */
  ghost predicate Wired(lib: Library, trusted: seq<string>, resolver: CI.Resolver, forms: seq<C.Form>, v: Wiring) {
    && CI.SameSet(lib.ip, trusted, resolver.trusted)
    && WiredUpTo(lib, CallerBy(lib, resolver), forms, v.forms, v.routes, |forms|)
  }

  /** The same, stopping at the n-th form. */
  ghost predicate Stopped(lib: Library, trusted: seq<string>, resolver: CI.Resolver, forms: seq<C.Form>, n: nat,
                          e: Error)
    requires n < |forms|
  {
    CI.SameSet(lib.ip, trusted, resolver.trusted) && StopsAt(lib, CallerBy(lib, resolver), forms, n, e)
  }

  /** What assembling the service must give. */
  ghost predicate Assembly(lib: Library, trusted: seq<string>, forms: seq<C.Form>, r: Result<Wiring, Error>) {
    match r
    case Ok(v) => CI.AllSound(lib.ip, trusted) && exists resolver :: Wired(lib, trusted, resolver, forms, v)
    case Err(TrustedProxies(p)) =>
      exists i :: 0 <= i < |trusted| && CI.AllSound(lib.ip, trusted[..i]) && CI.Faulty(lib.ip, trusted[i], p)
    case Err(e) =>
      CI.AllSound(lib.ip, trusted)
      && exists n, resolver :: 0 <= n < |forms| && Stopped(lib, trusted, resolver, forms, n, e)
  }

  // ---- a validated configuration composes ----

  /** The API address a form's Mailgun account would use is one the client takes. */
  predicate BaseIsTaken(lib: Library, f: C.Form) {
    f.mailgun.Some? ==>
      var base := MG.BaseOf(lib.config, lib.api, SettingsOf(f, f.mailgun.value));
      base.Some? && lib.api.accepts(base.value)
  }

  lemma UsableAccountBuilds(lib: Library, f: C.Form, m: C.Mailgun)
    requires C.SoundForm(lib.config, f) && C.UsableAccount(lib.config, m)
    ensures var s := SettingsOf(f, m);
            var base := MG.BaseOf(lib.config, lib.api, s);
            && base.Some?
            && (MG.Built(lib.config, lib.api, s).Ok? <==> lib.api.accepts(base.value))
            && (MG.Built(lib.config, lib.api, s).Err? ==>
                  MG.Built(lib.config, lib.api, s).error == MG.BadApiBase(base.value))
  {
  }

  predicate OnlyTheBase(r: Result<H.Form, Error>) {
    r.Err? ==> r.error.BadMailgun? && r.error.error.BadApiBase?
  }

  lemma SoundFormIsWired(lib: Library, caller: H.CallerFinder, f: C.Form)
    requires C.SoundForm(lib.config, f) && C.OneProvider(lib.config, (f.smtp, f.mailgun))
    requires C.HasSubject(lib.config, f)
    ensures WireForm(lib, caller, f).Ok? <==> BaseIsTaken(lib, f)
    ensures OnlyTheBase(WireForm(lib, caller, f))
  {
    if f.mailgun.Some? {
      UsableAccountBuilds(lib, f, f.mailgun.value);
    }
  }

  lemma SoundIdsRoute(lib: C.Library, forms: seq<C.Form>, n: nat)
    requires C.SoundForms(lib, forms) && n <= |forms|
    ensures RoutesFor(C.Ids(forms)[..n]).Some?
    ensures n == |forms| ==> Fits(C.Ids(forms), RoutesFor(C.Ids(forms)[..n]).value)
  {
    var ids := C.Ids(forms);
    assert forall i :: 0 <= i < |forms| ==> C.SoundForm(lib, forms[i]) && ids[i] == forms[i].id;
    DistinctIdsRoute(ids[..n]);
    assert n == |forms| ==> ids[..n] == ids;
  }

  /** Stopping at a form of a deployable configuration means its Mailgun API address was not taken. */
  lemma StopsOnlyAtABase(lib: Library, caller: H.CallerFinder, forms: seq<C.Form>, n: nat, e: Error)
    requires C.Deployable(lib.config, forms) && n < |forms| && StopsAt(lib, caller, forms, n, e)
    ensures !BaseIsTaken(lib, forms[n]) && e.BadMailgun? && e.error.BadApiBase?
  {
    SoundIdsRoute(lib.config, forms, n + 1);
    SoundFormIsWired(lib, caller, forms[n]);
  }

  /** A deployable configuration has no route collision anywhere, and can only fail to assemble over the
      trusted-proxy list or a Mailgun API address; it assembles exactly when those are in order. */
  lemma DeployableComposes(lib: Library, trusted: seq<string>, forms: seq<C.Form>, r: Result<Wiring, Error>)
    requires C.Deployable(lib.config, forms) && Assembly(lib, trusted, forms, r)
    ensures r.Ok? <==> CI.AllSound(lib.ip, trusted) && forall i :: 0 <= i < |forms| ==> BaseIsTaken(lib, forms[i])
    ensures r.Err? ==> r.error.TrustedProxies? || (r.error.BadMailgun? && r.error.error.BadApiBase?)
    ensures r.Ok? ==> Routable(r.value) && Fits(C.Ids(forms), r.value.routes)
  {
    match r
    case Ok(v) =>
      var resolver :| Wired(lib, trusted, resolver, forms, v);
      SoundIdsRoute(lib.config, forms, |forms|);
      forall i | 0 <= i < |forms|
        ensures BaseIsTaken(lib, forms[i])
      {
        SoundFormIsWired(lib, CallerBy(lib, resolver), forms[i]);
      }
    case Err(TrustedProxies(p)) =>
      var i :| 0 <= i < |trusted| && CI.AllSound(lib.ip, trusted[..i]) && CI.Faulty(lib.ip, trusted[i], p);
      assert !CI.Sound(lib.ip, trusted[i]);
    case Err(e) =>
      var n, resolver :| 0 <= n < |forms| && Stopped(lib, trusted, resolver, forms, n, e);
      StopsOnlyAtABase(lib, CallerBy(lib, resolver), forms, n, e);
  }

  lemma WiredFormIsItsOwn(lib: Library, caller: H.CallerFinder, f: C.Form, wired: H.Form)
    requires WireForm(lib, caller, f) == Ok(wired)
    ensures wired.id == f.id && wired.origins == H.TrimmedOrigins(f.origins) && wired.caller == caller
    ensures wired.limit == RL.Settings(f.rateLimitPerHour, HOUR)
    ensures AddressesOf(wired.adapter) == (f.from, f.to)
    ensures wired.adapter.ViaMailgun? <==> f.mailgun.Some?
  {
  }

  /** The adapter holds the form's own settings: its server and login, or its Mailgun account and the
      address that account's region or override names. */
  predicate SendsAsSet(lib: Library, f: C.Form, a: Adapter) {
    match a
    case ViaSmtp(s) =>
      f.mailgun.None? && f.smtp.Some?
      && (var c := f.smtp.value; s.addr == c.addr && s.username == c.username && s.password == c.password)
      && s.from == f.from && s.to == f.to
    case ViaMailgun(s) =>
      f.mailgun.Some?
      && (var m := f.mailgun.value;
          && s.domain == m.domain && s.apiKey == m.apiKey
          && (m.baseURL != "" ==> s.base == m.baseURL)
          && (m.baseURL == "" && lib.config.lower(m.region) == "eu" ==> s.base == lib.api.eu)
          && (m.baseURL == "" && lib.config.lower(m.region) != "eu" ==> s.base == lib.api.us))
      && s.from == f.from && s.to == f.to
  }

  /** The template is the form's, or the default one where the form has none. */
  ghost predicate TitledAsSet(lib: Library, f: C.Form, subject: Contact.Template) {
    && (!lib.config.TrimsToNothing(f.subject) ==> lib.config.parseTemplate(f.subject) == Some(subject))
    && (lib.config.TrimsToNothing(f.subject) ==> lib.config.parseTemplate(Contact.DEFAULT_SUBJECT) == Some(subject))
  }

  lemma AdapterHoldsSettings(lib: Library, f: C.Form)
    requires AdapterFor(lib, f).Ok?
    ensures SendsAsSet(lib, f, AdapterFor(lib, f).value)
  {
    if f.mailgun.Some? {
      MG.BuiltFromSettings(lib.config, lib.api, SettingsOf(f, f.mailgun.value));
    }
  }

  lemma WiredAsSet(lib: Library, caller: H.CallerFinder, f: C.Form, wired: H.Form)
    requires WireForm(lib, caller, f) == Ok(wired)
    ensures SendsAsSet(lib, f, wired.adapter) && TitledAsSet(lib, f, wired.subject) && wired.parse == lib.parse
  {
    AdapterHoldsSettings(lib, f);
  }

  /** In whatever is assembled, every form sends through its own server and login or its own Mailgun
      account, under its own subject. */
  lemma FormsAreAsConfigured(lib: Library, trusted: seq<string>, forms: seq<C.Form>, v: Wiring, i: nat)
    requires Assembly(lib, trusted, forms, Ok(v)) && i < |forms|
    ensures |v.forms| == |forms|
    ensures SendsAsSet(lib, forms[i], v.forms[i].adapter) && TitledAsSet(lib, forms[i], v.forms[i].subject)
    ensures v.forms[i].parse == lib.parse
  {
    var resolver :| Wired(lib, trusted, resolver, forms, v);
    WiredAsSet(lib, CallerBy(lib, resolver), forms[i], v.forms[i]);
  }

  /** End to end: once a deployable configuration is assembled, a form's endpoint leads to that form, with
      its own id, origins, hourly limit and adapter, which sends from its From to its To; `/contact`
      leads to the form called default; and all forms ask one resolver who a request is from. */
  lemma EndpointsLeadToTheirForms(lib: Library, trusted: seq<string>, forms: seq<C.Form>, v: Wiring, i: nat)
    returns (resolver: CI.Resolver)
    requires C.Deployable(lib.config, forms) && Assembly(lib, trusted, forms, Ok(v)) && i < |forms|
    ensures Route(v, FORM_PREFIX + forms[i].id) == FormAt(i)
    ensures forms[i].id == C.DEFAULT_FORM_ID ==> Route(v, DEFAULT_PATH) == FormAt(i)
    ensures i < |v.forms| && v.forms[i].id == forms[i].id
    ensures v.forms[i].origins == H.TrimmedOrigins(forms[i].origins)
    ensures v.forms[i].limit == RL.Settings(forms[i].rateLimitPerHour, HOUR)
    ensures AddressesOf(v.forms[i].adapter) == (forms[i].from, forms[i].to)
    ensures v.forms[i].adapter.ViaMailgun? <==> forms[i].mailgun.Some?
    ensures CI.SameSet(lib.ip, trusted, resolver.trusted)
    ensures forall j :: 0 <= j < |v.forms| ==> v.forms[j].caller == CallerBy(lib, resolver)
  {
    resolver :| Wired(lib, trusted, resolver, forms, v);
    DeployableComposes(lib, trusted, forms, Ok(v));
    assert C.Ids(forms)[i] == forms[i].id;
    assert Serves(forms[i].id, FORM_PREFIX + forms[i].id);
    forall j | 0 <= j < |v.forms|
      ensures v.forms[j].caller == CallerBy(lib, resolver)
    {
      WiredFormIsItsOwn(lib, CallerBy(lib, resolver), forms[j], v.forms[j]);
    }
    WiredFormIsItsOwn(lib, CallerBy(lib, resolver), forms[i], v.forms[i]);
  }

  /** Whatever a mail server answers, a form's mail goes out under its own From to its own To. */
  lemma MailGoesWhereConfigured(lib: Library, trusted: seq<string>, forms: seq<C.Form>, v: Wiring, i: nat,
                                host: string, server: SM.Server, text: string, issued: seq<SM.Step>,
                                err: Option<SM.DeliveryError>)
    requires C.Deployable(lib.config, forms) && Assembly(lib, trusted, forms, Ok(v)) && i < |forms| == |v.forms|
    requires v.forms[i].adapter.ViaSmtp?
    requires SM.Conversation(server, SM.WholeScript(v.forms[i].adapter.smtp, host, server.offersTls, text), issued, err)
    ensures forall a :: SM.RcptTo(a) in issued ==> a == forms[i].to
    ensures forall a :: SM.MailFrom(a) in issued ==> a == forms[i].from
  {
    var _ := EndpointsLeadToTheirForms(lib, trusted, forms, v, i);
    SM.EnvelopeIsConfigured(v.forms[i].adapter.smtp, host, server, text, issued, err);
  }

  /** A form of the assembled service turns a page's POST away exactly when the page is on none of the
      form's sites; one that does not say where it is is always turned away. */
  lemma RefusedIffNotOneOfOurs(lib: Library, trusted: seq<string>, forms: seq<C.Form>, v: Wiring, i: nat,
                               t: RL.Table, r: H.Request)
    requires C.Deployable(lib.config, forms) && Assembly(lib, trusted, forms, Ok(v)) && i < |forms| == |v.forms|
    requires r.verb == H.POST
    ensures H.React(v.forms[i], t, r).outcome.response.status == 403 <==>
              r.origin == "" || forall o :: o in forms[i].origins ==> Text.TrimSpace(o) != r.origin
  {
    var _ := EndpointsLeadToTheirForms(lib, trusted, forms, v, i);
    FR.StatusTable(v.forms[i], t, r);
    TrimmedOriginsAre(forms[i].origins, r.origin);
  }

  lemma TrimmedOriginsAre(origins: seq<string>, o: string)
    ensures o in H.TrimmedOrigins(origins) <==> o != "" && exists own :: own in origins && Text.TrimSpace(own) == o
  {
  }

  /** Whatever a mail server answers, a form logs in with its own user name and password, at its own
      server, and never mails without when it has one. */
  lemma FormLogsIn(lib: Library, trusted: seq<string>, forms: seq<C.Form>, v: Wiring, i: nat, host: string,
                   server: SM.Server, text: string, issued: seq<SM.Step>, err: Option<SM.DeliveryError>)
    requires Assembly(lib, trusted, forms, Ok(v)) && i < |forms| == |v.forms| && v.forms[i].adapter.ViaSmtp?
    requires SM.Conversation(server, SM.WholeScript(v.forms[i].adapter.smtp, host, server.offersTls, text), issued, err)
    ensures forms[i].smtp.Some?
    ensures var c := forms[i].smtp.value;
            && (SM.MailFrom(forms[i].from) in issued ==> SM.Dial(c.addr) in issued)
            && (SM.MailFrom(forms[i].from) in issued && c.username != "" ==>
                  SM.Auth(c.username, c.password, host) in issued)
            && (forall st :: st in issued && st.Auth? ==>
                  c.username != "" && st == SM.Auth(c.username, c.password, host))
            && (forall st :: st in issued && st.Dial? ==> st == SM.Dial(c.addr))
  {
    FormsAreAsConfigured(lib, trusted, forms, v, i);
    SM.SenderLogsIn(v.forms[i].adapter.smtp, host, server, text, issued, err);
  }

  // ---- the construction ----

  method MailerFor(lib: Library, f: C.Form) returns (r: Result<Adapter, Error>)
    ensures r == AdapterFor(lib, f)
    ensures r.Ok? ==> AddressesOf(r.value) == (f.from, f.to) && (r.value.ViaMailgun? <==> f.mailgun.Some?)
  {
    match (f.mailgun, f.smtp) {
      case (Some(m), _) =>
        var sender := MG.New(lib.config, lib.api, SettingsOf(f, m));
        r := match sender case Ok(s) => Ok(ViaMailgun(s)) case Err(e) => Err(BadMailgun(f.id, e));
      case (None, Some(c)) =>
        r := Ok(ViaSmtp(SM.Sender(c.addr, c.username, c.password, f.from, f.to)));
      case (None, None) =>
        r := Err(NoMailProvider(f.id));
    }
  }

  /** A form's handler with a limiter and a mailer of its own. */
  method HandlerFor(lib: Library, caller: H.CallerFinder, f: C.Form, log: H.Logger)
    returns (r: Result<H.Handler, Error>)
    ensures r.Err? ==> WireForm(lib, caller, f) == Err(r.error)
    ensures r.Ok? ==> WireForm(lib, caller, f) == Ok(r.value.form) && Pristine(r.value, log)
    ensures r.Ok? ==> AddressesOf(r.value.mailer.adapter) == (f.from, f.to)
    ensures r.Ok? ==> fresh(r.value) && fresh(r.value.limiter) && fresh(r.value.mailer)
  {
    var adapter := MailerFor(lib, f);
    if adapter.Err? {
      return Err(adapter.error);
    }
    var limiter := new RL.Memory(f.rateLimitPerHour, HOUR);
    var origins := H.CollectOrigins(f.origins);
    var subject := lib.config.parseTemplate(SubjectPattern(lib, f));
    if subject.None? {
      return Err(BadSubject(f.id));
    }
    var mailer := new H.Mailer(adapter.value);
    var form := H.Form(f.id, origins, subject.value, lib.parse, RL.Settings(f.rateLimitPerHour, HOUR),
                       caller, adapter.value);
    var handler := new H.Handler(form, limiter, mailer, log);
    r := Ok(handler);
  }

  /** Nothing counted, nothing sent. */
  ghost predicate Pristine(h: H.Handler, log: H.Logger)
    reads h, h.limiter, h.limiter.windows, h.mailer
  {
    && h.Valid() && h.log == log
    && h.limiter.history == [] && h.limiter.windows == {}
    && h.mailer.attempts == [] && h.mailer.outbox == []
  }

  /** The handlers are pristine and no two share a limiter or a mailer. */
  ghost predicate Apart(handlers: seq<H.Handler>, log: H.Logger)
    reads set h | h in handlers :: h
    reads set h | h in handlers :: h.limiter
    reads set h, x | h in handlers && x in h.limiter.windows :: x
    reads set h | h in handlers :: h.mailer
  {
    && (forall h :: h in handlers ==> Pristine(h, log))
    && (forall i, j :: 0 <= i < j < |handlers| ==>
          handlers[i].limiter != handlers[j].limiter && handlers[i].mailer != handlers[j].mailer)
  }

  function FormsOf(handlers: seq<H.Handler>): (forms: seq<H.Form>)
    ensures |forms| == |handlers|
    ensures forall i :: 0 <= i < |handlers| ==> forms[i] == handlers[i].form
  {
    seq(|handlers|, i requires 0 <= i < |handlers| => handlers[i].form)
  }

  /** Each handler's mailer sends from its own form's From to its To. */
  predicate SendAsConfigured(handlers: seq<H.Handler>, forms: seq<C.Form>) {
    && |handlers| == |forms|
    && forall i :: 0 <= i < |handlers| ==> AddressesOf(handlers[i].mailer.adapter) == (forms[i].from, forms[i].to)
  }

  lemma OneMoreHandler(handlers: seq<H.Handler>, h: H.Handler, log: H.Logger)
    requires Apart(handlers, log) && Pristine(h, log)
    requires forall g :: g in handlers ==> g.limiter != h.limiter && g.mailer != h.mailer
    ensures Apart(handlers + [h], log)
    ensures FormsOf(handlers + [h]) == FormsOf(handlers) + [h.form]
  {
  }

  lemma WiredSendAsConfigured(lib: Library, caller: H.CallerFinder, forms: seq<C.Form>, handlers: seq<H.Handler>,
                              routes: Routes, log: H.Logger)
    requires WiredUpTo(lib, caller, forms, FormsOf(handlers), routes, |forms|) && Apart(handlers, log)
    ensures SendAsConfigured(handlers, forms)
  {
    forall i | 0 <= i < |handlers|
      ensures AddressesOf(handlers[i].mailer.adapter) == (forms[i].from, forms[i].to)
    {
      assert Pristine(handlers[i], log);
      WiredFormIsItsOwn(lib, caller, forms[i], handlers[i].form);
    }
  }

  lemma RoutesSnoc(forms: seq<C.Form>, n: nat, routes: Routes)
    requires n < |forms| && RoutesFor(C.Ids(forms)[..n]) == Some(routes)
    ensures RoutesFor(C.Ids(forms)[..n + 1]) == Register(routes, PatternsOf(forms[n].id), n)
  {
    var ids := C.Ids(forms);
    assert ids[..n + 1][..n] == ids[..n];
  }

  lemma WiredSnoc(lib: Library, caller: H.CallerFinder, forms: seq<C.Form>, wired: seq<H.Form>, routes: Routes,
                  n: nat, form: H.Form, more: Routes)
    requires n < |forms| && WiredUpTo(lib, caller, forms, wired, routes, n)
    requires WireForm(lib, caller, forms[n]) == Ok(form)
    requires Register(routes, PatternsOf(forms[n].id), n) == Some(more)
    ensures WiredUpTo(lib, caller, forms, wired + [form], more, n + 1)
  {
    RoutesSnoc(forms, n, routes);
  }

  lemma StopsAssembly(lib: Library, trusted: seq<string>, resolver: CI.Resolver, forms: seq<C.Form>,
                      wired: seq<H.Form>, routes: Routes, n: nat, e: Error)
    requires CI.AllSound(lib.ip, trusted) && CI.SameSet(lib.ip, trusted, resolver.trusted)
    requires n < |forms| && WiredUpTo(lib, CallerBy(lib, resolver), forms, wired, routes, n)
    requires WireForm(lib, CallerBy(lib, resolver), forms[n]) == Err(e)
             || (Register(routes, PatternsOf(forms[n].id), n).None? && e == PatternTaken(forms[n].id))
    ensures Assembly(lib, trusted, forms, Err(e))
  {
    RoutesSnoc(forms, n, routes);
    assert Stopped(lib, trusted, resolver, forms, n, e);
  }

  lemma {:induction false} RegisterAddsItsForm(routes: Routes, patterns: seq<string>, form: nat)
    requires Register(routes, patterns, form).Some?
    ensures var more := Register(routes, patterns, form).value;
            forall path :: path in more ==> more[path] == form || (path in routes && more[path] == routes[path])
    decreases |patterns|
  {
    if patterns != [] {
      RegisterAddsItsForm(routes[patterns[0] := form], patterns[1..], form);
    }
  }

  /** The loop of `New`: every form's handler, in order, and where their patterns lead. */
  method WireAll(lib: Library, ghost trusted: seq<string>, resolver: CI.Resolver, forms: seq<C.Form>, log: H.Logger)
    returns (r: Result<(seq<H.Handler>, Routes), Error>)
    requires CI.AllSound(lib.ip, trusted) && CI.SameSet(lib.ip, trusted, resolver.trusted)
    ensures r.Err? ==> Assembly(lib, trusted, forms, Err(r.error))
    ensures r.Ok? ==> WiredUpTo(lib, CallerBy(lib, resolver), forms, FormsOf(r.value.0), r.value.1, |forms|)
    ensures r.Ok? ==> Apart(r.value.0, log)
    ensures r.Ok? ==> forall path :: path in r.value.1 ==> r.value.1[path] < |r.value.0|
    ensures r.Ok? ==> forall h :: h in r.value.0 ==> fresh(h) && fresh(h.limiter) && fresh(h.mailer)
  {
    var handlers: seq<H.Handler> := [];
    var routes: Routes := map[];
    var caller := CallerBy(lib, resolver);
    assert C.Ids(forms)[..0] == [];
    for i := 0 to |forms|
      invariant WiredUpTo(lib, caller, forms, FormsOf(handlers), routes, i)
      invariant Apart(handlers, log)
      invariant forall path :: path in routes ==> routes[path] < i
      invariant forall h :: h in handlers ==> fresh(h) && fresh(h.limiter) && fresh(h.mailer)
    {
      var handler := HandlerFor(lib, caller, forms[i], log);
      if handler.Err? {
        StopsAssembly(lib, trusted, resolver, forms, FormsOf(handlers), routes, i, handler.error);
        return Err(handler.error);
      }
      var more := Register(routes, PatternsOf(forms[i].id), i);
      if more.None? {
        StopsAssembly(lib, trusted, resolver, forms, FormsOf(handlers), routes, i, PatternTaken(forms[i].id));
        return Err(PatternTaken(forms[i].id));
      }
      RegisterAddsItsForm(routes, PatternsOf(forms[i].id), i);
      WiredSnoc(lib, caller, forms, FormsOf(handlers), routes, i, handler.value.form, more.value);
      OneMoreHandler(handlers, handler.value, log);
      handlers := handlers + [handler.value];
      routes := more.value;
    }
    r := Ok((handlers, routes));
  }

  lemma StartsEmpty(mux: Mux)
    requires Apart(mux.handlers, mux.log)
    requires forall path :: path in mux.routes ==> mux.routes[path] < |mux.handlers|
    ensures mux.Valid() && mux.Holds(seq(|mux.handlers|, _ => map[]))
  {
    assert forall i :: 0 <= i < |mux.handlers| ==> Pristine(mux.handlers[i], mux.log);
  }

  /** `New`: the whole service, or the first thing that keeps it from being built. Every form's handler
      starts with an empty limiter and outbox that no other form shares, and with its own adapter. */
  method New(lib: Library, trusted: seq<string>, forms: seq<C.Form>, log: H.Logger) returns (r: Result<Mux, Error>)
    ensures r.Err? ==> Assembly(lib, trusted, forms, Err(r.error))
    ensures r.Ok? ==> Assembly(lib, trusted, forms, Ok(r.value.Wired()))
    ensures r.Ok? ==> fresh(r.value) && r.value.Valid() && r.value.log == log
    ensures r.Ok? ==> SendAsConfigured(r.value.handlers, forms)
    ensures r.Ok? ==> Apart(r.value.handlers, log) && r.value.Holds(seq(|forms|, _ => map[]))
    ensures r.Ok? ==> forall h :: h in r.value.handlers ==> fresh(h) && fresh(h.limiter) && fresh(h.mailer)
  {
    var resolver := CI.NewResolver(lib.ip, trusted);
    if resolver.Err? {
      return Err(TrustedProxies(resolver.error));
    }
    var wired := WireAll(lib, trusted, resolver.value, forms, log);
    if wired.Err? {
      return Err(wired.error);
    }
    var mux := new Mux(wired.value.0, wired.value.1, log);
    StartsEmpty(mux);
    WiredSendAsConfigured(lib, CallerBy(lib, resolver.value), forms, mux.handlers, mux.routes, log);
    assert mux.Wired().forms == FormsOf(mux.handlers);
    assert Wired(lib, trusted, resolver.value, forms, mux.Wired());
    r := Ok(mux);
  }
}

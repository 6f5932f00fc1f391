/** internal/config/config.go after YAML decoding: resolving each form's provider, and validation. */
module Config {
  import opened Wrappers
  import opened Layers
  import Contact
  import T = Text

  const DEFAULT_FORM_ID := "default"
  const DEFAULT_RATE_LIMIT_PER_HOUR := 5
  const DEFAULT_SMTP_ADDR := "localhost:1025"

  /** What the package takes from its surroundings: the environment, strings.TrimSpace and ToLower,
      net/mail, text/template and net/url. Nothing here depends on what they do. */
  datatype Library = Library(
    env: string -> string,
    trim: string -> string,
    lower: string -> string,
    isAddress: string -> bool,
    parseTemplate: string -> Option<Contact.Template>,
    isOrigin: string -> bool,
    atoi: string -> Option<int>
  )
  {
    predicate TrimsToNothing(s: string) {
      trim(s) == ""
    }

    predicate KnownRegion(region: string) {
      lower(region) == "" || lower(region) == "us" || lower(region) == "eu"
    }
  }

  datatype Smtp = Smtp(addr: string, username: string, password: string)

  datatype Mailgun = Mailgun(domain: string, apiKey: string, region: string, baseURL: string)

  datatype Form = Form(id: string, origins: seq<string>, from: string, to: string, subject: string,
                       rateLimitPerHour: int, smtp: Option<Smtp>, mailgun: Option<Mailgun>)

  datatype YamlForm = YamlForm(id: string, origins: seq<string>, from: string, to: string, subject: string,
                               rateLimitPerHour: Option<int>, smtp: Option<SmtpLayer>, mailgun: Option<MailgunLayer>)

  datatype File = File(smtp: Option<SmtpLayer>, mailgun: Option<MailgunLayer>, forms: seq<YamlForm>)

  // ---- errors ----

  /** `describe`: a form's id, or its position where it has none. */
  datatype Where = ById(id: string) | ByPosition(index: nat)

  function Describe(index: nat, id: string): Where {
    if id != "" then ById(id) else ByPosition(index)
  }

  datatype Field =
    | IdField | OriginsField | FromField | ToField | SubjectField
    | SmtpField | MailgunField | ProviderField

  datatype Why =
    | Required
    | MustMatchPattern
    | UsedTwice
    | NoOrigin
    | BadOrigin(origin: string)
    | BadAddress(address: string)
    | BadTemplate
    | BothForms
    | DefaultsBothForms
    | NoPassword
    | NoDomain
    | NoKey
    | BadRegion(region: string)
    | BothProviders
    | Ambiguous

  datatype Error =
    | FormError(form: Where, field: Field, why: Why)
    | MissingSecret(form: Where, variable: string)
    | NoFormsConfigured
    | RequiredWhenNoFormsFile(field: Field)
    | OriginsRequiredWhenNoFormsFile
    | RateLimitNotANumber

  // ---- one form's SMTP server ----

  predicate NamesBoth(layer: Option<SmtpLayer>) {
    layer.Some? && layer.value.secret.Both()
  }

  function ValidateSmtpLayers(defaults: Option<SmtpLayer>, form: Option<SmtpLayer>, where': Where): Option<Error> {
    if NamesBoth(form) then Some(FormError(where', SmtpField, BothForms))
    else if NamesBoth(defaults) then Some(FormError(where', SmtpField, DefaultsBothForms))
    else None
  }

  /** `resolveSMTP` once its layers are merged. */
  function ReadSmtp(env: string -> string, merged: SmtpLayer, where': Where): Result<Smtp, Error> {
    var addr := if merged.addr == "" then DEFAULT_SMTP_ADDR else merged.addr;
    var secret := merged.secret;
    if secret.variable != "" && env(secret.variable) == "" then Err(MissingSecret(where', secret.variable))
    else
      var password := if secret.variable != "" then env(secret.variable) else secret.inline;
      if merged.username != "" && password == "" then Err(FormError(where', SmtpField, NoPassword))
      else Ok(Smtp(addr, merged.username, password))
  }

  function ResolveSmtp(env: string -> string, defaults: Option<SmtpLayer>, form: Option<SmtpLayer>, where': Where)
    : Result<Smtp, Error>
  {
    match ValidateSmtpLayers(defaults, form, where')
    case Some(e) => Err(e)
    case None => ReadSmtp(env, Merged(SmtpOver, NO_SMTP, [defaults, form]), where')
  }

  method ResolveSMTP(env: string -> string, defaults: Option<SmtpLayer>, form: Option<SmtpLayer>, where': Where)
    returns (r: Result<Smtp, Error>)
    ensures r == ResolveSmtp(env, defaults, form, where')
  {
    var problem := ValidateSmtpLayers(defaults, form, where');
    if problem.Some? {
      return Err(problem.value);
    }
    var merged := MergeSmtpLayers(defaults, form);
    var out := Smtp(merged.addr, merged.username, merged.secret.inline);
    if out.addr == "" {
      out := out.(addr := DEFAULT_SMTP_ADDR);
    }
    if merged.secret.variable != "" {
      out := out.(password := env(merged.secret.variable));
      if out.password == "" {
        return Err(MissingSecret(where', merged.secret.variable));
      }
    }
    if out.username != "" && out.password == "" {
      return Err(FormError(where', SmtpField, NoPassword));
    }
    r := Ok(out);
  }

  /** The secret as the variable or the inline text gives it. */
  function Said(env: string -> string, secret: Secret): string {
    if secret.variable != "" then env(secret.variable) else secret.inline
  }

  /** A forms file never configures a login without a password, and each form gets a server; it is
      refused exactly when a layer names its password both ways, the variable named is unset, or a
      login has no password named at all. */
  lemma ResolvedSmtpCanLogIn(env: string -> string, defaults: Option<SmtpLayer>, form: Option<SmtpLayer>,
                             where': Where)
    ensures var merged := Merged(SmtpOver, NO_SMTP, [defaults, form]);
            var r := ResolveSmtp(env, defaults, form, where');
            && (r.Ok? ==> r.value.addr != "" && (r.value.username != "" ==> r.value.password != ""))
            && (r.Ok? ==> r.value.username == merged.username && r.value.addr == Over(DEFAULT_SMTP_ADDR, merged.addr))
            && (r.Ok? ==> r.value.password == Said(env, merged.secret))
            && (r.Ok? <==> !NamesBoth(defaults) && !NamesBoth(form)
                           && (merged.secret.variable != "" ==> env(merged.secret.variable) != "")
                           && (merged.username != "" ==> merged.secret.Named()))
  {
    assert DEFAULT_SMTP_ADDR != "" by {
      assert DEFAULT_SMTP_ADDR[0] == 'l';
    }
  }

  // ---- one form's Mailgun account ----

  function MailgunFault(lib: Library, out: Mailgun, where': Where): Option<Error> {
    if lib.TrimsToNothing(out.domain) then Some(FormError(where', MailgunField, NoDomain))
    else if lib.TrimsToNothing(out.apiKey) then Some(FormError(where', MailgunField, NoKey))
    else if !lib.KnownRegion(out.region) then Some(FormError(where', MailgunField, BadRegion(out.region)))
    else None
  }

  /** `resolveMailgun` once its layers are merged. */
  function ReadMailgun(lib: Library, merged: MailgunLayer, where': Where): Result<Mailgun, Error> {
    var secret := merged.secret;
    if secret.variable != "" && lib.env(secret.variable) == "" then Err(MissingSecret(where', secret.variable))
    else
      var key := if secret.variable != "" then lib.env(secret.variable) else secret.inline;
      var out := Mailgun(merged.domain, key, merged.region, merged.baseURL);
      match MailgunFault(lib, out, where')
      case Some(e) => Err(e)
      case None => Ok(out)
  }

  function ResolveMailgun(lib: Library, defaults: Option<MailgunLayer>, form: Option<MailgunLayer>, where': Where)
    : Result<Mailgun, Error>
  {
    if form.Some? && form.value.secret.Both() then Err(FormError(where', MailgunField, BothForms))
    else ReadMailgun(lib, Merged(MailgunOver, NO_MAILGUN, [defaults, form]), where')
  }

  method ResolveMailgunForm(lib: Library, defaults: Option<MailgunLayer>, form: Option<MailgunLayer>, where': Where)
    returns (r: Result<Mailgun, Error>)
    ensures r == ResolveMailgun(lib, defaults, form, where')
  {
    if form.Some? && form.value.secret.inline != "" && form.value.secret.variable != "" {
      return Err(FormError(where', MailgunField, BothForms));
    }
    var merged := MergeMailgunLayers(defaults, form);
    var out := Mailgun(merged.domain, merged.secret.inline, merged.region, merged.baseURL);
    if merged.secret.variable != "" {
      out := out.(apiKey := lib.env(merged.secret.variable));
      if out.apiKey == "" {
        return Err(MissingSecret(where', merged.secret.variable));
      }
    }
    var fault := MailgunFault(lib, out, where');
    r := if fault.Some? then Err(fault.value) else Ok(out);
  }

  /** What a resolved account has. */
  predicate UsableAccount(lib: Library, m: Mailgun) {
    !lib.TrimsToNothing(m.domain) && !lib.TrimsToNothing(m.apiKey) && lib.KnownRegion(m.region)
  }

  /** A resolved account is usable and is the merged layers'; one is refused exactly when the form names
      its key both ways, the variable named is unset, the domain or the key is blank, or the region is
      unknown. */
  lemma ResolvedMailgunIsUsable(lib: Library, defaults: Option<MailgunLayer>, form: Option<MailgunLayer>, where': Where)
    ensures var merged := Merged(MailgunOver, NO_MAILGUN, [defaults, form]);
            var r := ResolveMailgun(lib, defaults, form, where');
            && (r.Ok? ==>
                  && UsableAccount(lib, r.value)
                  && r.value.domain == merged.domain && r.value.region == merged.region
                  && r.value.baseURL == merged.baseURL && r.value.apiKey == Said(lib.env, merged.secret))
            && (r.Ok? <==> !NamesBothKeys(form)
                           && (merged.secret.variable != "" ==> lib.env(merged.secret.variable) != "")
                           && !lib.TrimsToNothing(merged.domain) && !lib.TrimsToNothing(Said(lib.env, merged.secret))
                           && lib.KnownRegion(merged.region))
  {
  }

  predicate NamesBothKeys(layer: Option<MailgunLayer>) {
    layer.Some? && layer.value.secret.Both()
  }

  /** Naming both the password and its variable is refused in either layer. */
  lemma BothPasswordsRefused(env: string -> string, defaults: Option<SmtpLayer>, form: Option<SmtpLayer>,
                             where': Where)
    ensures ResolveSmtp(env, defaults, form, where') == Err(FormError(where', SmtpField, BothForms)) <==>
              NamesBoth(form)
    ensures ResolveSmtp(env, defaults, form, where') == Err(FormError(where', SmtpField, DefaultsBothForms)) <==>
              NamesBoth(defaults) && !NamesBoth(form)
  {
  }

  /** Naming both the key and its variable is refused exactly when the form's own block does it. */
  lemma BothKeysRefusedIffOwn(lib: Library, defaults: Option<MailgunLayer>, form: Option<MailgunLayer>, where': Where)
    ensures ResolveMailgun(lib, defaults, form, where') == Err(FormError(where', MailgunField, BothForms)) <==>
              NamesBothKeys(form)
  {
  }

  /** The file's defaults are not held to naming the key one way only, unlike its SMTP defaults: they are
      read as if they named the variable alone. */
  lemma BothKeysInDefaultsPass(lib: Library, defaults: MailgunLayer, form: Option<MailgunLayer>, where': Where)
    requires defaults.secret.Both()
    ensures ResolveMailgun(lib, Some(defaults), form, where') ==
            ResolveMailgun(lib, Some(defaults.(secret := Secret("", defaults.secret.variable))), form, where')
  {
    var plain := defaults.(secret := Secret("", defaults.secret.variable));
    var a, b := [Some(defaults), form], [Some(plain), form];
    assert a[..1][..0] == b[..1][..0] == [];
    assert MailgunOver(NO_MAILGUN, defaults) == MailgunOver(NO_MAILGUN, plain);
    assert Merged(MailgunOver, NO_MAILGUN, a[..1]) == Merged(MailgunOver, NO_MAILGUN, b[..1]);
  }

  // ---- which provider a form uses ----

  type Providers = (Option<Smtp>, Option<Mailgun>)

  function WithSmtp(r: Result<Smtp, Error>): Result<Providers, Error> {
    match r
    case Ok(smtp) => Ok((Some(smtp), None))
    case Err(e) => Err(e)
  }

  function WithMailgun(r: Result<Mailgun, Error>): Result<Providers, Error> {
    match r
    case Ok(mailgun) => Ok((None, Some(mailgun)))
    case Err(e) => Err(e)
  }

  function ResolveProvider(lib: Library, file: File, form: YamlForm, where': Where): Result<Providers, Error> {
    if form.smtp.Some? && form.mailgun.Some? then Err(FormError(where', ProviderField, BothProviders))
    else if form.mailgun.Some? then WithMailgun(ResolveMailgun(lib, file.mailgun, form.mailgun, where'))
    else if form.smtp.Some? then WithSmtp(ResolveSmtp(lib.env, file.smtp, form.smtp, where'))
    else if file.mailgun.Some? && file.smtp.Some? then Err(FormError(where', ProviderField, Ambiguous))
    else if file.mailgun.Some? then WithMailgun(ResolveMailgun(lib, file.mailgun, None, where'))
    else WithSmtp(ResolveSmtp(lib.env, file.smtp, None, where'))
  }

  /** Exactly one provider, and if that is Mailgun an account with a domain, a key and a known region. */
  predicate OneProvider(lib: Library, p: Providers) {
    match p
    case (Some(smtp), None) => true
    case (None, Some(mailgun)) => UsableAccount(lib, mailgun)
    case _ => false
  }

  /** A form that resolves has exactly one provider; it is Mailgun when the form names it, or names
      neither and the file's defaults do. */
  lemma ResolvedHasOneProvider(lib: Library, file: File, form: YamlForm, where': Where)
    requires ResolveProvider(lib, file, form, where').Ok?
    ensures var p := ResolveProvider(lib, file, form, where').value;
            && OneProvider(lib, p)
            && (p.1.Some? <==> form.mailgun.Some? || (form.smtp.None? && file.mailgun.Some?))
            && (p.0.Some? && p.0.value.username != "" ==> p.0.value.password != "")
    ensures !(form.smtp.Some? && form.mailgun.Some?)
    ensures form.smtp.Some? || form.mailgun.Some? || file.smtp.None? || file.mailgun.None?
  {
    if form.mailgun.Some? {
      ResolvedMailgunIsUsable(lib, file.mailgun, form.mailgun, where');
    } else if form.smtp.Some? {
      ResolvedSmtpCanLogIn(lib.env, file.smtp, form.smtp, where');
    } else if file.mailgun.Some? {
      ResolvedMailgunIsUsable(lib, file.mailgun, None, where');
    } else {
      ResolvedSmtpCanLogIn(lib.env, file.smtp, None, where');
    }
  }

  // ---- validation ----

  predicate IsIdChar(c: char) {
    'a' <= c <= 'z' || '0' <= c <= '9'
  }

  /** ^[a-z0-9][a-z0-9_-]*$ */
  predicate IsFormId(id: string) {
    && id != ""
    && IsIdChar(id[0])
    && forall i :: 0 <= i < |id| ==> IsIdChar(id[i]) || id[i] == '_' || id[i] == '-'
  }

  function ValidateFormId(where': Where, id: string, seen: set<string>): Option<Error> {
    if id == "" then Some(FormError(where', IdField, Required))
    else if !IsFormId(id) then Some(FormError(where', IdField, MustMatchPattern))
    else if id in seen then Some(FormError(where', IdField, UsedTwice))
    else None
  }

  function FirstBadOrigin(lib: Library, origins: seq<string>): Option<string> {
    if origins == [] then None
    else if !lib.isOrigin(origins[0]) then Some(origins[0])
    else FirstBadOrigin(lib, origins[1..])
  }

  function AddressFault(lib: Library, where': Where, field: Field, value: string): Option<Error> {
    if lib.TrimsToNothing(value) then Some(FormError(where', field, Required))
    else if !lib.isAddress(value) then Some(FormError(where', field, BadAddress(value)))
    else None
  }

  function OrElse(a: Option<Error>, b: Option<Error>): Option<Error> {
    if a.Some? then a else b
  }

  function OriginsFault(lib: Library, where': Where, origins: seq<string>): Option<Error> {
    if origins == [] then Some(FormError(where', OriginsField, NoOrigin))
    else
      match FirstBadOrigin(lib, origins)
      case Some(o) => Some(FormError(where', OriginsField, BadOrigin(o)))
      case None => None
  }

  function TemplateFault(lib: Library, where': Where, subject: string): Option<Error> {
    if lib.parseTemplate(subject).None? then Some(FormError(where', SubjectField, BadTemplate)) else None
  }

  function FieldsFault(lib: Library, where': Where, f: Form): Option<Error> {
    OrElse(OriginsFault(lib, where', f.origins),
           OrElse(AddressFault(lib, where', FromField, f.from),
                  OrElse(AddressFault(lib, where', ToField, f.to), TemplateFault(lib, where', f.subject))))
  }

  method ValidateFormFields(lib: Library, where': Where, f: Form) returns (err: Option<Error>)
    ensures err == FieldsFault(lib, where', f)
  {
    if |f.origins| == 0 {
      return Some(FormError(where', OriginsField, NoOrigin));
    }
    for i := 0 to |f.origins|
      invariant FirstBadOrigin(lib, f.origins) == FirstBadOrigin(lib, f.origins[i..])
    {
      if !lib.isOrigin(f.origins[i]) {
        return Some(FormError(where', OriginsField, BadOrigin(f.origins[i])));
      }
    }
    var addresses := [(FromField, f.from), (ToField, f.to)];
    for i := 0 to 2
      invariant i >= 1 ==> AddressFault(lib, where', FromField, f.from).None?
      invariant i == 2 ==> AddressFault(lib, where', ToField, f.to).None?
    {
      var (field, value) := addresses[i];
      err := AddressFault(lib, where', field, value);
      if err.Some? {
        return;
      }
    }
    err := TemplateFault(lib, where', f.subject);
  }

  function Ids(forms: seq<Form>): seq<string> {
    seq(|forms|, i requires 0 <= i < |forms| => forms[i].id)
  }

  /** The ids of the first n forms. */
  function Seen(forms: seq<Form>, n: nat): set<string>
    requires n <= |forms|
  {
    set id | id in Ids(forms)[..n]
  }

  lemma SeenNext(forms: seq<Form>, n: nat)
    requires n < |forms|
    ensures Seen(forms, n + 1) == Seen(forms, n) + {forms[n].id}
  {
    assert Ids(forms)[..n + 1] == Ids(forms)[..n] + [forms[n].id];
  }

  /** What validation finds wrong with the i-th form. */
  function Fault(lib: Library, forms: seq<Form>, i: nat): Option<Error>
    requires i < |forms|
  {
    var f := forms[i];
    var where' := Describe(i, f.id);
    OrElse(ValidateFormId(where', f.id, Seen(forms, i)), FieldsFault(lib, where', f))
  }

  ghost predicate SoundUpTo(lib: Library, forms: seq<Form>, n: nat)
    requires n <= |forms|
  {
    forall i :: 0 <= i < n ==> Fault(lib, forms, i).None?
  }

  /** The error validation owes, if any: that of the first form with something wrong. */
  ghost predicate Verdict(lib: Library, forms: seq<Form>, err: Option<Error>) {
    match err
    case None => forms != [] && SoundUpTo(lib, forms, |forms|)
    case Some(e) =>
      || (forms == [] && e == NoFormsConfigured)
      || (exists i :: 0 <= i < |forms| && SoundUpTo(lib, forms, i) && Fault(lib, forms, i) == err)
  }

  method Validate(lib: Library, forms: seq<Form>) returns (err: Option<Error>)
    ensures Verdict(lib, forms, err)
  {
    if |forms| == 0 {
      return Some(NoFormsConfigured);
    }
    var seen: set<string> := {};
    for i := 0 to |forms|
      invariant seen == Seen(forms, i)
      invariant SoundUpTo(lib, forms, i)
    {
      var f := forms[i];
      var where' := Describe(i, f.id);
      err := ValidateFormId(where', f.id, seen);
      if err.Some? {
        return;
      }
      SeenNext(forms, i);
      seen := seen + {f.id};
      err := ValidateFormFields(lib, where', f);
      if err.Some? {
        return;
      }
    }
    err := None;
  }

  // ---- what a valid configuration is ----

  /** Everything asked of a form on its own. */
  ghost predicate SoundForm(lib: Library, f: Form) {
    && IsFormId(f.id)
    && f.origins != [] && (forall o :: o in f.origins ==> lib.isOrigin(o))
    && !lib.TrimsToNothing(f.from) && lib.isAddress(f.from)
    && !lib.TrimsToNothing(f.to) && lib.isAddress(f.to)
    && lib.parseTemplate(f.subject).Some?
  }

  ghost predicate SoundForms(lib: Library, forms: seq<Form>) {
    && forms != []
    && (forall i :: 0 <= i < |forms| ==> SoundForm(lib, forms[i]))
    && (forall i, j :: 0 <= i < j < |forms| ==> forms[i].id != forms[j].id)
  }

  lemma {:induction false} FirstBadOriginIsNone(lib: Library, origins: seq<string>)
    ensures FirstBadOrigin(lib, origins).None? <==> forall o :: o in origins ==> lib.isOrigin(o)
  {
    if origins != [] {
      FirstBadOriginIsNone(lib, origins[1..]);
      assert forall o :: o in origins <==> o == origins[0] || o in origins[1..];
    }
  }

  lemma SeenIsEarlier(forms: seq<Form>, i: nat)
    requires i < |forms|
    ensures forms[i].id in Seen(forms, i) <==> exists j :: 0 <= j < i && forms[j].id == forms[i].id
  {
    var earlier := Ids(forms)[..i];
    assert forms[i].id in Seen(forms, i) <==> exists j :: 0 <= j < i && earlier[j] == forms[i].id;
    assert forall j :: 0 <= j < i ==> earlier[j] == forms[j].id;
  }

  lemma FaultFreeIff(lib: Library, forms: seq<Form>, i: nat)
    requires i < |forms|
    ensures Fault(lib, forms, i).None? <==>
              SoundForm(lib, forms[i]) && forall j :: 0 <= j < i ==> forms[j].id != forms[i].id
  {
    FirstBadOriginIsNone(lib, forms[i].origins);
    SeenIsEarlier(forms, i);
  }

  /** Validation passes exactly the sound configurations. */
  lemma ValidIffSound(lib: Library, forms: seq<Form>)
    ensures Verdict(lib, forms, None) <==> SoundForms(lib, forms)
  {
    forall i | 0 <= i < |forms|
      ensures Fault(lib, forms, i).None? <==>
                SoundForm(lib, forms[i]) && forall j :: 0 <= j < i ==> forms[j].id != forms[i].id
    {
      FaultFreeIff(lib, forms, i);
    }
  }

  /** Something is wrong with this field of the i-th form. */
  ghost predicate Wrong(lib: Library, forms: seq<Form>, i: nat, field: Field)
    requires i < |forms|
  {
    var f := forms[i];
    match field
    case IdField => !IsFormId(f.id) || exists j :: 0 <= j < i && forms[j].id == f.id
    case OriginsField => f.origins == [] || exists o :: o in f.origins && !lib.isOrigin(o)
    case FromField => lib.TrimsToNothing(f.from) || !lib.isAddress(f.from)
    case ToField => lib.TrimsToNothing(f.to) || !lib.isAddress(f.to)
    case SubjectField => lib.parseTemplate(f.subject).None?
    case _ => false
  }

  /** The order the fields are looked at. */
  function FieldRank(field: Field): nat {
    match field
    case IdField => 0
    case OriginsField => 1
    case FromField => 2
    case ToField => 3
    case SubjectField => 4
    case _ => 5
  }

  lemma FieldsFaultIsFirst(lib: Library, forms: seq<Form>, i: nat)
    requires i < |forms|
    ensures var err := FieldsFault(lib, Describe(i, forms[i].id), forms[i]);
            err.Some? ==>
              && err.value.FormError? && err.value.form == Describe(i, forms[i].id)
              && Wrong(lib, forms, i, err.value.field)
              && forall g: Field :: 1 <= FieldRank(g) < FieldRank(err.value.field) ==> !Wrong(lib, forms, i, g)
  {
    FirstBadOriginIsNone(lib, forms[i].origins);
  }

  /** An error names the first wrong field of the form it names. */
  lemma FaultNamesFirstWrongField(lib: Library, forms: seq<Form>, i: nat)
    requires i < |forms| && Fault(lib, forms, i).Some?
    ensures var e := Fault(lib, forms, i).value;
            && e.FormError? && e.form == Describe(i, forms[i].id)
            && Wrong(lib, forms, i, e.field)
            && forall g: Field :: FieldRank(g) < FieldRank(e.field) ==> !Wrong(lib, forms, i, g)
  {
    SeenIsEarlier(forms, i);
    FieldsFaultIsFirst(lib, forms, i);
  }

  /** An error says what is the matter with the field it names. */
  ghost predicate TrueOf(lib: Library, forms: seq<Form>, i: nat, field: Field, why: Why)
    requires i < |forms|
  {
    var f := forms[i];
    match field
    case IdField =>
      why == if f.id == "" then Required else if !IsFormId(f.id) then MustMatchPattern else UsedTwice
    case OriginsField =>
      if f.origins == [] then why == NoOrigin
      else why.BadOrigin? && IsFirstBadOrigin(lib, f.origins, why.origin)
    case FromField => why == if lib.TrimsToNothing(f.from) then Required else BadAddress(f.from)
    case ToField => why == if lib.TrimsToNothing(f.to) then Required else BadAddress(f.to)
    case SubjectField => why == BadTemplate
    case _ => false
  }

  ghost predicate IsFirstBadOrigin(lib: Library, origins: seq<string>, origin: string) {
    exists k :: 0 <= k < |origins| && origins[k] == origin && !lib.isOrigin(origin)
                && forall j :: 0 <= j < k ==> lib.isOrigin(origins[j])
  }

  lemma {:induction false} BadOriginIsFirst(lib: Library, origins: seq<string>)
    ensures FirstBadOrigin(lib, origins).Some? ==>
              IsFirstBadOrigin(lib, origins, FirstBadOrigin(lib, origins).value)
  {
    if origins != [] && lib.isOrigin(origins[0]) && FirstBadOrigin(lib, origins).Some? {
      BadOriginIsFirst(lib, origins[1..]);
      var o := FirstBadOrigin(lib, origins).value;
      var k :| 0 <= k < |origins| - 1 && origins[1..][k] == o
               && forall j :: 0 <= j < k ==> lib.isOrigin(origins[1..][j]);
      assert origins[k + 1] == o;
    }
  }

  /** What a person is told about a form is what is wrong with the field named. */
  lemma FaultSaysWhatIsWrong(lib: Library, forms: seq<Form>, i: nat)
    requires i < |forms| && Fault(lib, forms, i).Some?
    ensures var e := Fault(lib, forms, i).value;
            e.FormError? && TrueOf(lib, forms, i, e.field, e.why)
  {
    BadOriginIsFirst(lib, forms[i].origins);
  }

  /** Which ids are taken, built up from the left: a letter or digit first, then dashes and underscores
      too. None holds a character with a meaning in a path or a pattern. */
  lemma FormIdsGrow(id: string, c: char)
    ensures IsFormId([c]) <==> 'a' <= c <= 'z' || '0' <= c <= '9'
    ensures id != "" ==> (IsFormId(id + [c]) <==>
                            IsFormId(id) && ('a' <= c <= 'z' || '0' <= c <= '9' || c == '-' || c == '_'))
    ensures IsFormId(id) ==> '/' !in id && '{' !in id
  {
    if id != "" {
      LongerId(id, c);
    }
  }

  lemma LongerId(id: string, c: char)
    requires id != ""
    ensures IsFormId(id + [c]) <==> IsFormId(id) && (IsIdChar(c) || c == '-' || c == '_')
  {
    var next := id + [c];
    assert next[|id|] == c;
    assert forall i :: 0 <= i < |id| ==> next[i] == id[i];
  }

  /** Only one error can be owed, so which one a person is told about first never changes. */
  lemma VerdictIsUnique(lib: Library, forms: seq<Form>, a: Option<Error>, b: Option<Error>)
    requires Verdict(lib, forms, a) && Verdict(lib, forms, b)
    ensures a == b
  {
    if a.Some? && b.Some? && forms != [] {
      var i :| 0 <= i < |forms| && SoundUpTo(lib, forms, i) && Fault(lib, forms, i) == a;
      var j :| 0 <= j < |forms| && SoundUpTo(lib, forms, j) && Fault(lib, forms, j) == b;
      assert i == j;
    }
  }

  // ---- the forms file ----

  /** What one form of the file becomes. */
  function FormOf(lib: Library, file: File, i: nat): Result<Form, Error>
    requires i < |file.forms|
  {
    var f := file.forms[i];
    match ResolveProvider(lib, file, f, Describe(i, f.id))
    case Err(e) => Err(e)
    case Ok((smtp, mailgun)) =>
      Ok(Form(f.id, f.origins, f.from, f.to,
              if lib.TrimsToNothing(f.subject) then Contact.DEFAULT_SUBJECT else f.subject,
              if f.rateLimitPerHour.Some? then f.rateLimitPerHour.value else DEFAULT_RATE_LIMIT_PER_HOUR,
              smtp, mailgun))
  }

  ghost predicate FormsOf(lib: Library, file: File, forms: seq<Form>, n: nat)
    requires n <= |file.forms|
  {
    |forms| == n && forall i :: 0 <= i < n ==> FormOf(lib, file, i) == Ok(forms[i])
  }

  /** What reading the file must give: its forms if each resolves and all are sound together, and
      otherwise the error of the first form that does not resolve, or else what validation owes. */
  ghost predicate Reading(lib: Library, file: File, r: Result<seq<Form>, Error>) {
    match r
    case Ok(forms) => FormsOf(lib, file, forms, |file.forms|) && SoundForms(lib, forms)
    case Err(e) =>
      || (exists forms: seq<Form> :: |forms| < |file.forms| && FormsOf(lib, file, forms, |forms|)
                                     && FormOf(lib, file, |forms|) == Err(e))
      || (exists forms :: FormsOf(lib, file, forms, |file.forms|) && Verdict(lib, forms, Some(e)))
  }

  method ParseForms(lib: Library, file: File) returns (r: Result<seq<Form>, Error>)
    ensures Reading(lib, file, r)
  {
    var forms: seq<Form> := [];
    for i := 0 to |file.forms|
      invariant FormsOf(lib, file, forms, i)
    {
      var f := file.forms[i];
      var providers := ResolveProvider(lib, file, f, Describe(i, f.id));
      if providers.Err? {
        assert FormOf(lib, file, |forms|) == Err(providers.error);
        return Err(providers.error);
      }
      var form := Form(f.id, f.origins, f.from, f.to, f.subject, DEFAULT_RATE_LIMIT_PER_HOUR,
                       providers.value.0, providers.value.1);
      if lib.TrimsToNothing(form.subject) {
        form := form.(subject := Contact.DEFAULT_SUBJECT);
      }
      if f.rateLimitPerHour.Some? {
        form := form.(rateLimitPerHour := f.rateLimitPerHour.value);
      }
      forms := forms + [form];
    }
    var err := Validate(lib, forms);
    if err.Some? {
      return Err(err.value);
    }
    ValidIffSound(lib, forms);
    r := Ok(forms);
  }

  /** What the rest of the service may count on, however the forms were configured. */
  ghost predicate Deployable(lib: Library, forms: seq<Form>) {
    && SoundForms(lib, forms)
    && forall i :: 0 <= i < |forms| ==>
         OneProvider(lib, (forms[i].smtp, forms[i].mailgun)) && HasSubject(lib, forms[i])
  }

  /** A subject left blank was replaced. */
  predicate HasSubject(lib: Library, f: Form) {
    lib.TrimsToNothing(f.subject) ==> f.subject == Contact.DEFAULT_SUBJECT
  }

  ghost predicate LoginsHavePasswords(forms: seq<Form>) {
    forall i :: 0 <= i < |forms| && forms[i].smtp.Some? && forms[i].smtp.value.username != "" ==>
                forms[i].smtp.value.password != ""
  }

  /** A form keeps what the file says of it; a blank subject and an omitted limit take the defaults, an
      explicit limit of zero does not. */
  predicate Keeps(lib: Library, y: YamlForm, f: Form) {
    && f.id == y.id && f.origins == y.origins && f.from == y.from && f.to == y.to
    && f.subject == (if lib.TrimsToNothing(y.subject) then Contact.DEFAULT_SUBJECT else y.subject)
    && (y.rateLimitPerHour == Some(f.rateLimitPerHour)
        || (y.rateLimitPerHour.None? && f.rateLimitPerHour == DEFAULT_RATE_LIMIT_PER_HOUR))
  }

  /** A forms file that is accepted is deployable, keeps every form's own fields in order, and holds no
      login without a password. */
  lemma ParsedIsDeployable(lib: Library, file: File, forms: seq<Form>)
    requires Reading(lib, file, Ok(forms))
    ensures Deployable(lib, forms) && LoginsHavePasswords(forms)
    ensures |forms| == |file.forms| && forall i :: 0 <= i < |forms| ==> Keeps(lib, file.forms[i], forms[i])
  {
    forall i | 0 <= i < |forms|
      ensures OneProvider(lib, (forms[i].smtp, forms[i].mailgun)) && HasSubject(lib, forms[i])
      ensures forms[i].smtp.Some? && forms[i].smtp.value.username != "" ==> forms[i].smtp.value.password != ""
      ensures Keeps(lib, file.forms[i], forms[i])
    {
      var f := file.forms[i];
      assert FormOf(lib, file, i) == Ok(forms[i]);
      ResolvedHasOneProvider(lib, file, f, Describe(i, f.id));
    }
  }

  // ---- whose settings a form gets ----

  /** What the form says if it says anything, else what the file says, else the default. */
  predicate FirstSaid(got: string, own: string, shared: string, default: string) {
    got == if own != "" then own else if shared != "" then shared else default
  }

  /** The same for a secret, said by a variable or inline. */
  predicate FirstSecret(env: string -> string, got: string, own: Secret, shared: Secret) {
    if own.variable != "" then got == env(own.variable)
    else if own.inline != "" then got == own.inline
    else if shared.variable != "" then got == env(shared.variable)
    else got == shared.inline
  }

  /** The server of a form, setting by setting. */
  predicate SmtpIs(env: string -> string, got: Smtp, own: SmtpLayer, shared: SmtpLayer) {
    && FirstSaid(got.addr, own.addr, shared.addr, "localhost:1025")
    && FirstSaid(got.username, own.username, shared.username, "")
    && FirstSecret(env, got.password, own.secret, shared.secret)
  }

  /** The account of a form, setting by setting. */
  predicate MailgunIs(env: string -> string, got: Mailgun, own: MailgunLayer, shared: MailgunLayer) {
    && FirstSaid(got.domain, own.domain, shared.domain, "")
    && FirstSaid(got.region, own.region, shared.region, "")
    && FirstSaid(got.baseURL, own.baseURL, shared.baseURL, "")
    && FirstSecret(env, got.apiKey, own.secret, shared.secret)
  }

  function SmtpBlock(layer: Option<SmtpLayer>): SmtpLayer {
    if layer.Some? then layer.value else SmtpLayer("", "", Secret("", ""))
  }

  function MailgunBlock(layer: Option<MailgunLayer>): MailgunLayer {
    if layer.Some? then layer.value else MailgunLayer("", "", "", Secret("", ""))
  }

  lemma ResolvedSmtpIs(env: string -> string, defaults: Option<SmtpLayer>, form: Option<SmtpLayer>, where': Where)
    requires ResolveSmtp(env, defaults, form, where').Ok?
    ensures SmtpIs(env, ResolveSmtp(env, defaults, form, where').value, SmtpBlock(form), SmtpBlock(defaults))
  {
    TwoLayers(SmtpOver, NO_SMTP, defaults, form);
  }

  lemma ResolvedMailgunIs(lib: Library, defaults: Option<MailgunLayer>, form: Option<MailgunLayer>, where': Where)
    requires ResolveMailgun(lib, defaults, form, where').Ok?
    ensures MailgunIs(lib.env, ResolveMailgun(lib, defaults, form, where').value, MailgunBlock(form),
                      MailgunBlock(defaults))
  {
    TwoLayers(MailgunOver, NO_MAILGUN, defaults, form);
  }

  lemma ResolvedProviderIs(lib: Library, file: File, form: YamlForm, where': Where)
    requires ResolveProvider(lib, file, form, where').Ok?
    ensures var p := ResolveProvider(lib, file, form, where').value;
            && (p.0.Some? ==> SmtpIs(lib.env, p.0.value, SmtpBlock(form.smtp), SmtpBlock(file.smtp)))
            && (p.1.Some? ==> MailgunIs(lib.env, p.1.value, MailgunBlock(form.mailgun), MailgunBlock(file.mailgun)))
  {
    if form.mailgun.Some? {
      ResolvedMailgunIs(lib, file.mailgun, form.mailgun, where');
    } else if form.smtp.Some? {
      ResolvedSmtpIs(lib.env, file.smtp, form.smtp, where');
    } else if file.mailgun.Some? {
      ResolvedMailgunIs(lib, file.mailgun, None, where');
    } else {
      ResolvedSmtpIs(lib.env, file.smtp, None, where');
    }
  }

  /** Every form of an accepted file sends by the provider it names, or else the file's, and each setting of
      it is the form's if it sets it, else the file's, else the default. */
  lemma AcceptedFormsSendAsSaid(lib: Library, file: File, forms: seq<Form>, i: nat)
    requires Reading(lib, file, Ok(forms)) && i < |forms|
    ensures |forms| == |file.forms|
    ensures var y, f := file.forms[i], forms[i];
            && (f.mailgun.Some? <==> y.mailgun.Some? || (y.smtp.None? && file.mailgun.Some?))
            && (f.smtp.Some? <==> f.mailgun.None?)
            && (f.smtp.Some? ==> SmtpIs(lib.env, f.smtp.value, SmtpBlock(y.smtp), SmtpBlock(file.smtp)))
            && (f.mailgun.Some? ==>
                  MailgunIs(lib.env, f.mailgun.value, MailgunBlock(y.mailgun), MailgunBlock(file.mailgun)))
  {
    var y := file.forms[i];
    assert FormOf(lib, file, i) == Ok(forms[i]);
    ResolvedHasOneProvider(lib, file, y, Describe(i, y.id));
    ResolvedProviderIs(lib, file, y, Describe(i, y.id));
  }

  /** A form that overrides its login alone keeps the shared address. */
  lemma SharedAddressIsKept(lib: Library, file: File, forms: seq<Form>, i: nat)
    requires Reading(lib, file, Ok(forms)) && i < |forms|
    requires file.smtp.Some? && file.smtp.value.addr != ""
    requires file.forms[i].smtp.Some? && file.forms[i].smtp.value.addr == ""
    ensures forms[i].smtp.Some? && forms[i].smtp.value.addr == file.smtp.value.addr
  {
    AcceptedFormsSendAsSaid(lib, file, forms, i);
    var y := file.forms[i];
    assert FormOf(lib, file, i) == Ok(forms[i]);
    ResolvedHasOneProvider(lib, file, y, Describe(i, y.id));
  }

  // ---- why a file is refused ----

  /** The variable a form's secret is read from, if any: its own block decides if it names a secret. */
  function VariableOf(own: Secret, shared: Secret): string {
    if own.variable != "" || own.inline != "" then own.variable else shared.variable
  }

  /** A server is refused for the first of these: a secret named both ways, a variable that is unset, a
      login without a password. */
  lemma SmtpRefusalSaysWhy(env: string -> string, defaults: Option<SmtpLayer>, form: Option<SmtpLayer>,
                           where': Where, e: Error)
    requires ResolveSmtp(env, defaults, form, where') == Err(e)
    ensures var own, shared := SmtpBlock(form), SmtpBlock(defaults);
            var variable := VariableOf(own.secret, shared.secret);
            if own.secret.Both() then e == FormError(where', SmtpField, BothForms)
            else if shared.secret.Both() then e == FormError(where', SmtpField, DefaultsBothForms)
            else if variable != "" then e == MissingSecret(where', variable) && env(variable) == ""
            else e == FormError(where', SmtpField, NoPassword) && (own.username != "" || shared.username != "")
  {
    TwoLayers(SmtpOver, NO_SMTP, defaults, form);
  }

  /** An account is refused for the first of these: a key named both ways, a variable that is unset, no
      domain, no key, an unknown region. */
  lemma MailgunRefusalSaysWhy(lib: Library, defaults: Option<MailgunLayer>, form: Option<MailgunLayer>,
                              where': Where, e: Error)
    requires ResolveMailgun(lib, defaults, form, where') == Err(e)
    ensures var own, shared := MailgunBlock(form), MailgunBlock(defaults);
            var variable := VariableOf(own.secret, shared.secret);
            var domain := if own.domain != "" then own.domain else shared.domain;
            var region := if own.region != "" then own.region else shared.region;
            if own.secret.Both() then e == FormError(where', MailgunField, BothForms)
            else if variable != "" && lib.env(variable) == "" then e == MissingSecret(where', variable)
            else if lib.TrimsToNothing(domain) then e == FormError(where', MailgunField, NoDomain)
            else e == FormError(where', MailgunField, NoKey)
                 || (e == FormError(where', MailgunField, BadRegion(region)) && !lib.KnownRegion(region))
  {
    TwoLayers(MailgunOver, NO_MAILGUN, defaults, form);
  }

  /** A form is refused for its choice of provider exactly when it names both or leaves open which of the
      file's two it means. */
  lemma ProviderRefusedIff(lib: Library, file: File, form: YamlForm, where': Where)
    ensures ResolveProvider(lib, file, form, where') == Err(FormError(where', ProviderField, BothProviders)) <==>
              form.smtp.Some? && form.mailgun.Some?
    ensures ResolveProvider(lib, file, form, where') == Err(FormError(where', ProviderField, Ambiguous)) <==>
              form.smtp.None? && form.mailgun.None? && file.smtp.Some? && file.mailgun.Some?
  {
    if form.mailgun.Some? {
      NoProviderFault(lib, file.smtp, file.mailgun, None, form.mailgun, where');
    } else {
      NoProviderFault(lib, file.smtp, file.mailgun, form.smtp, None, where');
    }
  }

  lemma NoProviderFault(lib: Library, smtp: Option<SmtpLayer>, mailgun: Option<MailgunLayer>,
                        ownSmtp: Option<SmtpLayer>, ownMailgun: Option<MailgunLayer>, where': Where)
    ensures forall why :: ResolveSmtp(lib.env, smtp, ownSmtp, where') != Err(FormError(where', ProviderField, why))
    ensures forall why :: ResolveMailgun(lib, mailgun, ownMailgun, where') != Err(FormError(where', ProviderField, why))
  {
  }

  lemma FormsOfAgree(lib: Library, file: File, a: seq<Form>, b: seq<Form>)
    requires |a| <= |b| <= |file.forms| && FormsOf(lib, file, a, |a|) && FormsOf(lib, file, b, |b|)
    ensures a == b[..|a|]
    ensures |a| < |b| ==> FormOf(lib, file, |a|).Ok?
  {
    forall i | 0 <= i < |a|
      ensures a[i] == b[i]
    {
      assert FormOf(lib, file, i) == Ok(a[i]) && FormOf(lib, file, i) == Ok(b[i]);
    }
  }

  /** How far an error got: the forms resolved before it. */
  ghost predicate FailsAfter(lib: Library, file: File, e: Error, forms: seq<Form>) {
    && |forms| <= |file.forms| && FormsOf(lib, file, forms, |forms|)
    && if |forms| < |file.forms| then FormOf(lib, file, |forms|) == Err(e) else Verdict(lib, forms, Some(e))
  }

  lemma ErrorHasPlace(lib: Library, file: File, e: Error) returns (forms: seq<Form>)
    requires Reading(lib, file, Err(e))
    ensures FailsAfter(lib, file, e, forms)
  {
    if early: seq<Form> :| |early| < |file.forms| && FormsOf(lib, file, early, |early|)
                           && FormOf(lib, file, |early|) == Err(e) {
      forms := early;
    } else {
      forms :| FormsOf(lib, file, forms, |file.forms|) && Verdict(lib, forms, Some(e));
    }
  }

  lemma LastPlacesAgree(lib: Library, e: Error, f: Error, forms: seq<Form>)
    requires Verdict(lib, forms, Some(e)) && Verdict(lib, forms, Some(f))
    ensures e == f
  {
    VerdictIsUnique(lib, forms, Some(e), Some(f));
  }

  lemma PlacesAgree(lib: Library, file: File, e: Error, as': seq<Form>, f: Error, bs: seq<Form>)
    requires FailsAfter(lib, file, e, as') && FailsAfter(lib, file, f, bs) && |as'| <= |bs|
    ensures e == f
  {
    FormsOfAgree(lib, file, as', bs);
    assert |as'| == |bs|;
    assert as' == bs[..|bs|] == bs;
    if |as'| == |file.forms| {
      LastPlacesAgree(lib, e, f, as');
    }
  }

  lemma NoErrorBesideForms(lib: Library, file: File, forms: seq<Form>, e: Error)
    requires Reading(lib, file, Ok(forms))
    ensures !Reading(lib, file, Err(e))
  {
    if Reading(lib, file, Err(e)) {
      var early := ErrorHasPlace(lib, file, e);
      FormsOfAgree(lib, file, early, forms);
      if |early| == |file.forms| {
        assert early == forms;
        ValidIffSound(lib, forms);
        VerdictIsUnique(lib, forms, None, Some(e));
      }
    }
  }

  /** A file has one reading: the same forms, or the same first thing wrong with it. */
  lemma ReadingIsUnique(lib: Library, file: File, a: Result<seq<Form>, Error>, b: Result<seq<Form>, Error>)
    requires Reading(lib, file, a) && Reading(lib, file, b)
    ensures a == b
  {
    match (a, b)
    case (Ok(x), Ok(y)) =>
      FormsOfAgree(lib, file, x, y);
      assert y == y[..|x|];
    case (Ok(x), Err(e)) => NoErrorBesideForms(lib, file, x, e);
    case (Err(e), Ok(y)) => NoErrorBesideForms(lib, file, y, e);
    case (Err(e), Err(f)) =>
      var x := ErrorHasPlace(lib, file, e);
      var y := ErrorHasPlace(lib, file, f);
      if |x| <= |y| {
        PlacesAgree(lib, file, e, x, f, y);
      } else {
        PlacesAgree(lib, file, f, y, e, x);
      }
  }

  // ---- the environment form ----

  /** The variables read when there is no forms file. */
  datatype Variables = Variables(mailFrom: string, mailTo: string, origins: string, rateLimit: string,
                                 smtpAddr: string, username: string, password: string)

  function ReadVariables(env: string -> string): Variables {
    Variables(env("MAIL_FROM"), env("MAIL_TO"), env("ALLOWED_ORIGINS"), env("RATE_LIMIT_PER_HOUR"),
              env("SMTP_ADDR"), env("SMTP_USERNAME"), env("SMTP_PASSWORD"))
  }

  /** The non-blank parts, trimmed. */
  function Kept(lib: Library, parts: seq<string>): seq<string> {
    if parts == [] then []
    else
      var part := lib.trim(parts[|parts| - 1]);
      Kept(lib, parts[..|parts| - 1]) + (if part != "" then [part] else [])
  }

  function EnvSmtp(v: Variables): Smtp {
    Smtp(if v.smtpAddr != "" then v.smtpAddr else DEFAULT_SMTP_ADDR, v.username, v.password)
  }

  /** The form the variables describe, before it is validated. */
  function EnvDraft(lib: Library, v: Variables): Result<Form, Error> {
    if lib.TrimsToNothing(v.mailFrom) then Err(RequiredWhenNoFormsFile(FromField))
    else if lib.TrimsToNothing(v.mailTo) then Err(RequiredWhenNoFormsFile(ToField))
    else if lib.TrimsToNothing(v.origins) then Err(OriginsRequiredWhenNoFormsFile)
    else
      match (if v.rateLimit == "" then Some(DEFAULT_RATE_LIMIT_PER_HOUR) else lib.atoi(v.rateLimit))
      case None => Err(RateLimitNotANumber)
      case Some(n) =>
        Ok(Form(DEFAULT_FORM_ID, Kept(lib, T.Split(v.origins, ',')), v.mailFrom, v.mailTo, Contact.DEFAULT_SUBJECT, n,
                Some(EnvSmtp(v)), None))
  }

  ghost predicate EnvReading(lib: Library, v: Variables, r: Result<Form, Error>) {
    match EnvDraft(lib, v)
    case Err(e) => r == Err(e)
    case Ok(form) =>
      match r
      case Ok(f) => f == form && SoundForms(lib, [form])
      case Err(e) => Verdict(lib, [form], Some(e))
  }

  method FormFromEnv(lib: Library) returns (r: Result<Form, Error>)
    ensures EnvReading(lib, ReadVariables(lib.env), r)
  {
    r := FormFromVariables(lib, ReadVariables(lib.env));
  }

  method FormFromVariables(lib: Library, v: Variables) returns (r: Result<Form, Error>)
    ensures EnvReading(lib, v, r)
  {
    var form := Form(DEFAULT_FORM_ID, [], v.mailFrom, v.mailTo, Contact.DEFAULT_SUBJECT, DEFAULT_RATE_LIMIT_PER_HOUR,
                     Some(EnvSmtp(v)), None);
    if lib.TrimsToNothing(form.from) {
      return Err(RequiredWhenNoFormsFile(FromField));
    }
    if lib.TrimsToNothing(form.to) {
      return Err(RequiredWhenNoFormsFile(ToField));
    }
    if lib.TrimsToNothing(v.origins) {
      return Err(OriginsRequiredWhenNoFormsFile);
    }
    var origins := KeepOrigins(lib, T.Split(v.origins, ','));
    form := form.(origins := origins);
    if v.rateLimit != "" {
      var n := lib.atoi(v.rateLimit);
      if n.None? {
        return Err(RateLimitNotANumber);
      }
      form := form.(rateLimitPerHour := n.value);
    }
    var err := Validate(lib, [form]);
    if err.Some? {
      return Err(err.value);
    }
    ValidIffSound(lib, [form]);
    r := Ok(form);
  }

  method KeepOrigins(lib: Library, parts: seq<string>) returns (kept: seq<string>)
    ensures kept == Kept(lib, parts)
  {
    kept := [];
    for i := 0 to |parts|
      invariant kept == Kept(lib, parts[..i])
    {
      assert parts[..i + 1][..i] == parts[..i];
      var o := lib.trim(parts[i]);
      if o != "" {
        kept := kept + [o];
      }
    }
    assert parts[..|parts|] == parts;
  }

  lemma OneSmtpForm(lib: Library, form: Form, smtp: Smtp)
    requires SoundForms(lib, [form]) && form.smtp == Some(smtp) && form.mailgun == None
    requires HasSubject(lib, form)
    ensures Deployable(lib, [form])
    ensures LoginsHavePasswords([form]) <==> smtp.username == "" || smtp.password != ""
  {
    assert [form][0] == form;
  }

  /** The origins kept are the non-blank parts, trimmed. */
  lemma {:induction false} KeptAreTrimmed(lib: Library, parts: seq<string>, o: string)
    ensures o in Kept(lib, parts) <==> o != "" && exists p :: p in parts && lib.trim(p) == o
  {
    if parts != [] {
      var n := |parts| - 1;
      KeptAreTrimmed(lib, parts[..n], o);
      assert parts == parts[..n] + [parts[n]];
    }
  }

  /** An accepted environment is deployable too, but a login needs no password there: it has one
      exactly when the variables say so. */
  lemma EnvFormIsDeployable(lib: Library, v: Variables, form: Form)
    requires EnvReading(lib, v, Ok(form))
    ensures Deployable(lib, [form])
    ensures LoginsHavePasswords([form]) <==> v.username == "" || v.password != ""
    ensures form.id == DEFAULT_FORM_ID && form.from == v.mailFrom && form.to == v.mailTo
  {
    OneSmtpForm(lib, form, EnvSmtp(v));
  }

  /** Each field of the form an accepted environment describes, by the variable that says it. */
  lemma EnvFormSaysTheVariables(lib: Library, form: Form)
    requires EnvReading(lib, ReadVariables(lib.env), Ok(form))
    ensures form.from == lib.env("MAIL_FROM") && form.to == lib.env("MAIL_TO") && form.id == "default"
    ensures form.smtp.Some? && form.mailgun.None?
    ensures form.smtp.value.username == lib.env("SMTP_USERNAME") && form.smtp.value.password == lib.env("SMTP_PASSWORD")
    ensures FirstSaid(form.smtp.value.addr, lib.env("SMTP_ADDR"), "", "localhost:1025")
    ensures if lib.env("RATE_LIMIT_PER_HOUR") == "" then form.rateLimitPerHour == 5
            else lib.atoi(lib.env("RATE_LIMIT_PER_HOUR")) == Some(form.rateLimitPerHour)
    ensures form.origins == Kept(lib, T.Split(lib.env("ALLOWED_ORIGINS"), ','))
    ensures form.subject == Contact.DEFAULT_SUBJECT
  {
  }

  /** Which variable a person is told about first, when the environment does not do. */
  lemma EnvRefusalNamesTheVariable(lib: Library, r: Result<Form, Error>)
    requires EnvReading(lib, ReadVariables(lib.env), r)
    ensures var noFrom, noTo := lib.TrimsToNothing(lib.env("MAIL_FROM")), lib.TrimsToNothing(lib.env("MAIL_TO"));
            var noOrigins := lib.TrimsToNothing(lib.env("ALLOWED_ORIGINS"));
            var limit := lib.env("RATE_LIMIT_PER_HOUR");
            && (r == Err(RequiredWhenNoFormsFile(FromField)) <==> noFrom)
            && (r == Err(RequiredWhenNoFormsFile(ToField)) <==> !noFrom && noTo)
            && (r == Err(OriginsRequiredWhenNoFormsFile) <==> !noFrom && !noTo && noOrigins)
            && (r == Err(RateLimitNotANumber) <==>
                  !noFrom && !noTo && !noOrigins && limit != "" && lib.atoi(limit).None?)
  {
    EnvRefusals(lib, ReadVariables(lib.env), r);
  }

  lemma EnvRefusals(lib: Library, v: Variables, r: Result<Form, Error>)
    requires EnvReading(lib, v, r)
    ensures EnvDraft(lib, v).Err? ==> r == Err(EnvDraft(lib, v).error)
    ensures EnvDraft(lib, v).Ok? && r.Err? ==> r.error.FormError?
  {
    if EnvDraft(lib, v).Ok? && r.Err? {
      var forms := [EnvDraft(lib, v).value];
      var i :| 0 <= i < |forms| && SoundUpTo(lib, forms, i) && Fault(lib, forms, i) == Some(r.error);
    }
  }

  /** An environment has one reading too. */
  lemma EnvReadingIsUnique(lib: Library, v: Variables, a: Result<Form, Error>, b: Result<Form, Error>)
    requires EnvReading(lib, v, a) && EnvReading(lib, v, b)
    ensures a == b
  {
    if EnvDraft(lib, v).Ok? {
      var forms := [EnvDraft(lib, v).value];
      ValidIffSound(lib, forms);
      VerdictIsUnique(lib, forms, if a.Ok? then None else Some(a.error), if b.Ok? then None else Some(b.error));
    }
  }

  lemma SoundnessIgnoresSmtp(lib: Library, form: Form, smtp: Smtp)
    requires SoundForms(lib, [form])
    ensures SoundForms(lib, [form.(smtp := Some(smtp))])
  {
    assert [form][0] == form;
  }

  /** No accepted environment turns into a refused one by changing its login: neither a user name
      without a password nor the reverse is noticed. */
  lemma LoginIsNeverChecked(lib: Library, v: Variables, form: Form, username: string, password: string)
    requires EnvReading(lib, v, Ok(form))
    ensures var w := v.(username := username, password := password);
            EnvReading(lib, w, Ok(form.(smtp := Some(EnvSmtp(w)))))
  {
    SoundnessIgnoresSmtp(lib, form, EnvSmtp(v.(username := username, password := password)));
  }

  // ---- two accepted configurations the documentation rules out ----

  const AN_ADDRESS := "info@example.com"
  const AN_ORIGIN := "https://example.com"
  const A_DOMAIN := "mg.example.com"
  const A_VARIABLE := "MAILGUN_EXAMPLE_COM"

  /** The libraries take these values as they are. */
  predicate TakesOrdinaryValues(lib: Library) {
    && lib.isAddress(AN_ADDRESS) && !lib.TrimsToNothing(AN_ADDRESS)
    && lib.isOrigin(AN_ORIGIN) && lib.trim(AN_ORIGIN) == AN_ORIGIN
    && !lib.TrimsToNothing(A_DOMAIN) && lib.trim("") == "" && lib.KnownRegion("")
    && lib.parseTemplate(Contact.DEFAULT_SUBJECT).Some?
  }

  function EnvWithoutPassword(key: string): string {
    if key == "MAIL_FROM" || key == "MAIL_TO" then AN_ADDRESS
    else if key == "ALLOWED_ORIGINS" then AN_ORIGIN
    else if key == "SMTP_USERNAME" then "mailer"
    else ""
  }

  lemma ReadsEnvWithoutPassword()
    ensures ReadVariables(EnvWithoutPassword) == Variables(AN_ADDRESS, AN_ADDRESS, AN_ORIGIN, "", "", "mailer", "")
  {
  }

  lemma OneFormIsSound(lib: Library, f: Form)
    requires IsFormId(f.id) && lib.parseTemplate(f.subject).Some?
    requires |f.origins| == 1 && lib.isOrigin(f.origins[0])
    requires !lib.TrimsToNothing(f.from) && lib.isAddress(f.from) && !lib.TrimsToNothing(f.to) && lib.isAddress(f.to)
    ensures SoundForms(lib, [f])
  {
  }

  /** An environment of ordinary values with one origin is accepted as it is. */
  lemma OrdinaryEnvIsAccepted(lib: Library, v: Variables, form: Form)
    requires !lib.TrimsToNothing(v.mailFrom) && lib.isAddress(v.mailFrom)
    requires !lib.TrimsToNothing(v.mailTo) && lib.isAddress(v.mailTo)
    requires ',' !in v.origins && lib.trim(v.origins) == v.origins != "" && lib.isOrigin(v.origins)
    requires v.rateLimit == "" && lib.parseTemplate(Contact.DEFAULT_SUBJECT).Some?
    requires form == Form(DEFAULT_FORM_ID, [v.origins], v.mailFrom, v.mailTo, Contact.DEFAULT_SUBJECT,
                          DEFAULT_RATE_LIMIT_PER_HOUR, Some(EnvSmtp(v)), None)
    ensures EnvReading(lib, v, Ok(form))
  {
    OriginsOfOne(lib, v.origins);
    assert EnvDraft(lib, v) == Ok(form);
    OneFormIsSound(lib, form);
  }

  lemma OriginHasNoComma()
    ensures ',' !in AN_ORIGIN && AN_ORIGIN != ""
  {
    assert AN_ORIGIN[0] == 'h';
  }

  /** Whatever the parsers, as long as they take ordinary values: an environment with a user name and no
      password is accepted. */
  lemma LoginWithoutPassword(parsers: Library) returns (lib: Library, form: Form)
    requires TakesOrdinaryValues(parsers)
    ensures lib == parsers.(env := EnvWithoutPassword)
    ensures EnvReading(lib, ReadVariables(lib.env), Ok(form)) && !LoginsHavePasswords([form])
  {
    lib := parsers.(env := EnvWithoutPassword);
    ReadsEnvWithoutPassword();
    OriginHasNoComma();
    var v := ReadVariables(lib.env);
    form := Form(DEFAULT_FORM_ID, [v.origins], v.mailFrom, v.mailTo, Contact.DEFAULT_SUBJECT,
                 DEFAULT_RATE_LIMIT_PER_HOUR, Some(EnvSmtp(v)), None);
    OrdinaryEnvIsAccepted(lib, v, form);
    EnvFormIsDeployable(lib, v, form);
  }

  /** A file whose Mailgun defaults name the key both ways, and a form that leaves the rest to them. */
  const FILE_WITH_BOTH_KEYS := File(None, Some(MailgunLayer(A_DOMAIN, "", "", Secret("key", A_VARIABLE))),
                                 [YamlForm("marketing", [AN_ORIGIN], AN_ADDRESS, AN_ADDRESS, "", None, None, None)])

  /** It is accepted, whatever the parsers, once the variable is set. */
  lemma BothKeysInDefaultsAccepted(lib: Library) returns (forms: seq<Form>)
    requires TakesOrdinaryValues(lib) && !lib.TrimsToNothing(lib.env(A_VARIABLE)) && lib.env(A_VARIABLE) != ""
    ensures NamesBothKeys(FILE_WITH_BOTH_KEYS.mailgun)
    ensures Reading(lib, FILE_WITH_BOTH_KEYS, Ok(forms))
  {
    var account := Mailgun(A_DOMAIN, lib.env(A_VARIABLE), "", "");
    OneLayer(MailgunOver, NO_MAILGUN, FILE_WITH_BOTH_KEYS.mailgun.value);
    assert ResolveMailgun(lib, FILE_WITH_BOTH_KEYS.mailgun, None, ById("marketing")) == Ok(account);
    var form := Form("marketing", [AN_ORIGIN], AN_ADDRESS, AN_ADDRESS, Contact.DEFAULT_SUBJECT,
                     DEFAULT_RATE_LIMIT_PER_HOUR, None, Some(account));
    forms := [form];
    assert FormOf(lib, FILE_WITH_BOTH_KEYS, 0) == Ok(form);
    OneFormIsSound(lib, form);
  }

  lemma OriginsOfOne(lib: Library, o: string)
    requires ',' !in o && lib.trim(o) != ""
    ensures Kept(lib, T.Split(o, ',')) == [lib.trim(o)]
  {
    T.OnePart(o, ',');
    assert [o][..0] == [];
  }
}

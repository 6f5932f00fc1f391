/** `New` in internal/mail/mailgun/mailgun.go: what it takes to build a sender. */
module Mailgun {
  import opened Wrappers
  import C = Config

  datatype Settings = Settings(domain: string, apiKey: string, region: string, baseURL: string,
                               from: string, to: string)

  datatype Sender = Sender(base: string, domain: string, apiKey: string, from: string, to: string)

  datatype Address = FromAddress | ToAddress

  datatype Problem = DomainRequired | KeyRequired | AddressRequired(field: Address) | AddressInvalid(field: Address)

  datatype Error = ConfigInvalid(problems: seq<Problem>) | BadRegion(region: string) | BadApiBase(base: string)

  /** Mailgun's own client: its two API addresses, and which addresses it takes. */
  datatype Api = Api(us: string, eu: string, accepts: string -> bool)

  function AddressProblems(lib: C.Library, field: Address, value: string): seq<Problem> {
    if lib.TrimsToNothing(value) then [AddressRequired(field)]
    else if !lib.isAddress(value) then [AddressInvalid(field)]
    else []
  }

  /** Everything wrong with the settings at once, in order. */
  function Problems(lib: C.Library, s: Settings): seq<Problem> {
    (if lib.TrimsToNothing(s.domain) then [DomainRequired] else []) +
    (if lib.TrimsToNothing(s.apiKey) then [KeyRequired] else []) +
    AddressProblems(lib, FromAddress, s.from) +
    AddressProblems(lib, ToAddress, s.to)
  }

  /** The API address: the override, or the region's. */
  function BaseOf(lib: C.Library, api: Api, s: Settings): Option<string> {
    if s.baseURL != "" then Some(s.baseURL)
    else if lib.lower(s.region) == "eu" then Some(api.eu)
    else if lib.KnownRegion(s.region) then Some(api.us)
    else None
  }

  function Built(lib: C.Library, api: Api, s: Settings): Result<Sender, Error> {
    if Problems(lib, s) != [] then Err(ConfigInvalid(Problems(lib, s)))
    else
      match BaseOf(lib, api, s)
      case None => Err(BadRegion(s.region))
      case Some(base) =>
        if !api.accepts(base) then Err(BadApiBase(base)) else Ok(Sender(base, s.domain, s.apiKey, s.from, s.to))
  }

  method New(lib: C.Library, api: Api, s: Settings) returns (r: Result<Sender, Error>)
    ensures r == Built(lib, api, s)
  {
    var problems := CollectProblems(lib, s);
    if |problems| > 0 {
      return Err(ConfigInvalid(problems));
    }
    var base := s.baseURL;
    if base == "" {
      var region := lib.lower(s.region);
      if region == "eu" {
        base := api.eu;
      } else if region == "us" || region == "" {
        base := api.us;
      } else {
        return Err(BadRegion(s.region));
      }
    }
    if !api.accepts(base) {
      return Err(BadApiBase(base));
    }
    r := Ok(Sender(base, s.domain, s.apiKey, s.from, s.to));
  }

  method CollectProblems(lib: C.Library, s: Settings) returns (problems: seq<Problem>)
    ensures problems == Problems(lib, s)
  {
    problems := [];
    if lib.TrimsToNothing(s.domain) {
      problems := problems + [DomainRequired];
    }
    if lib.TrimsToNothing(s.apiKey) {
      problems := problems + [KeyRequired];
    }
    ghost var own := problems;
    var addresses := [(FromAddress, s.from), (ToAddress, s.to)];
    for i := 0 to 2
      invariant i == 0 ==> problems == own
      invariant i == 1 ==> problems == own + AddressProblems(lib, FromAddress, s.from)
      invariant i == 2 ==> problems == own + AddressProblems(lib, FromAddress, s.from)
                                           + AddressProblems(lib, ToAddress, s.to)
    {
      var (field, value) := addresses[i];
      if lib.TrimsToNothing(value) {
        problems := problems + [AddressRequired(field)];
        continue;
      }
      if !lib.isAddress(value) {
        problems := problems + [AddressInvalid(field)];
      }
    }
  }

  /** A sender is built exactly from a domain, a key, two valid addresses, a known region or an override,
      and an API address the client takes. */
  lemma BuiltIff(lib: C.Library, api: Api, s: Settings)
    ensures Built(lib, api, s).Ok? <==>
              && !lib.TrimsToNothing(s.domain) && !lib.TrimsToNothing(s.apiKey)
              && !lib.TrimsToNothing(s.from) && lib.isAddress(s.from)
              && !lib.TrimsToNothing(s.to) && lib.isAddress(s.to)
              && (s.baseURL != "" || lib.KnownRegion(s.region))
              && BaseOf(lib, api, s).Some? && api.accepts(BaseOf(lib, api, s).value)
  {
  }

  /** A built sender holds the settings, and speaks to the override if there is one and otherwise to the
      region's own address: the EU's when the region says so in any case, else the US one. */
  lemma BuiltFromSettings(lib: C.Library, api: Api, s: Settings)
    requires Built(lib, api, s).Ok?
    ensures var sender := Built(lib, api, s).value;
            && sender.domain == s.domain && sender.apiKey == s.apiKey && sender.from == s.from && sender.to == s.to
            && api.accepts(sender.base)
            && (s.baseURL != "" ==> sender.base == s.baseURL)
            && (s.baseURL == "" && lib.lower(s.region) == "eu" ==> sender.base == api.eu)
            && (s.baseURL == "" && lib.lower(s.region) != "eu" ==>
                  sender.base == api.us && (lib.lower(s.region) == "us" || lib.lower(s.region) == ""))
  {
  }

  /** Where each problem stands in a report. */
  function Rank(p: Problem): nat {
    match p
    case DomainRequired => 0
    case KeyRequired => 1
    case AddressRequired(field) => if field == FromAddress then 2 else 3
    case AddressInvalid(field) => if field == FromAddress then 2 else 3
  }

  predicate Ordered(ps: seq<Problem>) {
    forall i, j :: 0 <= i < j < |ps| ==> Rank(ps[i]) < Rank(ps[j])
  }

  lemma ReportIsOrdered(lib: C.Library, s: Settings)
    ensures Ordered(Problems(lib, s))
  {
  }

  /** Whether the settings have this problem. */
  predicate Has(lib: C.Library, s: Settings, p: Problem) {
    match p
    case DomainRequired => lib.TrimsToNothing(s.domain)
    case KeyRequired => lib.TrimsToNothing(s.apiKey)
    case AddressRequired(FromAddress) => lib.TrimsToNothing(s.from)
    case AddressInvalid(FromAddress) => !lib.TrimsToNothing(s.from) && !lib.isAddress(s.from)
    case AddressRequired(ToAddress) => lib.TrimsToNothing(s.to)
    case AddressInvalid(ToAddress) => !lib.TrimsToNothing(s.to) && !lib.isAddress(s.to)
  }

  lemma InOneOfFour(a: seq<Problem>, b: seq<Problem>, c: seq<Problem>, d: seq<Problem>, p: Problem)
    ensures p in a + b + c + d <==> p in a || p in b || p in c || p in d
  {
  }

  /** A report names exactly what is wrong with the settings, each thing once and in their order. */
  lemma ReportNamesWhatIsWrong(lib: C.Library, s: Settings)
    ensures forall p :: p in Problems(lib, s) <==> Has(lib, s, p)
    ensures Ordered(Problems(lib, s))
  {
    forall p
      ensures p in Problems(lib, s) <==> Has(lib, s, p)
    {
      InOneOfFour(if lib.TrimsToNothing(s.domain) then [DomainRequired] else [],
                  if lib.TrimsToNothing(s.apiKey) then [KeyRequired] else [],
                  AddressProblems(lib, FromAddress, s.from), AddressProblems(lib, ToAddress, s.to), p);
    }
    ReportIsOrdered(lib, s);
  }

  /** Which report is owed: everything wrong with the settings at once, and only then the region or the
      address of the API. */
  lemma RefusalSaysWhy(lib: C.Library, api: Api, s: Settings)
    requires Built(lib, api, s).Err?
    ensures match Built(lib, api, s).error
            case ConfigInvalid(ps) => ps != [] && ps == Problems(lib, s)
            case BadRegion(region) =>
              && Problems(lib, s) == [] && region == s.region && s.baseURL == ""
              && lib.lower(region) !in ["", "us", "eu"]
            case BadApiBase(base) => Problems(lib, s) == [] && !api.accepts(base)
  {
  }
}

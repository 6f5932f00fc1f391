/** The promise internal/clientip/clientip.go opens with, kept by the whole service: what a visitor writes
    into X-Forwarded-For buys no fresh allowance. */
module Visitors {
  import opened Addresses
  import opened Composition
  import opened Service
  import opened Wrappers
  import C = Config
  import CI = ClientIp
  import FR = FormRuns
  import H = Handler

  /** Whether the configuration trusts an address. */
  ghost predicate Names(lib: Library, trusted: seq<string>, a: Option<Addr>) {
    a.Some? && CI.Named(lib.ip, trusted, a.value.Unmap())
  }

  /** A resolver that trusts what the configuration names passes the hops the configuration names. */
  lemma NamesAreBelieved(lib: Library, trusted: seq<string>, resolver: CI.Resolver, a: Option<Addr>)
    requires CI.SameSet(lib.ip, trusted, resolver.trusted)
    ensures CI.Believed(resolver, a) <==> Names(lib, trusted, a)
  {
  }

  /** Over one connection, from any port and with any header. */
  function Over(lib: Library, peer: Option<Addr>): H.Request -> bool {
    (r: H.Request) => CI.Peer(lib.ip, r.remoteAddr) == peer
  }

  lemma UntrustedCaller(lib: Library, resolver: CI.Resolver, remoteAddr: string, forwarded: string,
                        peer: Option<Addr>)
    requires CI.Peer(lib.ip, remoteAddr) == peer && !CI.Believed(resolver, peer)
    ensures CallerBy(lib, resolver)(remoteAddr, forwarded) == lib.spell(CI.OrUnknown(peer))
  {
    CI.UntrustedPeerIsSender(lib.ip, resolver, remoteAddr, forwarded);
  }

  lemma KeyOver(lib: Library, resolver: CI.Resolver, f: H.Form, r: H.Request, peer: Option<Addr>)
    requires f.caller == CallerBy(lib, resolver) && !CI.Believed(resolver, peer) && Over(lib, peer)(r)
    ensures H.LimiterCall(f, r).key == lib.spell(CI.OrUnknown(peer))
  {
    UntrustedCaller(lib, resolver, r.remoteAddr, r.forwarded, peer);
  }

  lemma CountedOver(lib: Library, resolver: CI.Resolver, f: H.Form, reqs: seq<H.Request>, peer: Option<Addr>)
    requires f.caller == CallerBy(lib, resolver) && !CI.Believed(resolver, peer)
    ensures FR.CountedAs(f, reqs, Over(lib, peer), lib.spell(CI.OrUnknown(peer)))
  {
    forall r | r in reqs && Over(lib, peer)(r)
      ensures H.LimiterCall(f, r).key == lib.spell(CI.OrUnknown(peer))
    {
      KeyOver(lib, resolver, f, r, peer);
    }
  }

  /** Over one untrusted connection, whatever its requests carry in X-Forwarded-For, a form sends at most
      (k + 1) * limit - 1 messages in k periods. */
  lemma HeaderBuysNothing(lib: Library, trusted: seq<string>, forms: seq<C.Form>, v: Wiring, i: nat,
                          reqs: seq<H.Request>, peer: Option<Addr>, from: int, k: nat)
    requires C.Deployable(lib.config, forms) && Assembly(lib, trusted, forms, Ok(v)) && i < |v.forms| == |forms|
    requires !Names(lib, trusted, peer)
    requires forms[i].rateLimitPerHour > 0 && FR.ClockedRun(v.forms[i], reqs)
    ensures FR.AttemptsBy(v.forms[i], reqs, Over(lib, peer), from, FR.PeriodsAfter(v.forms[i], from, k))
            <= FR.Allowance(v.forms[i], k)
  {
    var resolver := EndpointsLeadToTheirForms(lib, trusted, forms, v, i);
    NamesAreBelieved(lib, trusted, resolver, peer);
    CountedOver(lib, resolver, v.forms[i], reqs, peer);
    FR.OneKeyOneAllowance(v.forms[i], reqs, Over(lib, peer), lib.spell(CI.OrUnknown(peer)), from, k);
  }

  // ---- behind a proxy ----

  /** What a trusted proxy appended to the header holds a hop that is not the configuration's own. */
  ghost predicate EndsInStranger(lib: Library, trusted: seq<string>, appended: string) {
    exists hop :: hop in CI.Hops(lib.ip, appended) && !Names(lib, trusted, hop)
  }

  /** The header is what the proxy appended, after whatever the visitor sent. */
  predicate Appends(forwarded: string, appended: string) {
    || forwarded == appended
    || (|appended| < |forwarded|
        && forwarded == forwarded[..|forwarded| - |appended| - 1] + [','] + appended)
  }

  function Behind(lib: Library, peer: Option<Addr>, appended: string): H.Request -> bool {
    (r: H.Request) => CI.Peer(lib.ip, r.remoteAddr) == peer && Appends(r.forwarded, appended)
  }

  lemma AppendedDecides(lib: Library, trusted: seq<string>, resolver: CI.Resolver, remoteAddr: string,
                        forwarded: string, appended: string)
    requires lib.ip.parseAddr("") == None && CI.SameSet(lib.ip, trusted, resolver.trusted)
    requires EndsInStranger(lib, trusted, appended) && Appends(forwarded, appended)
    ensures CI.Sender(lib.ip, resolver, remoteAddr, forwarded) == CI.Sender(lib.ip, resolver, remoteAddr, appended)
  {
    var hop :| hop in CI.Hops(lib.ip, appended) && !Names(lib, trusted, hop);
    NamesAreBelieved(lib, trusted, resolver, hop);
    if forwarded != appended {
      CI.PrependingChangesNothing(lib.ip, resolver, remoteAddr, forwarded[..|forwarded| - |appended| - 1], appended);
    }
  }

  lemma KeyBehind(lib: Library, trusted: seq<string>, resolver: CI.Resolver, f: H.Form, r: H.Request,
                  proxy: string, appended: string)
    requires lib.ip.parseAddr("") == None && CI.SameSet(lib.ip, trusted, resolver.trusted)
    requires EndsInStranger(lib, trusted, appended) && f.caller == CallerBy(lib, resolver)
    requires Behind(lib, CI.Peer(lib.ip, proxy), appended)(r)
    ensures H.LimiterCall(f, r).key == lib.spell(CI.Sender(lib.ip, resolver, proxy, appended))
  {
    AppendedDecides(lib, trusted, resolver, r.remoteAddr, r.forwarded, appended);
    CI.SenderOfPeer(lib.ip, resolver, r.remoteAddr, proxy, appended);
  }

  lemma CountedBehind(lib: Library, trusted: seq<string>, resolver: CI.Resolver, f: H.Form, reqs: seq<H.Request>,
                      proxy: string, appended: string)
    requires lib.ip.parseAddr("") == None && CI.SameSet(lib.ip, trusted, resolver.trusted)
    requires EndsInStranger(lib, trusted, appended) && f.caller == CallerBy(lib, resolver)
    ensures FR.CountedAs(f, reqs, Behind(lib, CI.Peer(lib.ip, proxy), appended),
                         lib.spell(CI.Sender(lib.ip, resolver, proxy, appended)))
  {
    forall r | r in reqs && Behind(lib, CI.Peer(lib.ip, proxy), appended)(r)
      ensures H.LimiterCall(f, r).key == lib.spell(CI.Sender(lib.ip, resolver, proxy, appended))
    {
      KeyBehind(lib, trusted, resolver, f, r, proxy, appended);
    }
  }

  /** Behind a proxy the same holds for one visitor as the proxy names them: whatever the visitor sends
      in front of what the proxy appends, it is one allowance. */
  lemma ProxyHoldsVisitorToOneAllowance(lib: Library, trusted: seq<string>, forms: seq<C.Form>, v: Wiring, i: nat,
                                        reqs: seq<H.Request>, proxy: string, appended: string, from: int, k: nat)
    requires C.Deployable(lib.config, forms) && Assembly(lib, trusted, forms, Ok(v)) && i < |v.forms| == |forms|
    requires lib.ip.parseAddr("") == None && EndsInStranger(lib, trusted, appended)
    requires forms[i].rateLimitPerHour > 0 && FR.ClockedRun(v.forms[i], reqs)
    ensures FR.AttemptsBy(v.forms[i], reqs, Behind(lib, CI.Peer(lib.ip, proxy), appended), from,
                          FR.PeriodsAfter(v.forms[i], from, k))
            <= FR.Allowance(v.forms[i], k)
  {
    var resolver := EndpointsLeadToTheirForms(lib, trusted, forms, v, i);
    CountedBehind(lib, trusted, resolver, v.forms[i], reqs, proxy, appended);
    FR.OneKeyOneAllowance(v.forms[i], reqs, Behind(lib, CI.Peer(lib.ip, proxy), appended),
                          lib.spell(CI.Sender(lib.ip, resolver, proxy, appended)), from, k);
  }
}

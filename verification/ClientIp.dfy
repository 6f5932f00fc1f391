/** internal/clientip/clientip.go: the address a request is counted under. */
module ClientIp {
  import opened Wrappers
  import opened Text
  import opened Addresses

  /** Text parsing as `net` and `net/netip` do it; `hostOf` is net.SplitHostPort's host. */
  datatype Library = Library(
    parseAddr: string -> Option<Addr>,
    parsePrefix: string -> Option<Prefix>,
    hostOf: string -> Option<string>
  )

  datatype Problem = BadPrefix(entry: string) | NotAnAddressOrCIDR(entry: string)

  datatype Client = Known(addr: Addr) | Unknown

  datatype Resolver = Resolver(trusted: seq<Prefix>)

  // ---- the trusted set ----

  /** One non-blank entry, already trimmed. */
  function Entry(lib: Library, raw: string): Result<Prefix, Problem> {
    if '/' in raw then
      match lib.parsePrefix(raw)
      case None => Err(BadPrefix(raw))
      case Some(p) => Ok(Masked(p))
    else
      match lib.parseAddr(raw)
      case None => Err(NotAnAddressOrCIDR(raw))
      case Some(a) => Ok(Single(a))
  }

  /** A blank entry, or one that names addresses. */
  predicate Sound(lib: Library, raw: string) {
    Blank(raw) || Entry(lib, TrimSpace(raw)).Ok?
  }

  predicate AllSound(lib: Library, entries: seq<string>) {
    forall raw :: raw in entries ==> Sound(lib, raw)
  }

  predicate Faulty(lib: Library, raw: string, problem: Problem) {
    !Blank(raw) && Entry(lib, TrimSpace(raw)) == Err(problem)
  }

  /** The entry names `a`, as written: a CIDR before masking, a bare address as itself. */
  predicate Names(lib: Library, raw: string, a: Addr) {
    var entry := TrimSpace(raw);
    && entry != ""
    && if '/' in entry then lib.parsePrefix(entry).Some? && Contains(lib.parsePrefix(entry).value, a)
       else lib.parseAddr(entry) == Some(a)
  }

  predicate Holds(prefixes: seq<Prefix>, a: Addr) {
    exists p :: p in prefixes && Contains(p, a)
  }

  predicate Named(lib: Library, entries: seq<string>, a: Addr) {
    exists raw :: raw in entries && Names(lib, raw, a)
  }

  predicate Trusts(r: Resolver, a: Addr) {
    Holds(r.trusted, a.Unmap())
  }

  method IsTrusted(r: Resolver, a: Addr) returns (yes: bool)
    ensures yes <==> Trusts(r, a)
  {
    var addr := a.Unmap();
    for i := 0 to |r.trusted|
      invariant forall j :: 0 <= j < i ==> !Contains(r.trusted[j], addr)
    {
      if Contains(r.trusted[i], addr) {
        return true;
      }
    }
    return false;
  }

  lemma EntryMeansItsNames(lib: Library, raw: string, a: Addr)
    requires !Blank(raw) && Entry(lib, TrimSpace(raw)).Ok?
    ensures Contains(Entry(lib, TrimSpace(raw)).value, a) <==> Names(lib, raw, a)
  {
    var entry := TrimSpace(raw);
    if '/' in entry {
      MaskingKeepsMembers(lib.parsePrefix(entry).value, a);
    } else {
      SingleContainsItself(lib.parseAddr(entry).value, a);
    }
  }

  /** The prefixes hold exactly the addresses the entries name. */
  ghost predicate SameSet(lib: Library, entries: seq<string>, prefixes: seq<Prefix>) {
    forall a: Addr :: Holds(prefixes, a) <==> Named(lib, entries, a)
  }

  lemma SameSetSnoc(lib: Library, entries: seq<string>, prefixes: seq<Prefix>, raw: string, p: Prefix)
    requires SameSet(lib, entries, prefixes)
    requires !Blank(raw) && Entry(lib, TrimSpace(raw)) == Ok(p)
    ensures SameSet(lib, entries + [raw], prefixes + [p])
  {
    forall a: Addr
      ensures Holds(prefixes + [p], a) <==> Named(lib, entries + [raw], a)
    {
      EntryMeansItsNames(lib, raw, a);
      HoldsSnoc(prefixes, p, a);
      NamedSnoc(lib, entries, raw, a);
    }
  }

  lemma HoldsSnoc(prefixes: seq<Prefix>, p: Prefix, a: Addr)
    ensures Holds(prefixes + [p], a) <==> Holds(prefixes, a) || Contains(p, a)
  {
    var all := prefixes + [p];
    assert forall q :: q in all <==> q in prefixes || q == p;
  }

  lemma NamedSnoc(lib: Library, entries: seq<string>, raw: string, a: Addr)
    ensures Named(lib, entries + [raw], a) <==> Named(lib, entries, a) || Names(lib, raw, a)
  {
    var all := entries + [raw];
    assert forall e :: e in all <==> e in entries || e == raw;
  }

  lemma SameSetSkip(lib: Library, entries: seq<string>, prefixes: seq<Prefix>, raw: string)
    requires SameSet(lib, entries, prefixes) && Blank(raw)
    ensures SameSet(lib, entries + [raw], prefixes)
  {
    forall a: Addr
      ensures Holds(prefixes, a) <==> Named(lib, entries + [raw], a)
    {
      NamedSnoc(lib, entries, raw, a);
    }
  }

  /** Succeeds exactly when every entry is sound, and then trusts exactly the addresses the entries
      name, whatever their order; otherwise it reports the first entry that is not sound. */
  method NewResolver(lib: Library, trusted: seq<string>) returns (r: Result<Resolver, Problem>)
    ensures r.Ok? ==> AllSound(lib, trusted) && SameSet(lib, trusted, r.value.trusted)
    ensures r.Err? ==> exists i :: 0 <= i < |trusted| && AllSound(lib, trusted[..i]) && Faulty(lib, trusted[i], r.error)
  {
    var prefixes: seq<Prefix> := [];
    for i := 0 to |trusted|
      invariant AllSound(lib, trusted[..i])
      invariant SameSet(lib, trusted[..i], prefixes)
    {
      TakeSnoc(trusted, i);
      var entry := ReadEntry(lib, trusted[i]);
      match entry
      case None =>
        SameSetSkip(lib, trusted[..i], prefixes, trusted[i]);
      case Some(Err(problem)) =>
        return Err(problem);
      case Some(Ok(p)) =>
        SameSetSnoc(lib, trusted[..i], prefixes, trusted[i], p);
        prefixes := prefixes + [p];
    }
    assert trusted[..|trusted|] == trusted;
    r := Ok(Resolver(prefixes));
  }

  /** One turn of the loop: nothing for a blank entry, otherwise its prefix or why it has none. */
  method ReadEntry(lib: Library, entry: string) returns (r: Option<Result<Prefix, Problem>>)
    ensures r.None? <==> Blank(entry)
    ensures r.Some? ==> r.value == Entry(lib, TrimSpace(entry))
    ensures Sound(lib, entry) <==> r.None? || r.value.Ok?
    ensures r.Some? && r.value.Err? ==> Faulty(lib, entry, r.value.error)
  {
    var raw := TrimSpace(entry);
    if raw == "" {
      return None;
    }
    r := Some(Entry(lib, raw));
  }

  // ---- the sender ----

  predicate IsBracket(c: char) {
    c == '[' || c == ']'
  }

  /** The address `parse` reads out of a RemoteAddr. */
  function Connection(lib: Library, remoteAddr: string): Option<Addr> {
    var host := match lib.hostOf(remoteAddr) case Some(h) => h case None => remoteAddr;
    lib.parseAddr(Trim(host, IsBracket))
  }

  /** `parse`: the connection's own address, unmapped. */
  function Peer(lib: Library, remoteAddr: string): (a: Option<Addr>)
    ensures a.Some? ==> !a.value.Mapped()
  {
    match Connection(lib, remoteAddr)
    case None => None
    case Some(a) => Some(a.Unmap())
  }

  /** `stringOrUnknown`. */
  function OrUnknown(a: Option<Addr>): Client {
    if a.Some? then Known(a.value) else Unknown
  }

  function Hop(lib: Library, text: string): Option<Addr> {
    lib.parseAddr(TrimSpace(text))
  }

  function ParsedHops(lib: Library, texts: seq<string>): (hops: seq<Option<Addr>>)
    ensures |hops| == |texts|
    ensures forall i :: 0 <= i < |texts| ==> hops[i] == Hop(lib, texts[i])
  {
    seq(|texts|, i requires 0 <= i < |texts| => Hop(lib, texts[i]))
  }

  function Hops(lib: Library, xff: string): seq<Option<Addr>> {
    ParsedHops(lib, Split(xff, ','))
  }

  predicate Believed(r: Resolver, hop: Option<Addr>) {
    hop.Some? && Trusts(r, hop.value)
  }

  /** The walk from the right over hops already parsed. */
  function Scan(r: Resolver, hops: seq<Option<Addr>>, fallback: Client): Client {
    if hops == [] then fallback
    else
      var last := hops[|hops| - 1];
      if Believed(r, last) then Scan(r, hops[..|hops| - 1], fallback)
      else if last.None? then fallback
      else Known(last.value.Unmap())
  }

  /** Whether the header is read at all: only over a connection from a trusted address. */
  predicate ReadsHeader(r: Resolver, peer: Option<Addr>) {
    peer.Some? && Trusts(r, peer.value)
  }

  function Sender(lib: Library, r: Resolver, remoteAddr: string, xff: string): Client {
    var peer := Peer(lib, remoteAddr);
    if ReadsHeader(r, peer) && xff != "" then Scan(r, Hops(lib, xff), OrUnknown(peer)) else OrUnknown(peer)
  }

  method From(lib: Library, r: Resolver, remoteAddr: string, xff: string) returns (who: Client)
    ensures who == Sender(lib, r, remoteAddr, xff)
  {
    var remote := Peer(lib, remoteAddr);
    if |r.trusted| == 0 || remote.None? {
      return OrUnknown(remote);
    }
    var trusted := IsTrusted(r, remote.value);
    if !trusted || xff == "" {
      return OrUnknown(remote);
    }
    who := Walk(lib, r, Split(xff, ','), OrUnknown(remote));
  }

  lemma ScanStep(r: Resolver, hops: seq<Option<Addr>>, i: nat, hop: Option<Addr>, fallback: Client)
    requires i < |hops| && hops[i] == hop
    ensures Scan(r, hops[..i + 1], fallback) ==
            if Believed(r, hop) then Scan(r, hops[..i], fallback)
            else if hop.None? then fallback
            else Known(hop.value.Unmap())
  {
    assert hops[..i + 1][..i] == hops[..i];
  }

  /** The loop of `From`. */
  method Walk(lib: Library, r: Resolver, hops: seq<string>, remote: Client) returns (who: Client)
    ensures who == Scan(r, ParsedHops(lib, hops), remote)
  {
    ghost var all := ParsedHops(lib, hops);
    var i := |hops|;
    TakeAll(all);
    while i > 0
      invariant 0 <= i <= |hops|
      invariant Scan(r, all, remote) == Scan(r, all[..i], remote)
    {
      i := i - 1;
      var addr := Hop(lib, hops[i]);
      ScanStep(r, all, i, addr, remote);
      if addr.None? {
        break;
      }
      var trusted := IsTrusted(r, addr.value);
      if trusted {
        continue;
      }
      return Known(addr.value.Unmap());
    }
    return remote;
  }

  // ---- what it means ----

  /** Hop `k` is the rightmost one that parses and is not trusted, and all to its right are trusted. */
  predicate Stranger(r: Resolver, hops: seq<Option<Addr>>, k: nat) {
    && k < |hops|
    && hops[k].Some? && !Trusts(r, hops[k].value)
    && forall j :: k < j < |hops| ==> Believed(r, hops[j])
  }

  /** The sender, said without a scan: that hop if there is one, otherwise the connection. */
  ghost predicate SenderIs(r: Resolver, hops: seq<Option<Addr>>, fallback: Client, who: Client) {
    || (exists k: nat :: Stranger(r, hops, k) && who == Known(hops[k].value.Unmap()))
    || (who == fallback && forall k: nat :: !Stranger(r, hops, k))
  }

  lemma StrangerFront(r: Resolver, hops: seq<Option<Addr>>, k: nat)
    requires hops != [] && Believed(r, hops[|hops| - 1])
    ensures Stranger(r, hops, k) <==> Stranger(r, hops[..|hops| - 1], k)
  {
    var front := hops[..|hops| - 1];
    assert forall j :: 0 <= j < |front| ==> front[j] == hops[j];
    if Stranger(r, front, k) {
      forall j | k < j < |hops|
        ensures Believed(r, hops[j])
      {
        assert j < |front| ==> Believed(r, front[j]);
      }
    }
  }

  /** The scan finds exactly the sender the description names. */
  lemma {:induction false} ScanMeetsDescription(r: Resolver, hops: seq<Option<Addr>>, fallback: Client, who: Client)
    ensures SenderIs(r, hops, fallback, who) <==> who == Scan(r, hops, fallback)
  {
    if hops != [] {
      var n := |hops| - 1;
      if Believed(r, hops[n]) {
        ScanMeetsDescription(r, hops[..n], fallback, who);
        forall k: nat
          ensures Stranger(r, hops, k) <==> Stranger(r, hops[..n], k)
        {
          StrangerFront(r, hops, k);
        }
        assert forall k: nat :: Stranger(r, hops[..n], k) ==> hops[k] == hops[..n][k];
      } else {
        assert forall k: nat :: Stranger(r, hops, k) ==> k == n;
        assert hops[n].Some? ==> Stranger(r, hops, n);
      }
    }
  }

  // ---- the promise, and where it fails ----

  /** Hop `k` is the rightmost entry that is not one of ours, whether or not it parses. */
  predicate RightmostNotOurs(r: Resolver, hops: seq<Option<Addr>>, k: nat) {
    k < |hops| && !Believed(r, hops[k]) && forall j :: k < j < |hops| ==> Believed(r, hops[j])
  }

  /** The documented promise: the sender is the rightmost entry that is not one of ours, if there is one. */
  ghost predicate KeepsPromise(r: Resolver, hops: seq<Option<Addr>>, who: Client) {
    forall k: nat :: RightmostNotOurs(r, hops, k) ==> hops[k].Some? && who == Known(hops[k].value.Unmap())
  }

  /** That entry decides alone: it is the answer if it parses, and otherwise the connection is. */
  lemma {:induction false} RightmostDecides(r: Resolver, hops: seq<Option<Addr>>, k: nat, fallback: Client)
    requires RightmostNotOurs(r, hops, k)
    ensures Scan(r, hops, fallback) == if hops[k].None? then fallback else Known(hops[k].value.Unmap())
  {
    var n := |hops| - 1;
    if k < n {
      assert Believed(r, hops[n]);
      RightmostDecides(r, hops[..n], k, fallback);
    }
  }

  /** The promise is kept exactly when no such entry exists or the one that does parses. */
  lemma PromiseKeptIffItParses(r: Resolver, hops: seq<Option<Addr>>, fallback: Client)
    ensures KeepsPromise(r, hops, Scan(r, hops, fallback)) <==>
              !exists k: nat :: RightmostNotOurs(r, hops, k) && hops[k].None?
  {
    forall k: nat | RightmostNotOurs(r, hops, k)
      ensures Scan(r, hops, fallback) == if hops[k].None? then fallback else Known(hops[k].value.Unmap())
    {
      RightmostDecides(r, hops, k, fallback);
    }
  }

  /** A header whose rightmost entry is one a proxy may write (section 6.3 of RFC 7239) and no address. */
  const VISITOR := "203.0.113.7"
  const OBFUSCATED := "unknown"
  const OBFUSCATED_HEADER := VISITOR + [','] + OBFUSCATED

  lemma HopsOfTwo(lib: Library, a: string, b: string)
    requires ',' !in a && ',' !in b
    ensures Hops(lib, a + [','] + b) == [Hop(lib, a)] + [Hop(lib, b)]
  {
    HopsOfJoined(lib, a, b);
    HopsOfOne(lib, a);
    HopsOfOne(lib, b);
  }

  lemma NoCommas()
    ensures ',' !in VISITOR && ',' !in OBFUSCATED
  {
  }

  /** With it the promise fails for every resolver and trusted connection: the entry is not ours, and the
      proxy's own address is the answer. */
  lemma PromiseFails(lib: Library, r: Resolver, remoteAddr: string)
    requires ReadsHeader(r, Peer(lib, remoteAddr)) && Hop(lib, OBFUSCATED) == None
    ensures RightmostNotOurs(r, Hops(lib, OBFUSCATED_HEADER), 1)
    ensures Sender(lib, r, remoteAddr, OBFUSCATED_HEADER) == OrUnknown(Peer(lib, remoteAddr))
    ensures !KeepsPromise(r, Hops(lib, OBFUSCATED_HEADER), Sender(lib, r, remoteAddr, OBFUSCATED_HEADER))
  {
    NoCommas();
    UnparsedEntryFails(lib, r, remoteAddr, VISITOR, OBFUSCATED);
  }

  lemma UnparsedEntryFails(lib: Library, r: Resolver, remoteAddr: string, a: string, b: string)
    requires ReadsHeader(r, Peer(lib, remoteAddr)) && ',' !in a && ',' !in b && Hop(lib, b) == None
    ensures var xff := a + [','] + b;
            && RightmostNotOurs(r, Hops(lib, xff), 1)
            && Sender(lib, r, remoteAddr, xff) == OrUnknown(Peer(lib, remoteAddr))
            && !KeepsPromise(r, Hops(lib, xff), Sender(lib, r, remoteAddr, xff))
  {
    HopsOfTwo(lib, a, b);
    UnparsedLast(r, Hops(lib, a + [','] + b), OrUnknown(Peer(lib, remoteAddr)));
  }

  lemma UnparsedLast(r: Resolver, hops: seq<Option<Addr>>, fallback: Client)
    requires |hops| == 2 && hops[1].None?
    ensures RightmostNotOurs(r, hops, 1) && Scan(r, hops, fallback) == fallback
    ensures !KeepsPromise(r, hops, fallback)
  {
    assert RightmostNotOurs(r, hops, 1);
  }

  /** Who sent a request, from the request alone: over a connection from a trusted address the header
      says, by the description above; over any other it is the connection, whatever the header says. An
      empty header needs no case of its own, since the empty text is no address. */
  lemma SenderMeetsDescription(lib: Library, r: Resolver, remoteAddr: string, xff: string, who: Client)
    requires lib.parseAddr("") == None
    ensures who == Sender(lib, r, remoteAddr, xff) <==>
              var peer := Peer(lib, remoteAddr);
              if ReadsHeader(r, peer) then SenderIs(r, Hops(lib, xff), OrUnknown(peer), who) else who == OrUnknown(peer)
  {
    var fallback := OrUnknown(Peer(lib, remoteAddr));
    ScanMeetsDescription(r, Hops(lib, xff), fallback, who);
    if xff == "" {
      EmptyHeaderFallsBack(lib, r, fallback);
    }
  }

  /** Only the connection's address and the header are read: not the port, not the spelling. */
  lemma SenderOfPeer(lib: Library, r: Resolver, a: string, b: string, xff: string)
    requires Peer(lib, a) == Peer(lib, b)
    ensures Sender(lib, r, a, xff) == Sender(lib, r, b, xff)
  {
  }

  lemma UntrustedPeerIsSender(lib: Library, r: Resolver, remoteAddr: string, xff: string)
    requires !ReadsHeader(r, Peer(lib, remoteAddr))
    ensures Sender(lib, r, remoteAddr, xff) == OrUnknown(Peer(lib, remoteAddr))
  {
  }

  /** The scan meets a hop it does not pass. */
  predicate Stops(r: Resolver, hops: seq<Option<Addr>>) {
    exists hop :: hop in hops && !Believed(r, hop)
  }

  lemma {:induction false} ScanOfJoined(r: Resolver, left: seq<Option<Addr>>, hops: seq<Option<Addr>>, fallback: Client)
    ensures Stops(r, hops) ==> Scan(r, left + hops, fallback) == Scan(r, hops, fallback)
    ensures !Stops(r, hops) ==> Scan(r, left + hops, fallback) == Scan(r, left, fallback)
  {
    if hops == [] {
      assert left + hops == left;
    } else {
      var n, all := |hops| - 1, left + hops;
      assert all[|all| - 1] == hops[n] && all[..|all| - 1] == left + hops[..n];
      if Believed(r, hops[n]) {
        ScanOfJoined(r, left, hops[..n], fallback);
        assert Stops(r, hops) <==> Stops(r, hops[..n]) by {
          assert hops == hops[..n] + [hops[n]];
        }
      }
    }
  }

  lemma HopsOfJoined(lib: Library, left: string, xff: string)
    ensures Hops(lib, left + [','] + xff) == Hops(lib, left) + Hops(lib, xff)
  {
    SplitConcat(left, ',', xff);
    ParsedHopsConcat(lib, Split(left, ','), Split(xff, ','));
  }

  lemma ParsedHopsConcat(lib: Library, a: seq<string>, b: seq<string>)
    ensures ParsedHops(lib, a + b) == ParsedHops(lib, a) + ParsedHops(lib, b)
  {
  }

  /** Once the scan stops within the header, whatever a sender puts in front of it changes nothing. An
      empty header stops too, since the empty text is no address. */
  lemma PrependingChangesNothing(lib: Library, r: Resolver, remoteAddr: string, left: string, xff: string)
    requires lib.parseAddr("") == None
    requires !ReadsHeader(r, Peer(lib, remoteAddr)) || Stops(r, Hops(lib, xff))
    ensures Sender(lib, r, remoteAddr, left + [','] + xff) == Sender(lib, r, remoteAddr, xff)
  {
    var peer := Peer(lib, remoteAddr);
    if ReadsHeader(r, peer) {
      HopsOfJoined(lib, left, xff);
      ScanOfJoined(r, Hops(lib, left), Hops(lib, xff), OrUnknown(peer));
      if xff == "" {
        EmptyHeaderFallsBack(lib, r, OrUnknown(peer));
      }
    }
  }

  lemma EmptyHeaderFallsBack(lib: Library, r: Resolver, fallback: Client)
    requires lib.parseAddr("") == None
    ensures Scan(r, Hops(lib, ""), fallback) == fallback
  {
    assert TrimSpace("") == "";
    assert Hops(lib, "")[0] == None;
  }

  /** And only then: with every hop trusted, one stranger's address in front becomes the answer. */
  lemma OtherwisePrependingDecides(lib: Library, r: Resolver, remoteAddr: string, left: string, xff: string)
    requires ReadsHeader(r, Peer(lib, remoteAddr)) && !Stops(r, Hops(lib, xff))
    requires ',' !in left && Hop(lib, left).Some? && !Trusts(r, Hop(lib, left).value)
    ensures Sender(lib, r, remoteAddr, left + [','] + xff) == Known(Hop(lib, left).value.Unmap())
    ensures Sender(lib, r, remoteAddr, xff) == OrUnknown(Peer(lib, remoteAddr))
    ensures Sender(lib, r, remoteAddr, left + [','] + xff) != Sender(lib, r, remoteAddr, xff)
  {
    HopsOfJoined(lib, left, xff);
    HopsOfOne(lib, left);
    StrangerInFront(r, Hop(lib, left).value, Hops(lib, xff), Peer(lib, remoteAddr).value);
  }

  lemma StrangerInFront(r: Resolver, stranger: Addr, hops: seq<Option<Addr>>, peer: Addr)
    requires !Trusts(r, stranger) && Trusts(r, peer) && !Stops(r, hops)
    ensures Scan(r, [Some(stranger)] + hops, Known(peer)) == Known(stranger.Unmap()) != Known(peer)
    ensures Scan(r, hops, Known(peer)) == Known(peer)
  {
    ScanOfJoined(r, [Some(stranger)], hops, Known(peer));
    ScanOfJoined(r, [], hops, Known(peer));
    assert [] + hops == hops;
  }

  lemma HopsOfOne(lib: Library, text: string)
    requires ',' !in text
    ensures Hops(lib, text) == [Hop(lib, text)]
  {
    OnePart(text, ',');
  }

  // ---- one host, one key ----

  /** Two spellings of the same host: both fail to parse, or they parse to the same unmapped address. */
  predicate SameHost(a: Option<Addr>, b: Option<Addr>) {
    a.Some? == b.Some? && (a.Some? ==> a.value.Unmap() == b.value.Unmap())
  }

  predicate SameHosts(a: seq<Option<Addr>>, b: seq<Option<Addr>>) {
    |a| == |b| && forall i :: 0 <= i < |a| ==> SameHost(a[i], b[i])
  }

  lemma {:induction false} ScanOfSameHosts(r: Resolver, a: seq<Option<Addr>>, b: seq<Option<Addr>>, fallback: Client)
    requires SameHosts(a, b)
    ensures Scan(r, a, fallback) == Scan(r, b, fallback)
  {
    if a != [] {
      assert SameHost(a[|a| - 1], b[|a| - 1]);
      ScanOfSameHosts(r, a[..|a| - 1], b[..|a| - 1], fallback);
    }
  }

  /** Spellings of the same hosts get one key, as hops and as the connection. */
  lemma SpellingDoesNotMatter(lib: Library, r: Resolver, ra: string, rb: string, xa: string, xb: string)
    requires SameHost(Connection(lib, ra), Connection(lib, rb)) && (xa == "" <==> xb == "")
    requires SameHosts(Hops(lib, xa), Hops(lib, xb))
    ensures Sender(lib, r, ra, xa) == Sender(lib, r, rb, xb)
  {
    ScanOfSameHosts(r, Hops(lib, xa), Hops(lib, xb), OrUnknown(Peer(lib, ra)));
  }

  lemma MappedIsSameHost(w: Word32)
    ensures SameHost(Some(V4(w)), Some(MappedFrom(w)))
  {
  }

  /** An IPv4 address and its IPv4-mapped spelling are one visitor as the connection, */
  lemma MappedConnectionIsSame(lib: Library, r: Resolver, ra: string, rb: string, xff: string, w: Word32)
    requires Connection(lib, ra) == Some(V4(w)) && Connection(lib, rb) == Some(MappedFrom(w))
    ensures Sender(lib, r, ra, xff) == Sender(lib, r, rb, xff)
  {
    MappedIsSameHost(w);
    SenderOfPeer(lib, r, ra, rb, xff);
  }

  /** and as a hop, wherever it stands in the header. */
  lemma MappedHopIsSame(lib: Library, r: Resolver, remoteAddr: string, left: string, a: string, b: string,
                        right: string, w: Word32)
    requires ',' !in a && ',' !in b && Hop(lib, a) == Some(V4(w)) && Hop(lib, b) == Some(MappedFrom(w))
    ensures Sender(lib, r, remoteAddr, left + [','] + a + [','] + right) ==
            Sender(lib, r, remoteAddr, left + [','] + b + [','] + right)
  {
    MappedIsSameHost(w);
    HopsAround(lib, left, a, right);
    HopsAround(lib, left, b, right);
    var l, m := Hops(lib, left), Hops(lib, right);
    OneHopReplaced(r, l, Hop(lib, a), Hop(lib, b), m, OrUnknown(Peer(lib, remoteAddr)));
  }

  lemma HopsAround(lib: Library, left: string, hop: string, right: string)
    requires ',' !in hop
    ensures Hops(lib, left + [','] + hop + [','] + right) == Hops(lib, left) + [Hop(lib, hop)] + Hops(lib, right)
  {
    HopsOfJoined(lib, left + [','] + hop, right);
    HopsOfJoined(lib, left, hop);
    HopsOfOne(lib, hop);
  }

  lemma OneHopReplaced(r: Resolver, left: seq<Option<Addr>>, a: Option<Addr>, b: Option<Addr>,
                       right: seq<Option<Addr>>, fallback: Client)
    requires SameHost(a, b)
    ensures Scan(r, left + [a] + right, fallback) == Scan(r, left + [b] + right, fallback)
  {
    ScanOfSameHosts(r, left + [a] + right, left + [b] + right, fallback);
  }

  lemma {:induction false} ScanGivesStrangers(r: Resolver, hops: seq<Option<Addr>>, fallback: Client)
    ensures var who := Scan(r, hops, fallback);
            who == fallback || (who.Known? && !who.addr.Mapped() && !Trusts(r, who.addr))
  {
    if hops != [] {
      ScanGivesStrangers(r, hops[..|hops| - 1], fallback);
    }
  }

  /** The key is canonical, and a trusted address is only ever the connection's own. */
  lemma KeyIsCanonical(lib: Library, r: Resolver, remoteAddr: string, xff: string)
    ensures var who := Sender(lib, r, remoteAddr, xff);
            who.Known? ==>
              !who.addr.Mapped() && (Trusts(r, who.addr) ==> Peer(lib, remoteAddr) == Some(who.addr))
  {
    ScanGivesStrangers(r, Hops(lib, xff), OrUnknown(Peer(lib, remoteAddr)));
  }

  /** A resolver that trusts one bare address trusts exactly that host, unless the address was written
      IPv4-mapped: then it trusts nobody. */
  lemma BareAddressTrustsItself(a: Addr, x: Addr)
    ensures Trusts(Resolver([Single(a)]), x) <==> x.Unmap() == a
    ensures a.Mapped() ==> !Trusts(Resolver([Single(a)]), x)
  {
    SingleContainsItself(a, x.Unmap());
    assert Resolver([Single(a)]).trusted[0] == Single(a);
  }

  /** In general, an entry of the trusted list is dead exactly when it lies in the IPv4-mapped block. */
  lemma DeadEntries(p: Prefix)
    ensures (forall x: Addr :: !Trusts(Resolver([p]), x)) <==> WrittenMapped(p)
  {
    MatchesIffNotWrittenMapped(p);
    assert forall q :: q in [p] <==> q == p;
    assert forall x: Addr :: Trusts(Resolver([p]), x) <==> Contains(p, x.Unmap());
  }

  // ---- how addresses are read ----

  predicate BracketFree(h: string) {
    h != "" ==> h[0] != '[' && h[0] != ']' && h[|h| - 1] != '[' && h[|h| - 1] != ']'
  }

  lemma UnbracketedHost(before: string, h: string, after: string)
    requires BracketFree(h) && forall c :: c in before || c in after ==> c == '[' || c == ']'
    ensures Trim(before + h + after, IsBracket) == h
  {
    TrimTakesPadding(before, h, after, IsBracket);
  }

  lemma BareHost(h: string)
    requires BracketFree(h)
    ensures Trim(h, IsBracket) == h
  {
    UnbracketedHost("", h, "");
    assert "" + h + "" == h;
  }

  /** A connection is read without its port: the host net splits off is the sender, when no header is
      believed over it. */
  lemma HostWithoutPort(lib: Library, r: Resolver, ra: string, h: string, a: Addr, xff: string)
    requires lib.hostOf(ra) == Some(h) && BracketFree(h) && lib.parseAddr(h) == Some(a)
    requires !Trusts(r, a) || xff == ""
    ensures Sender(lib, r, ra, xff) == Known(a.Unmap())
  {
    BareHost(h);
  }

  /** Where there is no port to split off, the whole text is the host. */
  lemma HostAlone(lib: Library, r: Resolver, ra: string, a: Addr, xff: string)
    requires lib.hostOf(ra) == None && BracketFree(ra) && lib.parseAddr(ra) == Some(a)
    requires !Trusts(r, a) || xff == ""
    ensures Sender(lib, r, ra, xff) == Known(a.Unmap())
  {
    BareHost(ra);
  }

  /** Brackets around the host come off, with or without a port after them. */
  lemma BracketedHost(lib: Library, r: Resolver, ra: string, h: string, a: Addr, xff: string)
    requires BracketFree(h) && lib.parseAddr(h) == Some(a)
    requires lib.hostOf(ra) == Some("[" + h + "]") || (lib.hostOf(ra) == None && ra == "[" + h + "]")
    requires !Trusts(r, a) || xff == ""
    ensures Sender(lib, r, ra, xff) == Known(a.Unmap())
  {
    UnbracketedHost("[", h, "]");
  }

  /** A host that is no address is the unknown sender, whatever the header. */
  lemma UnreadableHost(lib: Library, r: Resolver, ra: string, h: string, xff: string)
    requires lib.hostOf(ra) == Some(h) && BracketFree(h) && lib.parseAddr(h) == None
    ensures Sender(lib, r, ra, xff) == Unknown
  {
    BareHost(h);
  }

  /** Two ports of one host are one sender. */
  lemma PortsDoNotMatter(lib: Library, r: Resolver, ra: string, rb: string, h: string, xff: string)
    requires lib.hostOf(ra) == Some(h) && lib.hostOf(rb) == Some(h)
    ensures Sender(lib, r, ra, xff) == Sender(lib, r, rb, xff)
  {
    SenderOfPeer(lib, r, ra, rb, xff);
  }

  /** Over a trusted connection a single address in the header is the sender, blanks around it or not. */
  lemma HeaderOfOne(lib: Library, r: Resolver, ra: string, h: string, proxy: Addr, l: string, hop: string, t: string,
                    a: Addr)
    requires lib.hostOf(ra) == Some(h) && BracketFree(h) && lib.parseAddr(h) == Some(proxy) && Trusts(r, proxy)
    requires (forall c :: c in l || c in t ==> IsSpace(c)) && Trimmed(hop) && hop != "" && ',' !in hop
    requires lib.parseAddr(hop) == Some(a) && !Trusts(r, a)
    ensures Sender(lib, r, ra, l + hop + t) == Known(a.Unmap())
  {
    BareHost(h);
    PaddedHop(lib, l, hop, t);
    ScanOfOne(r, Hops(lib, l + hop + t), a, OrUnknown(Peer(lib, ra)));
  }

  lemma PaddedHop(lib: Library, l: string, hop: string, t: string)
    requires (forall c :: c in l || c in t ==> IsSpace(c)) && Trimmed(hop) && hop != "" && ',' !in hop
    ensures l + hop + t != "" && Hops(lib, l + hop + t) == [lib.parseAddr(hop)]
  {
    NoCommaInPadding(l, hop, t);
    TrimTakesPadding(l, hop, t, IsSpace);
    HopsOfOne(lib, l + hop + t);
  }

  lemma NoCommaInPadding(l: string, hop: string, t: string)
    requires ',' !in hop && forall c :: c in l || c in t ==> IsSpace(c)
    ensures ',' !in l + hop + t
  {
    assert !IsSpace(',');
  }

  lemma ScanOfOne(r: Resolver, hops: seq<Option<Addr>>, a: Addr, fallback: Client)
    requires hops == [Some(a)] && !Trusts(r, a)
    ensures Scan(r, hops, fallback) == Known(a.Unmap())
  {
  }

  /** Blanks around a hop change nothing, wherever it stands. */
  lemma PaddedHopIsSame(lib: Library, r: Resolver, ra: string, left: string, l: string, hop: string, t: string,
                        right: string)
    requires ',' !in hop && forall c :: c in l || c in t ==> IsSpace(c)
    ensures Sender(lib, r, ra, left + [','] + (l + hop + t) + [','] + right) ==
            Sender(lib, r, ra, left + [','] + hop + [','] + right)
  {
    TrimSpaceIgnoresPadding(l, hop, t);
    NoCommaInPadding(l, hop, t);
    HopsAround(lib, left, l + hop + t, right);
    HopsAround(lib, left, hop, right);
  }
}

/** How internal/config/config.go lays a form's block over the file's defaults, for any number of
    layers. */
module Layers {
  import opened Wrappers

  /** A secret said inline or by the variable that holds it: password and password_env, or api_key and
      api_key_env. */
  datatype Secret = Secret(inline: string, variable: string)
  {
    predicate Named() {
      inline != "" || variable != ""
    }

    predicate Both() {
      inline != "" && variable != ""
    }
  }

  datatype SmtpLayer = SmtpLayer(addr: string, username: string, secret: Secret)

  datatype MailgunLayer = MailgunLayer(domain: string, region: string, baseURL: string, secret: Secret)

  const NO_SECRET := Secret("", "")
  const NO_SMTP := SmtpLayer("", "", NO_SECRET)
  const NO_MAILGUN := MailgunLayer("", "", "", NO_SECRET)

  // ---- one layer over another ----

  function Over(below: string, above: string): string {
    if above != "" then above else below
  }

  /** Naming a secret either way takes the other way back; named both ways, the variable stays. */
  function SecretOver(below: Secret, above: Secret): Secret {
    if above.variable != "" then Secret("", above.variable)
    else if above.inline != "" then Secret(above.inline, "")
    else below
  }

  function SmtpOver(below: SmtpLayer, above: SmtpLayer): SmtpLayer {
    SmtpLayer(Over(below.addr, above.addr), Over(below.username, above.username),
              SecretOver(below.secret, above.secret))
  }

  function MailgunOver(below: MailgunLayer, above: MailgunLayer): MailgunLayer {
    MailgunLayer(Over(below.domain, above.domain), Over(below.region, above.region),
                 Over(below.baseURL, above.baseURL), SecretOver(below.secret, above.secret))
  }

  /** All layers present, each over what came before it. */
  function Merged<L>(over: (L, L) -> L, base: L, layers: seq<Option<L>>): L {
    if layers == [] then base
    else
      var below := Merged(over, base, layers[..|layers| - 1]);
      match layers[|layers| - 1]
      case None => below
      case Some(above) => over(below, above)
  }

  lemma OneLayer<L>(over: (L, L) -> L, base: L, layer: L)
    ensures Merged(over, base, [Some(layer), None]) == over(base, layer)
  {
    var two: seq<Option<L>> := [Some(layer), None];
    var one := two[..1];
    assert one[..0] == [] && one[0] == Some(layer);
    assert Merged(over, base, one) == over(base, layer);
  }

  lemma TwoLayers<L>(over: (L, L) -> L, base: L, below: Option<L>, above: Option<L>)
    ensures var low := if below.Some? then over(base, below.value) else base;
            Merged(over, base, [below, above]) == if above.Some? then over(low, above.value) else low
  {
    var two := [below, above];
    var one := two[..1];
    assert one[..0] == [] && one[0] == below;
    assert Merged(over, base, one) == if below.Some? then over(base, below.value) else base;
  }

  // ---- the loops ----

  method MergeSmtpLayers(defaults: Option<SmtpLayer>, form: Option<SmtpLayer>) returns (merged: SmtpLayer)
    ensures merged == Merged(SmtpOver, NO_SMTP, [defaults, form])
  {
    merged := NO_SMTP;
    var layers := [defaults, form];
    for i := 0 to 2
      invariant merged == Merged(SmtpOver, NO_SMTP, layers[..i])
    {
      assert layers[..i + 1][..i] == layers[..i];
      if layers[i].None? {
        continue;
      }
      var layer := layers[i].value;
      if layer.addr != "" {
        merged := merged.(addr := layer.addr);
      }
      if layer.username != "" {
        merged := merged.(username := layer.username);
      }
      if layer.secret.inline != "" {
        merged := merged.(secret := Secret(layer.secret.inline, ""));
      }
      if layer.secret.variable != "" {
        merged := merged.(secret := Secret("", layer.secret.variable));
      }
    }
    assert layers[..2] == layers;
  }

  method MergeMailgunLayers(defaults: Option<MailgunLayer>, form: Option<MailgunLayer>)
    returns (merged: MailgunLayer)
    ensures merged == Merged(MailgunOver, NO_MAILGUN, [defaults, form])
  {
    merged := NO_MAILGUN;
    var layers := [defaults, form];
    for i := 0 to 2
      invariant merged == Merged(MailgunOver, NO_MAILGUN, layers[..i])
    {
      assert layers[..i + 1][..i] == layers[..i];
      if layers[i].None? {
        continue;
      }
      var layer := layers[i].value;
      if layer.domain != "" {
        merged := merged.(domain := layer.domain);
      }
      if layer.region != "" {
        merged := merged.(region := layer.region);
      }
      if layer.baseURL != "" {
        merged := merged.(baseURL := layer.baseURL);
      }
      if layer.secret.inline != "" {
        merged := merged.(secret := Secret(layer.secret.inline, ""));
      }
      if layer.secret.variable != "" {
        merged := merged.(secret := Secret("", layer.secret.variable));
      }
    }
    assert layers[..2] == layers;
  }

  // ---- what merging is ----

  /** Associative, with the empty layer changing nothing from above. */
  ghost predicate IsOverlay<L(!new)>(over: (L, L) -> L, base: L) {
    && (forall a, b, c :: over(over(a, b), c) == over(a, over(b, c)))
    && (forall a :: over(a, base) == a)
  }

  lemma MergesAreOverlays()
    ensures IsOverlay(SmtpOver, NO_SMTP) && IsOverlay(MailgunOver, NO_MAILGUN)
  {
    forall a, b, c
      ensures SmtpOver(SmtpOver(a, b), c) == SmtpOver(a, SmtpOver(b, c))
    {
    }
  }

  /** From below, the empty layer changes nothing exactly when the layer above does not name its secret
      both ways. */
  lemma EmptyBelow(s: SmtpLayer, g: MailgunLayer)
    ensures SmtpOver(NO_SMTP, s) == s <==> !s.secret.Both()
    ensures MailgunOver(NO_MAILGUN, g) == g <==> !g.secret.Both()
  {
  }

  /** Layers can be merged in groups: merging two stretches and laying one result over the other is
      merging them all. */
  lemma {:induction false} MergingInGroups<L(!new)>(over: (L, L) -> L, base: L, a: seq<Option<L>>, b: seq<Option<L>>)
    requires IsOverlay(over, base)
    ensures Merged(over, base, a + b) == over(Merged(over, base, a), Merged(over, base, b))
  {
    if b == [] {
      assert a + b == a;
    } else {
      var n := |b| - 1;
      assert (a + b)[..|a + b| - 1] == a + b[..n];
      MergingInGroups(over, base, a, b[..n]);
    }
  }

  /** However many layers, the result never carries a secret both ways. */
  lemma {:induction false} OneSecretForm(s: seq<Option<SmtpLayer>>, g: seq<Option<MailgunLayer>>)
    ensures !Merged(SmtpOver, NO_SMTP, s).secret.Both()
    ensures !Merged(MailgunOver, NO_MAILGUN, g).secret.Both()
    decreases |s| + |g|
  {
    if s != [] {
      OneSecretForm(s[..|s| - 1], g);
    } else if g != [] {
      OneSecretForm(s, g[..|g| - 1]);
    }
  }

  /** `names` says when a layer has a say in the part `get` reads: then what lies below has none, and
      otherwise it keeps its own. */
  ghost predicate Overrides<L(!new), F>(over: (L, L) -> L, get: L -> F, names: L -> bool) {
    forall a, b, c :: get(over(a, b)) == if names(b) then get(over(c, b)) else get(a)
  }

  ghost predicate AllSilent<L>(layers: seq<Option<L>>, names: L -> bool) {
    forall l :: l in layers && l.Some? ==> !names(l.value)
  }

  lemma {:induction false} SilentChangesNothing<L(!new), F>(over: (L, L) -> L, base: L, get: L -> F,
                                                            names: L -> bool, below: seq<Option<L>>,
                                                            above: seq<Option<L>>)
    requires Overrides(over, get, names) && AllSilent(above, names)
    ensures get(Merged(over, base, below + above)) == get(Merged(over, base, below))
  {
    if above == [] {
      assert below + above == below;
    } else {
      var n := |above| - 1;
      assert (below + above)[..|below + above| - 1] == below + above[..n];
      assert above[n] in above;
      SilentChangesNothing(over, base, get, names, below, above[..n]);
    }
  }

  /** The last layer with a say in a part decides it, whatever lies below. */
  lemma LastNamedWins<L(!new), F>(over: (L, L) -> L, base: L, get: L -> F, names: L -> bool,
                                  below: seq<Option<L>>, layer: L, above: seq<Option<L>>)
    requires Overrides(over, get, names) && AllSilent(above, names) && names(layer)
    ensures get(Merged(over, base, below + [Some(layer)] + above)) == get(over(base, layer))
  {
    var upTo := below + [Some(layer)];
    SilentChangesNothing(over, base, get, names, upTo, above);
    assert upTo[..|upTo| - 1] == below;
    assert Merged(over, base, upTo) == over(Merged(over, base, below), layer);
  }

  /** The secret comes from the last layer that names one, and there is none if no layer does. */
  lemma SecretIsLastNamed(below: seq<Option<SmtpLayer>>, layer: SmtpLayer, above: seq<Option<SmtpLayer>>)
    requires AllSilent(above, (l: SmtpLayer) => l.secret.Named())
    ensures Merged(SmtpOver, NO_SMTP, above).secret == NO_SECRET
    ensures layer.secret.Named() ==>
              Merged(SmtpOver, NO_SMTP, below + [Some(layer)] + above).secret == SecretOver(NO_SECRET, layer.secret)
  {
    var get, names := (l: SmtpLayer) => l.secret, (l: SmtpLayer) => l.secret.Named();
    SilentChangesNothing(SmtpOver, NO_SMTP, get, names, [], above);
    assert [] + above == above;
    if layer.secret.Named() {
      LastNamedWins(SmtpOver, NO_SMTP, get, names, below, layer, above);
    }
  }

  lemma KeyIsLastNamed(below: seq<Option<MailgunLayer>>, layer: MailgunLayer, above: seq<Option<MailgunLayer>>)
    requires AllSilent(above, (l: MailgunLayer) => l.secret.Named())
    ensures Merged(MailgunOver, NO_MAILGUN, above).secret == NO_SECRET
    ensures layer.secret.Named() ==>
              Merged(MailgunOver, NO_MAILGUN, below + [Some(layer)] + above).secret ==
              SecretOver(NO_SECRET, layer.secret)
  {
    var get, names := (l: MailgunLayer) => l.secret, (l: MailgunLayer) => l.secret.Named();
    SilentChangesNothing(MailgunOver, NO_MAILGUN, get, names, [], above);
    assert [] + above == above;
    if layer.secret.Named() {
      LastNamedWins(MailgunOver, NO_MAILGUN, get, names, below, layer, above);
    }
  }

  /** A plain setting is that of the last layer that sets it: the server address, for one. */
  lemma AddressIsLastSet(below: seq<Option<SmtpLayer>>, layer: SmtpLayer, above: seq<Option<SmtpLayer>>)
    requires AllSilent(above, (l: SmtpLayer) => l.addr != "") && layer.addr != ""
    ensures Merged(SmtpOver, NO_SMTP, below + [Some(layer)] + above).addr == layer.addr
  {
    LastNamedWins(SmtpOver, NO_SMTP, (l: SmtpLayer) => l.addr, (l: SmtpLayer) => l.addr != "", below, layer, above);
  }
}

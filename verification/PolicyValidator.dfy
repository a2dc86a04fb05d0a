/**
 * The accumulating validator: passes that push diagnostics, fill tables and sets, and skip ahead
 * after some errors. Each pass says when it leaves the diagnostics without an error; together they
 * leave none exactly when the policy is well formed.
 */
module PolicyValidator {
  import opened Common
  import opened Text
  import Json
  import opened PolicyModel
  import opened PolicyForwards
  import opened PolicyHosts
  import opened PolicySlots
  import opened PolicyTables

  /** What it means for a network policy to be accepted. */
  ghost predicate WellFormed(c: Compilers, p: Policy) {
    && p.version == 1
    && EndpointsOk(c, p.endpoints)
    && CredentialsOk(c, p.endpoints, p.credentials)
    && TunnelsOk(p.tailscale)
    && RulesOk(c, p)
    && ForwardsOk(p.tailscale, p.forwards)
    && SlotsOk(p)
  }

  class Validator {
    var diagnostics: seq<Diagnostic>
    const compilers: Compilers

    constructor (c: Compilers)
      ensures diagnostics == [] && compilers == c
    {
      diagnostics := [];
      compilers := c;
    }

    method Error(summary: string, details: seq<string>)
      modifies this
      ensures diagnostics == old(diagnostics) + [Diagnostic(Severity.Error, summary, details)]
      ensures !Clean(diagnostics)
    {
      diagnostics := diagnostics + [Diagnostic(Severity.Error, summary, details)];
      assert diagnostics[|diagnostics| - 1].severity == Severity.Error;
    }

    method Warning(summary: string, details: seq<string>)
      modifies this
      ensures diagnostics == old(diagnostics) + [Diagnostic(Severity.Warning, summary, details)]
      ensures Clean(diagnostics) <==> old(Clean(diagnostics))
    {
      CleanSum(diagnostics, [Diagnostic(Severity.Warning, summary, details)]);
      diagnostics := diagnostics + [Diagnostic(Severity.Warning, summary, details)];
    }

    method ValidateName(kind: Kind, name: string)
      modifies this
      ensures diagnostics == old(diagnostics) + NameDiagnostics(kind, name)
      ensures Clean(diagnostics) <==> old(Clean(diagnostics)) && NameOk(kind, name)
    {
      CleanName(kind, name);
      CleanSum(diagnostics, NameDiagnostics(kind, name));
      if name == "silo" && (kind == CredentialName || kind == TunnelName) {
        Error("reserved policy object name", [name]);
      }
      if !ValidIdentifier(name) {
        Error("invalid policy object name", [name]);
      }
    }

    method ValidateVersion(version: nat)
      modifies this
      ensures Clean(diagnostics) <==> old(Clean(diagnostics)) && version == 1
    {
      if version != 1 {
        Error("unsupported policy version", [Decimal(version)]);
      }
    }

    /** A buffer smaller than the storage only draws a warning. */
    method ValidateAudit(buffer: nat, storage: nat)
      modifies this
      ensures Clean(diagnostics) <==> old(Clean(diagnostics))
      ensures |diagnostics| == |old(diagnostics)| + if buffer < storage then 1 else 0
    {
      if buffer < storage {
        Warning("audit body buffer is smaller than body storage", []);
      }
    }

    method ValidateDescriptor(e: Endpoint, d: Definition)
      modifies this
      ensures Clean(diagnostics) <==> old(Clean(diagnostics)) && DescriptorOk(e, d)
    {
      hide Clean;
      if e.family != FamilyText(d.family) {
        Error("endpoint family mismatch", [e.name, e.kind]);
      }
      if e.transport != d.transport {
        Error("endpoint transport mismatch", [e.name, e.kind]);
      }
      if e.tlsMode != (if d.terminatesTls then "terminate" else "none") {
        Error("endpoint TLS mode mismatch", [e.name, e.kind]);
      }
      if e.capabilities != (if d.supportsCredentials then ["credential-injection"] else []) {
        Error("endpoint capability mismatch", [e.name, e.kind]);
      }
    }

    method ValidateIp(e: Endpoint)
      modifies this
      ensures Clean(diagnostics) <==> old(Clean(diagnostics)) && IpOk(e)
    {
      hide Clean;
      if e.hosts != [] {
        Error("ip endpoint cannot declare hosts", [e.name]);
      }
      for i := 0 to |e.ports|
        invariant Clean(diagnostics) <==>
                  old(Clean(diagnostics)) && e.hosts == [] && forall k :: 0 <= k < i ==> PortOk(e.ports[k])
      {
        if !PortOk(e.ports[i]) {
          Error("invalid port range", [e.name]);
        }
      }
    }

    method ValidateHttp(e: Endpoint, exact: set<string>) returns (exact': set<string>)
      modifies this
      ensures Clean(diagnostics) <==> old(Clean(diagnostics)) && HttpFieldsOk(e) && Fresh(e.hosts, exact)
      ensures exact' == exact + ExactSet(e.hosts)
    {
      hide Clean, IsExact, Blank, ExactSet, Trim;
      if e.sourceCidrs != [] || e.destinationCidrs != [] || e.protocol != AnyProtocol || e.ports != [] {
        Error("http endpoint has ip-only fields", [e.name]);
      }
      if e.hosts == [] {
        Error("http endpoint requires hosts", [e.name]);
      }
      ghost var fields := Clean(diagnostics);
      exact' := exact;
      ExactSetEmpty(e.hosts);
      for i := 0 to |e.hosts|
        invariant exact' == exact + ExactSet(e.hosts[..i])
        invariant Clean(diagnostics) <==>
                  fields && forall k :: 0 <= k < i ==> !Blank(e.hosts[k]) && FreshAt(e.hosts, exact, k)
      {
        var host := e.hosts[i];
        ExactSetStep(e.hosts, i);
        TrimBlank(host);
        if Trim(host) == [] {
          Error("empty host binding", [e.name]);
        }
        if IsExact(host) {
          if host in exact' {
            Error("duplicate exact host binding", [host]);
          }
          exact' := exact' + {host};
        }
      }
      assert e.hosts[..|e.hosts|] == e.hosts;
    }

    method ValidateRegistry(e: Endpoint, exact: set<string>) returns (exact': set<string>)
      modifies this
      ensures Clean(diagnostics) <==>
              old(Clean(diagnostics)) && HttpFieldsOk(e) && RegistryConfigOk(compilers, e) && Fresh(e.hosts, exact)
      ensures exact' == exact + ExactSet(e.hosts)
    {
      hide Clean, HttpFieldsOk, Fresh, ExactSet, RegistriesOk, KnownRepository;
      exact' := ValidateHttp(e, exact);
      var registries := Json.AsArray(Json.Field(e.config, "registries"));
      if registries.None? {
        Error("registry endpoint requires registries", [e.name]);
        return;
      }
      var names := RegistryNames(registries.value);
      RegistriesMatch(e, registries.value);
      if |names| != |registries.value| || |ElementsOf(names)| != |names|
         || exists i :: 0 <= i < |names| && !KnownRepository(names[i]) {
        Error("invalid canonical registries", [e.name]);
      }
      var hosts := ComputeRegistryHosts(names);
      if e.hosts != hosts {
        Error("registry endpoint bindings mismatch", [e.name]);
      }
      ValidateRegistryService(e);
    }

    method ValidateRegistryService(e: Endpoint)
      modifies this
      ensures Clean(diagnostics) <==> old(Clean(diagnostics)) && RegistryServiceOk(compilers, e)
    {
      hide Clean, AgeOk;
      var feed := Json.AsStr(Json.Field(e.config, "malware_feed"));
      if feed.None? {
        Error("registry endpoint requires malware feed", [e.name]);
        return;
      }
      var origin := compilers.origin(feed.value);
      if origin.None? {
        Error("invalid registry malware feed", [e.name]);
        return;
      }
      if e.egress != [Egress(origin.value.0, origin.value.1, true)] {
        Error("registry endpoint egress mismatch", [e.name]);
      }
      if !AgeOk(e.config) {
        Error("invalid package age filter", [e.name]);
      }
      if |e.config| != (if "filter_package_age" in e.config then 3 else 2) {
        Error("registry endpoint has unknown config", [e.name]);
      }
    }

    method ValidateSchema(e: Endpoint, schema: Schema, exact: set<string>) returns (exact': set<string>)
      modifies this
      ensures Clean(diagnostics) <==>
              && old(Clean(diagnostics)) && SchemaOk(compilers, e, schema)
              && (!schema.IpSchema? ==> Fresh(e.hosts, exact))
      ensures exact' == exact + if schema.IpSchema? then {} else ExactSet(e.hosts)
    {
      hide Clean, IpOk, HttpFieldsOk, RegistryConfigOk, Fresh, ExactSet;
      match schema
      case IpSchema =>
        ValidateIp(e);
        exact' := exact;
      case HostsSchema => exact' := ValidateHttp(e, exact);
      case RegistriesSchema => exact' := ValidateRegistry(e, exact);
    }

    method ValidateEndpoint(e: Endpoint, table: map<string, Info>, exact: set<string>)
      returns (table': map<string, Info>, exact': set<string>)
      modifies this
      ensures Clean(diagnostics) <==>
              && old(Clean(diagnostics)) && EndpointOk(compilers, e)
              && e.name !in table && (BindsHosts(e) ==> Fresh(e.hosts, exact))
      ensures table' == if DefinitionOf(e.kind).Some? then table[e.name := InfoOf(e)] else table
      ensures exact' == exact + if BindsHosts(e) then ExactSet(e.hosts) else {}
    {
      hide Clean, NameOk, DefinitionOf, DescriptorOk, SchemaOk, Fresh, ExactSet, InfoOf;
      table', exact' := table, exact;
      ValidateName(EndpointName, e.name);
      if DefinitionOf(e.kind).None? {
        Error("unsupported endpoint kind", [e.name, e.kind]);
        return;
      }
      var definition := DefinitionOf(e.kind).value;
      ValidateDescriptor(e, definition);
      table' := table[e.name := InfoOf(e)];
      if e.name in table {
        Error("duplicate endpoint name", [e.name]);
      }
      exact' := ValidateSchema(e, definition.schema, exact);
    }

    method ValidateEndpoints(es: seq<Endpoint>) returns (table: map<string, Info>)
      modifies this
      ensures Clean(diagnostics) <==> old(Clean(diagnostics)) && EndpointsOk(compilers, es)
      ensures table == EndpointTable(es, |es|)
    {
      hide Clean, DefinitionOf, EndpointOk, Fresh, ExactSet, EndpointsOk, InfoOf, BindsHosts;
      table := map[];
      var exact: set<string> := {};
      for i := 0 to |es|
        invariant table == EndpointTable(es, i)
        invariant exact == ExactBefore(es, i)
        invariant Clean(diagnostics) <==>
                  old(Clean(diagnostics)) && forall k :: 0 <= k < i ==> EndpointFits(compilers, es, k)
      {
        ghost var before := Clean(diagnostics);
        table, exact := ValidateEndpoint(es[i], table, exact);
        assert Clean(diagnostics) <==> before && EndpointFits(compilers, es, i);
      }
      AllFitMeansOk(compilers, es);
    }

    method ValidateCredential(x: Credential, table: map<string, Info>, byName: map<string, string>)
      modifies this
      ensures Clean(diagnostics) <==>
              old(Clean(diagnostics)) && CredentialFits(compilers, table, x) && x.name !in byName
    {
      hide Clean, NameOk, SupportedCredential;
      ValidateName(CredentialName, x.name);
      if x.name in byName {
        Error("duplicate credential name", [x.name]);
      }
      if !SupportedCredential(x.kind) {
        Error("unsupported credential kind", [x.name, x.kind]);
      }
      if x.endpoint !in table {
        Error("credential references unknown endpoint", [x.name, x.endpoint]);
        return;
      }
      if !table[x.endpoint].supportsCredentials {
        Error("credential endpoint must be https", [x.name, table[x.endpoint].kind, x.endpoint]);
      }
      if x.condition.Some? && !compilers.http(x.condition.value) {
        Error("credential condition", []);
      }
    }

    method ValidateCredentials(xs: seq<Credential>, table: map<string, Info>) returns (byName: map<string, string>)
      modifies this
      ensures Clean(diagnostics) <==> old(Clean(diagnostics)) && CredentialsFit(compilers, table, xs)
      ensures byName == CredentialTable(xs, |xs|)
    {
      hide Clean, CredentialFits;
      byName := map[];
      for i := 0 to |xs|
        invariant byName == CredentialTable(xs, i)
        invariant Clean(diagnostics) <==>
                  && old(Clean(diagnostics))
                  && forall k :: 0 <= k < i ==> CredentialFits(compilers, table, xs[k]) && xs[k].name !in CredentialTable(xs, k)
      {
        ValidateCredential(xs[i], table, byName);
        byName := byName[xs[i].name := xs[i].endpoint];
      }
    }

    method ValidateTunnels(ts: seq<Tunnel>) returns (names: set<string>)
      modifies this
      ensures Clean(diagnostics) <==> old(Clean(diagnostics)) && TunnelsOk(ts)
      ensures names == TunnelNames(ts)
    {
      hide Clean, NameOk;
      if |ts| >= 2 {
        Error("multiple tailscale tunnels", [ts[0].name, ts[1].name]);
      }
      names := {};
      for i := 0 to |ts|
        invariant names == TunnelNames(ts[..i])
        invariant Clean(diagnostics) <==>
                  old(Clean(diagnostics)) && |ts| <= 1 && forall k :: 0 <= k < i ==> NameOk(TunnelName, ts[k].name)
      {
        ValidateName(TunnelName, ts[i].name);
        if ts[i].name in names {
          Error("duplicate tailscale tunnel name", [ts[i].name]);
        }
        TunnelNamesStep(ts, i);
        names := names + {ts[i].name};
      }
      assert ts[..|ts|] == ts;
    }

    /** The family of the first endpoint found, and the endpoints found. */
    method ResolveEndpoints(names: seq<string>, table: map<string, Info>) returns (family: Option<Family>, found: set<string>)
      modifies this
      ensures found == set n | n in names && n in table
      ensures names != [] && names[0] in table ==> family == Some(table[names[0]].family)
      ensures Clean(diagnostics) <==>
              && old(Clean(diagnostics))
              && forall i :: 0 <= i < |names| ==> names[i] in table && family == Some(table[names[i]].family)
    {
      hide Clean;
      family, found := None, {};
      for i := 0 to |names|
        invariant found == set n | n in names[..i] && n in table
        invariant i == 0 ==> family.None?
        invariant 0 < i && names[0] in table ==> family == Some(table[names[0]].family)
        invariant family.None? ==> forall k :: 0 <= k < i ==> names[k] !in table
        invariant Clean(diagnostics) <==>
                  && old(Clean(diagnostics))
                  && forall k :: 0 <= k < i ==> names[k] in table && family == Some(table[names[k]].family)
      {
        assert names[..i + 1] == names[..i] + [names[i]];
        if names[i] !in table {
          Error("rule references unknown endpoint", [names[i]]);
          continue;
        }
        found := found + {names[i]};
        if family.None? {
          family := Some(table[names[i]].family);
        } else if family.value != table[names[i]].family {
          Error("rule endpoints must share a family", []);
        }
      }
      assert names[..|names|] == names;
    }

    method ValidateCondition(family: Option<Family>, condition: Option<string>)
      modifies this
      ensures Clean(diagnostics) <==>
              old(Clean(diagnostics)) && (family.Some? ==> ConditionOk(compilers, family.value, condition))
    {
      hide Clean;
      if condition.Some? && family.Some? {
        match family.value
        case HttpFamily =>
          if !compilers.http(condition.value) {
            Error("rule condition", []);
          }
        case PackageFamily =>
          if !compilers.facet(condition.value, PackageFamily) {
            Error("rule condition", []);
          }
        case IpFamily => Error("condition requires condition-capable endpoints", []);
      }
    }

    /** Whether the credential is declared; the rule's remaining checks are skipped when it is not. */
    method ValidateRuleCredential(name: string, family: Option<Family>, found: set<string>, credentials: map<string, string>)
      returns (known: bool)
      modifies this
      ensures known == (name in credentials)
      ensures Clean(diagnostics) <==>
              && old(Clean(diagnostics))
              && name in credentials && family == Some(HttpFamily) && credentials[name] in found
    {
      hide Clean;
      if name !in credentials {
        Error("rule references unknown credential", [name]);
        return false;
      }
      if family != Some(HttpFamily) {
        Error("credential predicate requires http-family endpoints", []);
      }
      if credentials[name] !in found {
        Error("credential predicate is not compatible with rule endpoints", [name]);
      }
      return true;
    }

    method ValidateRuleTunnel(name: string, verdict: Verdict, tunnels: set<string>)
      modifies this
      ensures Clean(diagnostics) <==> old(Clean(diagnostics)) && name in tunnels && verdict == Allow
    {
      hide Clean;
      if name !in tunnels {
        Error("rule references unknown tunnel", [name]);
      }
      if verdict != Allow {
        Error("tunnel requires allow verdict", []);
      }
    }

    method ValidateRule(r: Rule, table: map<string, Info>, credentials: map<string, string>, tunnels: set<string>)
      modifies this
      ensures Clean(diagnostics) <==>
              old(Clean(diagnostics)) && RuleFits(compilers, table, credentials, tunnels, r)
    {
      hide Clean, NameOk, ConditionOk, RuleFits;
      if r.name.Some? {
        ValidateName(RuleName, r.name.value);
      }
      if r.endpoints == [] {
        RuleFitsParts(compilers, table, credentials, tunnels, r, None, {});
        Error("rule requires endpoints", []);
        return;
      }
      var family, found := ResolveEndpoints(r.endpoints, table);
      RuleFitsParts(compilers, table, credentials, tunnels, r, family, found);
      ValidateCondition(family, r.condition);
      if r.credential.Some? {
        var known := ValidateRuleCredential(r.credential.value, family, found, credentials);
        if !known {
          return;
        }
      }
      if r.tunnel.Some? {
        ValidateRuleTunnel(r.tunnel.value, r.verdict, tunnels);
      }
    }

    method ValidateRules(rules: seq<Rule>, table: map<string, Info>, credentials: map<string, string>, tunnels: set<string>)
      modifies this
      ensures Clean(diagnostics) <==>
              && old(Clean(diagnostics))
              && forall i :: 0 <= i < |rules| ==> RuleFits(compilers, table, credentials, tunnels, rules[i])
    {
      hide Clean, RuleFits;
      for i := 0 to |rules|
        invariant Clean(diagnostics) <==>
                  && old(Clean(diagnostics))
                  && forall k :: 0 <= k < i ==> RuleFits(compilers, table, credentials, tunnels, rules[k])
      {
        ValidateRule(rules[i], table, credentials, tunnels);
      }
    }

    method ValidateForwardTunnel(f: Forward, tunnels: set<string>)
      modifies this
      ensures diagnostics == old(diagnostics) + TunnelDiagnostics(f, tunnels)
    {
      if f.kind == "host" {
        if f.tunnel.Some? {
          Error("host forward cannot reference a tunnel", [f.name]);
        }
      } else if f.kind == "tailscale" {
        if f.tunnel.Some? {
          if f.tunnel.value !in tunnels {
            Error("forward references unknown tunnel", [f.name, f.tunnel.value]);
          }
        } else if f.target != "self" {
          Error("missing forward tunnel", [f.name]);
        }
      } else {
        Error("unsupported forward kind", [f.name, f.kind]);
      }
    }

    method ValidateForwardTransport(f: Forward, listeners: set<nat>) returns (listeners': set<nat>)
      modifies this
      ensures diagnostics == old(diagnostics) + TransportDiagnostics(f, listeners)
      ensures listeners' == listeners + if Listener(f).Some? then {Listener(f).value} else {}
    {
      hide Transport, Decimal, Clean;
      listeners' := listeners;
      match Transport(f)
      case Ok(None) =>
      case Ok(Some(port)) =>
        listeners' := listeners + {port};
        if port in listeners {
          Error("duplicate forward listener", [f.name, ":" + Decimal(port)]);
        }
      case Err(detail) => Error("invalid forward transport", [f.name, detail]);
    }

    method ValidateForward(f: Forward, tunnels: set<string>, names: set<string>, listeners: set<nat>)
      returns (listeners': set<nat>)
      modifies this
      ensures diagnostics == old(diagnostics) + OneForward(f, tunnels, names, listeners)
      ensures listeners' == listeners + if Listener(f).Some? then {Listener(f).value} else {}
    {
      hide Transport, NameDiagnostics, TunnelDiagnostics, ValidTarget, IsSelf, Clean, NameOk, TransportDiagnostics, Listener;
      ValidateName(ForwardName, f.name);
      if f.name in names {
        Error("duplicate forward name", [f.name]);
      }
      ValidateForwardTunnel(f, tunnels);
      assert diagnostics == old(diagnostics) +
             (NameDiagnostics(ForwardName, f.name) + When(f.name in names, "duplicate forward name", [f.name])
              + TunnelDiagnostics(f, tunnels));
      if f.targetPort == 0 {
        Error("invalid forward target port", [f.name]);
      }
      if !(ValidTarget(f.target) || IsSelf(f)) {
        Error("invalid forward target selector", [f.name]);
      }
      listeners' := ValidateForwardTransport(f, listeners);
    }

    method ValidateForwards(fs: seq<Forward>, tunnels: set<string>)
      modifies this
      ensures diagnostics == old(diagnostics) + ForwardDiagnostics(fs, tunnels, |fs|)
    {
      hide OneForward, Listener;
      var names: set<string>, listeners: set<nat> := {}, {};
      for i := 0 to |fs|
        invariant names == NamesBefore(fs, i)
        invariant listeners == ListenersBefore(fs, i)
        invariant diagnostics == old(diagnostics) + ForwardDiagnostics(fs, tunnels, i)
      {
        listeners := ValidateForward(fs[i], tunnels, names, listeners);
        names := names + {fs[i].name};
      }
    }

    method ValidateSecretSlots(p: Policy)
      modifies this
      ensures Clean(diagnostics) <==> old(Clean(diagnostics)) && SlotsOk(p)
    {
      hide Clean, ValidSlot, SecretSlots;
      var slots := SecretSlots(p);
      for i := 0 to |slots|
        invariant Clean(diagnostics) <==>
                  old(Clean(diagnostics)) && forall k :: 0 <= k < i ==> ValidSlot(slots[k].name)
      {
        if !ValidSlot(slots[i].name) {
          Error("invalid network secret slot", [slots[i].name]);
        }
      }
    }

    /** No error is reported exactly when the policy is well formed. */
    method Validate(p: Policy)
      modifies this
      ensures Clean(diagnostics) <==> old(Clean(diagnostics)) && WellFormed(compilers, p)
    {
      hide Clean, EndpointsOk, CredentialsOk, TunnelsOk, ForwardsOk, SlotsOk, RuleFits, RuleOk, CredentialsFit,
           EndpointTable, CredentialTable, TunnelNames, ForwardDiagnostics;
      ValidateVersion(p.version);
      ValidateAudit(p.bodyBuffer, p.bodyStorage);
      var endpoints := ValidateEndpoints(p.endpoints);
      var credentials := ValidateCredentials(p.credentials, endpoints);
      var tunnels := ValidateTunnels(p.tailscale);
      if EndpointsOk(compilers, p.endpoints) {
        CredentialsFitMeansOk(compilers, p.endpoints, p.credentials);
      }
      ValidateRules(p.rules, endpoints, credentials, tunnels);
      if EndpointsOk(compilers, p.endpoints) && CredentialsOk(compilers, p.endpoints, p.credentials) {
        RulesFitMeansOk(compilers, p);
      }
      CleanForwards(p.forwards, p.tailscale, |p.forwards|);
      assert p.forwards[..|p.forwards|] == p.forwards;
      CleanSum(diagnostics, ForwardDiagnostics(p.forwards, tunnels, |p.forwards|));
      ValidateForwards(p.forwards, tunnels);
      ValidateSecretSlots(p);
    }
  }

  /** The rule check, read off the family and the endpoints that the name loop found. */
  lemma RuleFitsParts(
    c: Compilers, t: map<string, Info>, cs: map<string, string>, ts: set<string>, r: Rule,
    family: Option<Family>, found: set<string>)
    requires r.endpoints != [] && r.endpoints[0] in t ==> family == Some(t[r.endpoints[0]].family)
    requires r.endpoints != [] ==> found == set n | n in r.endpoints && n in t
    ensures RuleFits(c, t, cs, ts, r) <==>
            && (r.name.Some? ==> NameOk(RuleName, r.name.value))
            && r.endpoints != []
            && (forall i :: 0 <= i < |r.endpoints| ==> r.endpoints[i] in t && family == Some(t[r.endpoints[i]].family))
            && (family.Some? ==> ConditionOk(c, family.value, r.condition))
            && (r.credential.Some? ==>
                  r.credential.value in cs && family == Some(HttpFamily) && cs[r.credential.value] in found)
            && (r.tunnel.Some? ==> r.tunnel.value in ts && r.verdict == Allow)
  {
    hide NameOk, ConditionOk;
    if r.endpoints != [] && forall i :: 0 <= i < |r.endpoints| ==> r.endpoints[i] in t {
      forall n | n in r.endpoints ensures n in found {
      }
    }
  }

  lemma RulesFitMeansOk(c: Compilers, p: Policy)
    requires EndpointsOk(c, p.endpoints) && CredentialsOk(c, p.endpoints, p.credentials)
    ensures RulesOk(c, p) <==>
            forall i :: 0 <= i < |p.rules| ==>
              RuleFits(c, EndpointTable(p.endpoints, |p.endpoints|), CredentialTable(p.credentials, |p.credentials|),
                       TunnelNames(p.tailscale), p.rules[i])
  {
    hide EndpointsOk, CredentialsOk, RuleFits, RuleOk, EndpointTable, CredentialTable;
    forall i | 0 <= i < |p.rules|
      ensures RuleFits(c, EndpointTable(p.endpoints, |p.endpoints|), CredentialTable(p.credentials, |p.credentials|),
                       TunnelNames(p.tailscale), p.rules[i]) <==>
              RuleOk(c, p.endpoints, p.credentials, p.tailscale, p.rules[i])
    {
      RuleFitsMeansOk(c, p.endpoints, p.credentials, p.tailscale, TunnelNames(p.tailscale), p.rules[i]);
    }
  }

  lemma TunnelNamesStep(ts: seq<Tunnel>, i: nat)
    requires i < |ts|
    ensures TunnelNames(ts[..i + 1]) == TunnelNames(ts[..i]) + {ts[i].name}
  {
    assert ts[..i + 1] == ts[..i] + [ts[i]];
  }

  lemma ExactSetEmpty(hosts: seq<string>)
    ensures ExactSet(hosts[..0]) == {}
  {
  }

  /** Whether the configured registries are distinct, known names whose hosts are the endpoint's. */
  lemma RegistriesMatch(e: Endpoint, items: seq<Json.Value>)
    ensures var names := RegistryNames(items);
            RegistriesOk(e, items) <==>
            && |names| == |items| && |ElementsOf(names)| == |names|
            && (forall i :: 0 <= i < |names| ==> KnownRepository(names[i]))
            && e.hosts == RegistryHosts(names)
  {
    hide KnownRepository, RegistryHosts;
    var names := RegistryNames(items);
    AllStrings(items);
    if |names| == |items| {
      DistinctIffCardinality(names);
    }
  }

  lemma {:induction false} AllStrings(items: seq<Json.Value>)
    ensures |RegistryNames(items)| <= |items|
    ensures |RegistryNames(items)| == |items| <==> forall i :: 0 <= i < |items| ==> items[i].Str?
    ensures |RegistryNames(items)| == |items| ==>
              forall i :: 0 <= i < |items| ==> items[i].Str? && RegistryNames(items)[i] == items[i].s
  {
    if items != [] {
      AllStrings(items[..|items| - 1]);
    }
  }

  lemma {:induction false} DistinctIffCardinality(s: seq<string>)
    ensures |ElementsOf(s)| <= |s|
    ensures |ElementsOf(s)| == |s| <==> Distinct(s)
  {
    if Distinct(s) {
      DistinctCardinality(s);
    }
    if s != [] {
      var front, last := s[..|s| - 1], s[|s| - 1];
      DistinctIffCardinality(front);
      assert s == front + [last];
      assert ElementsOf(s) == ElementsOf(front) + {last};
    }
  }

  /** The exact hosts seen grow by the next one; it was there before exactly if it repeats one. */
  lemma ExactSetStep(hosts: seq<string>, i: nat)
    requires i < |hosts|
    ensures ExactSet(hosts[..i + 1]) == ExactSet(hosts[..i]) + if IsExact(hosts[i]) then {hosts[i]} else {}
    ensures IsExact(hosts[i]) ==> (hosts[i] in ExactSet(hosts[..i]) <==> hosts[i] in hosts[..i])
  {
    hide IsExact;
    assert hosts[..i + 1] == hosts[..i] + [hosts[i]];
  }

  /** The entry point: a fresh validator over one policy. */
  method ValidatePolicy(c: Compilers, p: Policy) returns (diagnostics: seq<Diagnostic>)
    ensures Clean(diagnostics) <==> WellFormed(c, p)
  {
    hide WellFormed;
    var validator := new Validator(c);
    validator.Validate(p);
    diagnostics := validator.diagnostics;
  }

  // What acceptance promises

  /** The package repositories a registries endpoint speaks for. */
  function Repositories(e: Endpoint): seq<string> {
    var items := Json.AsArray(Json.Field(e.config, "registries"));
    if items.Some? then RegistryNames(items.value) else []
  }

  predicate IsRegistry(e: Endpoint) {
    DefinitionOf(e.kind).Some? && DefinitionOf(e.kind).value.schema == RegistriesSchema
  }

  /** A claimed repository's first host is bound, exactly. */
  lemma ClaimBindsHost(e: Endpoint, items: seq<Json.Value>, x: nat)
    requires RegistriesOk(e, items) && x < |RegistryNames(items)|
    ensures var hosts := RepositoryHosts(RegistryNames(items)[x]);
            hosts != [] && hosts[0] in e.hosts && IsExact(hosts[0])
  {
    hide RegistriesOk, RegistryNames, RepositoryHosts, KnownRepository, IsExact;
    RegistriesMatch(e, items);
    KnownHasHost(RegistryNames(items)[x]);
    assert RepositoryHosts(RegistryNames(items)[x])[0] in RepositoryHosts(RegistryNames(items)[x]);
  }

  lemma KnownHasHost(repository: string)
    requires KnownRepository(repository)
    ensures RepositoryHosts(repository) != [] && IsExact(RepositoryHosts(repository)[0])
  {
    assert RepositoryHosts(repository)[0][0] != '*';
  }

  lemma SharedHostNotApart(a: Endpoint, b: Endpoint, host: string)
    requires BindsHosts(a) && BindsHosts(b) && host in a.hosts && host in b.hosts && IsExact(host)
    ensures !EndpointsApart(a, b)
  {
    hide BindsHosts, IsExact;
    var m :| 0 <= m < |a.hosts| && a.hosts[m] == host;
    var n :| 0 <= n < |b.hosts| && b.hosts[n] == host;
    assert !HostsApart(a.hosts[m], b.hosts[n]);
  }

  /** In an accepted policy each package repository is claimed once, by one registries endpoint. */
  lemma RepositoryClaimedOnce(c: Compilers, p: Policy, i: nat, x: nat, j: nat, y: nat)
    requires WellFormed(c, p)
    requires i < |p.endpoints| && IsRegistry(p.endpoints[i]) && x < |Repositories(p.endpoints[i])|
    requires j < |p.endpoints| && IsRegistry(p.endpoints[j]) && y < |Repositories(p.endpoints[j])|
    requires Repositories(p.endpoints[i])[x] == Repositories(p.endpoints[j])[y]
    ensures i == j && x == y
  {
    hide DefinitionOf, Json.AsArray, Json.Field, RegistriesOk, RegistryServiceOk, HttpFieldsOk, DescriptorOk,
         NameOk, CredentialsOk, TunnelsOk, RulesOk, ForwardsOk, SlotsOk, RegistryNames, RepositoryHosts,
         OwnHostsApart, EndpointsApart, KnownRepository, RegistryHosts;
    var a, b := p.endpoints[i], p.endpoints[j];
    assert EndpointOk(c, a) && EndpointOk(c, b);
    var items := Json.AsArray(Json.Field(a.config, "registries")).value;
    if i == j {
      RegistriesMatch(a, items);
      DistinctIffCardinality(RegistryNames(items));
    } else {
      ClaimBindsHost(a, items, x);
      ClaimBindsHost(b, Json.AsArray(Json.Field(b.config, "registries")).value, y);
      var host := RepositoryHosts(RegistryNames(items)[x])[0];
      assert host in a.hosts && host in b.hosts && IsExact(host);
      SharedHostNotApart(a, b, host);
      SharedHostNotApart(b, a, host);
      assert false;
    }
  }

  /** In an accepted policy no two secrets read the same field under the same store key. */
  lemma AcceptedSlotsApart(c: Compilers, p: Policy)
    requires WellFormed(c, p)
    ensures AllApart(SecretSlots(p))
    ensures forall i :: 0 <= i < |SecretSlots(p)| ==> ValidSlot(SecretSlots(p)[i].name)
  {
    hide AllApart, SecretSlots, ValidSlot, EndpointsOk, CredentialsOk, TunnelsOk, RulesOk, ForwardsOk;
    SlotsNeverCollide(c, p);
  }
}

/** The canonical network policy, the built-in endpoint kinds, and when a policy is well formed. */
module PolicyModel {
  import opened Common
  import opened Text
  import Json

  datatype Family = IpFamily | HttpFamily | PackageFamily

  datatype Schema = IpSchema | HostsSchema | RegistriesSchema

  /** One built-in endpoint kind. */
  datatype Definition = Definition(
    family: Family,
    transport: string,
    schema: Schema,
    supportsCredentials: bool,
    terminatesTls: bool)

  function FamilyText(f: Family): string {
    match f
    case IpFamily => "ip"
    case HttpFamily => "http"
    case PackageFamily => "package"
  }

  /** The plugin registry's built-ins. */
  function DefinitionOf(kind: string): Option<Definition> {
    if kind == "ip" then Some(Definition(IpFamily, "packet-filter", IpSchema, false, false))
    else if kind == "http" then Some(Definition(HttpFamily, "http-proxy", HostsSchema, false, false))
    else if kind == "https" then Some(Definition(HttpFamily, "https-mitm", HostsSchema, true, true))
    else if kind == "registries" then Some(Definition(PackageFamily, "tls-terminate", RegistriesSchema, false, true))
    else None
  }

  datatype IpProtocol = AnyProtocol | TcpProtocol | UdpProtocol

  datatype PortRange = PortRange(start: nat, end: nat)

  datatype Egress = Egress(host: string, port: nat, tls: bool)

  datatype Endpoint = Endpoint(
    name: string,
    kind: string,
    family: string,
    transport: string,
    tlsMode: string,
    config: map<string, Json.Value>,
    egress: seq<Egress>,
    capabilities: seq<string>,
    sourceCidrs: seq<string>,
    destinationCidrs: seq<string>,
    protocol: IpProtocol,
    ports: seq<PortRange>,
    hosts: seq<string>)

  datatype Credential = Credential(name: string, kind: string, endpoint: string, condition: Option<string>)

  datatype Verdict = Allow | Deny

  datatype Rule = Rule(
    name: Option<string>,
    endpoints: seq<string>,
    credential: Option<string>,
    condition: Option<string>,
    tunnel: Option<string>,
    verdict: Verdict)

  datatype Tunnel = Tunnel(name: string)

  datatype ForwardProtocol = Tcp | Https

  datatype Forward = Forward(
    name: string,
    kind: string,
    target: string,
    targetPort: nat,
    listen: string,
    tunnel: Option<string>,
    protocol: ForwardProtocol,
    tls: bool)

  datatype Policy = Policy(
    version: nat,
    bodyBuffer: nat,
    bodyStorage: nat,
    endpoints: seq<Endpoint>,
    credentials: seq<Credential>,
    rules: seq<Rule>,
    tailscale: seq<Tunnel>,
    forwards: seq<Forward>)

  /** What the policy crate takes from its condition compiler and its URL parser. */
  datatype Compilers = Compilers(
    http: string -> bool,
    facet: (string, Family) -> bool,
    origin: string -> Option<(string, nat)>)

  // Diagnostics

  datatype Severity = Error | Warning

  /** A diagnostic: its severity, its summary, and the values its detail text is made of. */
  datatype Diagnostic = Diagnostic(severity: Severity, summary: string, details: seq<string>)

  /** No error among the diagnostics. */
  ghost predicate Clean(ds: seq<Diagnostic>) {
    forall i :: 0 <= i < |ds| ==> ds[i].severity != Error
  }

  // Names

  predicate ValidIdentifier(s: string) {
    s != [] && forall i :: 0 <= i < |s| ==> IsAlphanumeric(s[i]) || s[i] == '_' || s[i] == '-'
  }

  datatype Kind = EndpointName | CredentialName | TunnelName | RuleName | ForwardName

  predicate NameOk(kind: Kind, name: string) {
    && ValidIdentifier(name)
    && (kind == CredentialName || kind == TunnelName ==> name != "silo")
  }

  // Package registries

  function RepositoryHosts(repository: string): seq<string> {
    if repository == "npm" then ["registry.npmjs.org", "registry.yarnpkg.com", "registry.npmjs.com"]
    else if repository == "pypi" then ["pypi.org", "files.pythonhosted.org", "pypi.python.org", "pythonhosted.org"]
    else []
  }

  predicate KnownRepository(repository: string) {
    repository == "npm" || repository == "pypi"
  }

  /** Appends the hosts that are not there yet. */
  function Absorb(hosts: seq<string>, more: seq<string>): (r: seq<string>)
    ensures hosts <= r
    ensures forall h :: h in r <==> h in hosts || h in more
    decreases |more|
  {
    if more == [] then hosts
    else
      var rest := Absorb(if more[0] in hosts then hosts else hosts + [more[0]], more[1..]);
      assert more == [more[0]] + more[1..];
      rest
  }

  function RegistryHosts(repositories: seq<string>): (r: seq<string>)
    ensures forall h :: h in r <==> exists i :: 0 <= i < |repositories| && h in RepositoryHosts(repositories[i])
  {
    if repositories == [] then []
    else
      var n := |repositories| - 1;
      Absorb(RegistryHosts(repositories[..n]), RepositoryHosts(repositories[n]))
  }

  lemma {:induction false} AbsorbDistinct(hosts: seq<string>, more: seq<string>)
    requires Distinct(hosts)
    ensures Distinct(Absorb(hosts, more))
    decreases |more|
  {
    if more != [] {
      AbsorbDistinct(if more[0] in hosts then hosts else hosts + [more[0]], more[1..]);
    }
  }

  lemma {:induction false} RegistryHostsDistinct(repositories: seq<string>)
    ensures Distinct(RegistryHosts(repositories))
  {
    if repositories != [] {
      var n := |repositories| - 1;
      RegistryHostsDistinct(repositories[..n]);
      AbsorbDistinct(RegistryHosts(repositories[..n]), RepositoryHosts(repositories[n]));
    }
  }

  // Endpoints

  predicate IsExact(host: string) {
    !StartsWith(host, "*.")
  }

  predicate BindsHosts(e: Endpoint) {
    DefinitionOf(e.kind).Some? && !DefinitionOf(e.kind).value.schema.IpSchema?
  }

  predicate DescriptorOk(e: Endpoint, d: Definition) {
    && e.family == FamilyText(d.family)
    && e.transport == d.transport
    && e.tlsMode == (if d.terminatesTls then "terminate" else "none")
    && e.capabilities == (if d.supportsCredentials then ["credential-injection"] else [])
  }

  predicate PortOk(p: PortRange) {
    p.start != 0 && p.end != 0 && p.start <= p.end
  }

  predicate IpOk(e: Endpoint) {
    e.hosts == [] && forall i :: 0 <= i < |e.ports| ==> PortOk(e.ports[i])
  }

  predicate HttpFieldsOk(e: Endpoint) {
    && e.sourceCidrs == [] && e.destinationCidrs == [] && e.protocol == AnyProtocol && e.ports == []
    && e.hosts != []
    && forall i :: 0 <= i < |e.hosts| ==> !Blank(e.hosts[i])
  }

  /** The strings among the configured registries. */
  function RegistryNames(items: seq<Json.Value>): seq<string> {
    if items == [] then []
    else
      var n := |items| - 1;
      RegistryNames(items[..n]) + if items[n].Str? then [items[n].s] else []
  }

  predicate RegistriesOk(e: Endpoint, items: seq<Json.Value>) {
    && (forall i :: 0 <= i < |items| ==> items[i].Str? && KnownRepository(items[i].s))
    && (forall i, j :: 0 <= i < j < |items| ==> items[i] != items[j])
    && e.hosts == RegistryHosts(RegistryNames(items))
  }

  predicate AgeOk(config: map<string, Json.Value>) {
    "filter_package_age" in config ==>
      var hours := Json.AsU64(Some(config["filter_package_age"]));
      hours.Some? && 0 < hours.value <= 0xFFFF_FFFF
  }

  predicate RegistryConfigOk(c: Compilers, e: Endpoint) {
    && Json.AsArray(Json.Field(e.config, "registries")).Some?
    && RegistriesOk(e, Json.AsArray(Json.Field(e.config, "registries")).value)
    && RegistryServiceOk(c, e)
  }

  predicate RegistryServiceOk(c: Compilers, e: Endpoint) {
    && Json.AsStr(Json.Field(e.config, "malware_feed")).Some?
    && var origin := c.origin(Json.AsStr(Json.Field(e.config, "malware_feed")).value);
    && origin.Some?
    && e.egress == [Egress(origin.value.0, origin.value.1, true)]
    && AgeOk(e.config)
    && |e.config| == (if "filter_package_age" in e.config then 3 else 2)
  }

  predicate SchemaOk(c: Compilers, e: Endpoint, s: Schema) {
    match s
    case IpSchema => IpOk(e)
    case HostsSchema => HttpFieldsOk(e)
    case RegistriesSchema => HttpFieldsOk(e) && RegistryConfigOk(c, e)
  }

  /** What can be said of an endpoint by itself. */
  predicate EndpointOk(c: Compilers, e: Endpoint) {
    && NameOk(EndpointName, e.name)
    && DefinitionOf(e.kind).Some?
    && DescriptorOk(e, DefinitionOf(e.kind).value)
    && SchemaOk(c, e, DefinitionOf(e.kind).value.schema)
  }

  /** Two host bindings that are both exact differ. */
  predicate HostsApart(a: string, b: string) {
    IsExact(a) && IsExact(b) ==> a != b
  }

  ghost predicate OwnHostsApart(e: Endpoint) {
    forall x, y :: 0 <= x < y < |e.hosts| ==> HostsApart(e.hosts[x], e.hosts[y])
  }

  ghost predicate HostsDisjoint(a: seq<string>, b: seq<string>) {
    forall x, y :: 0 <= x < |a| && 0 <= y < |b| ==> HostsApart(a[x], b[y])
  }

  ghost predicate EndpointsApart(a: Endpoint, b: Endpoint) {
    && a.name != b.name
    && (BindsHosts(a) && BindsHosts(b) ==>
          HostsDisjoint(a.hosts, b.hosts))
  }

  ghost predicate EndpointsOk(c: Compilers, es: seq<Endpoint>) {
    && (forall i :: 0 <= i < |es| ==> EndpointOk(c, es[i]))
    && (forall i :: 0 <= i < |es| && BindsHosts(es[i]) ==> OwnHostsApart(es[i]))
    && (forall i, j :: 0 <= i < j < |es| ==> EndpointsApart(es[i], es[j]))
  }

  // References

  ghost predicate Names(e: Endpoint, es: seq<Endpoint>, name: string) {
    e in es && e.name == name
  }

  predicate SupportedCredential(kind: string) {
    || kind == "basic_auth" || kind == "bearer_token" || kind == "header_token" || kind == "github_oauth"
    || kind == "openai_codex_oauth" || kind == "aws_credential"
  }

  predicate TakesCredentials(e: Endpoint) {
    DefinitionOf(e.kind).Some? && DefinitionOf(e.kind).value.supportsCredentials
  }

  ghost predicate CredentialOk(c: Compilers, es: seq<Endpoint>, x: Credential) {
    && NameOk(CredentialName, x.name)
    && SupportedCredential(x.kind)
    && (exists e :: Names(e, es, x.endpoint) && TakesCredentials(e))
    && (x.condition.Some? ==> c.http(x.condition.value))
  }

  ghost predicate CredentialsOk(c: Compilers, es: seq<Endpoint>, xs: seq<Credential>) {
    && (forall i :: 0 <= i < |xs| ==> CredentialOk(c, es, xs[i]))
    && (forall i, j :: 0 <= i < j < |xs| ==> xs[i].name != xs[j].name)
  }

  ghost predicate TunnelsOk(ts: seq<Tunnel>) {
    |ts| <= 1 && forall i :: 0 <= i < |ts| ==> NameOk(TunnelName, ts[i].name)
  }

  ghost predicate TunnelDeclared(ts: seq<Tunnel>, name: string) {
    exists i :: 0 <= i < |ts| && ts[i].name == name
  }

  /** A condition is compiled for the rule's family; packet filters take none. */
  predicate ConditionOk(c: Compilers, f: Family, condition: Option<string>) {
    condition.Some? ==>
      match f
      case IpFamily => false
      case HttpFamily => c.http(condition.value)
      case PackageFamily => c.facet(condition.value, f)
  }

  /** The name is declared, by an endpoint of the given family. */
  ghost predicate Resolves(es: seq<Endpoint>, name: string, f: Family) {
    exists e :: Names(e, es, name) && DefinitionOf(e.kind).Some? && DefinitionOf(e.kind).value.family == f
  }

  ghost predicate RuleEndpointsOk(es: seq<Endpoint>, names: seq<string>, f: Family) {
    forall i :: 0 <= i < |names| ==> Resolves(es, names[i], f)
  }

  ghost predicate RuleCredentialOk(xs: seq<Credential>, names: seq<string>, f: Family, credential: string) {
    f == HttpFamily && exists x :: x in xs && x.name == credential && x.endpoint in names
  }

  ghost predicate RuleOk(c: Compilers, es: seq<Endpoint>, xs: seq<Credential>, ts: seq<Tunnel>, r: Rule) {
    && (r.name.Some? ==> NameOk(RuleName, r.name.value))
    && r.endpoints != []
    && (exists f ::
          && RuleEndpointsOk(es, r.endpoints, f)
          && ConditionOk(c, f, r.condition)
          && (r.credential.Some? ==> RuleCredentialOk(xs, r.endpoints, f, r.credential.value)))
    && (r.tunnel.Some? ==> TunnelDeclared(ts, r.tunnel.value) && r.verdict == Allow)
  }

  ghost predicate RulesOk(c: Compilers, p: Policy) {
    forall i :: 0 <= i < |p.rules| ==> RuleOk(c, p.endpoints, p.credentials, p.tailscale, p.rules[i])
  }
}

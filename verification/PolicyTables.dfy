/**
 * What the validator's passes look up: the tables they fill, the checks they make against the
 * tables, and why those checks say the same as the declarative predicates.
 */
module PolicyTables {
  import opened Common
  import opened Text
  import opened PolicyModel

  datatype Info = Info(kind: string, family: Family, supportsCredentials: bool)

  function InfoOf(e: Endpoint): Info
    requires DefinitionOf(e.kind).Some?
  {
    var d := DefinitionOf(e.kind).value;
    Info(e.kind, d.family, d.supportsCredentials)
  }

  /** The endpoints of a known kind by name; the last declaration of a name wins. */
  function EndpointTable(es: seq<Endpoint>, n: nat): map<string, Info>
    requires n <= |es|
  {
    if n == 0 then map[]
    else
      var before := EndpointTable(es, n - 1);
      if DefinitionOf(es[n - 1].kind).Some? then before[es[n - 1].name := InfoOf(es[n - 1])] else before
  }

  function ExactSet(hosts: seq<string>): set<string> {
    set x | 0 <= x < |hosts| && IsExact(hosts[x]) :: hosts[x]
  }

  /** The exact hosts bound by the first `n` endpoints. */
  function ExactBefore(es: seq<Endpoint>, n: nat): set<string>
    requires n <= |es|
  {
    if n == 0 then {}
    else ExactBefore(es, n - 1) + if BindsHosts(es[n - 1]) then ExactSet(es[n - 1].hosts) else {}
  }

  ghost predicate FreshAt(hosts: seq<string>, taken: set<string>, x: nat)
    requires x < |hosts|
  {
    IsExact(hosts[x]) ==> hosts[x] !in taken && hosts[x] !in hosts[..x]
  }

  ghost predicate Fresh(hosts: seq<string>, taken: set<string>) {
    forall x :: 0 <= x < |hosts| ==> FreshAt(hosts, taken, x)
  }

  /** What the endpoint pass checks at position `k`. */
  ghost predicate EndpointFits(c: Compilers, es: seq<Endpoint>, k: nat)
    requires k < |es|
  {
    && EndpointOk(c, es[k])
    && es[k].name !in EndpointTable(es, k)
    && (BindsHosts(es[k]) ==> Fresh(es[k].hosts, ExactBefore(es, k)))
  }

  lemma {:induction false} TableKeys(es: seq<Endpoint>, n: nat, name: string)
    requires n <= |es|
    ensures name in EndpointTable(es, n) <==> exists i :: 0 <= i < n && DefinitionOf(es[i].kind).Some? && es[i].name == name
  {
    if n > 0 {
      hide DefinitionOf, InfoOf;
      TableKeys(es, n - 1, name);
    }
  }

  lemma {:induction false} ExactBeforeMembers(es: seq<Endpoint>, n: nat, host: string)
    requires n <= |es|
    ensures host in ExactBefore(es, n) <==> exists i :: 0 <= i < n && BindsHosts(es[i]) && host in ExactSet(es[i].hosts)
  {
    if n > 0 {
      hide BindsHosts, ExactSet;
      ExactBeforeMembers(es, n - 1, host);
    }
  }

  lemma FreshIff(hosts: seq<string>, taken: set<string>)
    ensures Fresh(hosts, taken) <==>
            && (forall x :: 0 <= x < |hosts| && IsExact(hosts[x]) ==> hosts[x] !in taken)
            && (forall x, y :: 0 <= x < y < |hosts| ==> HostsApart(hosts[x], hosts[y]))
  {
    hide IsExact;
    if Fresh(hosts, taken) {
      forall x, y | 0 <= x < y < |hosts| ensures HostsApart(hosts[x], hosts[y]) {
        assert FreshAt(hosts, taken, y);
        assert hosts[..y][x] == hosts[x];
      }
      assert forall x :: 0 <= x < |hosts| && IsExact(hosts[x]) ==> FreshAt(hosts, taken, x);
    }
    if && (forall x :: 0 <= x < |hosts| && IsExact(hosts[x]) ==> hosts[x] !in taken)
       && (forall x, y :: 0 <= x < y < |hosts| ==> HostsApart(hosts[x], hosts[y])) {
      forall y | 0 <= y < |hosts| ensures FreshAt(hosts, taken, y) {
      }
    }
  }

  /** Against the tables of the endpoints before it, an endpoint is new exactly when it is apart from each. */
  lemma FitsMeansApart(c: Compilers, es: seq<Endpoint>, k: nat)
    requires k < |es|
    requires forall i :: 0 <= i < k ==> DefinitionOf(es[i].kind).Some?
    ensures EndpointFits(c, es, k) <==>
            && EndpointOk(c, es[k])
            && (BindsHosts(es[k]) ==> OwnHostsApart(es[k]))
            && (forall i :: 0 <= i < k ==> EndpointsApart(es[i], es[k]))
  {
    hide DefinitionOf, EndpointOk, IsExact, EndpointTable, ExactBefore, Fresh, HostsApart;
    TableKeys(es, k, es[k].name);
    FreshIff(es[k].hosts, ExactBefore(es, k));
    HostsMeet(es, k);
    assert EndpointFits(c, es, k) <==>
           && EndpointOk(c, es[k])
           && es[k].name !in EndpointTable(es, k)
           && (BindsHosts(es[k]) ==> Fresh(es[k].hosts, ExactBefore(es, k)));
  }

  lemma HostsMeet(es: seq<Endpoint>, k: nat)
    requires k < |es|
    ensures (forall y :: 0 <= y < |es[k].hosts| && IsExact(es[k].hosts[y]) ==> es[k].hosts[y] !in ExactBefore(es, k)) <==>
            (forall i :: 0 <= i < k && BindsHosts(es[i]) ==> HostsDisjoint(es[i].hosts, es[k].hosts))
  {
    hide IsExact, BindsHosts;
    var hosts := es[k].hosts;
    if forall i :: 0 <= i < k && BindsHosts(es[i]) ==> HostsDisjoint(es[i].hosts, hosts) {
      forall y | 0 <= y < |hosts| && IsExact(hosts[y]) ensures hosts[y] !in ExactBefore(es, k) {
        ExactBeforeMembers(es, k, hosts[y]);
        forall i | 0 <= i < k && BindsHosts(es[i]) ensures hosts[y] !in ExactSet(es[i].hosts) {
          assert HostsDisjoint(es[i].hosts, hosts);
        }
      }
    } else {
      var i :| 0 <= i < k && BindsHosts(es[i]) && !HostsDisjoint(es[i].hosts, hosts);
      var x, y :| 0 <= x < |es[i].hosts| && 0 <= y < |hosts| && !HostsApart(es[i].hosts[x], hosts[y]);
      assert hosts[y] in ExactSet(es[i].hosts);
      ExactBeforeMembers(es, k, hosts[y]);
    }
  }

  /** The endpoint pass finds nothing wrong at any position exactly when the endpoints are well formed. */
  lemma AllFitMeansOk(c: Compilers, es: seq<Endpoint>)
    ensures (forall k :: 0 <= k < |es| ==> EndpointFits(c, es, k)) <==> EndpointsOk(c, es)
  {
    hide DefinitionOf, DescriptorOk, SchemaOk, NameOk, OwnHostsApart, EndpointsApart, BindsHosts, EndpointTable, ExactBefore, Fresh;
    if forall k :: 0 <= k < |es| ==> EndpointFits(c, es, k) {
      forall k | 0 <= k < |es| ensures EndpointOk(c, es[k]) {
        assert EndpointFits(c, es, k);
      }
      forall k | 0 <= k < |es|
        ensures (BindsHosts(es[k]) ==> OwnHostsApart(es[k])) && forall i :: 0 <= i < k ==> EndpointsApart(es[i], es[k])
      {
        FitsMeansApart(c, es, k);
      }
    }
    if EndpointsOk(c, es) {
      forall k | 0 <= k < |es| ensures EndpointFits(c, es, k) {
        FitsMeansApart(c, es, k);
      }
    }
  }

  // References against well-formed endpoints

  /** With distinct names, the table holds what the one endpoint of that name says. */
  lemma {:induction false} TableLookup(c: Compilers, es: seq<Endpoint>, n: nat, i: nat)
    requires EndpointsOk(c, es) && i < n <= |es|
    ensures DefinitionOf(es[i].kind).Some?
    ensures es[i].name in EndpointTable(es, n) && EndpointTable(es, n)[es[i].name] == InfoOf(es[i])
  {
    hide DefinitionOf, DescriptorOk, SchemaOk, NameOk, OwnHostsApart, BindsHosts, InfoOf;
    assert EndpointOk(c, es[i]) && EndpointOk(c, es[n - 1]);
    if i < n - 1 {
      TableLookup(c, es, n - 1, i);
      assert EndpointsApart(es[i], es[n - 1]);
    }
  }

  /** Looking a name up finds the endpoint that declares it, and only that. */
  lemma TableResolves(c: Compilers, es: seq<Endpoint>, name: string)
    requires EndpointsOk(c, es)
    ensures var t := EndpointTable(es, |es|);
            && (name in t ==> exists e :: Names(e, es, name) && DefinitionOf(e.kind).Some? && t[name] == InfoOf(e))
            && (forall e :: Names(e, es, name) ==> DefinitionOf(e.kind).Some? && name in t && t[name] == InfoOf(e))
  {
    hide DefinitionOf, EndpointsOk, InfoOf;
    var t := EndpointTable(es, |es|);
    TableKeys(es, |es|, name);
    forall e | Names(e, es, name) ensures DefinitionOf(e.kind).Some? && name in t && t[name] == InfoOf(e) {
      var i :| 0 <= i < |es| && es[i] == e;
      TableLookup(c, es, |es|, i);
    }
    if name in t {
      var i :| 0 <= i < |es| && DefinitionOf(es[i].kind).Some? && es[i].name == name;
      assert Names(es[i], es, name);
    }
  }

  function CredentialTable(xs: seq<Credential>, n: nat): map<string, string>
    requires n <= |xs|
  {
    if n == 0 then map[] else CredentialTable(xs, n - 1)[xs[n - 1].name := xs[n - 1].endpoint]
  }

  /** What the credential pass checks of one credential, apart from its name being new. */
  ghost predicate CredentialFits(c: Compilers, t: map<string, Info>, x: Credential) {
    && NameOk(CredentialName, x.name)
    && SupportedCredential(x.kind)
    && x.endpoint in t && t[x.endpoint].supportsCredentials
    && (x.condition.Some? ==> c.http(x.condition.value))
  }

  ghost predicate CredentialsFit(c: Compilers, t: map<string, Info>, xs: seq<Credential>) {
    forall k :: 0 <= k < |xs| ==> CredentialFits(c, t, xs[k]) && xs[k].name !in CredentialTable(xs, k)
  }

  lemma {:induction false} CredentialTableKeys(xs: seq<Credential>, n: nat, name: string)
    requires n <= |xs|
    ensures name in CredentialTable(xs, n) <==> exists i :: 0 <= i < n && xs[i].name == name
  {
    if n > 0 {
      CredentialTableKeys(xs, n - 1, name);
    }
  }

  lemma {:induction false} CredentialTableLookup(xs: seq<Credential>, n: nat, i: nat)
    requires i < n <= |xs|
    requires forall i, j :: 0 <= i < j < |xs| ==> xs[i].name != xs[j].name
    ensures xs[i].name in CredentialTable(xs, n) && CredentialTable(xs, n)[xs[i].name] == xs[i].endpoint
  {
    if i < n - 1 {
      CredentialTableLookup(xs, n - 1, i);
    }
  }

  lemma CredentialFitsMeansOk(c: Compilers, es: seq<Endpoint>, x: Credential)
    requires EndpointsOk(c, es)
    ensures CredentialFits(c, EndpointTable(es, |es|), x) <==> CredentialOk(c, es, x)
  {
    hide EndpointsOk, EndpointTable, NameOk, SupportedCredential, Names, DefinitionOf;
    TableResolves(c, es, x.endpoint);
  }

  lemma CredentialsFitMeansOk(c: Compilers, es: seq<Endpoint>, xs: seq<Credential>)
    requires EndpointsOk(c, es)
    ensures CredentialsFit(c, EndpointTable(es, |es|), xs) <==> CredentialsOk(c, es, xs)
  {
    hide EndpointsOk, EndpointTable, CredentialFits, CredentialOk, CredentialTable;
    var t := EndpointTable(es, |es|);
    forall k | 0 <= k < |xs|
      ensures CredentialFits(c, t, xs[k]) <==> CredentialOk(c, es, xs[k])
      ensures xs[k].name !in CredentialTable(xs, k) <==> forall i :: 0 <= i < k ==> xs[i].name != xs[k].name
    {
      CredentialFitsMeansOk(c, es, xs[k]);
      CredentialTableKeys(xs, k, xs[k].name);
    }
  }

  /** What the rule pass checks of one rule. */
  ghost predicate RuleFits(c: Compilers, t: map<string, Info>, cs: map<string, string>, ts: set<string>, r: Rule) {
    && (r.name.Some? ==> NameOk(RuleName, r.name.value))
    && r.endpoints != []
    && (forall i :: 0 <= i < |r.endpoints| ==> r.endpoints[i] in t)
    && var f := t[r.endpoints[0]].family;
    && (forall i :: 0 <= i < |r.endpoints| ==> t[r.endpoints[i]].family == f)
    && ConditionOk(c, f, r.condition)
    && (r.credential.Some? ==> f == HttpFamily && r.credential.value in cs && cs[r.credential.value] in r.endpoints)
    && (r.tunnel.Some? ==> r.tunnel.value in ts && r.verdict == Allow)
  }

  predicate HasFamily(t: map<string, Info>, name: string, f: Family) {
    name in t && t[name].family == f
  }

  lemma ResolvesMatches(c: Compilers, es: seq<Endpoint>, name: string, f: Family)
    requires EndpointsOk(c, es)
    ensures Resolves(es, name, f) <==> HasFamily(EndpointTable(es, |es|), name, f)
  {
    hide EndpointsOk, EndpointTable, Names, DefinitionOf;
    TableResolves(c, es, name);
  }

  lemma RuleEndpointsMatch(c: Compilers, es: seq<Endpoint>, names: seq<string>, f: Family)
    requires EndpointsOk(c, es)
    ensures RuleEndpointsOk(es, names, f) <==>
            forall i :: 0 <= i < |names| ==> HasFamily(EndpointTable(es, |es|), names[i], f)
  {
    hide EndpointsOk, EndpointTable, Resolves, HasFamily;
    var t := EndpointTable(es, |es|);
    forall i | 0 <= i < |names| ensures Resolves(es, names[i], f) <==> HasFamily(t, names[i], f) {
      ResolvesMatches(c, es, names[i], f);
    }
  }

  lemma RuleCredentialMatches(xs: seq<Credential>, names: seq<string>, f: Family, name: string)
    requires forall i, j :: 0 <= i < j < |xs| ==> xs[i].name != xs[j].name
    ensures var cs := CredentialTable(xs, |xs|);
            RuleCredentialOk(xs, names, f, name) <==> f == HttpFamily && name in cs && cs[name] in names
  {
    hide CredentialTable;
    var cs := CredentialTable(xs, |xs|);
    CredentialTableKeys(xs, |xs|, name);
    forall i | 0 <= i < |xs| ensures xs[i].name in cs && cs[xs[i].name] == xs[i].endpoint {
      CredentialTableLookup(xs, |xs|, i);
    }
    if name in cs {
      var i :| 0 <= i < |xs| && xs[i].name == name;
      assert xs[i] in xs;
    }
  }

  lemma RuleFitsMeansOk(c: Compilers, es: seq<Endpoint>, xs: seq<Credential>, ts: seq<Tunnel>, names: set<string>, r: Rule)
    requires EndpointsOk(c, es) && CredentialsOk(c, es, xs)
    requires forall n :: n in names <==> TunnelDeclared(ts, n)
    ensures RuleFits(c, EndpointTable(es, |es|), CredentialTable(xs, |xs|), names, r) <==> RuleOk(c, es, xs, ts, r)
  {
    hide EndpointsOk, EndpointTable, CredentialTable, NameOk, RuleEndpointsOk, RuleCredentialOk, CredentialOk, TunnelDeclared, ConditionOk;
    var t := EndpointTable(es, |es|);
    if RuleFits(c, t, CredentialTable(xs, |xs|), names, r) {
      var f := t[r.endpoints[0]].family;
      RuleEndpointsMatch(c, es, r.endpoints, f);
      if r.credential.Some? {
        RuleCredentialMatches(xs, r.endpoints, f, r.credential.value);
      }
    }
    if RuleOk(c, es, xs, ts, r) {
      var f :| && RuleEndpointsOk(es, r.endpoints, f) && ConditionOk(c, f, r.condition)
               && (r.credential.Some? ==> RuleCredentialOk(xs, r.endpoints, f, r.credential.value));
      RuleEndpointsMatch(c, es, r.endpoints, f);
      assert HasFamily(t, r.endpoints[0], f);
      if r.credential.Some? {
        RuleCredentialMatches(xs, r.endpoints, f, r.credential.value);
      }
    }
  }
}

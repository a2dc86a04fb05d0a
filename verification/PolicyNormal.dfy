/** Normalising a whole policy: the hosts of its host endpoints and the listeners of its forwards. */
module PolicyNormal {
  import opened Common
  import opened PolicyModel
  import opened PolicyForwards
  import opened PolicyHosts

  predicate ListsHosts(e: Endpoint) {
    DefinitionOf(e.kind).Some? && DefinitionOf(e.kind).value.schema == HostsSchema
  }

  function NormalizeHosts(hosts: seq<string>): (r: seq<string>)
    ensures |r| == |hosts|
  {
    seq(|hosts|, i requires 0 <= i < |hosts| => NormalizeHost(hosts[i]))
  }

  function NormalizeEndpoint(e: Endpoint): Endpoint {
    if ListsHosts(e) then e.(hosts := NormalizeHosts(e.hosts)) else e
  }

  function NormalizeEndpoints(es: seq<Endpoint>): (r: seq<Endpoint>)
    ensures |r| == |es|
  {
    seq(|es|, i requires 0 <= i < |es| => NormalizeEndpoint(es[i]))
  }

  function NormalizePolicy(p: Policy): Policy {
    p.(endpoints := NormalizeEndpoints(p.endpoints), forwards := NormalizeAll(p.forwards))
  }

  /** No host of the endpoint has whitespace directly before its trailing dots. */
  ghost predicate Settles(e: Endpoint) {
    ListsHosts(e) ==> forall i :: 0 <= i < |e.hosts| ==> !SpaceBeforeDots(e.hosts[i])
  }

  lemma HostsIdempotentIff(hosts: seq<string>)
    ensures NormalizeHosts(NormalizeHosts(hosts)) == NormalizeHosts(hosts) <==>
            forall i :: 0 <= i < |hosts| ==> !SpaceBeforeDots(hosts[i])
  {
    hide NormalizeHost, SpaceBeforeDots;
    var once, twice := NormalizeHosts(hosts), NormalizeHosts(NormalizeHosts(hosts));
    forall i | 0 <= i < |hosts| ensures twice[i] == once[i] <==> !SpaceBeforeDots(hosts[i]) {
      HostIdempotentIff(hosts[i]);
    }
    assert twice == once <==> forall i :: 0 <= i < |hosts| ==> twice[i] == once[i];
  }

  lemma EndpointIdempotentIff(e: Endpoint)
    ensures NormalizeEndpoint(NormalizeEndpoint(e)) == NormalizeEndpoint(e) <==> Settles(e)
  {
    hide DefinitionOf, NormalizeHosts, SpaceBeforeDots;
    HostsIdempotentIff(e.hosts);
  }

  /** Normalising a policy twice equals once exactly when it does for every host it normalises. */
  lemma PolicyIdempotentIff(p: Policy)
    ensures NormalizePolicy(NormalizePolicy(p)) == NormalizePolicy(p) <==>
            forall i :: 0 <= i < |p.endpoints| ==> Settles(p.endpoints[i])
  {
    hide NormalizeEndpoint, Settles, Normalize;
    var once, twice := NormalizePolicy(p), NormalizePolicy(NormalizePolicy(p));
    forall i | 0 <= i < |p.endpoints| ensures twice.endpoints[i] == once.endpoints[i] <==> Settles(p.endpoints[i]) {
      EndpointIdempotentIff(p.endpoints[i]);
    }
    assert twice.endpoints == once.endpoints <==>
           forall i :: 0 <= i < |p.endpoints| ==> twice.endpoints[i] == once.endpoints[i];
    forall i | 0 <= i < |p.forwards| ensures twice.forwards[i] == once.forwards[i] {
      NormalizeIdempotent(p.forwards[i]);
    }
    assert twice.forwards == once.forwards;
  }

  /** `NetworkPolicy::normalize`, in place; settings and rules have nothing to normalise. */
  method NormalizePolicyInPlace(endpoints: array<Endpoint>, forwards: array<Forward>)
    modifies endpoints, forwards
    ensures endpoints[..] == NormalizeEndpoints(old(endpoints[..]))
    ensures forwards[..] == NormalizeAll(old(forwards[..]))
  {
    hide NormalizeEndpoint, Normalize;
    for i := 0 to endpoints.Length
      modifies endpoints
      invariant forall j :: 0 <= j < i ==> endpoints[j] == NormalizeEndpoint(old(endpoints[j]))
      invariant forall j :: i <= j < endpoints.Length ==> endpoints[j] == old(endpoints[j])
    {
      endpoints[i] := NormalizeEndpoint(endpoints[i]);
    }
    NormalizeInPlace(forwards);
  }
}

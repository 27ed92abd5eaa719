/**
 * Normalisation of one EndpointSlice into internal endpoints: the health
 * state of a member, the pod a member address resolves to, and the
 * member x address x port expansion the controller stores in the cache.
 */
module Normalize {
  import opened Types

  /** A condition flag that is unset (nil) or true. */
  predicate NilOrTrue(b: Option<bool>)
  {
    b.None? || b.value
  }

  // ---------------------------------------------------------------------
  // Health
  // ---------------------------------------------------------------------

  /**
   * The tri-state health of a member. A not-ready member is Draining only
   * when persistent sessions are configured, the service carries that label
   * with a value, and the member is still serving and terminating (both
   * flags nil or true); otherwise it is UnHealthy.
   */
  function EndpointHealthStatus(persistentSessionLabel: string, svc: Option<ModelService>, c: Conditions): (r: HealthStatus)
    ensures c.ready != Some(false) ==> r == Healthy
    ensures c.ready == Some(false) && persistentSessionLabel == "" ==> r == UnHealthy
    ensures c.ready == Some(false) && svc.None? ==> r == UnHealthy
    ensures c.ready == Some(false) && svc.Some? && LabelValue(svc.value.labels, persistentSessionLabel) == "" ==> r == UnHealthy
    ensures c.ready == Some(false) && (c.serving == Some(false) || c.terminating == Some(false)) ==> r == UnHealthy
    ensures (c.ready == Some(false) && persistentSessionLabel != "" && svc.Some?
             && LabelValue(svc.value.labels, persistentSessionLabel) != ""
             && c.serving != Some(false) && c.terminating != Some(false)) ==> r == Draining
  {
    if NilOrTrue(c.ready) then
      Healthy
    else if persistentSessionLabel != ""
         && svc.Some?
         && LabelValue(svc.value.labels, persistentSessionLabel) != ""
         && NilOrTrue(c.serving)
         && NilOrTrue(c.terminating) then
      Draining
    else
      UnHealthy
  }

  // ---------------------------------------------------------------------
  // Pod resolution
  // ---------------------------------------------------------------------

  /** A member's reference names a pod, so a pod is expected to exist. */
  predicate ExpectPod(targetRef: Option<ObjectReference>)
  {
    targetRef.Some? && targetRef.value.kind == PodKind
  }

  /** The first pod of the list that lives in the namespace, if any. */
  function FirstPodInNamespace(pods: seq<Pod>, namespace: string): Option<Pod>
  {
    if pods == [] then
      None
    else if pods[0].namespace == namespace then
      Some(pods[0])
    else
      FirstPodInNamespace(pods[1..], namespace)
  }

  /** The match is the earliest pod in the namespace, and there is none only when no pod is in it. */
  lemma {:induction false} FirstPodInNamespaceSpec(pods: seq<Pod>, namespace: string)
    ensures FirstPodInNamespace(pods, namespace).None? <==> forall p :: p in pods ==> p.namespace != namespace
    ensures FirstPodInNamespace(pods, namespace).Some? ==>
              exists k :: 0 <= k < |pods| && pods[k] == FirstPodInNamespace(pods, namespace).value
                          && pods[k].namespace == namespace
                          && forall j :: 0 <= j < k ==> pods[j].namespace != namespace
  {
    if pods != [] && pods[0].namespace != namespace {
      var r := FirstPodInNamespace(pods[1..], namespace);
      FirstPodInNamespaceSpec(pods[1..], namespace);
      assert forall p :: p in pods ==> p == pods[0] || p in pods[1..];
      if r.Some? {
        var k :| 0 <= k < |pods[1..]| && pods[1..][k] == r.value && r.value.namespace == namespace
                 && forall j :: 0 <= j < k ==> pods[1..][j].namespace != namespace;
        assert pods[k + 1] == r.value;
        assert forall j :: 1 <= j < k + 1 ==> pods[j] == pods[1..][j - 1];
      }
    }
  }

  /**
   * Controller.getPod: a pod reference is looked up by the reference's own
   * (namespace, name); any other member is matched by address, keeping the
   * first pod at that address in the slice's namespace.
   */
  function LookupPod(pods: PodCache, ip: string, namespace: string, targetRef: Option<ObjectReference>): Option<Pod>
  {
    if ExpectPod(targetRef) then
      pods.getPodByKey(NamespacedName(targetRef.value.namespace, targetRef.value.name))
    else
      FirstPodInNamespace(pods.getPodsByIP(ip), namespace)
  }

  /** A pod reference is resolved by key; an address resolves to a pod at that address in the namespace, or to none when there is none. */
  lemma LookupPodSpec(pods: PodCache, ip: string, namespace: string, targetRef: Option<ObjectReference>)
    ensures var r := LookupPod(pods, ip, namespace, targetRef);
            && (ExpectPod(targetRef) ==> r == pods.getPodByKey(NamespacedName(targetRef.value.namespace, targetRef.value.name)))
            && (!ExpectPod(targetRef) && r.Some? ==> r.value in pods.getPodsByIP(ip) && r.value.namespace == namespace)
            && (!ExpectPod(targetRef) && r.None? ==> forall p :: p in pods.getPodsByIP(ip) ==> p.namespace != namespace)
  {
    FirstPodInNamespaceSpec(pods.getPodsByIP(ip), namespace);
  }

  /** The member address is dropped: a pod is expected and the pod cache does not have it yet. */
  predicate SkipsAddress(env: Env, slice: EndpointSlice, e: SliceEndpoint, a: string)
  {
    ExpectPod(e.targetRef) && LookupPod(env.pods, a, slice.namespace, e.targetRef).None?
  }

  // ---------------------------------------------------------------------
  // Expansion
  // ---------------------------------------------------------------------

  /** A nil port number defaults to 0. */
  function PortNumber(p: SlicePort): int
  {
    if p.port.Some? then p.port.value else 0
  }

  /** A nil port name defaults to "". */
  function PortName(p: SlicePort): string
  {
    if p.name.Some? then p.name.value else ""
  }

  /** The endpoint builder; the pod stands for every attribute it derives from the pod. */
  function BuildIstioEndpoint(pod: Option<Pod>, address: string, portNum: int, portName: string,
                              policy: DiscoverabilityPolicy, health: HealthStatus): IstioEndpoint
  {
    IstioEndpoint(address, portName, portNum, health, pod, policy)
  }

  function MemberHealth(env: Env, host: Host, e: SliceEndpoint): HealthStatus
  {
    EndpointHealthStatus(env.features.persistentSessionLabel, env.getService(host), e.conditions)
  }

  function HostPolicy(env: Env, host: Host): DiscoverabilityPolicy
  {
    env.discoverabilityPolicy(env.getService(host))
  }

  /** One endpoint per slice port for one address, in port order. */
  function PortEndpoints(pod: Option<Pod>, a: string, ports: seq<SlicePort>,
                         policy: DiscoverabilityPolicy, health: HealthStatus): (r: seq<IstioEndpoint>)
    ensures |r| == |ports|
  {
    if ports == [] then
      []
    else
      var p := ports[|ports| - 1];
      PortEndpoints(pod, a, ports[..|ports| - 1], policy, health)
        + [BuildIstioEndpoint(pod, a, PortNumber(p), PortName(p), policy, health)]
  }

  /** The k-th endpoint of an address is built from the k-th slice port, a nil number read as 0 and a nil name as "". */
  lemma {:induction false} PortEndpointsSpec(pod: Option<Pod>, a: string, ports: seq<SlicePort>,
                                             policy: DiscoverabilityPolicy, health: HealthStatus)
    ensures forall k :: 0 <= k < |ports| ==>
              PortEndpoints(pod, a, ports, policy, health)[k] == BuildIstioEndpoint(pod, a, PortNumber(ports[k]), PortName(ports[k]), policy, health)
  {
    if ports != [] {
      PortEndpointsSpec(pod, a, ports[..|ports| - 1], policy, health);
    }
  }

  /** The addresses of a member that are not skipped, in order. */
  function KeptAddresses(env: Env, slice: EndpointSlice, e: SliceEndpoint, addrs: seq<string>): (r: seq<string>)
    ensures forall a :: a in r <==> a in addrs && !SkipsAddress(env, slice, e, a)
    ensures |r| <= |addrs|
  {
    if addrs == [] then
      []
    else
      var a := addrs[|addrs| - 1];
      var init := KeptAddresses(env, slice, e, addrs[..|addrs| - 1]);
      assert forall x :: x in addrs <==> x in addrs[..|addrs| - 1] || x == a;
      if SkipsAddress(env, slice, e, a) then init else init + [a]
  }

  /** The endpoints of one member, address by address, each address expanded over the slice ports. */
  function AddressEndpoints(env: Env, host: Host, slice: EndpointSlice, e: SliceEndpoint, addrs: seq<string>): seq<IstioEndpoint>
  {
    if addrs == [] then
      []
    else
      var a := addrs[|addrs| - 1];
      var init := AddressEndpoints(env, host, slice, e, addrs[..|addrs| - 1]);
      if SkipsAddress(env, slice, e, a) then
        init
      else
        init + PortEndpoints(LookupPod(env.pods, a, slice.namespace, e.targetRef), a, slice.ports,
                             HostPolicy(env, host), MemberHealth(env, host, e))
  }

  /** The endpoints of a run of members, member by member. */
  function MemberEndpoints(env: Env, host: Host, slice: EndpointSlice, members: seq<SliceEndpoint>): seq<IstioEndpoint>
  {
    if members == [] then
      []
    else
      var e := members[|members| - 1];
      MemberEndpoints(env, host, slice, members[..|members| - 1]) + AddressEndpoints(env, host, slice, e, e.addresses)
  }

  /** The list updateEndpointCacheForSlice stores for (host, slice) when the slice is not FQDN. */
  function ExpandSlice(env: Env, host: Host, slice: EndpointSlice): seq<IstioEndpoint>
  {
    MemberEndpoints(env, host, slice, slice.endpoints)
  }

  /** The resync registrations made while expanding the given addresses of a member. */
  function AddressResyncs(env: Env, slice: EndpointSlice, e: SliceEndpoint, addrs: seq<string>): seq<SliceAddress>
  {
    if addrs == [] then
      []
    else
      var a := addrs[|addrs| - 1];
      var init := AddressResyncs(env, slice, e, addrs[..|addrs| - 1]);
      if SkipsAddress(env, slice, e, a) then init + [SliceAddress(NamespacedName(slice.namespace, slice.name), a)] else init
  }

  function MemberResyncs(env: Env, slice: EndpointSlice, members: seq<SliceEndpoint>): seq<SliceAddress>
  {
    if members == [] then
      []
    else
      var e := members[|members| - 1];
      MemberResyncs(env, slice, members[..|members| - 1]) + AddressResyncs(env, slice, e, e.addresses)
  }

  /** The resync registrations processing a slice makes (none for an FQDN slice, which is not expanded). */
  function SliceResyncs(env: Env, slice: EndpointSlice): seq<SliceAddress>
  {
    if slice.addressType == FQDN then [] else MemberResyncs(env, slice, slice.endpoints)
  }

  /** One more address of a member: the expansion and the resyncs grow by that address's share. */
  lemma AddressStep(env: Env, host: Host, slice: EndpointSlice, e: SliceEndpoint, addrs: seq<string>, j: nat)
    requires j < |addrs|
    ensures AddressEndpoints(env, host, slice, e, addrs[..j + 1])
            == AddressEndpoints(env, host, slice, e, addrs[..j])
               + (if SkipsAddress(env, slice, e, addrs[j]) then []
                  else PortEndpoints(LookupPod(env.pods, addrs[j], slice.namespace, e.targetRef), addrs[j], slice.ports,
                                     HostPolicy(env, host), MemberHealth(env, host, e)))
    ensures AddressResyncs(env, slice, e, addrs[..j + 1])
            == AddressResyncs(env, slice, e, addrs[..j])
               + (if SkipsAddress(env, slice, e, addrs[j]) then [SliceAddress(NamespacedName(slice.namespace, slice.name), addrs[j])] else [])
  {
    assert addrs[..j + 1][..j] == addrs[..j];
  }

  /** One more member: the expansion and the resyncs grow by that member's share. */
  lemma MemberStep(env: Env, host: Host, slice: EndpointSlice, members: seq<SliceEndpoint>, i: nat)
    requires i < |members|
    ensures MemberEndpoints(env, host, slice, members[..i + 1])
            == MemberEndpoints(env, host, slice, members[..i]) + AddressEndpoints(env, host, slice, members[i], members[i].addresses)
    ensures MemberResyncs(env, slice, members[..i + 1])
            == MemberResyncs(env, slice, members[..i]) + AddressResyncs(env, slice, members[i], members[i].addresses)
  {
    assert members[..i + 1][..i] == members[..i];
  }

  // ---------------------------------------------------------------------
  // Properties of the expansion
  // ---------------------------------------------------------------------

  /** ep combines one kept address among addrs, of member e, with one slice port. */
  ghost predicate ProducedFrom(env: Env, host: Host, slice: EndpointSlice, e: SliceEndpoint, addrs: seq<string>, ep: IstioEndpoint)
  {
    exists a, k :: a in addrs && !SkipsAddress(env, slice, e, a) && 0 <= k < |slice.ports|
      && ep == BuildIstioEndpoint(LookupPod(env.pods, a, slice.namespace, e.targetRef), a,
                                  PortNumber(slice.ports[k]), PortName(slice.ports[k]),
                                  HostPolicy(env, host), MemberHealth(env, host, e))
  }

  /** ep is one of the endpoints member e yields. */
  ghost predicate Produces(env: Env, host: Host, slice: EndpointSlice, e: SliceEndpoint, ep: IstioEndpoint)
  {
    ProducedFrom(env, host, slice, e, e.addresses, ep)
  }

  /** An endpoint of one address is the build of one slice port. */
  lemma PortEndpointsMember(pod: Option<Pod>, a: string, ports: seq<SlicePort>,
                            policy: DiscoverabilityPolicy, health: HealthStatus, ep: IstioEndpoint)
    ensures ep in PortEndpoints(pod, a, ports, policy, health) <==>
            exists k :: 0 <= k < |ports| && ep == BuildIstioEndpoint(pod, a, PortNumber(ports[k]), PortName(ports[k]), policy, health)
  {
    PortEndpointsSpec(pod, a, ports, policy, health);
  }

  lemma MulSuccessor(n: nat, p: nat)
    ensures (n + 1) * p == n * p + p
  {
  }

  /** A member yields one endpoint per (kept address, port). */
  lemma {:induction false} AddressEndpointsCount(env: Env, host: Host, slice: EndpointSlice, e: SliceEndpoint, addrs: seq<string>)
    ensures |AddressEndpoints(env, host, slice, e, addrs)| == |KeptAddresses(env, slice, e, addrs)| * |slice.ports|
  {
    if addrs != [] {
      var init := addrs[..|addrs| - 1];
      var a := addrs[|addrs| - 1];
      AddressEndpointsCount(env, host, slice, e, init);
      var n := |KeptAddresses(env, slice, e, init)|;
      var p := |slice.ports|;
      if !SkipsAddress(env, slice, e, a) {
        assert |KeptAddresses(env, slice, e, addrs)| == n + 1;
        assert |AddressEndpoints(env, host, slice, e, addrs)| == n * p + p;
        MulSuccessor(n, p);
      }
    }
  }

  /** The endpoints of a member's addresses are exactly the (kept address, port) builds. */
  lemma {:induction false} AddressEndpointsSpec(env: Env, host: Host, slice: EndpointSlice, e: SliceEndpoint, addrs: seq<string>)
    ensures forall ep :: ep in AddressEndpoints(env, host, slice, e, addrs) <==> ProducedFrom(env, host, slice, e, addrs, ep)
  {
    if addrs != [] {
      var init := addrs[..|addrs| - 1];
      var a := addrs[|addrs| - 1];
      AddressEndpointsSpec(env, host, slice, e, init);
      var pod := LookupPod(env.pods, a, slice.namespace, e.targetRef);
      var policy := HostPolicy(env, host);
      var health := MemberHealth(env, host, e);
      var before := AddressEndpoints(env, host, slice, e, init);
      forall ep
        ensures ep in AddressEndpoints(env, host, slice, e, addrs) <==> ProducedFrom(env, host, slice, e, addrs, ep)
      {
        PortEndpointsMember(pod, a, slice.ports, policy, health, ep);
        if ProducedFrom(env, host, slice, e, addrs, ep) {
          var x, k :| x in addrs && !SkipsAddress(env, slice, e, x) && 0 <= k < |slice.ports|
            && ep == BuildIstioEndpoint(LookupPod(env.pods, x, slice.namespace, e.targetRef), x,
                                        PortNumber(slice.ports[k]), PortName(slice.ports[k]), policy, health);
          if x != a {
            assert x in init;
            assert ProducedFrom(env, host, slice, e, init, ep);
          }
        }
        if ep in before {
          var x, k :| x in init && !SkipsAddress(env, slice, e, x) && 0 <= k < |slice.ports|
            && ep == BuildIstioEndpoint(LookupPod(env.pods, x, slice.namespace, e.targetRef), x,
                                        PortNumber(slice.ports[k]), PortName(slice.ports[k]), policy, health);
          assert x in addrs;
        }
      }
    }
  }

  /** The expansion of a slice holds exactly the endpoints its members yield. */
  lemma {:induction false} MemberEndpointsSpec(env: Env, host: Host, slice: EndpointSlice, members: seq<SliceEndpoint>)
    ensures forall ep :: ep in MemberEndpoints(env, host, slice, members) <==>
              exists e :: e in members && Produces(env, host, slice, e, ep)
  {
    if members != [] {
      var init := members[..|members| - 1];
      var e := members[|members| - 1];
      MemberEndpointsSpec(env, host, slice, init);
      AddressEndpointsSpec(env, host, slice, e, e.addresses);
      var before := MemberEndpoints(env, host, slice, init);
      var mine := AddressEndpoints(env, host, slice, e, e.addresses);
      assert MemberEndpoints(env, host, slice, members) == before + mine;
      forall ep
        ensures ep in before + mine <==> exists x :: x in members && Produces(env, host, slice, x, ep)
      {
        if ep in mine {
          assert Produces(env, host, slice, e, ep);
        }
        if ep in before {
          var x :| x in init && Produces(env, host, slice, x, ep);
          assert x in members;
        }
        if x :| x in members && Produces(env, host, slice, x, ep) {
          if x == e {
            assert ep in mine;
          } else {
            assert x in init;
            assert ep in before;
          }
        }
      }
    }
  }

  /** Every endpoint of a member carries that member's health and one of its non-skipped addresses. */
  lemma ExpandSliceCarriesMemberHealth(env: Env, host: Host, slice: EndpointSlice, ep: IstioEndpoint)
    requires ep in ExpandSlice(env, host, slice)
    ensures exists e :: e in slice.endpoints && ep.healthStatus == MemberHealth(env, host, e)
                        && ep.address in e.addresses && !SkipsAddress(env, slice, e, ep.address)
  {
    MemberEndpointsSpec(env, host, slice, slice.endpoints);
    var e :| e in slice.endpoints && Produces(env, host, slice, e, ep);
  }

  /**
   * A member that references a pod the pod cache does not hold yields no
   * endpoints and one resync registration per address; once the pod is
   * known, the same member yields one endpoint per (address, port) and
   * registers nothing.
   */
  lemma {:induction false} PodArrivalOrdering(env: Env, host: Host, slice: EndpointSlice, e: SliceEndpoint, addrs: seq<string>)
    requires ExpectPod(e.targetRef)
    ensures env.pods.getPodByKey(NamespacedName(e.targetRef.value.namespace, e.targetRef.value.name)).None? ==>
              AddressEndpoints(env, host, slice, e, addrs) == []
              && AddressResyncs(env, slice, e, addrs) == seq(|addrs|, i requires 0 <= i < |addrs| => SliceAddress(NamespacedName(slice.namespace, slice.name), addrs[i]))
    ensures env.pods.getPodByKey(NamespacedName(e.targetRef.value.namespace, e.targetRef.value.name)).Some? ==>
              |AddressEndpoints(env, host, slice, e, addrs)| == |addrs| * |slice.ports|
              && AddressResyncs(env, slice, e, addrs) == []
  {
    if addrs != [] {
      var init := addrs[..|addrs| - 1];
      PodArrivalOrdering(env, host, slice, e, init);
      var n := |init|;
      var p := |slice.ports|;
      MulSuccessor(n, p);
    }
  }
}

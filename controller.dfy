/**
 * The endpoint-slice controller: reacts to slice events by updating the
 * cache for every hostname of the owning service, pushes each hostname's
 * endpoints to the push sink, and for headless services asks for a
 * (full or incremental) reconfiguration.
 */
module Controller {
  import opened Types
  import opened SliceCache
  import opened Normalize

  // ---------------------------------------------------------------------
  // The effect of one event on the cache
  // ---------------------------------------------------------------------

  /** updateEndpointCacheForSlice: an FQDN slice leaves the cache alone, any other overwrites [host][slice]. */
  function UpdateForSlice(env: Env, m: CacheMap, host: Host, slice: EndpointSlice): CacheMap
  {
    if slice.addressType == FQDN then m else Updated(m, host, slice.name, ExpandSlice(env, host, slice))
  }

  /** updateEndpointSlice: the slice processed for each hostname in turn. */
  function UpdateSliceForHosts(env: Env, m: CacheMap, hosts: seq<Host>, slice: EndpointSlice): CacheMap
  {
    if hosts == [] then
      m
    else
      UpdateForSlice(env, UpdateSliceForHosts(env, m, hosts[..|hosts| - 1], slice), hosts[|hosts| - 1], slice)
  }

  /** The cache part of deleteEndpointSlice: delete the slice under each hostname the cache has. */
  function DeleteSliceForHosts(m: CacheMap, hosts: seq<Host>, s: SliceName): CacheMap
  {
    if hosts == [] then
      m
    else
      var r := DeleteSliceForHosts(m, hosts[..|hosts| - 1], s);
      var h := hosts[|hosts| - 1];
      if h in r then Deleted(r, h, s) else r
  }

  /** The resync registrations of updateEndpointSlice: those of the slice, once per hostname. */
  function HostsResyncs(env: Env, hosts: seq<Host>, slice: EndpointSlice): seq<SliceAddress>
  {
    if hosts == [] then [] else HostsResyncs(env, hosts[..|hosts| - 1], slice) + SliceResyncs(env, slice)
  }

  /** The endpointDeleted notifications for the given addresses of one member. */
  function AddressNotices(key: NamespacedName, addrs: seq<string>): seq<SliceAddress>
  {
    if addrs == [] then [] else AddressNotices(key, addrs[..|addrs| - 1]) + [SliceAddress(key, addrs[|addrs| - 1])]
  }

  /** The endpointDeleted notifications for a run of members, member by member. */
  function MemberNotices(key: NamespacedName, members: seq<SliceEndpoint>): seq<SliceAddress>
  {
    if members == [] then
      []
    else
      MemberNotices(key, members[..|members| - 1]) + AddressNotices(key, members[|members| - 1].addresses)
  }

  /** The number of (member, address) pairs of a run of members. */
  function AddressCount(members: seq<SliceEndpoint>): nat
  {
    if members == [] then 0 else AddressCount(members[..|members| - 1]) + |members[|members| - 1].addresses|
  }

  /** The slice's own (namespace, name). */
  function SliceKey(slice: EndpointSlice): NamespacedName
  {
    NamespacedName(slice.namespace, slice.name)
  }

  // ---------------------------------------------------------------------
  // Properties of the event effects
  // ---------------------------------------------------------------------

  /**
   * After updating a (non-FQDN) slice for a list of hostnames, each listed
   * hostname holds the slice's expansion for that hostname next to its
   * other slices, and every other hostname is untouched.
   */
  lemma {:induction false} UpdateSliceForHostsSpec(env: Env, m: CacheMap, hosts: seq<Host>, slice: EndpointSlice)
    requires slice.addressType != FQDN
    ensures forall h :: h in hosts ==>
              h in UpdateSliceForHosts(env, m, hosts, slice)
              && UpdateSliceForHosts(env, m, hosts, slice)[h]
                 == (if h in m then m[h] else map[])[slice.name := ExpandSlice(env, h, slice)]
    ensures forall h :: h !in hosts ==>
              (h in UpdateSliceForHosts(env, m, hosts, slice) <==> h in m)
              && (h in m ==> UpdateSliceForHosts(env, m, hosts, slice)[h] == m[h])
  {
    if hosts != [] {
      var init := hosts[..|hosts| - 1];
      var h0 := hosts[|hosts| - 1];
      UpdateSliceForHostsSpec(env, m, init, slice);
      var r0 := UpdateSliceForHosts(env, m, init, slice);
      var r := UpdateSliceForHosts(env, m, hosts, slice);
      assert r == Updated(r0, h0, slice.name, ExpandSlice(env, h0, slice));
      assert forall h :: h in hosts <==> h in init || h == h0;
      var base := if h0 in m then m[h0] else map[];
      var e0 := ExpandSlice(env, h0, slice);
      if h0 in init {
        assert r[h0] == base[slice.name := e0][slice.name := e0];
        assert base[slice.name := e0][slice.name := e0] == base[slice.name := e0];
      }
    }
  }

  /** An FQDN slice never changes the cache, whatever hostnames it is processed for. */
  lemma {:induction false} UpdateSliceForHostsFqdn(env: Env, m: CacheMap, hosts: seq<Host>, slice: EndpointSlice)
    requires slice.addressType == FQDN
    ensures UpdateSliceForHosts(env, m, hosts, slice) == m
  {
    if hosts != [] {
      UpdateSliceForHostsFqdn(env, m, hosts[..|hosts| - 1], slice);
    }
  }

  /**
   * After deleting a slice for a list of hostnames, each listed hostname has
   * lost that slice and is gone exactly when nothing else was left under it
   * (a hostname the cache did not have stays absent); every other hostname
   * is untouched.
   */
  lemma {:induction false} DeleteSliceForHostsSpec(m: CacheMap, hosts: seq<Host>, s: SliceName)
    ensures forall h :: h in hosts ==>
              (h in DeleteSliceForHosts(m, hosts, s) <==> h in m && m[h].Keys - {s} != {})
              && (h in DeleteSliceForHosts(m, hosts, s) ==> DeleteSliceForHosts(m, hosts, s)[h] == m[h] - {s})
    ensures forall h :: h !in hosts ==>
              (h in DeleteSliceForHosts(m, hosts, s) <==> h in m)
              && (h in m ==> DeleteSliceForHosts(m, hosts, s)[h] == m[h])
    ensures NoEmptyHosts(m) ==> NoEmptyHosts(DeleteSliceForHosts(m, hosts, s))
  {
    if hosts != [] {
      var init := hosts[..|hosts| - 1];
      var h0 := hosts[|hosts| - 1];
      DeleteSliceForHostsSpec(m, init, s);
      var r0 := DeleteSliceForHosts(m, init, s);
      assert forall h :: h in hosts <==> h in init || h == h0;
      if h0 in init && h0 in r0 {
        assert r0[h0] - {s} == m[h0] - {s};
      }
    }
  }

  /**
   * Replaying a slice: deleting it and then adding it again with the same
   * content restores the cache exactly, provided the cache held the slice's
   * expansion under each of its hostnames.
   */
  lemma DeleteThenAddRestores(env: Env, m: CacheMap, hosts: seq<Host>, slice: EndpointSlice)
    requires slice.addressType != FQDN
    requires forall h :: h in hosts ==> h in m && slice.name in m[h] && m[h][slice.name] == ExpandSlice(env, h, slice)
    ensures UpdateSliceForHosts(env, DeleteSliceForHosts(m, hosts, slice.name), hosts, slice) == m
  {
    var d := DeleteSliceForHosts(m, hosts, slice.name);
    var r := UpdateSliceForHosts(env, d, hosts, slice);
    DeleteSliceForHostsSpec(m, hosts, slice.name);
    UpdateSliceForHostsSpec(env, d, hosts, slice);
    forall h | h in m
      ensures h in r && r[h] == m[h]
    {
      if h in hosts {
        var base := if h in d then d[h] else map[];
        assert base == m[h] - {slice.name};
        assert r[h] == base[slice.name := ExpandSlice(env, h, slice)];
      } else {
        assert h in d && d[h] == m[h];
        assert r[h] == d[h];
      }
    }
    assert r.Keys == m.Keys;
  }

  /** A delete event notifies the pod cache once per (member, address), in order. */
  lemma {:induction false} MemberNoticesSpec(key: NamespacedName, members: seq<SliceEndpoint>)
    ensures |MemberNotices(key, members)| == AddressCount(members)
    ensures forall n :: n in MemberNotices(key, members) ==>
              n.slice == key && exists e :: e in members && n.ip in e.addresses
  {
    if members != [] {
      var init := members[..|members| - 1];
      var e := members[|members| - 1];
      MemberNoticesSpec(key, init);
      AddressNoticesSpec(key, e.addresses);
      assert forall x :: x in init ==> x in members;
    }
  }

  lemma {:induction false} AddressNoticesSpec(key: NamespacedName, addrs: seq<string>)
    ensures |AddressNotices(key, addrs)| == |addrs|
    ensures forall k :: 0 <= k < |addrs| ==> AddressNotices(key, addrs)[k] == SliceAddress(key, addrs[k])
  {
    if addrs != [] {
      AddressNoticesSpec(key, addrs[..|addrs| - 1]);
    }
  }

  // ---------------------------------------------------------------------
  // Headless services
  // ---------------------------------------------------------------------

  /** A model service that some namespace may see (its export-to does not hold visibility None). */
  predicate Exported(s: ModelService)
  {
    VisibilityNone !in s.exportTo
  }

  /** The ServiceEntry config keys of the exported services. */
  function HeadlessConfigs(svcs: seq<ModelService>, namespace: string): set<ConfigKey>
  {
    set s | s in svcs && Exported(s) :: ConfigKey(ServiceEntry, s.hostname, namespace)
  }

  /** Every port of every exported service is an HTTP protocol. */
  predicate PureHTTP(isHTTP: string -> bool, svcs: seq<ModelService>)
  {
    forall s, p :: s in svcs && Exported(s) && p in s.ports ==> isHTTP(p.protocol)
  }

  /**
   * The config update onEventInternal sends for a slice: none unless the
   * Service exists, is headless and has an exported model service; full
   * exactly when some exported port is not HTTP and headless support is on.
   */
  function HeadlessPush(env: Env, slice: EndpointSlice): (r: seq<PushRequest>)
    ensures |r| <= 1
    ensures var svc := env.kubeService(NamespacedName(slice.namespace, ServiceNameForEndpointSlice(slice.labels)));
            |r| == 1 <==> (svc.Some? && svc.value.clusterIP == ClusterIPNone
                           && exists s :: s in env.servicesForNamespacedName(NamespacedName(svc.value.namespace, svc.value.name)) && Exported(s))
    ensures var svc := env.kubeService(NamespacedName(slice.namespace, ServiceNameForEndpointSlice(slice.labels)));
            |r| == 1 ==> var svcs := env.servicesForNamespacedName(NamespacedName(svc.value.namespace, svc.value.name));
                         && r[0].full == (!PureHTTP(env.isHTTP, svcs) && env.features.enableHeadlessService)
                         && r[0].configsUpdated == HeadlessConfigs(svcs, svc.value.namespace)
                         && r[0].reason == HeadlessEndpointUpdate
  {
    var svc := env.kubeService(NamespacedName(slice.namespace, ServiceNameForEndpointSlice(slice.labels)));
    if svc.None? || svc.value.clusterIP != ClusterIPNone then
      []
    else
      var svcs := env.servicesForNamespacedName(NamespacedName(svc.value.namespace, svc.value.name));
      var configs := HeadlessConfigs(svcs, svc.value.namespace);
      assert configs != {} <==> exists s :: s in svcs && Exported(s) by {
        if s :| s in svcs && Exported(s) {
          assert ConfigKey(ServiceEntry, s.hostname, svc.value.namespace) in configs;
        }
      }
      if configs == {} then
        []
      else
        [PushRequest(!PureHTTP(env.isHTTP, svcs) && env.features.enableHeadlessService, configs, HeadlessEndpointUpdate)]
  }

  /**
   * The loop of onEventInternal over the model services: collect the config
   * keys of the exported services and note whether all their ports are HTTP.
   */
  method ComputeHeadlessUpdate(isHTTP: string -> bool, svcs: seq<ModelService>, namespace: string)
    returns (configsUpdated: set<ConfigKey>, pureHTTP: bool)
    ensures configsUpdated == HeadlessConfigs(svcs, namespace)
    ensures pureHTTP <==> PureHTTP(isHTTP, svcs)
  {
    configsUpdated := {};
    pureHTTP := true;
    for i := 0 to |svcs|
      invariant configsUpdated == HeadlessConfigs(svcs[..i], namespace)
      invariant pureHTTP <==> PureHTTP(isHTTP, svcs[..i])
    {
      var s := svcs[i];
      assert svcs[..i + 1] == svcs[..i] + [s];
      if Exported(s) {
        configsUpdated := configsUpdated + {ConfigKey(ServiceEntry, s.hostname, namespace)};
        for j := 0 to |s.ports|
          invariant pureHTTP ==> PureHTTP(isHTTP, svcs[..i]) && forall k :: 0 <= k < j ==> isHTTP(s.ports[k].protocol)
          invariant !pureHTTP ==> !PureHTTP(isHTTP, svcs[..i + 1])
          invariant PureHTTP(isHTTP, svcs[..i]) && (forall k :: 0 <= k < j ==> isHTTP(s.ports[k].protocol)) ==> pureHTTP
        {
          if !isHTTP(s.ports[j].protocol) {
            assert s in svcs[..i + 1] && s.ports[j] in s.ports;
            pureHTTP := false;
            break;
          }
        }
      }
    }
    assert svcs[..|svcs|] == svcs;
  }

  /** A headless service whose exported ports are all HTTP never asks for a full push. */
  lemma PureHttpNeverFull(env: Env, slice: EndpointSlice)
    requires forall s, p :: (s in env.servicesForNamespacedName(NamespacedName(slice.namespace, ServiceNameForEndpointSlice(slice.labels)))
                             && p in s.ports) ==> env.isHTTP(p.protocol)
    requires forall svc :: env.kubeService(NamespacedName(slice.namespace, ServiceNameForEndpointSlice(slice.labels))) == Some(svc)
                           ==> svc.namespace == slice.namespace && svc.name == ServiceNameForEndpointSlice(slice.labels)
    ensures forall req :: req in HeadlessPush(env, slice) ==> !req.full
  {
  }

  // ---------------------------------------------------------------------
  // Pushes
  // ---------------------------------------------------------------------

  /** The workload-entry endpoints pushEDS appends for a hostname. */
  function WorkloadEndpoints(env: Env, h: Host): seq<IstioEndpoint>
  {
    if env.features.enableK8SServiceSelectWorkloadEntries && env.getService(h).Some? then
      env.workloadInstanceEndpoints(env.getService(h).value)
    else
      []
  }

  /**
   * u is a push pushEDS may send for h: this controller's shard, the
   * hostname and namespace, the de-duplicated cache content of h, then the
   * workload-entry endpoints (appended without de-duplication).
   */
  ghost predicate EdsPushed(env: Env, m: CacheMap, h: Host, namespace: string, u: EdsUpdate)
  {
    var extra := WorkloadEndpoints(env, h);
    && u.shard == env.shard
    && u.hostname == h
    && u.namespace == namespace
    && |extra| <= |u.endpoints|
    && u.endpoints[|u.endpoints| - |extra|..] == extra
    && IsDedupView(m, h, u.endpoints[..|u.endpoints| - |extra|])
  }

  /** calls are pushEDS's calls for hosts: one endpoint push per hostname, in order. */
  ghost predicate EdsPushes(env: Env, m: CacheMap, hosts: seq<Host>, namespace: string, calls: seq<XdsCall>)
  {
    && |calls| == |hosts|
    && forall k :: 0 <= k < |hosts| ==> calls[k].Eds? && EdsPushed(env, m, hosts[k], namespace, calls[k].update)
  }

  /** One more hostname pushed extends pushEDS's calls by its push. */
  lemma EdsPushesSnoc(env: Env, m: CacheMap, hosts: seq<Host>, namespace: string, calls: seq<XdsCall>, h: Host, u: EdsUpdate)
    requires EdsPushes(env, m, hosts, namespace, calls)
    requires EdsPushed(env, m, h, namespace, u)
    ensures EdsPushes(env, m, hosts + [h], namespace, calls + [Eds(u)])
  {
  }

  /** The reconfiguration requests as push-sink calls. */
  function ConfigCalls(reqs: seq<PushRequest>): seq<XdsCall>
  {
    if reqs == [] then [] else ConfigCalls(reqs[..|reqs| - 1]) + [Config(reqs[|reqs| - 1])]
  }

  // ---------------------------------------------------------------------
  // Service targets
  // ---------------------------------------------------------------------

  /** PortList.Get: the first service port with the name. */
  function FindPort(ports: seq<ServicePort>, name: string): (r: Option<ServicePort>)
    ensures r.Some? ==> r.value in ports && r.value.name == name
    ensures r.None? <==> forall p :: p in ports ==> p.name != name
  {
    if ports == [] then
      None
    else if ports[0].name == name then
      Some(ports[0])
    else
      var r := FindPort(ports[1..], name);
      assert forall p :: p in ports ==> p == ports[0] || p in ports[1..];
      r
  }

  /** The targets of one service: one per endpoint whose port name the service declares. */
  function TargetsFor(svc: ModelService, instances: seq<IstioEndpoint>): seq<ServiceTarget>
  {
    if instances == [] then
      []
    else
      var e := instances[|instances| - 1];
      var init := TargetsFor(svc, instances[..|instances| - 1]);
      match FindPort(svc.ports, e.servicePortName)
      case None => init
      case Some(port) => init + [ServiceTarget(svc, ServiceInstancePort(port, e.endpointPort))]
  }

  /** The targets of several services, service by service. */
  function AllTargets(svcs: seq<ModelService>, views: seq<seq<IstioEndpoint>>): seq<ServiceTarget>
    requires |svcs| == |views|
  {
    if svcs == [] then
      []
    else
      AllTargets(svcs[..|svcs| - 1], views[..|views| - 1]) + TargetsFor(svcs[|svcs| - 1], views[|views| - 1])
  }

  /**
   * A target is exactly a service endpoint whose port name the service
   * declares, bound to that declared port and to the endpoint's port.
   */
  lemma {:induction false} TargetsForSpec(svc: ModelService, instances: seq<IstioEndpoint>)
    ensures forall t :: t in TargetsFor(svc, instances) <==>
              exists e :: e in instances && FindPort(svc.ports, e.servicePortName).Some?
                          && t == ServiceTarget(svc, ServiceInstancePort(FindPort(svc.ports, e.servicePortName).value, e.endpointPort))
  {
    if instances != [] {
      var init := instances[..|instances| - 1];
      TargetsForSpec(svc, init);
      assert forall x :: x in instances <==> x in init || x == instances[|instances| - 1];
    }
  }

  /** t is backed by an endpoint stored under its service's hostname, through a port the service declares. */
  ghost predicate BackedTarget(m: CacheMap, t: ServiceTarget)
  {
    exists e :: e in StoredEndpoints(m, t.service.hostname)
                && FindPort(t.service.ports, e.servicePortName) == Some(t.port.servicePort)
                && t.port.targetPort == e.endpointPort
  }

  /**
   * serviceTargets over admissible cache reads: every target belongs to one
   * of the services and is backed by an endpoint stored under its
   * hostname; every stored key whose port the service declares shows up.
   */
  lemma {:induction false} AllTargetsSpec(m: CacheMap, svcs: seq<ModelService>, views: seq<seq<IstioEndpoint>>)
    requires |svcs| == |views|
    requires forall i :: 0 <= i < |svcs| ==> IsDedupView(m, svcs[i].hostname, views[i])
    ensures forall t :: t in AllTargets(svcs, views) ==> t.service in svcs && BackedTarget(m, t)
    ensures forall i, k :: 0 <= i < |svcs| && k in StoredKeys(m, svcs[i].hostname) && FindPort(svcs[i].ports, k.port).Some? ==>
              exists t :: t in AllTargets(svcs, views) && t.service == svcs[i] && t.port.servicePort == FindPort(svcs[i].ports, k.port).value
  {
    if svcs != [] {
      var n := |svcs| - 1;
      var svc := svcs[n];
      var view := views[n];
      AllTargetsSpec(m, svcs[..n], views[..n]);
      TargetsForSpec(svc, view);
      var before := AllTargets(svcs[..n], views[..n]);
      var mine := TargetsFor(svc, view);
      assert AllTargets(svcs, views) == before + mine;
      forall t: ServiceTarget | t in before + mine
        ensures t.service in svcs && BackedTarget(m, t)
      {
        if t in mine {
          var e :| e in view && FindPort(svc.ports, e.servicePortName).Some?
                   && t == ServiceTarget(svc, ServiceInstancePort(FindPort(svc.ports, e.servicePortName).value, e.endpointPort));
          assert e in StoredEndpoints(m, svc.hostname);
        } else {
          assert t in before;
          assert forall x :: x in svcs[..n] ==> x in svcs;
        }
      }
      forall i, k | 0 <= i < |svcs| && k in StoredKeys(m, svcs[i].hostname) && FindPort(svcs[i].ports, k.port).Some?
        ensures exists t: ServiceTarget :: t in before + mine && t.service == svcs[i] && t.port.servicePort == FindPort(svcs[i].ports, k.port).value
      {
        if i < n {
          assert svcs[..n][i] == svcs[i];
          var t :| t in before && t.service == svcs[i] && t.port.servicePort == FindPort(svcs[i].ports, k.port).value;
          assert t in before + mine;
        } else {
          assert k in KeysOf(view);
          var e :| e in view && KeyOf(e) == k;
          var t := ServiceTarget(svc, ServiceInstancePort(FindPort(svc.ports, e.servicePortName).value, e.endpointPort));
          assert t in mine;
          assert t in before + mine;
        }
      }
    }
  }

  // ---------------------------------------------------------------------
  // Rebuilding one service's endpoints
  // ---------------------------------------------------------------------

  /** The informer's slices of one Service: its namespace, its service-name label, no multi-cluster label. */
  function SlicesForService(listed: seq<EndpointSlice>, name: string, namespace: string): (r: seq<EndpointSlice>)
    ensures forall s :: s in r <==> s in listed && s.namespace == namespace && SelectedForService(s, name)
  {
    if listed == [] then
      []
    else
      var rest := SlicesForService(listed[1..], name, namespace);
      assert forall s :: s in listed <==> s == listed[0] || s in listed[1..];
      if listed[0].namespace == namespace && SelectedForService(listed[0], name) then [listed[0]] + rest else rest
  }

  /** The cache after updateEndpointCacheForSlice for each slice, for one hostname. */
  function UpdateSlicesForHost(env: Env, m: CacheMap, host: Host, slices: seq<EndpointSlice>): CacheMap
  {
    if slices == [] then
      m
    else
      UpdateForSlice(env, UpdateSlicesForHost(env, m, host, slices[..|slices| - 1]), host, slices[|slices| - 1])
  }

  /** The names of the slices of a list that updateEndpointCacheForSlice writes (every non-FQDN one). */
  function WrittenNames(slices: seq<EndpointSlice>): set<SliceName>
  {
    set s | s in slices && s.addressType != FQDN :: s.name
  }

  /** No non-FQDN slice after position i has the name of slices[i]. */
  predicate LastWriteOfName(slices: seq<EndpointSlice>, i: nat)
    requires i < |slices|
  {
    forall j :: i < j < |slices| && slices[j].addressType != FQDN ==> slices[j].name != slices[i].name
  }

  /** The names a list writes grow by its last slice's name when that slice is not FQDN. */
  lemma WrittenNamesStep(slices: seq<EndpointSlice>)
    requires slices != []
    ensures var last := slices[|slices| - 1];
            WrittenNames(slices)
            == WrittenNames(slices[..|slices| - 1]) + (if last.addressType != FQDN then {last.name} else {})
  {
    assert forall s :: s in slices <==> s in slices[..|slices| - 1] || s == slices[|slices| - 1];
  }

  /**
   * Re-processing a list of slices for one hostname touches no other
   * hostname, and the hostname afterwards holds exactly its old slices
   * plus those the list writes.
   */
  lemma {:induction false} UpdateSlicesForHostSpec(env: Env, m: CacheMap, host: Host, slices: seq<EndpointSlice>)
    ensures var r := UpdateSlicesForHost(env, m, host, slices);
            forall h :: h != host ==> (h in r <==> h in m) && (h in m ==> r[h] == m[h])
    ensures var r := UpdateSlicesForHost(env, m, host, slices);
            && (host in r <==> host in m || WrittenNames(slices) != {})
            && (host in r ==> r[host].Keys == (if host in m then m[host].Keys else {}) + WrittenNames(slices))
  {
    if slices != [] {
      var init := slices[..|slices| - 1];
      var last := slices[|slices| - 1];
      UpdateSlicesForHostSpec(env, m, host, init);
      WrittenNamesStep(slices);
      var r0 := UpdateSlicesForHost(env, m, host, init);
      if last.addressType != FQDN {
        UpdatedSpec(r0, host, last.name, ExpandSlice(env, host, last));
      }
    }
  }

  /**
   * After re-processing a list of slices for one hostname, each non-FQDN
   * slice that no later non-FQDN slice of the same name follows holds its
   * expansion for the hostname.
   */
  lemma {:induction false} UpdateSlicesForHostWritten(env: Env, m: CacheMap, host: Host, slices: seq<EndpointSlice>)
    ensures var r := UpdateSlicesForHost(env, m, host, slices);
            forall i :: 0 <= i < |slices| && slices[i].addressType != FQDN && LastWriteOfName(slices, i) ==>
              host in r && slices[i].name in r[host] && r[host][slices[i].name] == ExpandSlice(env, host, slices[i])
  {
    if slices != [] {
      var init := slices[..|slices| - 1];
      var last := slices[|slices| - 1];
      UpdateSlicesForHostWritten(env, m, host, init);
      var r0 := UpdateSlicesForHost(env, m, host, init);
      var r := UpdateSlicesForHost(env, m, host, slices);
      if last.addressType != FQDN {
        UpdatedSpec(r0, host, last.name, ExpandSlice(env, host, last));
      }
      forall i | 0 <= i < |slices| && slices[i].addressType != FQDN && LastWriteOfName(slices, i)
        ensures host in r && slices[i].name in r[host] && r[host][slices[i].name] == ExpandSlice(env, host, slices[i])
      {
        if i < |init| {
          assert init[i] == slices[i];
          assert LastWriteOfName(init, i);
          assert last.addressType != FQDN ==> last.name != slices[i].name;
        }
      }
    }
  }

  /**
   * Re-processing a list of slices for one hostname leaves every slice of
   * the hostname that the list does not write as it was.
   */
  lemma {:induction false} UpdateSlicesForHostKept(env: Env, m: CacheMap, host: Host, slices: seq<EndpointSlice>)
    ensures var r := UpdateSlicesForHost(env, m, host, slices);
            forall n :: host in m && n in m[host] && n !in WrittenNames(slices) ==>
              host in r && n in r[host] && r[host][n] == m[host][n]
  {
    if slices != [] {
      var init := slices[..|slices| - 1];
      var last := slices[|slices| - 1];
      UpdateSlicesForHostKept(env, m, host, init);
      WrittenNamesStep(slices);
      var r0 := UpdateSlicesForHost(env, m, host, init);
      if last.addressType != FQDN {
        UpdatedSpec(r0, host, last.name, ExpandSlice(env, host, last));
      }
    }
  }

  function SlicesResyncs(env: Env, slices: seq<EndpointSlice>): seq<SliceAddress>
  {
    if slices == [] then [] else SlicesResyncs(env, slices[..|slices| - 1]) + SliceResyncs(env, slices[|slices| - 1])
  }

  /**
   * The inner loop of serviceTargets: a target for each instance whose port
   * name the service declares.
   */
  method TargetsOfService(svc: ModelService, instances: seq<IstioEndpoint>) returns (out: seq<ServiceTarget>)
    ensures out == TargetsFor(svc, instances)
  {
    out := [];
    for j := 0 to |instances|
      invariant out == TargetsFor(svc, instances[..j])
    {
      var instance := instances[j];
      assert instances[..j + 1][..j] == instances[..j];
      var port := FindPort(svc.ports, instance.servicePortName);
      if port.Some? {
        out := out + [ServiceTarget(svc, ServiceInstancePort(port.value, instance.endpointPort))];
      }
    }
    assert instances[..|instances|] == instances;
  }

  /**
   * The innermost loop of updateEndpointCacheForSlice: one endpoint per
   * slice port for one address, a nil port number read as 0 and a nil name
   * as "".
   */
  method AppendPortEndpoints(endpoints: seq<IstioEndpoint>, pod: Option<Pod>, a: string, ports: seq<SlicePort>,
                             policy: DiscoverabilityPolicy, healthStatus: HealthStatus)
    returns (r: seq<IstioEndpoint>)
    ensures r == endpoints + PortEndpoints(pod, a, ports, policy, healthStatus)
  {
    r := endpoints;
    for k := 0 to |ports|
      invariant r == endpoints + PortEndpoints(pod, a, ports[..k], policy, healthStatus)
    {
      var port := ports[k];
      assert ports[..k + 1][..k] == ports[..k];
      var portNum := 0;
      if port.port.Some? {
        portNum := port.port.value;
      }
      var portName := "";
      if port.name.Some? {
        portName := port.name.value;
      }
      var istioEndpoint := BuildIstioEndpoint(pod, a, portNum, portName, policy, healthStatus);
      r := r + [istioEndpoint];
    }
    assert ports[..|ports|] == ports;
  }

  // ---------------------------------------------------------------------
  // The controller
  // ---------------------------------------------------------------------

  /**
   * The controller's own state is the endpoint cache. The calls it makes on
   * the push sink and on the pod cache are recorded, in order, in the log
   * fields.
   */
  class EndpointSliceController {
    const endpointCache: EndpointSliceCache
    /** XDSUpdater.EDSUpdate and XDSUpdater.ConfigUpdate calls, in the order they were made. */
    var xdsCalls: seq<XdsCall>
    /** pods.queueEndpointEventOnPodArrival calls. */
    var resyncRequests: seq<SliceAddress>
    /** pods.endpointDeleted calls. */
    var deletedEndpoints: seq<SliceAddress>

    ghost predicate Valid()
      reads endpointCache
    {
      endpointCache.Valid()
    }

    constructor ()
      ensures Valid() && fresh(endpointCache)
      ensures endpointCache.endpointsByServiceAndSlice == map[]
      ensures xdsCalls == [] && resyncRequests == [] && deletedEndpoints == []
    {
      endpointCache := new EndpointSliceCache();
      xdsCalls := [];
      resyncRequests := [];
      deletedEndpoints := [];
    }

    /**
     * getPod: resolve the pod of one member address, and register a resync
     * with the pod cache when a pod is expected but not there yet.
     */
    method GetPod(env: Env, ip: string, slice: EndpointSlice, targetRef: Option<ObjectReference>)
      returns (pod: Option<Pod>, expectPod: bool)
      modifies this`resyncRequests
      ensures pod == LookupPod(env.pods, ip, slice.namespace, targetRef)
      ensures expectPod == ExpectPod(targetRef)
      ensures resyncRequests == old(resyncRequests) + (if expectPod && pod.None? then [SliceAddress(SliceKey(slice), ip)] else [])
    {
      pod := LookupPod(env.pods, ip, slice.namespace, targetRef);
      expectPod := false;
      if targetRef.Some? && targetRef.value.kind == PodKind {
        expectPod := true;
        if pod.None? {
          resyncRequests := resyncRequests + [SliceAddress(SliceKey(slice), ip)];
        }
      }
    }

    /**
     * The address loop of updateEndpointCacheForSlice for one member: each
     * address resolves its pod; an address whose expected pod is missing is
     * skipped (and registered for a resync), any other is expanded over the
     * slice ports.
     */
    method ExpandMember(env: Env, host: Host, slice: EndpointSlice, e: SliceEndpoint,
                        policy: DiscoverabilityPolicy, healthStatus: HealthStatus)
      returns (endpoints: seq<IstioEndpoint>)
      requires policy == HostPolicy(env, host) && healthStatus == MemberHealth(env, host, e)
      modifies this`resyncRequests
      ensures endpoints == AddressEndpoints(env, host, slice, e, e.addresses)
      ensures resyncRequests == old(resyncRequests) + AddressResyncs(env, slice, e, e.addresses)
    {
      endpoints := [];
      ghost var r0 := resyncRequests;
      for j := 0 to |e.addresses|
        invariant endpoints == AddressEndpoints(env, host, slice, e, e.addresses[..j])
        invariant resyncRequests == r0 + AddressResyncs(env, slice, e, e.addresses[..j])
      {
        var a := e.addresses[j];
        AddressStep(env, host, slice, e, e.addresses, j);
        var pod, expectedPod := GetPod(env, a, slice, e.targetRef);
        if !(pod.None? && expectedPod) {
          endpoints := AppendPortEndpoints(endpoints, pod, a, slice.ports, policy, healthStatus);
        }
      }
      assert e.addresses[..|e.addresses|] == e.addresses;
    }

    /** updateEndpointCacheForSlice: expand the slice for one hostname and overwrite its cache entry. */
    method UpdateEndpointCacheForSlice(env: Env, host: Host, slice: EndpointSlice)
      requires Valid()
      modifies this`resyncRequests, endpointCache
      ensures Valid()
      ensures endpointCache.endpointsByServiceAndSlice == UpdateForSlice(env, old(endpointCache.endpointsByServiceAndSlice), host, slice)
      ensures resyncRequests == old(resyncRequests) + SliceResyncs(env, slice)
    {
      if slice.addressType == FQDN {
        return;
      }
      var svc := env.getService(host);
      var policy := env.discoverabilityPolicy(svc);
      var endpoints: seq<IstioEndpoint> := [];
      var members := slice.endpoints;
      ghost var r0 := resyncRequests;
      for i := 0 to |members|
        invariant endpoints == MemberEndpoints(env, host, slice, members[..i])
        invariant resyncRequests == r0 + MemberResyncs(env, slice, members[..i])
        modifies this`resyncRequests
      {
        var e := members[i];
        MemberStep(env, host, slice, members, i);
        var healthStatus := EndpointHealthStatus(env.features.persistentSessionLabel, svc, e.conditions);
        var memberEndpoints := ExpandMember(env, host, slice, e, policy, healthStatus);
        endpoints := endpoints + memberEndpoints;
      }
      assert members[..|members|] == members;
      endpointCache.Update(host, slice.name, endpoints);
    }

    /** updateEndpointSlice: process the slice for every hostname of its service. */
    method UpdateEndpointSlice(env: Env, slice: EndpointSlice)
      requires Valid()
      modifies this`resyncRequests, endpointCache
      ensures Valid()
      ensures endpointCache.endpointsByServiceAndSlice
              == UpdateSliceForHosts(env, old(endpointCache.endpointsByServiceAndSlice),
                                     env.hostNamesForNamespacedName(ServiceNamespacedName(slice)), slice)
      ensures resyncRequests == old(resyncRequests) + HostsResyncs(env, env.hostNamesForNamespacedName(ServiceNamespacedName(slice)), slice)
    {
      var hosts := env.hostNamesForNamespacedName(ServiceNamespacedName(slice));
      ghost var m0 := endpointCache.endpointsByServiceAndSlice;
      ghost var r0 := resyncRequests;
      for i := 0 to |hosts|
        invariant Valid()
        invariant endpointCache.endpointsByServiceAndSlice == UpdateSliceForHosts(env, m0, hosts[..i], slice)
        invariant resyncRequests == r0 + HostsResyncs(env, hosts[..i], slice)
      {
        assert hosts[..i + 1][..i] == hosts[..i];
        UpdateEndpointCacheForSlice(env, hosts[i], slice);
      }
      assert hosts[..|hosts|] == hosts;
    }

    /** The first loop of deleteEndpointSlice: pods.endpointDeleted for every (member, address), in order. */
    method NotifyEndpointsDeleted(slice: EndpointSlice)
      modifies this`deletedEndpoints
      ensures deletedEndpoints == old(deletedEndpoints) + MemberNotices(SliceKey(slice), slice.endpoints)
    {
      var key := SliceKey(slice);
      var members := slice.endpoints;
      ghost var d0 := deletedEndpoints;
      for i := 0 to |members|
        invariant deletedEndpoints == d0 + MemberNotices(key, members[..i])
      {
        var e := members[i];
        assert members[..i + 1][..i] == members[..i];
        ghost var memberStart := deletedEndpoints;
        for j := 0 to |e.addresses|
          invariant deletedEndpoints == memberStart + AddressNotices(key, e.addresses[..j])
        {
          assert e.addresses[..j + 1][..j] == e.addresses[..j];
          deletedEndpoints := deletedEndpoints + [SliceAddress(key, e.addresses[j])];
        }
        assert e.addresses[..|e.addresses|] == e.addresses;
      }
      assert members[..|members|] == members;
    }

    /**
     * deleteEndpointSlice: tell the pod cache about every (member, address),
     * then delete the slice under each hostname of its service that the
     * cache has.
     */
    method DeleteEndpointSlice(env: Env, slice: EndpointSlice)
      requires Valid()
      modifies this`deletedEndpoints, endpointCache
      ensures Valid()
      ensures deletedEndpoints == old(deletedEndpoints) + MemberNotices(SliceKey(slice), slice.endpoints)
      ensures endpointCache.endpointsByServiceAndSlice
              == DeleteSliceForHosts(old(endpointCache.endpointsByServiceAndSlice),
                                     env.hostNamesForNamespacedName(ServiceNamespacedName(slice)), slice.name)
    {
      NotifyEndpointsDeleted(slice);
      var hosts := env.hostNamesForNamespacedName(ServiceNamespacedName(slice));
      for i := 0 to |hosts|
        invariant Valid()
        invariant endpointCache.endpointsByServiceAndSlice
                  == DeleteSliceForHosts(old(endpointCache.endpointsByServiceAndSlice), hosts[..i], slice.name)
        modifies endpointCache
      {
        assert hosts[..i + 1][..i] == hosts[..i];
        var present := endpointCache.Has(hosts[i]);
        if present {
          endpointCache.Delete(hosts[i], slice.name);
        }
      }
      assert hosts[..|hosts|] == hosts;
    }

    /** pushEDS: send each hostname's de-duplicated endpoints, plus workload-entry endpoints, to the push sink. */
    method PushEDS(env: Env, hostnames: seq<Host>, namespace: string)
      modifies this`xdsCalls
      ensures |old(xdsCalls)| <= |xdsCalls|
      ensures xdsCalls[..|old(xdsCalls)|] == old(xdsCalls)
      ensures EdsPushes(env, endpointCache.endpointsByServiceAndSlice, hostnames, namespace, xdsCalls[|old(xdsCalls)|..])
    {
      var shard := env.shard;
      ghost var x0 := xdsCalls;
      ghost var m := endpointCache.endpointsByServiceAndSlice;
      for i := 0 to |hostnames|
        invariant |x0| <= |xdsCalls|
        invariant xdsCalls[..|x0|] == x0
        invariant EdsPushes(env, m, hostnames[..i], namespace, xdsCalls[|x0|..])
      {
        var hostname := hostnames[i];
        var endpoints := endpointCache.Get(hostname);
        ghost var fromCache := endpoints;
        if env.features.enableK8SServiceSelectWorkloadEntries {
          var svc := env.getService(hostname);
          if svc.Some? {
            var fep := env.workloadInstanceEndpoints(svc.value);
            endpoints := endpoints + fep;
          }
        }
        assert endpoints[..|fromCache|] == fromCache;
        var u := EdsUpdate(shard, hostname, namespace, endpoints);
        ghost var before := xdsCalls;
        xdsCalls := xdsCalls + [Eds(u)];
        EdsPushesSnoc(env, m, hostnames[..i], namespace, before[|x0|..], hostname, u);
        assert hostnames[..i + 1] == hostnames[..i] + [hostname];
        assert xdsCalls[|x0|..] == before[|x0|..] + [Eds(u)];
      }
      assert hostnames[..|hostnames|] == hostnames;
    }

    /**
     * onEventInternal: filter, apply the event to the cache, push EDS for
     * every hostname, then the headless config update, all on the one push sink.
     */
    method OnEventInternal(env: Env, slice: EndpointSlice, event: Event)
      requires Valid()
      modifies this, endpointCache
      ensures Valid()
      ensures !SelectedByController(slice) ==>
                && endpointCache.endpointsByServiceAndSlice == old(endpointCache.endpointsByServiceAndSlice)
                && xdsCalls == old(xdsCalls)
                && resyncRequests == old(resyncRequests) && deletedEndpoints == old(deletedEndpoints)
      ensures SelectedByController(slice) ==>
                var nn := ServiceNamespacedName(slice);
                var hosts := env.hostNamesForNamespacedName(nn);
                && endpointCache.endpointsByServiceAndSlice
                   == (if event == EventDelete then DeleteSliceForHosts(old(endpointCache.endpointsByServiceAndSlice), hosts, slice.name)
                       else UpdateSliceForHosts(env, old(endpointCache.endpointsByServiceAndSlice), hosts, slice))
                && deletedEndpoints == old(deletedEndpoints) + (if event == EventDelete then MemberNotices(SliceKey(slice), slice.endpoints) else [])
                && resyncRequests == old(resyncRequests) + (if event == EventDelete then [] else HostsResyncs(env, hosts, slice))
                && |old(xdsCalls)| + |hosts| <= |xdsCalls|
                && xdsCalls[..|old(xdsCalls)|] == old(xdsCalls)
                && EdsPushes(env, endpointCache.endpointsByServiceAndSlice, hosts, nn.namespace,
                             xdsCalls[|old(xdsCalls)|..|old(xdsCalls)| + |hosts|])
                && xdsCalls[|old(xdsCalls)| + |hosts|..] == ConfigCalls(HeadlessPush(env, slice))
    {
      if !SelectedByController(slice) {
        return;
      }
      var namespacedName := ServiceNamespacedName(slice);
      if event == EventDelete {
        DeleteEndpointSlice(env, slice);
      } else {
        UpdateEndpointSlice(env, slice);
      }
      var hostnames := env.hostNamesForNamespacedName(namespacedName);
      ghost var x0 := xdsCalls;
      PushEDS(env, hostnames, namespacedName.namespace);
      ghost var x1 := xdsCalls;
      PushHeadlessUpdate(env, slice);
      assert xdsCalls == x1 + ConfigCalls(HeadlessPush(env, slice));
      assert x1 == x0 + x1[|x0|..];
      assert xdsCalls[..|x0|] == x0;
      assert xdsCalls[|x0|..|x0| + |hostnames|] == x1[|x0|..];
      assert xdsCalls[|x0| + |hostnames|..] == ConfigCalls(HeadlessPush(env, slice));
    }

    /**
     * The tail of onEventInternal: for a headless Service, one config update
     * naming the ServiceEntry keys of its exported model services.
     */
    method PushHeadlessUpdate(env: Env, slice: EndpointSlice)
      modifies this`xdsCalls
      ensures xdsCalls == old(xdsCalls) + ConfigCalls(HeadlessPush(env, slice))
    {
      var name := ServiceNameForEndpointSlice(slice.labels);
      var namespace := slice.namespace;
      var svc := env.kubeService(NamespacedName(namespace, name));
      if svc.None? || svc.value.clusterIP != ClusterIPNone {
        return;
      }
      var services := env.servicesForNamespacedName(NamespacedName(svc.value.namespace, svc.value.name));
      var configsUpdated, pureHTTP := ComputeHeadlessUpdate(env.isHTTP, services, svc.value.namespace);
      if |configsUpdated| > 0 {
        xdsCalls := xdsCalls + [Config(PushRequest(!pureHTTP && env.features.enableHeadlessService, configsUpdated, HeadlessEndpointUpdate))];
      }
    }

    /**
     * serviceTargets: for each model service of the slice's Service, one
     * target per cache endpoint of its hostname whose port name the service
     * declares. The ghost views are the cache reads the call made.
     */
    method ServiceTargets(env: Env, slice: EndpointSlice) returns (out: seq<ServiceTarget>, ghost views: seq<seq<IstioEndpoint>>)
      ensures var svcs := env.servicesForNamespacedName(ServiceNamespacedName(slice));
              && |views| == |svcs|
              && (forall i :: 0 <= i < |svcs| ==> IsDedupView(endpointCache.endpointsByServiceAndSlice, svcs[i].hostname, views[i]))
              && out == AllTargets(svcs, views)
      ensures forall t :: t in out ==>
                t.service in env.servicesForNamespacedName(ServiceNamespacedName(slice))
                && BackedTarget(endpointCache.endpointsByServiceAndSlice, t)
    {
      var svcs := env.servicesForNamespacedName(ServiceNamespacedName(slice));
      ghost var m := endpointCache.endpointsByServiceAndSlice;
      out := [];
      views := [];
      for i := 0 to |svcs|
        invariant |views| == i
        invariant forall j :: 0 <= j < i ==> IsDedupView(m, svcs[j].hostname, views[j])
        invariant out == AllTargets(svcs[..i], views)
      {
        var svc := svcs[i];
        var instances := endpointCache.Get(svc.hostname);
        var targets := TargetsOfService(svc, instances);
        ghost var next := views + [instances];
        assert svcs[..i + 1][..i] == svcs[..i] && next[..i] == views;
        assert AllTargets(svcs[..i + 1], next) == out + targets;
        forall j | 0 <= j < i + 1
          ensures IsDedupView(m, svcs[j].hostname, next[j])
        {
          if j < i {
            assert next[j] == views[j];
          }
        }
        out := out + targets;
        views := next;
      }
      assert svcs[..|svcs|] == svcs;
      AllTargetsSpec(m, svcs, views);
    }

    /**
     * buildIstioEndpointsWithService: with no slice for the Service, nothing;
     * otherwise optionally re-process every slice for the hostname, then read
     * the hostname's de-duplicated endpoints.
     */
    method BuildIstioEndpointsWithService(env: Env, listed: seq<EndpointSlice>, name: string, namespace: string,
                                          host: Host, updateCache: bool)
      returns (eps: seq<IstioEndpoint>)
      requires Valid()
      modifies this`resyncRequests, endpointCache
      ensures Valid()
      ensures SlicesForService(listed, name, namespace) == [] ==>
                && eps == []
                && endpointCache.endpointsByServiceAndSlice == old(endpointCache.endpointsByServiceAndSlice)
                && resyncRequests == old(resyncRequests)
      ensures SlicesForService(listed, name, namespace) != [] ==>
                var slices := SlicesForService(listed, name, namespace);
                && endpointCache.endpointsByServiceAndSlice
                   == (if updateCache then UpdateSlicesForHost(env, old(endpointCache.endpointsByServiceAndSlice), host, slices)
                       else old(endpointCache.endpointsByServiceAndSlice))
                && resyncRequests == old(resyncRequests) + (if updateCache then SlicesResyncs(env, slices) else [])
                && IsDedupView(endpointCache.endpointsByServiceAndSlice, host, eps)
    {
      var slices := SlicesForService(listed, name, namespace);
      if |slices| == 0 {
        return [];
      }
      if updateCache {
        UpdateCacheForSlices(env, host, slices);
      }
      eps := endpointCache.Get(host);
    }

    /** The update loop of buildIstioEndpointsWithService: every slice re-processed for the hostname, in order. */
    method UpdateCacheForSlices(env: Env, host: Host, slices: seq<EndpointSlice>)
      requires Valid()
      modifies this`resyncRequests, endpointCache
      ensures Valid()
      ensures endpointCache.endpointsByServiceAndSlice == UpdateSlicesForHost(env, old(endpointCache.endpointsByServiceAndSlice), host, slices)
      ensures resyncRequests == old(resyncRequests) + SlicesResyncs(env, slices)
    {
      ghost var m0 := endpointCache.endpointsByServiceAndSlice;
      ghost var r0 := resyncRequests;
      for i := 0 to |slices|
        invariant Valid()
        invariant endpointCache.endpointsByServiceAndSlice == UpdateSlicesForHost(env, m0, host, slices[..i])
        invariant resyncRequests == r0 + SlicesResyncs(env, slices[..i])
      {
        assert slices[..i + 1][..i] == slices[..i];
        UpdateEndpointCacheForSlice(env, host, slices[i]);
      }
      assert slices[..|slices|] == slices;
    }
  }
}

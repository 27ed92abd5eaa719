# Endpoint-slice aggregation, modelled in Dafny

This project models the endpoint-slice controller of the Kubernetes service
registry (`pilot/pkg/serviceregistry/kube/controller/endpointslice.go`). The
controller watches EndpointSlice objects and normalises each one into internal
endpoints for every hostname of the slice's Service. It stores the result in a
per-hostname, per-slice cache and pushes every affected hostname to the push
sink. For a headless Service it also requests a (full or incremental)
reconfiguration.

The project has four modules:

- `types.dfy` (`Types`) holds the objects the controller works on:
  - the EndpointSlice with its members, conditions, target references and ports;
  - the internal `IstioEndpoint` and its de-duplication key (address, service port name);
  - the logical service model and the requests sent to the push sink;
  - `Env`, the collaborators whose code is outside the model.

  `Env` stands for the service registry, the Kubernetes Service lister, the export policy, the pod cache, the workload-entry registry, the protocol classifier, the shard identity and the feature flags.
- `cache.dfy` (`SliceCache`) holds the cache `hostname -> slice name -> endpoint list`:
  - the specification functions `Updated` and `Deleted`;
  - the `IsDedupView` predicate, which describes what a read may return;
  - the class `EndpointSliceCache`, whose methods `Update`, `Delete`, `Has` and `Get` work in place on the nested map.
- `normalize.dfy` (`Normalize`) holds the per-slice logic:
  - the tri-state health decision;
  - pod resolution for a member address;
  - the member x address x port expansion, specified as left folds that follow the loop order of the source.
- `controller.dfy` (`Controller`) holds:
  - the effect of add/update/delete events on the cache, folded over the hostnames;
  - the headless-push decision, the EDS pushes and the service targets;
  - the class `EndpointSliceController`. Its own state is the cache. Its calls to the push sink and to the pod cache are recorded, in order, in append-only log fields. `xdsCalls` holds the endpoint pushes and the reconfiguration requests together, in the order they were made. `resyncRequests` and `deletedEndpoints` hold the pod-cache calls.

In these places the code behaves in ways that may surprise:

- An `update` with an empty list deletes the slice key and then writes it back with the empty list. The hostname stays in the cache, so `has(h)` is still true. After add A, add B, empty A, delete B, the hostname is still held, with A mapped to [] (`SliceCache.EmptiedSliceKeepsHost`).
- A not-ready member is Draining only when its Terminating flag is unset or **true**, as the source writes it at line 237. It is not Draining when Terminating is false.
- The config update is sent only for a Service whose ClusterIP is `None`, and only when some model service is exported. It is full exactly when some exported port is not HTTP and headless support is enabled.
- An FQDN slice returns before the cache is touched, so its earlier entry, if any, is kept.

## Model

| member | source | states |
|---|---|---|
| Types.ServiceNameForEndpointSlice | pilot/pkg/serviceregistry/kube/controller/endpointslice.go:172-174 | the Service name is the slice's service-name label, "" when the label is missing |
| Types.ServiceNamespacedName | pilot/pkg/serviceregistry/kube/controller/endpointslice.go:300-305 | the owning Service is the slice's namespace and its service-name label, "" when the label is absent |
| SliceCache.UpdatedSpec | pilot/pkg/serviceregistry/kube/controller/endpointslice.go:332-346 | after update(h, s, E) the entry [h][s] is exactly E; h is present even for an empty E; the slices of h gain s; every other slice and hostname is unchanged; no hostname is left without slices |
| SliceCache.DeletedSpec | pilot/pkg/serviceregistry/kube/controller/endpointslice.go:354-359 | after delete(h, s), h holds its old slices minus s, and h is gone exactly when no other slice remains; other hostnames are unchanged; no hostname is left without slices |
| SliceCache.OverwriteIsFresh | pilot/pkg/serviceregistry/kube/controller/endpointslice.go:339-345 | a second update of the same slice discards the first: no merge |
| SliceCache.EmptyUpdateVersusDelete | pilot/pkg/serviceregistry/kube/controller/endpointslice.go:332-359 | an empty update and a delete leave the same stored endpoints and keys under h; the empty update keeps h, while the delete drops it exactly when s was its only slice |
| SliceCache.LastSliceDeleteDropsHost | pilot/pkg/serviceregistry/kube/controller/endpointslice.go:355-358 | deleting the only slice of a hostname removes the hostname |
| SliceCache.DeleteThenUpdateRestores | pilot/pkg/serviceregistry/kube/controller/endpointslice.go:332-359 | deleting a slice and re-adding the list it held restores the cache exactly |
| SliceCache.EmptiedSliceKeepsHost | pilot/pkg/serviceregistry/kube/controller/endpointslice.go:332-359 | add A, add B, empty A, delete B: no endpoint is left, yet the hostname is still held with A mapped to the empty list |
| SliceCache.DistinctKeysCount | pilot/pkg/serviceregistry/kube/controller/endpointslice.go:369-378 | a list with pairwise distinct keys has as many keys as elements |
| SliceCache.DedupViewSize | pilot/pkg/serviceregistry/kube/controller/endpointslice.go:367-382 | every admissible read of h has exactly one entry per distinct stored key |
| SliceCache.DedupViewsAgree | pilot/pkg/serviceregistry/kube/controller/endpointslice.go:367-382 | two admissible reads of h have the same keys and length; only which duplicate survives may differ |
| SliceCache.UnknownHostIsEmpty | pilot/pkg/serviceregistry/kube/controller/endpointslice.go:368-370 | for a hostname the cache does not hold, the empty list is the one admissible read |
| SliceCache.EndpointSliceCache.constructor | pilot/pkg/serviceregistry/kube/controller/endpointslice.go:319-324 | a new cache is empty |
| SliceCache.EndpointSliceCache.Update | pilot/pkg/serviceregistry/kube/controller/endpointslice.go:332-346 | the in-place update (delete on empty, create the hostname map, overwrite) leaves exactly `Updated` of the old map and keeps the no-empty-hostname invariant |
| SliceCache.EndpointSliceCache.Delete | pilot/pkg/serviceregistry/kube/controller/endpointslice.go:354-359 | the in-place delete leaves exactly `Deleted` of the old map and keeps the invariant |
| SliceCache.EndpointSliceCache.Has | pilot/pkg/serviceregistry/kube/controller/endpointslice.go:390-393 | true exactly when the hostname is a key of the cache |
| SliceCache.EndpointSliceCache.Get | pilot/pkg/serviceregistry/kube/controller/endpointslice.go:367-382 | the result has one endpoint per key, each stored under h, with every stored key present; an unknown h yields []; the cache is not modified |
| Normalize.EndpointHealthStatus | pilot/pkg/serviceregistry/kube/controller/endpointslice.go:228-242 | Ready unset or true gives Healthy. A not-ready member is Draining when the session label is set, the service carries it with a value, and Serving and Terminating are each unset or true. Every other case is UnHealthy |
| Normalize.FirstPodInNamespaceSpec | pilot/pkg/serviceregistry/kube/controller/endpointslice.go:469-476 | the address match is the earliest pod in the namespace; there is none only when no pod at that address is in it |
| Normalize.LookupPodSpec | pilot/pkg/serviceregistry/kube/controller/endpointslice.go:460-477 | a Pod reference is resolved by the reference's (namespace, name); any other member resolves to a pod at the address in the namespace, or to none when there is none |
| Normalize.PortEndpoints | pilot/pkg/serviceregistry/kube/controller/endpointslice.go:264-276 | one endpoint per slice port |
| Normalize.PortEndpointsSpec | pilot/pkg/serviceregistry/kube/controller/endpointslice.go:264-276 | the k-th endpoint of an address is built from the k-th port, a nil number read as 0 and a nil name as "" |
| Normalize.KeptAddresses | pilot/pkg/serviceregistry/kube/controller/endpointslice.go:257-261 | an address is kept exactly when it is not skipped for a missing expected pod |
| Normalize.AddressEndpointsCount | pilot/pkg/serviceregistry/kube/controller/endpointslice.go:257-277 | a member yields (kept addresses) x (ports) endpoints |
| Normalize.AddressEndpointsSpec | pilot/pkg/serviceregistry/kube/controller/endpointslice.go:257-277 | a member's endpoints are exactly the builds of one kept address with one slice port, with the member's health and the host's policy |
| Normalize.MemberEndpointsSpec | pilot/pkg/serviceregistry/kube/controller/endpointslice.go:253-278 | the stored list holds exactly the endpoints some member yields |
| Normalize.ExpandSliceCarriesMemberHealth | pilot/pkg/serviceregistry/kube/controller/endpointslice.go:253-278 | every stored endpoint carries the health of a member that lists its address, and that address was not skipped |
| Normalize.PodArrivalOrdering | pilot/pkg/serviceregistry/kube/controller/endpointslice.go:257-262 | with the referenced pod missing, a member yields nothing and one resync per address; once the pod is known it yields one endpoint per (address, port) and no resync |
| Controller.UpdateSliceForHostsSpec | pilot/pkg/serviceregistry/kube/controller/endpointslice.go:222-226 | after an add or update, each mapped hostname holds the slice's expansion for that hostname next to its other slices; other hostnames are untouched |
| Controller.UpdateSliceForHostsFqdn | pilot/pkg/serviceregistry/kube/controller/endpointslice.go:246-249 | an FQDN slice never changes the cache |
| Controller.DeleteSliceForHostsSpec | pilot/pkg/serviceregistry/kube/controller/endpointslice.go:214-219 | after a delete, each mapped hostname has lost the slice and is gone exactly when nothing else was left; an absent hostname stays absent; others are untouched |
| Controller.DeleteThenAddRestores | pilot/pkg/serviceregistry/kube/controller/endpointslice.go:204-226 | replaying a slice (delete, then add with the same content) restores a cache that held its expansion |
| Controller.MemberNoticesSpec | pilot/pkg/serviceregistry/kube/controller/endpointslice.go:205-210 | one endpointDeleted call per (member, address), each naming the slice and an address of a member |
| Controller.AddressNoticesSpec | pilot/pkg/serviceregistry/kube/controller/endpointslice.go:207-209 | the calls for one member follow its addresses in order |
| Controller.HeadlessPush | pilot/pkg/serviceregistry/kube/controller/endpointslice.go:119-155 | at most one request. There is one exactly when the Service exists, is headless and has an exported model service. It names the exported services' ServiceEntry keys and is full exactly when an exported port is non-HTTP and headless support is on |
| Controller.ComputeHeadlessUpdate | pilot/pkg/serviceregistry/kube/controller/endpointslice.go:126-141 | the loop (with its early break) collects exactly the exported services' keys and finds pureHTTP exactly when every exported port is HTTP |
| Controller.PureHttpNeverFull | pilot/pkg/serviceregistry/kube/controller/endpointslice.go:143-154 | a headless Service whose ports are all HTTP never requests a full push |
| Controller.FindPort | pilot/pkg/serviceregistry/kube/controller/endpointslice.go:182-186 | a found port is declared with that name; none is found only when no declared port has it |
| Controller.TargetsForSpec | pilot/pkg/serviceregistry/kube/controller/endpointslice.go:181-199 | a target is exactly an instance whose port name the service declares, bound to that port and the instance's port |
| Controller.AllTargetsSpec | pilot/pkg/serviceregistry/kube/controller/endpointslice.go:176-202 | every target belongs to one of the services and is backed by an endpoint stored under its hostname; every stored key whose port the service declares yields a target |
| Controller.SlicesForService | pilot/pkg/serviceregistry/kube/controller/endpointslice.go:283-284 | exactly the listed slices in the namespace that carry service-name == name and no multi-cluster label |
| Controller.TargetsOfService | pilot/pkg/serviceregistry/kube/controller/endpointslice.go:181-199 | the inner loop of serviceTargets computes the targets of one service |
| Controller.AppendPortEndpoints | pilot/pkg/serviceregistry/kube/controller/endpointslice.go:264-276 | the port loop appends one endpoint per port, in order |
| Controller.EndpointSliceController.constructor | pilot/pkg/serviceregistry/kube/controller/endpointslice.go:51-60 | a new controller owns a fresh, empty cache |
| Controller.EndpointSliceController.GetPod | pilot/pkg/serviceregistry/kube/controller/endpointslice.go:431-442 | expectPod holds exactly for a Pod reference; the pod is the lookup result; one resync for (slice, address) is registered exactly when a pod is expected and missing |
| Controller.EndpointSliceController.ExpandMember | pilot/pkg/serviceregistry/kube/controller/endpointslice.go:257-277 | the address loop yields the member's expansion and registers the member's resyncs |
| Controller.EndpointSliceController.UpdateEndpointCacheForSlice | pilot/pkg/serviceregistry/kube/controller/endpointslice.go:244-280 | leaves the cache untouched for an FQDN slice, else overwrites [host][slice] with the expansion; registers the slice's resyncs; keeps the invariant |
| Controller.EndpointSliceController.UpdateEndpointSlice | pilot/pkg/serviceregistry/kube/controller/endpointslice.go:222-226 | the slice is processed for every mapped hostname in order |
| Controller.EndpointSliceController.NotifyEndpointsDeleted | pilot/pkg/serviceregistry/kube/controller/endpointslice.go:205-210 | the pod cache is told about every (member, address), in order |
| Controller.EndpointSliceController.DeleteEndpointSlice | pilot/pkg/serviceregistry/kube/controller/endpointslice.go:204-220 | notifies the pod cache, then deletes the slice under each mapped hostname the cache has |
| Controller.EndpointSliceController.PushEDS | pilot/pkg/serviceregistry/kube/controller/endpointslice.go:401-420 | exactly one push per hostname, in order. Each push carries the shard, hostname and namespace, then a de-duplicated read of the cache followed by the workload-entry endpoints |
| Controller.EndpointSliceController.OnEventInternal | pilot/pkg/serviceregistry/kube/controller/endpointslice.go:102-155 | a slice with the multi-cluster label changes nothing. Any other slice is applied as a delete or an update. The push sink then receives, after every earlier call, one EDS push per mapped hostname in order, followed by the headless request, if any |
| Controller.EndpointSliceController.PushHeadlessUpdate | pilot/pkg/serviceregistry/kube/controller/endpointslice.go:119-155 | appends to the push-sink calls exactly the request `HeadlessPush` describes |
| Controller.EndpointSliceController.ServiceTargets | pilot/pkg/serviceregistry/kube/controller/endpointslice.go:176-202 | one admissible cache read per model service of the slice's Service, and the targets those reads yield; every target belongs to one of those services and is backed by an endpoint stored under its hostname whose port name the service declares |
| Controller.EndpointSliceController.BuildIstioEndpointsWithService | pilot/pkg/serviceregistry/kube/controller/endpointslice.go:282-298 | with no slice for the Service, returns [] and changes nothing; otherwise, when asked to, re-processes every slice for the hostname, then returns an admissible read of it |
| Controller.UpdateSlicesForHostSpec | pilot/pkg/serviceregistry/kube/controller/endpointslice.go:290-295 | re-processing slices for a hostname leaves every other hostname untouched; the hostname then holds its old slices plus every non-FQDN slice of the list |
| Controller.UpdateSlicesForHostWritten | pilot/pkg/serviceregistry/kube/controller/endpointslice.go:290-295 | each non-FQDN slice that no later non-FQDN slice of the same name follows ends up holding its expansion for the hostname |
| Controller.UpdateSlicesForHostKept | pilot/pkg/serviceregistry/kube/controller/endpointslice.go:290-295 | a slice of the hostname that the list does not write keeps its old endpoints |
| Controller.EndpointSliceController.UpdateCacheForSlices | pilot/pkg/serviceregistry/kube/controller/endpointslice.go:290-295 | every listed slice is re-processed for the hostname, in order |

## Left out

- Locking: the `sync.RWMutex` and the locked wrappers `Update`, `Delete`, `Get` and `Has` (lines 326-330, 348-352, 361-365, 384-388) are treated as the inner operations. Concurrent event delivery is not modelled.
- Informers: `newEndpointSliceController`'s client and handler registration, `initializeNamespace`, `deleteEndpoints`, `podArrived` and `GetProxyServiceTargets` list slices from an informer. Those are not modelled. `onEvent` only forwards to `onEventInternal` and returns nil, so the multierror aggregation is trivial.
- Label selectors: `endpointSliceSelector` and `endpointSliceSelectorForService` become the predicates `SelectedByController` and `SelectedForService`. `buildIstioEndpointsWithService` receives the informer's listing as a parameter.
- Logging and metrics: `log.*`, `endpointsWithNoPods.Increment` and `Metrics.AddMetric` are left out. So are the parameters that only feed them: the `proxy` of `serviceTargets` and the `host` of `getPod` and `registerEndpointResync`.
- Collaborators are fields of `Env`, uninterpreted functions of the model:
  - the service registry: `hostNamesForNamespacedName`, `servicesForNamespacedName`, `GetService`;
  - the Kubernetes Service lister;
  - `exports.EndpointDiscoverabilityPolicy`;
  - the pod cache lookups;
  - `collectWorkloadInstanceEndpoints`;
  - `Protocol.IsHTTP`;
  - the feature flags.

  `ShardKeyFromRegistry` is `Env.shard`. The push sink and the pod-cache notifications are append-only logs on the controller.
- Endpoint builder: `NewEndpointBuilder` / `buildIstioEndpoint` is not part of this model. An endpoint records the address, port, port name, health, policy and the pod. The pod stands for every attribute the builder derives from it. The port number is kept as an unbounded integer; the int32 it has in the source is not modelled.
- `PortList.Get` is not part of this model. `FindPort` takes the first declared port with the name.
- Get: the order of the result and which duplicate survives depend on Go's map iteration order. The contract states the result at the level of key sets (`IsDedupView`) and fixes neither.
- PushEDS: each pushed list is stated as an admissible de-duplicated read followed by the workload-entry endpoints, not as one fixed list, for the same reason as Get.
- ServiceTargets: the exact list is stated against the ghost `views`, the reads the call made, for the same reason as Get. The contract on the returned list alone is membership, not order.

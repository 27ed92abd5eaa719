/**
 * The shapes the endpoint-slice controller works on: the Kubernetes
 * EndpointSlice as the watch layer delivers it, the internal IstioEndpoint it
 * is normalised into, the logical service model, the requests sent to the
 * push sink, and the collaborators whose code is not part of this model.
 */
module Types {

  datatype Option<T> = None | Some(value: T)

  /** A service hostname (host.Name), the cache's primary key. */
  type Host = string

  /** The name of an EndpointSlice object. */
  type SliceName = string

  /** Label naming the Service a slice belongs to (discovery v1beta1). */
  const LabelServiceName: string := "kubernetes.io/service-name"

  /** Label carried by slices that the multi-cluster services controller manages. */
  const McsLabelServiceName: string := "multicluster.kubernetes.io/service-name"

  /** The ClusterIP value of a headless Service. */
  const ClusterIPNone: string := "None"

  /** The export-to entry meaning "visible to no namespace" (visibility.None). */
  const VisibilityNone: string := "~"

  /** The object-reference kind that names a pod. */
  const PodKind: string := "Pod"

  /** A Go map read: a missing key yields the zero value "". */
  function LabelValue(labels: map<string, string>, key: string): (v: string)
    ensures key !in labels ==> v == ""
    ensures key in labels ==> v == labels[key]
  {
    if key in labels then labels[key] else ""
  }

  datatype NamespacedName = NamespacedName(namespace: string, name: string)

  // ---------------------------------------------------------------------
  // The EndpointSlice object (discovery/v1)
  // ---------------------------------------------------------------------

  datatype AddressType = IPv4 | IPv6 | FQDN

  /** Optional condition flags; None stands for nil (unset). */
  datatype Conditions = Conditions(ready: Option<bool>, serving: Option<bool>, terminating: Option<bool>)

  datatype ObjectReference = ObjectReference(kind: string, namespace: string, name: string)

  /** One member record of a slice. */
  datatype SliceEndpoint = SliceEndpoint(
    addresses: seq<string>,
    conditions: Conditions,
    targetRef: Option<ObjectReference>)

  /** A slice port; both the name and the number may be unset (nil). */
  datatype SlicePort = SlicePort(name: Option<string>, port: Option<int>)

  datatype EndpointSlice = EndpointSlice(
    namespace: string,
    name: SliceName,
    labels: map<string, string>,
    addressType: AddressType,
    endpoints: seq<SliceEndpoint>,
    ports: seq<SlicePort>)

  datatype Pod = Pod(namespace: string, name: string)

  // ---------------------------------------------------------------------
  // The internal endpoint
  // ---------------------------------------------------------------------

  datatype HealthStatus = Healthy | UnHealthy | Draining

  datatype DiscoverabilityPolicy = AlwaysDiscoverable | DiscoverableFromSameCluster

  /**
   * A normalised endpoint. The attributes the endpoint builder derives from
   * the pod (locality, service account, labels) are represented by the pod
   * itself.
   */
  datatype IstioEndpoint = IstioEndpoint(
    address: string,
    servicePortName: string,
    endpointPort: int,
    healthStatus: HealthStatus,
    pod: Option<Pod>,
    discoverability: DiscoverabilityPolicy)

  /** The identity used to de-duplicate endpoints across slices. */
  datatype EndpointKey = EndpointKey(ip: string, port: string)

  function KeyOf(e: IstioEndpoint): EndpointKey
  {
    EndpointKey(e.address, e.servicePortName)
  }

  // ---------------------------------------------------------------------
  // The logical service model and the push sink
  // ---------------------------------------------------------------------

  /** A service port; the protocol is opaque and classified by Env.isHTTP. */
  datatype ServicePort = ServicePort(name: string, port: int, protocol: string)

  datatype ModelService = ModelService(
    hostname: Host,
    ports: seq<ServicePort>,
    exportTo: set<string>,
    labels: map<string, string>)

  /** The Kubernetes Service object, as far as the controller reads it. */
  datatype KubeService = KubeService(namespace: string, name: string, clusterIP: string)

  datatype ServiceInstancePort = ServiceInstancePort(servicePort: ServicePort, targetPort: int)

  datatype ServiceTarget = ServiceTarget(service: ModelService, port: ServiceInstancePort)

  datatype ConfigKind = ServiceEntry

  datatype ConfigKey = ConfigKey(kind: ConfigKind, name: string, namespace: string)

  datatype TriggerReason = HeadlessEndpointUpdate

  /** A request for a (full or incremental) reconfiguration. */
  datatype PushRequest = PushRequest(full: bool, configsUpdated: set<ConfigKey>, reason: TriggerReason)

  /** One incremental endpoint push for one hostname. */
  datatype EdsUpdate = EdsUpdate(shard: string, hostname: Host, namespace: string, endpoints: seq<IstioEndpoint>)

  /** One call on the push sink: an endpoint push (EDSUpdate) or a reconfiguration request (ConfigUpdate). */
  datatype XdsCall = Eds(update: EdsUpdate) | Config(request: PushRequest)

  /** A (slice, address) pair handed to the pod cache. */
  datatype SliceAddress = SliceAddress(slice: NamespacedName, ip: string)

  datatype Event = EventAdd | EventUpdate | EventDelete

  // ---------------------------------------------------------------------
  // Collaborators
  // ---------------------------------------------------------------------

  datatype Features = Features(
    persistentSessionLabel: string,
    enableHeadlessService: bool,
    enableK8SServiceSelectWorkloadEntries: bool)

  /** The pod cache's two lookups. */
  datatype PodCache = PodCache(
    getPodByKey: NamespacedName -> Option<Pod>,
    getPodsByIP: string -> seq<Pod>)

  /**
   * Everything the controller consults but does not own: the service
   * registry, the Kubernetes Service lister, the export policy, the pod
   * cache, the workload-entry registry, the protocol classifier, the shard
   * identity and the feature flags.
   */
  datatype Env = Env(
    hostNamesForNamespacedName: NamespacedName -> seq<Host>,
    servicesForNamespacedName: NamespacedName -> seq<ModelService>,
    getService: Host -> Option<ModelService>,
    kubeService: NamespacedName -> Option<KubeService>,
    discoverabilityPolicy: Option<ModelService> -> DiscoverabilityPolicy,
    pods: PodCache,
    workloadInstanceEndpoints: ModelService -> seq<IstioEndpoint>,
    isHTTP: string -> bool,
    shard: string,
    features: Features)

  // ---------------------------------------------------------------------
  // Slice labels
  // ---------------------------------------------------------------------

  /** The Service name a slice names through its service-name label. */
  function ServiceNameForEndpointSlice(labels: map<string, string>): (name: string)
    ensures LabelServiceName in labels ==> name == labels[LabelServiceName]
    ensures LabelServiceName !in labels ==> name == ""
  {
    LabelValue(labels, LabelServiceName)
  }

  /** The (namespace, name) of the Service that owns a slice. */
  function ServiceNamespacedName(slice: EndpointSlice): (nn: NamespacedName)
    ensures nn.namespace == slice.namespace
    ensures LabelServiceName in slice.labels ==> nn.name == slice.labels[LabelServiceName]
    ensures LabelServiceName !in slice.labels ==> nn.name == ""
  {
    NamespacedName(slice.namespace, ServiceNameForEndpointSlice(slice.labels))
  }

  /** The controller's selector: the multi-cluster service-name label is absent. */
  predicate SelectedByController(slice: EndpointSlice)
  {
    McsLabelServiceName !in slice.labels
  }

  /** The selector for one Service's slices: the controller's selector plus service-name == name. */
  predicate SelectedForService(slice: EndpointSlice, name: string)
  {
    SelectedByController(slice) && LabelServiceName in slice.labels && slice.labels[LabelServiceName] == name
  }
}

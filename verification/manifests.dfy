/** The object manifests the provisioner derives from a record: names,
    cross-references, the ingress route, and the resource requests/limits in
    which the sentinel "0" means "leave this dimension out". */
module Manifests {
  import opened Base
  import opened Entity

  const DefaultNamespace: string := "workspace"
  const DefaultIngressClass: string := "nginx"
  const IngressClassAnnotation: string := "kubernetes.io/ingress.class"
  const HostSuffix: string := ".example.com"
  const ClaimSuffix: string := "-pvc"
  const Unbounded: string := "0"
  const AppLabel: string := "app"
  const VolumeName: string := "data"
  const MountPath: string := "/app/data"
  const ContainerName: string := "langflow"
  const Image: string := "langflowai/langflow:1.4.1"
  const ContainerPort: nat := 7860
  const ServicePort: nat := 80
  const ClaimStorage: string := "10Gi"
  const ClaimAccessMode: string := "ReadWriteOnce"

  /** A nullable requests/limits entry: `cpu !== '0'` holds for a null cpu, which is then copied as null. */
  type Quantities = map<string, Option<string>>

  datatype Resources = Resources(requests: Quantities, limits: Quantities)

  datatype EnvVar = EnvVar(name: string, value: string)

  datatype ClaimManifest = ClaimManifest(name: string, accessModes: seq<string>, storage: string)

  datatype DeploymentManifest = DeploymentManifest(
    name: string,
    replicas: nat,
    matchLabels: map<string, string>,
    podLabels: map<string, string>,
    containerName: string,
    image: string,
    containerPort: nat,
    mountVolume: string,
    mountPath: string,
    resources: Resources,
    env: seq<EnvVar>,
    volumeName: string,
    claimName: string)

  datatype ServiceManifest = ServiceManifest(
    name: string,
    selector: map<string, string>,
    port: nat,
    targetPort: nat)

  datatype IngressManifest = IngressManifest(
    name: string,
    annotations: map<string, string>,
    host: string,
    path: string,
    pathType: string,
    backendService: string,
    backendPort: nat)

  /** The namespace every object of a record lives in: the record's own when it
      is non-empty, "workspace" otherwise. It is never empty. */
  function EffectiveNamespace(ns: Option<string>): (r: string)
    ensures r != ""
    ensures Truthy(ns) ==> r == ns.value
    ensures !Truthy(ns) ==> r == DefaultNamespace
  {
    OrElse(ns, DefaultNamespace)
  }

  /** The requests and limits of the workload container. A dimension whose
      value is the sentinel "0" is left out; any other value (null included) is
      copied to both maps, which therefore always agree. */
  function ResourcesFor(r: WorkspaceResource): (res: Resources)
    ensures res.requests == res.limits
    ensures res.requests.Keys <= {"cpu", "memory"}
    ensures "cpu" in res.requests <==> r.cpu != Some(Unbounded)
    ensures "cpu" in res.requests ==> res.requests["cpu"] == r.cpu
    ensures "memory" in res.requests <==> r.memory != Some(Unbounded)
    ensures "memory" in res.requests ==> res.requests["memory"] == r.memory
    ensures r.cpu == Some(Unbounded) && r.memory == Some(Unbounded) ==> res.requests == map[] && res.limits == map[]
  {
    var cpu: Quantities := if r.cpu != Some(Unbounded) then map["cpu" := r.cpu] else map[];
    var both := if r.memory != Some(Unbounded) then cpu["memory" := r.memory] else cpu;
    Resources(both, both)
  }

  /** The storage claim: named after the key with the "-pvc" suffix. */
  function ClaimFor(r: WorkspaceResource): (m: ClaimManifest)
    ensures m.name == r.key + ClaimSuffix
    ensures |m.name| == |r.key| + 4 && m.name[..|r.key|] == r.key
  {
    ClaimManifest(r.key + ClaimSuffix, [ClaimAccessMode], ClaimStorage)
  }

  /** The workload: its volume claims exactly the storage claim, its selector
      and pod template carry the same single label, and it mounts the volume it
      declares. */
  function DeploymentFor(r: WorkspaceResource): (m: DeploymentManifest)
    ensures m.name == r.key
    ensures m.claimName == ClaimFor(r).name
    ensures m.matchLabels == m.podLabels == map[AppLabel := r.key]
    ensures m.mountVolume == m.volumeName
    ensures m.resources == ResourcesFor(r)
    ensures m.replicas == 1
  {
    DeploymentManifest(
      r.key, 1,
      map[AppLabel := r.key], map[AppLabel := r.key],
      ContainerName, Image, ContainerPort,
      VolumeName, MountPath,
      ResourcesFor(r),
      [EnvVar("LANGFLOW_SUPERUSER", "admin"), EnvVar("LANGFLOW_SUPERUSER_PASSWORD", "admin")],
      VolumeName, r.key + ClaimSuffix)
  }

  /** The service: it selects the deployment's pods and forwards its port to
      the container port. */
  function ServiceFor(r: WorkspaceResource): (m: ServiceManifest)
    ensures m.name == DeploymentFor(r).name
    ensures m.selector == DeploymentFor(r).podLabels == DeploymentFor(r).matchLabels
    ensures m.targetPort == DeploymentFor(r).containerPort == ContainerPort == 7860
    ensures m.port == ServicePort == 80
  {
    ServiceManifest(r.key, map[AppLabel := r.key], ServicePort, ContainerPort)
  }

  /** The ingress route: host `<key>.example.com`, class the record's when
      non-empty and "nginx" otherwise, backend the service on the service's port. */
  function IngressFor(r: WorkspaceResource): (m: IngressManifest)
    ensures m.name == r.key
    ensures m.host == r.key + HostSuffix
    ensures IngressClassAnnotation in m.annotations
    ensures Truthy(r.ingressClass) ==> m.annotations[IngressClassAnnotation] == r.ingressClass.value
    ensures !Truthy(r.ingressClass) ==> m.annotations[IngressClassAnnotation] == DefaultIngressClass
    ensures m.backendService == ServiceFor(r).name
    ensures m.backendPort == ServiceFor(r).port == 80
    ensures m.path == "/" && m.pathType == "Prefix"
  {
    IngressManifest(
      r.key,
      map[IngressClassAnnotation := OrElse(r.ingressClass, DefaultIngressClass)],
      r.key + HostSuffix, "/", "Prefix",
      r.key, ServicePort)
  }
}

/** The orchestrator seen through the three calls the provisioner uses: an
    abstract cluster holding object identities, a log of every call made, and a
    fixed set of calls that fail with an injected error. */
module Cluster {

  datatype Kind = Namespace | PersistentVolumeClaim | Deployment | Service | Ingress

  /** An object identity; namespaces themselves are cluster-scoped and carry "". */
  datatype ObjRef = ObjRef(kind: Kind, namespace: string, name: string)

  datatype Verb = Read | Create | Delete

  datatype Call = Call(verb: Verb, target: ObjRef)

  datatype ApiError = NotFound | AlreadyExists | Injected

  datatype Outcome = Done | Failed(error: ApiError)

  /** The calls that fail with `Injected` (transport or API failures). */
  type Faults = set<Call>

  datatype World = World(objects: set<ObjRef>, log: seq<Call>)

  /** A world after one call, with the call's outcome. */
  datatype Step = Step(world: World, outcome: Outcome)

  function NamespaceRef(ns: string): ObjRef {
    ObjRef(Namespace, "", ns)
  }

  /** A read succeeds only when the object exists and the read is not faulted. */
  function ReadObject(w: World, f: Faults, o: ObjRef): Step {
    var w' := World(w.objects, w.log + [Call(Read, o)]);
    if o !in w.objects then Step(w', Failed(NotFound))
    else if Call(Read, o) in f then Step(w', Failed(Injected))
    else Step(w', Done)
  }

  /** A create fails when the object already exists or the create is faulted. */
  function CreateObject(w: World, f: Faults, o: ObjRef): Step {
    var log := w.log + [Call(Create, o)];
    if o in w.objects then Step(World(w.objects, log), Failed(AlreadyExists))
    else if Call(Create, o) in f then Step(World(w.objects, log), Failed(Injected))
    else Step(World(w.objects + {o}, log), Done)
  }

  /** A delete removes an existing object; it fails when the object is absent or the delete is faulted. */
  function DeleteObject(w: World, f: Faults, o: ObjRef): Step {
    var log := w.log + [Call(Delete, o)];
    if o !in w.objects then Step(World(w.objects, log), Failed(NotFound))
    else if Call(Delete, o) in f then Step(World(w.objects, log), Failed(Injected))
    else Step(World(w.objects - {o}, log), Done)
  }
}

/** The existence verifier and the create and delete paths of the resource
    provisioner, over the abstract cluster. Every object of a record is located
    by a name derived from its key, in its effective namespace. */
module Provisioner {
  import opened Base
  import opened Entity
  import opened Cluster
  import opened Manifests

  function NamespaceOf(r: WorkspaceResource): ObjRef {
    NamespaceRef(EffectiveNamespace(r.namespace))
  }

  function ClaimRef(r: WorkspaceResource): ObjRef {
    ObjRef(PersistentVolumeClaim, EffectiveNamespace(r.namespace), ClaimFor(r).name)
  }

  function DeploymentRef(r: WorkspaceResource): ObjRef {
    ObjRef(Deployment, EffectiveNamespace(r.namespace), DeploymentFor(r).name)
  }

  function ServiceRef(r: WorkspaceResource): ObjRef {
    ObjRef(Service, EffectiveNamespace(r.namespace), ServiceFor(r).name)
  }

  function IngressRef(r: WorkspaceResource): ObjRef {
    ObjRef(Ingress, EffectiveNamespace(r.namespace), IngressFor(r).name)
  }

  /** The four managed objects, in the order they are read and created. */
  function CreationOrder(r: WorkspaceResource): seq<ObjRef> {
    [ClaimRef(r), DeploymentRef(r), ServiceRef(r), IngressRef(r)]
  }

  /** The four managed objects, in the order they are deleted. */
  function DeletionOrder(r: WorkspaceResource): seq<ObjRef> {
    [IngressRef(r), ServiceRef(r), DeploymentRef(r), ClaimRef(r)]
  }

  /** A record's cluster footprint. */
  function Footprint(r: WorkspaceResource): set<ObjRef> {
    {ClaimRef(r), DeploymentRef(r), ServiceRef(r), IngressRef(r)}
  }

  function Calls(v: Verb, refs: seq<ObjRef>): seq<Call> {
    seq(|refs|, i requires 0 <= i < |refs| => Call(v, refs[i]))
  }

  function Elems(refs: seq<ObjRef>): set<ObjRef> {
    set o | o in refs
  }

  lemma CallsOfPrefix(v: Verb, refs: seq<ObjRef>, n: nat)
    requires 1 <= n <= |refs|
    ensures Calls(v, refs[..n]) == [Call(v, refs[0])] + Calls(v, refs[1..][..n - 1])
  {
  }

  lemma ElemsOfPrefix(refs: seq<ObjRef>, n: nat)
    requires 1 <= n <= |refs|
    ensures Elems(refs[..n]) == {refs[0]} + Elems(refs[1..][..n - 1])
  {
    assert refs[..n] == [refs[0]] + refs[1..][..n - 1];
  }

  predicate Distinct(refs: seq<ObjRef>) {
    forall i, j :: 0 <= i < j < |refs| ==> refs[i] != refs[j]
  }

  /** Every object a record touches lies in its effective namespace; the
      namespace object itself is named after it. The three orders list the same
      four distinct objects. */
  lemma FootprintInEffectiveNamespace(r: WorkspaceResource)
    ensures forall o :: o in Footprint(r) ==> o.namespace == EffectiveNamespace(r.namespace)
    ensures NamespaceOf(r).name == EffectiveNamespace(r.namespace) && NamespaceOf(r) !in Footprint(r)
    ensures |Footprint(r)| == 4 && Distinct(CreationOrder(r))
    ensures forall o :: o in Footprint(r) <==> o in CreationOrder(r)
    ensures forall o :: o in Footprint(r) <==> o in DeletionOrder(r)
  {
  }

  /** Records whose keys differ share no managed object: the binding between a
      row and its objects is by name only. */
  lemma DistinctKeysDisjointFootprints(r1: WorkspaceResource, r2: WorkspaceResource)
    requires r1.key != r2.key
    ensures Footprint(r1) !! Footprint(r2)
  {
  }

  // ---------------------------------------------------------------------------
  // Existence verifier

  predicate Readable(w: World, f: Faults, o: ObjRef) {
    o in w.objects && Call(Read, o) !in f
  }

  datatype Check = Check(world: World, present: bool)

  /** Four reads, every error of which is caught and read as absence; the
      record is present exactly when all four reads succeed. The check never
      throws and changes no object. */
  function VerifyResources(w: World, f: Faults, r: WorkspaceResource): (c: Check)
    ensures c.world.objects == w.objects
    ensures c.world.log == w.log + Calls(Read, CreationOrder(r))
    ensures c.present <==> forall o :: o in Footprint(r) ==> Readable(w, f, o)
  {
    var claim := ReadObject(w, f, ClaimRef(r));
    var deployment := ReadObject(claim.world, f, DeploymentRef(r));
    var service := ReadObject(deployment.world, f, ServiceRef(r));
    var ingress := ReadObject(service.world, f, IngressRef(r));
    assert claim.outcome.Done? <==> Readable(w, f, ClaimRef(r));
    assert deployment.outcome.Done? <==> Readable(w, f, DeploymentRef(r));
    assert service.outcome.Done? <==> Readable(w, f, ServiceRef(r));
    assert ingress.outcome.Done? <==> Readable(w, f, IngressRef(r));
    Check(ingress.world,
          claim.outcome.Done? && deployment.outcome.Done? && service.outcome.Done? && ingress.outcome.Done?)
  }

  /** With three of the four objects present the record still reads as missing. */
  lemma {:induction false} VerifyMissingOne(w: World, f: Faults, r: WorkspaceResource, o: ObjRef)
    requires o in Footprint(r) && o !in w.objects
    ensures !VerifyResources(w, f, r).present
  {
    assert !Readable(w, f, o);
  }

  // ---------------------------------------------------------------------------
  // Create path

  /** A create of `o` would fail: the object exists or the create is faulted. */
  predicate Blocked(objects: set<ObjRef>, f: Faults, o: ObjRef) {
    o in objects || Call(Create, o) in f
  }

  /** The index of the first object in `refs` whose create would fail, or `|refs|`. */
  function FirstBlocked(objects: set<ObjRef>, f: Faults, refs: seq<ObjRef>): (k: nat)
    ensures k <= |refs|
    ensures forall i :: 0 <= i < k ==> !Blocked(objects, f, refs[i])
    ensures k < |refs| ==> Blocked(objects, f, refs[k])
  {
    if refs == [] || Blocked(objects, f, refs[0]) then 0 else 1 + FirstBlocked(objects, f, refs[1..])
  }

  lemma {:induction false} FirstBlockedIgnores(objects: set<ObjRef>, o: ObjRef, f: Faults, refs: seq<ObjRef>)
    requires o !in refs
    ensures FirstBlocked(objects + {o}, f, refs) == FirstBlocked(objects, f, refs)
    decreases |refs|
  {
    if refs != [] {
      FirstBlockedIgnores(objects, o, f, refs[1..]);
    }
  }

  /** The number of calls a create sequence makes: up to and including the
      first one that fails. */
  function Attempted(k: nat, n: nat): nat {
    if k < n then k + 1 else n
  }

  /** Creates `refs` in order; the first error stops the sequence and is
      returned. Exactly the objects before the first blocked one are added. */
  function CreateInOrder(w: World, f: Faults, refs: seq<ObjRef>): (s: Step)
    requires Distinct(refs)
    ensures s.outcome.Done? <==> FirstBlocked(w.objects, f, refs) == |refs|
    ensures s.outcome.Failed? ==>
      var k := FirstBlocked(w.objects, f, refs);
      s.outcome.error == (if refs[k] in w.objects then AlreadyExists else Injected)
    ensures s.world.log == w.log + Calls(Create, refs[..Attempted(FirstBlocked(w.objects, f, refs), |refs|)])
    ensures s.world.objects == w.objects + Elems(refs[..FirstBlocked(w.objects, f, refs)])
    decreases |refs|
  {
    if refs == [] then Step(w, Done)
    else
      var first := CreateObject(w, f, refs[0]);
      if first.outcome.Failed? then
        assert refs[..0] == [] && refs[..1] == [refs[0]];
        first
      else
        FirstBlockedIgnores(w.objects, refs[0], f, refs[1..]);
        var k := FirstBlocked(w.objects, f, refs);
        CallsOfPrefix(Create, refs, Attempted(k, |refs|));
        ElemsOfPrefix(refs, k);
        CreateInOrder(first.world, f, refs[1..])
  }

  /** Creates the namespace `ns`, ignoring any error, then the objects `refs`
      in order, stopping at the first error. */
  function CreateAfterNamespace(w: World, f: Faults, ns: ObjRef, refs: seq<ObjRef>): (s: Step)
    requires Distinct(refs) && ns !in refs
    ensures s.outcome.Done? <==> FirstBlocked(w.objects, f, refs) == |refs|
    ensures s.outcome.Failed? ==>
      var k := FirstBlocked(w.objects, f, refs);
      s.outcome.error == (if refs[k] in w.objects then AlreadyExists else Injected)
    ensures s.world.log
         == w.log + [Call(Create, ns)] + Calls(Create, refs[..Attempted(FirstBlocked(w.objects, f, refs), |refs|)])
    ensures s.world.objects
         == w.objects + (if Blocked(w.objects, f, ns) then {} else {ns}) + Elems(refs[..FirstBlocked(w.objects, f, refs)])
  {
    var created := CreateObject(w, f, ns);  // any error: "namespace already exists"
    FirstBlockedIgnores(w.objects, ns, f, refs);
    CreateInOrder(created.world, f, refs)
  }

  /** The create path: the namespace create's error is swallowed; then the
      claim, deployment, service and ingress are created in that order, the
      first error aborting the rest and propagating. */
  function CreateK8sResources(w: World, f: Faults, r: WorkspaceResource): (s: Step)
    ensures s.outcome.Done? <==> FirstBlocked(w.objects, f, CreationOrder(r)) == 4
    ensures s.outcome.Failed? ==>
      var k := FirstBlocked(w.objects, f, CreationOrder(r));
      s.outcome.error == (if CreationOrder(r)[k] in w.objects then AlreadyExists else Injected)
    ensures s.world.log
         == w.log + [Call(Create, NamespaceOf(r))]
          + Calls(Create, CreationOrder(r)[..Attempted(FirstBlocked(w.objects, f, CreationOrder(r)), 4)])
    ensures s.world.objects
         == w.objects
          + (if Blocked(w.objects, f, NamespaceOf(r)) then {} else {NamespaceOf(r)})
          + Elems(CreationOrder(r)[..FirstBlocked(w.objects, f, CreationOrder(r))])
  {
    FootprintInEffectiveNamespace(r);
    CreateAfterNamespace(w, f, NamespaceOf(r), CreationOrder(r))
  }

  /** The create path succeeds exactly when none of the four objects exists or
      has a faulted create; then all four exist and at most the namespace was
      added besides them. */
  lemma CreateSucceedsIff(w: World, f: Faults, r: WorkspaceResource)
    ensures var s := CreateK8sResources(w, f, r);
      && (s.outcome.Done? <==> forall o :: o in Footprint(r) ==> !Blocked(w.objects, f, o))
      && (s.outcome.Done? ==> Footprint(r) <= s.world.objects && s.world.objects - w.objects <= Footprint(r) + {NamespaceOf(r)})
  {
    var s := CreateK8sResources(w, f, r);
    var k := FirstBlocked(w.objects, f, CreationOrder(r));
    var order := CreationOrder(r);
    assert order[..4] == order;
    assert Footprint(r) == {order[0], order[1], order[2], order[3]};
    if k < 4 {
      assert order[k] in Footprint(r) && Blocked(w.objects, f, order[k]);
    } else {
      assert forall i :: 0 <= i < 4 ==> !Blocked(w.objects, f, order[i]);
    }
  }

  /** The create path never removes an object, only appends to the log, and
      adds nothing but the record's own objects and its namespace. */
  lemma CreateAddsOnlyFootprint(w: World, f: Faults, r: WorkspaceResource)
    ensures var s := CreateK8sResources(w, f, r);
      && w.objects <= s.world.objects && w.log <= s.world.log
      && s.world.objects - w.objects <= Footprint(r) + {NamespaceOf(r)}
  {
    var k := FirstBlocked(w.objects, f, CreationOrder(r));
    var order := CreationOrder(r);
    assert Elems(order[..k]) <= Footprint(r) by {
      forall o | o in Elems(order[..k])
        ensures o in Footprint(r)
      {
        var i :| 0 <= i < k && order[..k][i] == o;
      }
    }
  }

  /** With no injected errors, provisioning a record none of whose objects
      exists creates the namespace and the four objects, in order. */
  lemma ProvisionFresh(w: World, r: WorkspaceResource)
    requires Footprint(r) !! w.objects
    ensures var s := CreateK8sResources(w, {}, r);
      && s.outcome.Done?
      && s.world.objects == w.objects + {NamespaceOf(r)} + Footprint(r)
      && s.world.log == w.log + [Call(Create, NamespaceOf(r))] + Calls(Create, CreationOrder(r))
  {
    FootprintInEffectiveNamespace(r);
    var order := CreationOrder(r);
    assert FirstBlocked(w.objects, {}, order) == 4 by {
      CreateSucceedsIff(w, {}, r);
    }
    assert order[..4] == order;
    assert Elems(order) == Footprint(r);
    var ns := NamespaceOf(r);
    assert w.objects + (if Blocked(w.objects, {}, ns) then {} else {ns}) == w.objects + {ns};
  }

  /** An existing claim makes the create path fail before any deployment is
      submitted: only the namespace and claim creates are attempted. */
  lemma ExistingClaimStopsCreate(w: World, f: Faults, r: WorkspaceResource)
    requires ClaimRef(r) in w.objects
    ensures var s := CreateK8sResources(w, f, r);
      && s.outcome == Failed(AlreadyExists)
      && s.world.log == w.log + [Call(Create, NamespaceOf(r)), Call(Create, ClaimRef(r))]
      && s.world.objects - w.objects <= {NamespaceOf(r)}
  {
    var k := FirstBlocked(w.objects, f, CreationOrder(r));
    assert k == 0;
    assert Calls(Create, CreationOrder(r)[..1]) == [Call(Create, ClaimRef(r))];
  }

  // ---------------------------------------------------------------------------
  // Delete path

  /** Deletes the ingress, service, deployment and claim in that order,
      swallowing every error, so it never fails. Each managed object is gone
      afterwards unless its delete was faulted; nothing else changes. */
  function DeleteLangflowResources(w: World, f: Faults, r: WorkspaceResource): (w': World)
    ensures w'.log == w.log + Calls(Delete, DeletionOrder(r))
    ensures forall o :: o in w'.objects <==> o in w.objects && (o in Footprint(r) ==> Call(Delete, o) in f)
  {
    var ingress := DeleteObject(w, f, IngressRef(r));
    var service := DeleteObject(ingress.world, f, ServiceRef(r));
    var deployment := DeleteObject(service.world, f, DeploymentRef(r));
    var claim := DeleteObject(deployment.world, f, ClaimRef(r));
    claim.world
  }

  /** Without injected delete errors the footprint is removed and nothing else. */
  lemma DeleteRemovesFootprint(w: World, f: Faults, r: WorkspaceResource)
    requires forall o :: o in Footprint(r) ==> Call(Delete, o) !in f
    ensures DeleteLangflowResources(w, f, r).objects == w.objects - Footprint(r)
  {
    var w' := DeleteLangflowResources(w, f, r);
    assert forall o :: o in w'.objects <==> o in w.objects - Footprint(r);
  }

  /** Running the delete path twice leaves the same objects as running it once. */
  lemma DeleteIdempotent(w: World, f: Faults, r: WorkspaceResource)
    ensures var once := DeleteLangflowResources(w, f, r);
      DeleteLangflowResources(once, f, r).objects == once.objects
  {
    var once := DeleteLangflowResources(w, f, r);
    var twice := DeleteLangflowResources(once, f, r);
    assert forall o :: o in twice.objects <==> o in once.objects;
  }
}

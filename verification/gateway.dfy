/** The lifecycle gateway behind the CRUD endpoints: reads and writes the
    store, provisions on create and deprovisions on remove. */
module Gateway {
  import opened Base
  import opened Entity
  import Cluster
  import opened Provisioner
  import KeyGen
  import Store

  datatype System = System(table: Store.Table, world: Cluster.World)

  datatype GatewayError = NotFound(id: int) | ClusterError(error: Cluster.ApiError)

  /** The system after a call, and what the call returned or threw. */
  datatype Reply<T> = Reply(system: System, result: Result<T, GatewayError>)

  /** All stored records, each exactly once. */
  function FindAll(sys: System): (rs: seq<WorkspaceResource>)
    requires Store.Valid(sys.table)
    ensures forall r :: r in rs <==> r in sys.table.rows.Values
    ensures |rs| == |sys.table.rows|
  {
    Store.FindAll(sys.table)
  }

  /** The stored record, unchanged, or NotFound. */
  function FindOne(sys: System, id: int): (r: Result<WorkspaceResource, GatewayError>)
    ensures id in sys.table.rows <==> r.Ok?
    ensures r.Ok? ==> r.value == sys.table.rows[id]
    ensures r.Ok? && Store.Valid(sys.table) ==> r.value.id == id
    ensures r.Err? ==> r.error == NotFound(id)
  {
    match Store.FindOneBy(sys.table, id)
    case None => Err(NotFound(id))
    case Some(row) => Ok(row)
  }

  /** The key a created record gets: the draft's when it is non-empty, a
      generated one otherwise. */
  function KeyFor(d: Draft, timestamp: nat, random: nat): (key: string)
    requires random <= 999
    ensures Truthy(d.key) ==> key == d.key.value
    ensures !Truthy(d.key) ==> key == KeyGen.GeneratedKey(timestamp, random)
    ensures !Truthy(d.key) ==> KeyGen.ParseGeneratedKey(key) == Some((timestamp, random))
    ensures !Truthy(d.key) ==> |key| <= |KeyGen.KeyPrefix| + |KeyGen.Decimal(timestamp)| + 4
  {
    if Truthy(d.key) then d.key.value else KeyGen.GeneratedKey(timestamp, random)
  }

  /** Persist, then provision. The new row is committed whether or not
      provisioning succeeds; a provisioning error propagates to the caller.
      `timestamp` and `random` stand for the clock and `Math.random()`. */
  function Create(sys: System, f: Cluster.Faults, d: Draft, timestamp: nat, random: nat): (rep: Reply<WorkspaceResource>)
    requires Store.Valid(sys.table) && random <= 999
    ensures Store.Valid(rep.system.table)
    ensures var saved := FromDraft(d, KeyFor(d, timestamp, random), sys.table.nextId);
      && saved.id !in sys.table.rows
      && rep.system.table.rows == sys.table.rows[saved.id := saved]
      && rep.system.world == CreateK8sResources(sys.world, f, saved).world
      && (rep.result.Ok? <==> CreateK8sResources(sys.world, f, saved).outcome.Done?)
      && (rep.result.Ok? ==> rep.result.value == saved)
      && (rep.result.Err? ==> rep.result.error == ClusterError(CreateK8sResources(sys.world, f, saved).outcome.error))
  {
    var key := KeyFor(d, timestamp, random);
    var inserted := Store.Insert(sys.table, FromDraft(d, key, 0));
    var step := CreateK8sResources(sys.world, f, inserted.row);
    Reply(System(inserted.table, step.world),
          if step.outcome.Done? then Ok(inserted.row) else Err(ClusterError(step.outcome.error)))
  }

  /** Store-only: the cluster is not touched, and the reply is what `FindOne`
      gives afterwards (NotFound for an absent id, which leaves everything as it was). */
  function Update(sys: System, id: int, p: Patch): (rep: Reply<WorkspaceResource>)
    requires Store.Valid(sys.table)
    ensures Store.Valid(rep.system.table)
    ensures rep.system.world == sys.world
    ensures rep.result == FindOne(rep.system, id)
    ensures id !in sys.table.rows ==> rep == Reply(sys, Err(NotFound(id)))
    ensures id in sys.table.rows ==>
      && rep.result == Ok(Patched(sys.table.rows[id], p))
      && rep.system.table.rows == sys.table.rows[id := Patched(sys.table.rows[id], p)]
  {
    var t := Store.UpdateRow(sys.table, id, p);
    var sys' := System(t, sys.world);
    Reply(sys', FindOne(sys', id))
  }

  /** Look the record up, deprovision it, then delete the row. An absent id is
      NotFound with nothing changed; otherwise the row goes, the other rows stay,
      and the delete path's effect is the only cluster change. The store's
      "no row affected" NotFound is never reached. */
  function Remove(sys: System, f: Cluster.Faults, id: int): (rep: Reply<()>)
    requires Store.Valid(sys.table)
    ensures Store.Valid(rep.system.table)
    ensures id !in sys.table.rows ==> rep == Reply(sys, Err(NotFound(id)))
    ensures id in sys.table.rows ==>
      && rep.result == Ok(())
      && rep.system.table.rows == sys.table.rows - {id}
      && rep.system.world == DeleteLangflowResources(sys.world, f, sys.table.rows[id])
  {
    match FindOne(sys, id)
    case Err(e) => Reply(sys, Err(e))
    case Ok(resource) =>
      var w := DeleteLangflowResources(sys.world, f, resource);
      var deleted := Store.DeleteRow(sys.table, id);
      Reply(System(deleted.table, w), if deleted.affected == 0 then Err(NotFound(id)) else Ok(()))
  }

  /** The row a create inserts is committed and readable whether or not
      provisioning succeeded, so the next reconciliation cycle lists it; the
      listing grows by exactly that row. */
  lemma CreatedRowPersists(sys: System, f: Cluster.Faults, d: Draft, timestamp: nat, random: nat)
    requires Store.Valid(sys.table) && random <= 999
    ensures var rep := Create(sys, f, d, timestamp, random);
      && FindOne(rep.system, sys.table.nextId) == Ok(NewRow(sys, d, timestamp, random))
      && NewRow(sys, d, timestamp, random) in FindAll(rep.system)
      && |FindAll(rep.system)| == |FindAll(sys)| + 1
  {
    var rep := Create(sys, f, d, timestamp, random);
    var saved := NewRow(sys, d, timestamp, random);
    assert saved in rep.system.table.rows.Values by {
      assert rep.system.table.rows[saved.id] == saved;
    }
  }

  /** An update that changes the key leaves the record pointing at objects
      disjoint from the ones provisioned under the old key. */
  lemma KeyChangeUnlinksObjects(sys: System, id: int, p: Patch)
    requires Store.Valid(sys.table) && id in sys.table.rows
    requires p.key.Assign? && p.key.value != sys.table.rows[id].key
    ensures Update(sys, id, p).result.Ok?
    ensures Footprint(Update(sys, id, p).result.value) !! Footprint(sys.table.rows[id])
  {
    DistinctKeysDisjointFootprints(Update(sys, id, p).result.value, sys.table.rows[id]);
  }

  /** The row `Create` inserts. */
  function NewRow(sys: System, d: Draft, timestamp: nat, random: nat): WorkspaceResource
    requires random <= 999
  {
    FromDraft(d, KeyFor(d, timestamp, random), sys.table.nextId)
  }

  /** Creating a record and removing it again, with no injected errors and none
      of its objects present: the namespace and the four objects are created in
      order, the four objects are deleted in reverse order, and afterwards the
      store holds the same rows as before and the cluster differs at most by the
      shared namespace. */
  lemma CreateThenRemove(sys: System, d: Draft, timestamp: nat, random: nat)
    requires Store.Valid(sys.table) && random <= 999
    requires Footprint(NewRow(sys, d, timestamp, random)) !! sys.world.objects
    ensures Create(sys, {}, d, timestamp, random).result == Ok(NewRow(sys, d, timestamp, random))
    ensures Remove(Create(sys, {}, d, timestamp, random).system, {}, sys.table.nextId).result == Ok(())
    ensures Remove(Create(sys, {}, d, timestamp, random).system, {}, sys.table.nextId).system.table.rows
         == sys.table.rows
    ensures Remove(Create(sys, {}, d, timestamp, random).system, {}, sys.table.nextId).system.world.objects
         == sys.world.objects + {NamespaceOf(NewRow(sys, d, timestamp, random))}
    ensures Remove(Create(sys, {}, d, timestamp, random).system, {}, sys.table.nextId).system.world.log
         == sys.world.log
          + [Cluster.Call(Cluster.Create, NamespaceOf(NewRow(sys, d, timestamp, random)))]
          + Calls(Cluster.Create, CreationOrder(NewRow(sys, d, timestamp, random)))
          + Calls(Cluster.Delete, DeletionOrder(NewRow(sys, d, timestamp, random)))
  {
    var r := NewRow(sys, d, timestamp, random);
    var created := Create(sys, {}, d, timestamp, random);
    var w1 := CreateK8sResources(sys.world, {}, r);
    assert w1.outcome.Done? && w1.world.objects == sys.world.objects + {NamespaceOf(r)} + Footprint(r)
      && w1.world.log == sys.world.log + [Cluster.Call(Cluster.Create, NamespaceOf(r))] + Calls(Cluster.Create, CreationOrder(r)) by {
      ProvisionFresh(sys.world, r);
    }
    assert created.system == System(created.system.table, w1.world);
    assert r.id in created.system.table.rows && created.system.table.rows[r.id] == r;
    var removed := Remove(created.system, {}, r.id);
    assert removed.system.table.rows == sys.table.rows by {
      assert created.system.table.rows - {r.id} == sys.table.rows;
    }
    DeleteRemovesFootprint(w1.world, {}, r);
    FootprintInEffectiveNamespace(r);
  }
}

# Workspace resource reconciler — a Dafny model

The workspace server keeps one desired-state record (`WorkspaceResource`) per
tenant workspace and, for each record, four orchestrator objects in the
record's namespace: a storage claim `<key>-pvc` and a deployment, service and
ingress route all named `<key>`. This project models, in Dafny, the core of
`k8s.service.ts` (existence verifier, create path, delete path, one
reconciliation cycle) and of `workspace-resources.service.ts` (the lifecycle
gateway: `findAll`, `findOne`, `create`, `update`, `remove`), and proves the
properties those files promise.

The real orchestrator client is replaced by an abstract cluster
(`Cluster.World`): a set of object identities `(kind, namespace, name)` plus a
log of every read, create and delete call made, in order. A read succeeds only
if the object exists, a create fails if it already exists, a delete fails if it
is absent, and any call listed in a fixed fault set (`Cluster.Faults`) fails
with an injected error instead. The relational store is a map from primary key
to row with an auto-increment counter (`Store.Table`). Every operation is a
pure function returning the new state with `Ok`/`Err`; one cycle is also
written as a loop (`Reconciler.SyncCycle`).

Files: `base.dfy` (Option, Result, JavaScript truthiness), `entity.dfy` (the
record, the create draft, the update patch), `cluster.dfy` (the abstract
cluster), `manifests.dfy` (names and manifests derived from a record),
`provisioner.dfy` (verify, create path, delete path), `reconciler.dfy` (the
cycle), `store.dfy` (the table), `keygen.dfy` (generated keys), `gateway.dfy`
(the lifecycle gateway). `createLangflowResources` only forwards to
`createK8sResources`, so `Gateway.Create` calls `Provisioner.CreateK8sResources`
directly.

The error handling is modelled as the code behaves, not as its log messages
suggest:

- The log messages of the delete path say "not found", but each `.catch` in
  k8s.service.ts:314-338 swallows every error. So the delete path never fails,
  and an error other than not-found does not stop the remaining deletes.
- The namespace create logs "already exists", but its `.catch`
  (k8s.service.ts:126) swallows every error.
- The verifier's `.catch(() => null)` at k8s.service.ts:86-104 reads every read
  error as absence. Its outer `catch` can never fire, and neither can the
  delete path's outer `catch`.
- `resource.cpu !== '0'` is true for a null `cpu`, so the requests and limits
  then carry a `cpu` entry whose value is null (`None`). The same holds for
  `memory`.

## Model

| member | source | states |
|---|---|---|
| Manifests.EffectiveNamespace | packages/workspace-server/src/k8s/k8s.service.ts:80 | the namespace is the record's own when non-empty and "workspace" otherwise; it is never empty |
| Manifests.ResourcesFor | packages/workspace-server/src/k8s/k8s.service.ts:151-168 | requests has a cpu (memory) entry iff cpu (memory) is not "0", holding the record's value; limits equal requests; both empty when both fields are "0"; no other keys |
| Manifests.ClaimFor | packages/workspace-server/src/k8s/k8s.service.ts:131-148 | the claim is named after the key followed by "-pvc", so the key is recoverable as its prefix |
| Manifests.DeploymentFor | packages/workspace-server/src/k8s/k8s.service.ts:170-232 | the deployment is named `key`, has one replica, its volume claims exactly the claim's name, its selector equals its pod labels `app=key`, it mounts the volume it declares and carries the derived resources |
| Manifests.ServiceFor | packages/workspace-server/src/k8s/k8s.service.ts:235-255 | the service has the deployment's name, selects the deployment's pod labels, listens on port 80 and targets the container port 7860 |
| Manifests.IngressFor | packages/workspace-server/src/k8s/k8s.service.ts:258-293 | host is `key + ".example.com"`; the class annotation is the record's class when non-empty and "nginx" otherwise; the backend is the service by name on the service's port 80, path "/" with prefix match |
| Provisioner.FootprintInEffectiveNamespace | packages/workspace-server/src/k8s/k8s.service.ts:80-104 | the four objects a record reads, creates and deletes all lie in its effective namespace, are distinct, and the namespace object is named after that namespace |
| Provisioner.DistinctKeysDisjointFootprints | packages/workspace-server/src/k8s/k8s.service.ts:83-104 | records with different keys share no object, since objects are found by key-derived names only |
| Provisioner.VerifyResources | packages/workspace-server/src/k8s/k8s.service.ts:78-111 | reads claim, deployment, service, ingress in that order; reports present iff every read succeeds; changes no object and never fails |
| Provisioner.VerifyMissingOne | packages/workspace-server/src/k8s/k8s.service.ts:106 | any one object missing makes the record read as not present |
| Provisioner.CreateInOrder | packages/workspace-server/src/k8s/k8s.service.ts:130-299 | creates run in order and stop at the first blocked object; the calls made are the prefix up to and including it; exactly the objects before it are added; its error is propagated |
| Provisioner.CreateAfterNamespace | packages/workspace-server/src/k8s/k8s.service.ts:116-129 | the namespace create never aborts the sequence; it adds the namespace only when that create succeeds |
| Provisioner.CreateK8sResources | packages/workspace-server/src/k8s/k8s.service.ts:113-300 | the create path logs a namespace create then the claim, deployment, service, ingress creates up to the first failure, whose error it rethrows; it adds the namespace (if created) and the objects created before the failure |
| Provisioner.CreateSucceedsIff | packages/workspace-server/src/k8s/k8s.service.ts:130-295 | the create path succeeds iff none of the four objects exists or has a faulted create; then all four exist and nothing but them and the namespace was added |
| Provisioner.CreateAddsOnlyFootprint | packages/workspace-server/src/k8s/k8s.service.ts:116-299 | the create path never removes an object and adds nothing but the record's four objects and its namespace |
| Provisioner.ProvisionFresh | packages/workspace-server/src/k8s/k8s.service.ts:116-295 | without injected errors and with none of its objects present, the namespace and the four objects are created in order |
| Provisioner.ExistingClaimStopsCreate | packages/workspace-server/src/k8s/k8s.service.ts:131-148 | an existing claim fails the create path with AlreadyExists after only the namespace and claim creates; no deployment is attempted |
| Provisioner.DeleteLangflowResources | packages/workspace-server/src/k8s/k8s.service.ts:306-347 | deletes ingress, service, deployment, claim in that order and never fails; afterwards each of the four is gone unless its delete was faulted, and every other object is untouched |
| Provisioner.DeleteRemovesFootprint | packages/workspace-server/src/k8s/k8s.service.ts:309-341 | without injected delete errors the delete path removes exactly the footprint |
| Provisioner.DeleteIdempotent | packages/workspace-server/src/k8s/k8s.service.ts:306-347 | running the delete path twice leaves the same objects as running it once |
| Reconciler.SyncOne | packages/workspace-server/src/k8s/k8s.service.ts:57-67 | one record's turn never removes an object; a present record costs only its four reads; a missing one gains at most its own four objects and its namespace |
| Reconciler.SyncResources | packages/workspace-server/src/k8s/k8s.service.ts:51-72 | a listing failure leaves the world as it was; otherwise every listed record takes its turn; no object is removed and the log only grows |
| Reconciler.SyncOneCalls | packages/workspace-server/src/k8s/k8s.service.ts:56-64 | a present record costs exactly four reads and changes nothing; a missing one gets a namespace and a claim create right after its reads |
| Reconciler.SyncAllGrows | packages/workspace-server/src/k8s/k8s.service.ts:51-72 | a cycle never removes an object and only appends to the call log |
| Reconciler.CycleVisitsEveryRecord | packages/workspace-server/src/k8s/k8s.service.ts:56-68 | every listed record gets its reads, and a create attempt when missing, in the whole cycle's log, whatever earlier records' creates did |
| Reconciler.StallPersists | packages/workspace-server/src/k8s/k8s.service.ts:59-64 | a record whose claim exists and whose deployment does not reads as missing and stays so after its turn |
| Reconciler.RepairWithoutFaults | packages/workspace-server/src/k8s/k8s.service.ts:59-64 | without injected errors a record with none of its objects is fully provisioned by its turn |
| Reconciler.SyncCycle | packages/workspace-server/src/k8s/k8s.service.ts:51-72 | the loop over the listing equals the per-record fold; a listing failure changes nothing; objects only grow |
| KeyGen.Decimal | packages/workspace-server/src/workspace-resources/workspace-resources.service.ts:32 | the decimal rendering is a non-empty digit string without a leading zero; numbers below 1000 take at most three digits |
| KeyGen.DecimalRoundTrip | packages/workspace-server/src/workspace-resources/workspace-resources.service.ts:32 | reading a printed number back gives the number |
| KeyGen.GeneratedKey | packages/workspace-server/src/workspace-resources/workspace-resources.service.ts:32 | the template `langflow-${timestamp}-${random}` starts with `langflow-` and parses back to its timestamp and random suffix |
| KeyGen.KeyPartsRoundTrip | packages/workspace-server/src/workspace-resources/workspace-resources.service.ts:32 | `langflow-`, two printed numbers and a dash between them parse back to the two numbers |
| KeyGen.GeneratedKeysInjective | packages/workspace-server/src/workspace-resources/workspace-resources.service.ts:29-33 | distinct (timestamp, random) pairs give distinct keys |
| Store.FindAll | packages/workspace-server/src/workspace-resources/workspace-resources.service.ts:17 | the listing holds exactly the stored rows, each once, in increasing id order |
| Store.Insert | packages/workspace-server/src/workspace-resources/workspace-resources.service.ts:35-36 | save gives the row a fresh id and adds it without touching other rows |
| Store.UpdateRow | packages/workspace-server/src/workspace-resources/workspace-resources.service.ts:42 | the update patches only the row with that id, if any, and keeps the key set |
| Store.DeleteRow | packages/workspace-server/src/workspace-resources/workspace-resources.service.ts:49 | the delete removes that id only and reports one affected row iff it was present |
| Gateway.FindAll | packages/workspace-server/src/workspace-resources/workspace-resources.service.ts:16-18 | findAll returns exactly the stored records |
| Gateway.FindOne | packages/workspace-server/src/workspace-resources/workspace-resources.service.ts:20-26 | NotFound iff the id is absent; otherwise the stored record unchanged |
| Gateway.KeyFor | packages/workspace-server/src/workspace-resources/workspace-resources.service.ts:29-33 | a non-empty given key is kept; an absent or empty one is replaced by exactly `langflow-${timestamp}-${random}`, which parses back to both numbers and has at most three suffix digits |
| Gateway.Create | packages/workspace-server/src/workspace-resources/workspace-resources.service.ts:28-39 | the row is saved under a fresh id before provisioning and stays whatever provisioning does; the result is that row iff provisioning succeeds, else the provisioning error; other rows are unchanged |
| Gateway.CreatedRowPersists | packages/workspace-server/src/workspace-resources/workspace-resources.service.ts:35-38 | after create, findOne on the new id returns the saved row and findAll grows by exactly that row, even when provisioning failed |
| Gateway.Update | packages/workspace-server/src/workspace-resources/workspace-resources.service.ts:41-44 | update makes no cluster call and returns findOne after the update: NotFound with nothing changed for an absent id, else the patched row |
| Gateway.KeyChangeUnlinksObjects | packages/workspace-server/src/workspace-resources/workspace-resources.service.ts:41-44 | an update that changes the key points the record at objects disjoint from those provisioned under the old key |
| Gateway.Remove | packages/workspace-server/src/workspace-resources/workspace-resources.service.ts:46-53 | an absent id is NotFound with nothing changed; otherwise the delete path runs, the row goes, other rows stay, and the `affected === 0` NotFound is never returned |
| Gateway.CreateThenRemove | packages/workspace-server/src/workspace-resources/workspace-resources.service.ts:28-53 | with no injected errors, create then remove logs the namespace and four creates in order and then the four deletes in reverse order, restores the stored rows and leaves only the namespace behind |

## Left out

- The periodic timer, overlapping cycles and `onModuleDestroy` (k8s.service.ts:36-49): concurrency; one cycle is modelled as a sequential function and loop.
- Races between a gateway call and a running cycle: concurrency.
- Client setup and context logging (k8s.service.ts:21-30), and every log call: no effect on state.
- The store's `created_at`/`updated_at` timestamps: assigned by the persistence layer, with no effect on the core.
- Store failures on save, update and delete: the store is taken as durable. Only the cycle's listing failure is modelled, as a flag.
- A create draft or update patch that carries `id` or timestamps, and the persistence layer's handling of an empty patch: framework behaviour outside the core.
- Row order of `findAll`: the query has no ordering, so the model lists rows by increasing id.
- The real orchestrator's rules (namespaced creates needing an existing namespace, cascading namespace deletes, error kinds beyond not-found/already-exists/other): the cluster is an abstract set, and a faulted call always fails.
- The clock and `Math.random()`: parameters, with the random suffix in 0..999. The timestamp is a natural number printed exactly. A clock before 1970 would give a negative timestamp and a key such as `langflow--123-…`, which the model cannot produce. A timestamp above 2^53 could not be represented exactly as a JavaScript number and would be rounded; the model does not round.
- The remove path's "deprovision error keeps the row" case: the delete path never fails, so the case cannot arise and is not a separate branch.
- The fixed manifest constants (image, credentials, 10Gi, ReadWriteOnce, mount path) are carried as constants with no property stated about them.
- The controller, modules, configuration and web client: HTTP, dependency-injection and UI plumbing.

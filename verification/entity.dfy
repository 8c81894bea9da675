/** The desired-state record and the two partial shapes the gateway accepts. */
module Entity {
  import opened Base

  /** A row of the `workspace_resources` table. The nullable columns are
      `Option`s; `labelText` is the `label` column (`label` is a Dafny
      keyword); the store-managed creation and update timestamps are left out. */
  datatype WorkspaceResource = WorkspaceResource(
    id: int,
    key: string,
    namespace: Option<string>,
    cpu: Option<string>,
    memory: Option<string>,
    ingressClass: Option<string>,
    labelText: Option<string>,
    description: Option<string>)

  /** The body of a create request: any column may be missing, the key included. */
  datatype Draft = Draft(
    key: Option<string>,
    namespace: Option<string>,
    cpu: Option<string>,
    memory: Option<string>,
    ingressClass: Option<string>,
    labelText: Option<string>,
    description: Option<string>)

  /** One column of an update request: left alone, or assigned a value
      (for a nullable column the value may itself be `None`, i.e. null). */
  datatype Field<T> = Keep | Assign(value: T)

  /** The body of an update request. */
  datatype Patch = Patch(
    key: Field<string>,
    namespace: Field<Option<string>>,
    cpu: Field<Option<string>>,
    memory: Field<Option<string>>,
    ingressClass: Field<Option<string>>,
    labelText: Field<Option<string>>,
    description: Field<Option<string>>)

  function ApplyField<T>(f: Field<T>, current: T): T {
    match f
    case Keep => current
    case Assign(v) => v
  }

  /** The row as stored after an update that assigns the patch's columns. */
  function Patched(r: WorkspaceResource, p: Patch): WorkspaceResource {
    WorkspaceResource(
      r.id,
      ApplyField(p.key, r.key),
      ApplyField(p.namespace, r.namespace),
      ApplyField(p.cpu, r.cpu),
      ApplyField(p.memory, r.memory),
      ApplyField(p.ingressClass, r.ingressClass),
      ApplyField(p.labelText, r.labelText),
      ApplyField(p.description, r.description))
  }

  /** The row a draft becomes once its key is settled and the store assigns `id`. */
  function FromDraft(d: Draft, key: string, id: int): WorkspaceResource {
    WorkspaceResource(id, key, d.namespace, d.cpu, d.memory, d.ingressClass, d.labelText, d.description)
  }
}

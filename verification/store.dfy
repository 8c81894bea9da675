/** The desired-state store: the `workspace_resources` table with an
    auto-increment primary key. */
module Store {
  import opened Base
  import opened Entity

  /** The rows by primary key, and the next value of the key sequence. */
  datatype Table = Table(rows: map<int, WorkspaceResource>, nextId: int)

  /** Keys come from the sequence (so all lie below `nextId`) and every row
      carries its own key as `id`. */
  predicate Valid(t: Table) {
    && 1 <= t.nextId
    && forall id :: id in t.rows ==> 1 <= id < t.nextId && t.rows[id].id == id
  }

  const EmptyTable: Table := Table(map[], 1)

  lemma EmptyTableValid()
    ensures Valid(EmptyTable) && FindAll(EmptyTable) == []
  {
  }

  /** The rows whose key is at least `lo`, in increasing key order. */
  function RowsFrom(t: Table, lo: int): (rs: seq<WorkspaceResource>)
    requires Valid(t) && 1 <= lo
    ensures forall i :: 0 <= i < |rs| ==> lo <= rs[i].id && rs[i].id in t.rows && t.rows[rs[i].id] == rs[i]
    ensures forall id :: id in t.rows && lo <= id ==> t.rows[id] in rs
    ensures forall i, j :: 0 <= i < j < |rs| ==> rs[i].id < rs[j].id
    decreases t.nextId - lo
  {
    if lo >= t.nextId then []
    else if lo in t.rows then [t.rows[lo]] + RowsFrom(t, lo + 1)
    else RowsFrom(t, lo + 1)
  }

  /** Every row exactly once, in increasing key order. */
  function FindAll(t: Table): (rs: seq<WorkspaceResource>)
    requires Valid(t)
    ensures forall r :: r in rs <==> r in t.rows.Values
    ensures forall i, j :: 0 <= i < j < |rs| ==> rs[i].id < rs[j].id
    ensures |rs| == |t.rows|
  {
    var rs := RowsFrom(t, 1);
    assert forall r :: r in rs <==> r in t.rows.Values by {
      forall r | r in t.rows.Values
        ensures r in rs
      {
        var id :| id in t.rows && t.rows[id] == r;
      }
    }
    RowsAreKeys(t, rs);
    rs
  }

  /** A duplicate-free listing of the rows by ascending id has as many entries as the table. */
  lemma RowsAreKeys(t: Table, rs: seq<WorkspaceResource>)
    requires Valid(t)
    requires forall i :: 0 <= i < |rs| ==> rs[i].id in t.rows && t.rows[rs[i].id] == rs[i]
    requires forall id :: id in t.rows ==> t.rows[id] in rs
    requires forall i, j :: 0 <= i < j < |rs| ==> rs[i].id < rs[j].id
    ensures |rs| == |t.rows|
  {
    var ids := set i | 0 <= i < |rs| :: rs[i].id;
    assert ids == t.rows.Keys by {
      forall id | id in t.rows
        ensures id in ids
      {
        var i :| 0 <= i < |rs| && rs[i] == t.rows[id];
      }
    }
    IdsCount(rs);
  }

  lemma {:induction false} IdsCount(rs: seq<WorkspaceResource>)
    requires forall i, j :: 0 <= i < j < |rs| ==> rs[i].id < rs[j].id
    ensures |set i | 0 <= i < |rs| :: rs[i].id| == |rs|
  {
    if rs != [] {
      var tail := rs[1..];
      IdsCount(tail);
      var all := set i | 0 <= i < |rs| :: rs[i].id;
      var rest := set i | 0 <= i < |tail| :: tail[i].id;
      assert all == {rs[0].id} + rest by {
        forall x | x in all
          ensures x in {rs[0].id} + rest
        {
          var i :| 0 <= i < |rs| && rs[i].id == x;
          if i > 0 {
            assert tail[i - 1].id == x;
          }
        }
      }
      assert rs[0].id !in rest;
    }
  }

  function FindOneBy(t: Table, id: int): Option<WorkspaceResource> {
    if id in t.rows then Some(t.rows[id]) else None
  }

  datatype Saved = Saved(table: Table, row: WorkspaceResource)

  /** Insert: the row gets the next key of the sequence. */
  function Insert(t: Table, row: WorkspaceResource): (s: Saved)
    requires Valid(t)
    ensures Valid(s.table)
    ensures s.row == row.(id := t.nextId) && s.row.id !in t.rows
    ensures s.table.rows == t.rows[s.row.id := s.row]
  {
    var saved := row.(id := t.nextId);
    Saved(Table(t.rows[saved.id := saved], t.nextId + 1), saved)
  }

  /** `UPDATE ... WHERE id = id`: affects no row when the key is absent. */
  function UpdateRow(t: Table, id: int, p: Patch): (t': Table)
    requires Valid(t)
    ensures Valid(t')
    ensures t'.rows.Keys == t.rows.Keys
    ensures forall k :: k in t.rows ==> t'.rows[k] == if k == id then Patched(t.rows[k], p) else t.rows[k]
  {
    if id in t.rows then t.(rows := t.rows[id := Patched(t.rows[id], p)]) else t
  }

  datatype Deleted = Deleted(table: Table, affected: nat)

  /** `DELETE ... WHERE id = id`, reporting how many rows went. */
  function DeleteRow(t: Table, id: int): (d: Deleted)
    requires Valid(t)
    ensures Valid(d.table)
    ensures d.table.rows == t.rows - {id}
    ensures d.affected == if id in t.rows then 1 else 0
  {
    if id in t.rows then Deleted(t.(rows := t.rows - {id}), 1) else Deleted(t, 0)
  }
}

/** api/crud/teams.py on the store: teams and locations follow the common
    soft-delete pattern with exact-case name lookups; deleting a location
    also hands back the row it looked up. */
module TeamsCrud {
  import opened Wrappers
  import opened Json
  import opened Store

  /** `get_team_by_name` and `get_location_by_name`: exact-case, among
      active rows. */
  function ByExactName(t: Table, name: string): (r: Option<nat>)
    ensures r.Some? ==> GetActive(t, r.value).Some? && Get(t.rows[r.value].fields, "name") == Text(name)
    ensures r.None? <==> forall id :: id in t.rows && !t.rows[id].deleted ==> Get(t.rows[id].fields, "name") != Text(name)
  {
    FindByName(t, "name", name, false)
  }

  /** `delete_location`: the row as the session holds it afterwards (marked
      deleted by a soft delete, as it was by a hard one), or `None` for an
      unknown id. */
  function DeleteLocation(t: Table, id: int, hard: bool): (r: (Table, Option<Row>))
    ensures r.0 == Delete(t, id, hard)
    ensures r.1.Some? <==> Find(t, id).Some?
    ensures r.1.Some? ==> r.1.value.fields == t.rows[id].fields
    ensures r.1.Some? && !hard ==> r.1.value.deleted && r.1.value == r.0.rows[id]
    ensures r.1.Some? && hard ==> r.1.value == t.rows[id] && id !in r.0.rows
  {
    match Find(t, id)
    case None => (Delete(t, id, hard), None)
    case Some(row) => (Delete(t, id, hard), if hard then Some(row) else Some(Row(true, row.fields)))
  }
}

/** The checks the routers of api/routers make before calling the store: a
    create refuses a name that is taken (409), and get, update and delete
    answer 404 when the lookup comes back empty. */
module Guards {
  import opened Wrappers
  import opened Ascii
  import opened Json
  import opened Store

  const Conflict: Error := Http(409, "already exists!")
  const Missing: Error := Http(404, "not found!")

  /** `create_*` behind a name check: 409 when an active row already carries
      the name in `field` (compared case-insensitively when `fold`), otherwise
      a new active row holding the payload. */
  function CreateUnique(t: Table, field: string, fields: Object, fold: bool): (r: Result<(Table, nat)>)
    requires field in fields && fields[field].Text?
    ensures r.Err? <==> exists id :: id in t.rows && NamedActive(t.rows[id], field, fields[field].s, fold)
    ensures r.Err? ==> r.error == Conflict
    ensures r.Ok? ==> var (t2, id) := r.value;
      && id !in t.rows && GetActive(t2, id) == Some(Row(false, fields))
      && t2.rows.Keys == t.rows.Keys + {id}
      && forall other :: other in t.rows ==> t2.rows[other] == t.rows[other]
  {
    match FindByName(t, field, fields[field].s, fold)
    case Some(_) => Err(Conflict)
    case None => Ok(Create(t, fields))
  }

  /** A name that was just created is taken: creating it again, in the same
      spelling (or any spelling when `fold`), is refused. */
  lemma CreateUniqueTwice(t: Table, field: string, fields: Object, again: Object, fold: bool)
    requires field in fields && fields[field].Text?
    requires field in again && again[field].Text?
    requires if fold then Lower(again[field].s) == Lower(fields[field].s) else again[field] == fields[field]
    requires CreateUnique(t, field, fields, fold).Ok?
    ensures CreateUnique(CreateUnique(t, field, fields, fold).value.0, field, again, fold) == Err(Conflict)
  {
    var (t2, id) := CreateUnique(t, field, fields, fold).value;
    assert NamedActive(t2.rows[id], field, again[field].s, fold);
  }

  /** `get_*` endpoints: the active row, or 404. */
  function Get404(t: Table, id: int): (r: Result<Row>)
    ensures r.Ok? <==> id >= 0 && id in t.rows && !t.rows[id].deleted
    ensures r.Ok? ==> r.value == t.rows[id]
    ensures r.Err? ==> r.error == Missing
  {
    match GetActive(t, id)
    case Some(row) => Ok(row)
    case None => Err(Missing)
  }

  /** `update_*` endpoints: the crud update returns `None` only for an
      absent id, so a soft-deleted row is updated rather than refused. */
  function Update404(t: Table, id: int, patch: Object): (r: Result<(Table, Row)>)
    ensures r.Ok? <==> id >= 0 && id in t.rows
    ensures r.Err? ==> r.error == Missing
    ensures r.Ok? ==> var (t2, row) := r.value;
      && row.deleted == t.rows[id].deleted
      && (forall k :: k in patch ==> k in row.fields && row.fields[k] == patch[k])
      && (forall k :: k in t.rows[id].fields && k !in patch ==> k in row.fields && row.fields[k] == t.rows[id].fields[k])
      && t2.rows == t.rows[id := row]
  {
    match Update(t, id, patch)
    case (t2, Some(row)) => Ok((t2, row))
    case (_, None) => Err(Missing)
  }

  /** Updating a soft-deleted row succeeds, and the row stays hidden from
      `get`. */
  lemma UpdateDeletedStaysHidden(t: Table, id: int, patch: Object)
    requires id >= 0 && id in t.rows && t.rows[id].deleted
    ensures Update404(t, id, patch).Ok?
    ensures Get404(Update404(t, id, patch).value.0, id) == Err(Missing)
  {
  }

  /** `delete_*` endpoints: 404 unless an active row exists, then the crud
      delete (soft or hard). */
  function Delete404(t: Table, id: int, hard: bool): (r: Result<Table>)
    ensures r.Ok? <==> GetActive(t, id).Some?
    ensures r.Err? ==> r.error == Missing
    ensures r.Ok? ==> GetActive(r.value, id).None?
    ensures r.Ok? ==> (id in r.value.rows <==> !hard)
    ensures r.Ok? ==> forall other :: other != id ==> Find(r.value, other) == Find(t, other)
  {
    if GetActive(t, id).None? then Err(Missing)
    else Ok(Delete(t, id, hard))
  }

  /** A second delete of the same row is refused, whichever kind the first
      was. */
  lemma DeleteTwice(t: Table, id: int, first: bool, second: bool)
    requires Delete404(t, id, first).Ok?
    ensures Delete404(Delete404(t, id, first).value, id, second) == Err(Missing)
  {
  }
}

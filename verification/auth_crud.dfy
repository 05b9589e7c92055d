/** api/auth/crud.py: a user store whose rows are never flagged deleted;
    instead a `status` column says whether a user is "active" or "deleted". */
module AuthCrud {
  import opened Wrappers
  import opened Json
  import opened Store

  const Deleted: Value := Text("deleted")
  const Active: Value := Text("active")

  /** A status SQL compares unequal to "deleted" (`NULL` compares to nothing). */
  predicate NotDeleted(row: Row) {
    var s := Get(row.fields, "status");
    !s.Null? && s != Deleted
  }

  /** `create_user`: one new row, whose stored password is the hash of the
      given one; no existing row changes. */
  function CreateUser(t: Table, user: Object, hash: string -> string): (r: (Table, nat))
    requires "password" in user && user["password"].Text?
    ensures r.1 !in t.rows && GetActive(r.0, r.1).Some?
    ensures r.0.rows.Keys == t.rows.Keys + {r.1}
    ensures forall id :: id in t.rows ==> r.0.rows[id] == t.rows[id]
    ensures Get(r.0.rows[r.1].fields, "password") == Text(hash(user["password"].s))
    ensures forall k :: k in user && k != "password" ==> Get(r.0.rows[r.1].fields, k) == user[k]
  {
    Create(t, user["password" := Text(hash(user["password"].s))])
  }

  /** `get_user_by_email`: the first user with exactly this email whose
      status is not "deleted". */
  function ByEmail(t: Table, email: string): (r: Option<nat>)
    ensures r.None? <==> forall id :: id in t.rows ==> !(Get(t.rows[id].fields, "email") == Text(email) && NotDeleted(t.rows[id]))
    ensures r.Some? ==> r.value in t.rows && Get(t.rows[r.value].fields, "email") == Text(email) && NotDeleted(t.rows[r.value])
  {
    FirstWhere(t, (row: Row) => Get(row.fields, "email") == Text(email) && NotDeleted(row))
  }

  /** `get_users`: the users whose status is "active", windowed by offset and
      limit. */
  function Users(t: Table, skip: int, limit: int): (r: Result<seq<nat>>)
    ensures r.Err? <==> skip < 0 || limit < 0
    ensures r.Ok? ==> |r.value| <= limit
    ensures r.Ok? ==> forall i :: 0 <= i < |r.value| ==> r.value[i] in t.rows && Get(t.rows[r.value[i]].fields, "status") == Active
  {
    var active := Where(t, Ids(t), (row: Row) => Get(row.fields, "status") == Active);
    var r := Window(active, Some(skip), Some(limit), WhenGiven);
    if r.Ok? then
      assert forall i :: 0 <= i < |r.value| ==> r.value[i] in active;
      r
    else r
  }

  /** `update_user`: the set fields are assigned, a password as its hash; an
      unknown id changes nothing. A password that is not a string cannot be
      hashed. */
  function UpdateUser(t: Table, id: int, patch: Object, hash: string -> string): (r: Result<(Table, Option<Row>)>)
    ensures r.Err? <==> Find(t, id).Some? && "password" in patch && !patch["password"].Text?
    ensures r.Err? ==> r.error.Crash?
    ensures r.Ok? && Find(t, id).None? ==> r.value == (t, None)
    ensures r.Ok? && Find(t, id).Some? ==> id in r.value.0.rows && var row := r.value.0.rows[id];
      && r.value.1 == Some(row)
      && ("password" in patch ==> Get(row.fields, "password") == Text(hash(patch["password"].s)))
      && (forall k :: k in patch && k != "password" ==> Get(row.fields, k) == patch[k])
      && (forall k :: k in t.rows[id].fields && k !in patch ==> Get(row.fields, k) == t.rows[id].fields[k])
    ensures r.Ok? ==> forall other :: other in t.rows && other != id ==> Find(r.value.0, other) == Find(t, other)
  {
    if Find(t, id).None? then Ok((t, None))
    else if "password" in patch && !patch["password"].Text? then Err(Crash("TypeError: password must be a string"))
    else
      var stored := if "password" in patch then patch["password" := Text(hash(patch["password"].s))] else patch;
      Ok(Update(t, id, stored))
  }

  /** `change_password`: the stored password becomes the hash of the new
      one; nothing else changes. An unknown id fails on `None`. */
  function ChangePassword(t: Table, id: int, newPassword: string, hash: string -> string): (r: Result<Table>)
    ensures r.Ok? <==> Find(t, id).Some?
    ensures r.Err? ==> r.error.Crash?
    ensures r.Ok? ==> id in r.value.rows && Get(r.value.rows[id].fields, "password") == Text(hash(newPassword))
    ensures r.Ok? ==> r.value.rows.Keys == t.rows.Keys && r.value.rows[id].deleted == t.rows[id].deleted
    ensures r.Ok? ==> forall k :: k in t.rows[id].fields && k != "password" ==> Get(r.value.rows[id].fields, k) == t.rows[id].fields[k]
    ensures r.Ok? ==> forall other :: other in t.rows && other != id ==> r.value.rows[other] == t.rows[other]
  {
    if Find(t, id).None? then Err(Crash("AttributeError: 'NoneType' object has no attribute 'password'"))
    else Ok(Update(t, id, map["password" := Text(hash(newPassword))]).0)
  }

  /** `delete_user`: the status becomes "deleted" and the answer is whether
      the user exists. */
  function DeleteUser(t: Table, id: int): (r: (Table, bool))
    ensures r.1 <==> Find(t, id).Some?
    ensures !r.1 ==> r.0 == t
    ensures r.1 ==> Find(r.0, id).Some? && Get(r.0.rows[id].fields, "status") == Deleted
    ensures forall other :: other != id ==> Find(r.0, other) == Find(t, other)
  {
    if Find(t, id).None? then (t, false)
    else (Update(t, id, map["status" := Deleted]).0, true)
  }

  /** A deleted user is no longer found by email, but still by id. */
  lemma DeletedHiddenByEmail(t: Table, id: nat, email: string)
    requires Find(t, id).Some?
    ensures ByEmail(DeleteUser(t, id).0, email) != Some(id)
    ensures Find(DeleteUser(t, id).0, id).Some?
  {
    var t2 := DeleteUser(t, id).0;
    assert !NotDeleted(t2.rows[id]);
  }
}

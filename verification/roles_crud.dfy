/** api/roles/crud.py: a role store without soft deletion; the `deleted`
    flag of its rows is never read or written. */
module RolesCrud {
  import opened Wrappers
  import opened Json
  import opened Store

  /** `get_role_by_name`: the first role with exactly this name. */
  function ByName(t: Table, name: string): (r: Option<nat>)
    ensures r.None? <==> forall id :: id in t.rows ==> Get(t.rows[id].fields, "name") != Text(name)
    ensures r.Some? ==> Find(t, r.value).Some? && Get(t.rows[r.value].fields, "name") == Text(name)
  {
    FirstWhere(t, (row: Row) => Get(row.fields, "name") == Text(name))
  }

  /** `get_roles`: every stored role, windowed by offset and limit. */
  function Roles(t: Table, skip: int, limit: int): (r: Result<seq<nat>>)
    ensures r.Err? <==> skip < 0 || limit < 0
    ensures r.Ok? ==> |r.value| <= limit && forall i :: 0 <= i < |r.value| ==> Find(t, r.value[i]).Some?
    ensures r.Ok? && skip == 0 && limit >= |t.rows| ==> forall id :: id in t.rows ==> id in r.value
  {
    var all := Ids(t);
    var r := Window(all, Some(skip), Some(limit), WhenGiven);
    if r.Ok? then
      assert forall i :: 0 <= i < |r.value| ==> r.value[i] in all;
      if skip == 0 && limit >= |t.rows| then
        AllIdsCount(t);
        assert r.value == all;
        r
      else r
    else r
  }

  /** A table has exactly one id per row. */
  lemma AllIdsCount(t: Table)
    ensures |Ids(t)| == |t.rows|
  {
    var ids := Ids(t);
    IdsCount(ids, t.rows.Keys);
  }

  /** An ascending sequence holding exactly the elements of a set is as long
      as the set. */
  lemma {:induction false} IdsCount(ids: seq<nat>, keys: set<nat>)
    requires Increasing(ids)
    requires forall id :: id in ids <==> id in keys
    ensures |ids| == |keys|
  {
    if |ids| > 0 {
      var rest := ids[1..];
      assert forall id :: id in rest ==> ids[0] < id by {
        forall id | id in rest
          ensures ids[0] < id
        {
          var j :| 0 <= j < |rest| && rest[j] == id;
          assert ids[j + 1] == id;
        }
      }
      assert forall id :: id in rest <==> id in keys - {ids[0]};
      IdsCount(rest, keys - {ids[0]});
    } else {
      assert forall id :: id !in keys;
      assert keys == {};
    }
  }

  /** `delete_role`: the role is removed and the answer is whether it
      existed. */
  function DeleteRole(t: Table, id: int): (r: (Table, bool))
    ensures r.1 <==> Find(t, id).Some?
    ensures Find(r.0, id).None?
    ensures !r.1 ==> r.0 == t
    ensures forall other :: other != id ==> Find(r.0, other) == Find(t, other)
  {
    (Delete(t, id, true), Find(t, id).Some?)
  }
}

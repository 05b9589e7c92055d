/** The soft-delete entity store every CRUD module of api/crud follows, with
    the SQL session replaced by a map from id to row. A row carries its
    `deleted` flag beside its column values; the id sequence hands out
    increasing ids. Rows come back in ascending id order: the effect of
    `ORDER BY` on that order is not modelled, only the checks `apply_sorting`
    makes. */
module Store {
  import opened Wrappers
  import opened Ascii
  import opened Json
  import Query

  datatype Row = Row(deleted: bool, fields: Object)

  datatype TableState = TableState(rows: map<nat, Row>, next: nat)

  /** A table whose ids all lie below the next id the sequence hands out. */
  type Table = t: TableState | forall id :: id in t.rows ==> id < t.next
    witness TableState(map[], 1)

  predicate Increasing(xs: seq<nat>) {
    forall i, j :: 0 <= i < j < |xs| ==> xs[i] < xs[j]
  }

  // ---------------------------------------------------------------------------
  // Lookup by id

  /** `session.get`: the row with that id, deleted or not. */
  function Find(t: Table, id: int): (r: Option<Row>)
    ensures r.Some? <==> id >= 0 && id in t.rows
    ensures r.Some? ==> r.value == t.rows[id]
  {
    if id >= 0 && id in t.rows then Some(t.rows[id]) else None
  }

  /** `get_*_by_id`: the row with that id unless it is soft-deleted. */
  function GetActive(t: Table, id: int): (r: Option<Row>)
    ensures r.Some? <==> id >= 0 && id in t.rows && !t.rows[id].deleted
    ensures r.Some? ==> r == Find(t, id)
  {
    match Find(t, id)
    case Some(row) => if row.deleted then None else Some(row)
    case None => None
  }

  // ---------------------------------------------------------------------------
  // Scans

  /** The ids below `n`, ascending. */
  function IdsBelow(rows: map<nat, Row>, n: nat): (ids: seq<nat>)
    ensures forall id :: id in ids <==> id in rows && id < n
    ensures Increasing(ids)
  {
    if n == 0 then []
    else
      var rest := IdsBelow(rows, n - 1);
      assert forall i :: 0 <= i < |rest| ==> rest[i] < n - 1 by {
        forall i | 0 <= i < |rest|
          ensures rest[i] < n - 1
        {
          assert rest[i] in rest;
        }
      }
      if n - 1 in rows then rest + [n - 1] else rest
  }

  /** Every id of the table, ascending. */
  function Ids(t: Table): (ids: seq<nat>)
    ensures forall id :: id in ids <==> id in t.rows
    ensures Increasing(ids)
  {
    IdsBelow(t.rows, t.next)
  }

  /** The ids of `ids` that `keep` holds for, in the same order. */
  function Filter(ids: seq<nat>, keep: nat -> bool): (r: seq<nat>)
    ensures forall id :: id in r <==> id in ids && keep(id)
    ensures |r| <= |ids|
  {
    if |ids| == 0 then []
    else
      var rest := Filter(ids[1..], keep);
      assert forall id :: id in ids[1..] ==> id in ids;
      if keep(ids[0]) then [ids[0]] + rest else rest
  }

  /** Filtering keeps ascending order. */
  lemma {:induction false} FilterIncreasing(ids: seq<nat>, keep: nat -> bool)
    requires Increasing(ids)
    ensures Increasing(Filter(ids, keep))
  {
    if |ids| > 0 {
      var rest := Filter(ids[1..], keep);
      FilterIncreasing(ids[1..], keep);
      forall i | 0 <= i < |rest|
        ensures ids[0] < rest[i]
      {
        assert rest[i] in ids[1..];
      }
    }
  }

  /** The ids of `ids` whose rows `keep` holds for, in the same order. */
  function Where(t: Table, ids: seq<nat>, keep: Row -> bool): (r: seq<nat>)
    ensures forall id :: id in r <==> id in ids && id in t.rows && keep(t.rows[id])
    ensures |r| <= |ids|
    ensures Increasing(ids) ==> Increasing(r)
  {
    var r := Filter(ids, id => id in t.rows && keep(t.rows[id]));
    if Increasing(ids) then
      FilterIncreasing(ids, id => id in t.rows && keep(t.rows[id]));
      r
    else r
  }

  /** The lowest id whose row `keep` holds for: `.first()` of a query with no
      `ORDER BY`. */
  function FirstWhere(t: Table, keep: Row -> bool): (r: Option<nat>)
    ensures r.None? <==> forall id :: id in t.rows ==> !keep(t.rows[id])
    ensures r.Some? ==> r.value in t.rows && keep(t.rows[r.value])
    ensures r.Some? ==> forall id :: id in t.rows && id < r.value ==> !keep(t.rows[id])
  {
    var all := Ids(t);
    var ids := Where(t, all, keep);
    if |ids| == 0 then
      assert forall id :: id in t.rows ==> id in all;
      None
    else
      assert forall id :: id in t.rows && keep(t.rows[id]) ==> id in ids;
      Some(ids[0])
  }

  // ---------------------------------------------------------------------------
  // Filters, lists and counts

  /** Whether one `WHERE` predicate holds for a row. An equality compares the
      stored value with the string or boolean the filter parser produced. */
  predicate Holds(row: Row, p: Query.Predicate) {
    var v := Get(row.fields, p.field);
    match p
    case IsNotNull(_) => !v.Null?
    case Equals(_, Text(s)) => v == Text(s)
    case Equals(_, Flag(b)) => v == Bool(b)
  }

  /** The rows a list or count query selects: not deleted, every predicate holding. */
  predicate Selected(row: Row, preds: seq<Query.Predicate>) {
    !row.deleted && forall i :: 0 <= i < |preds| ==> Holds(row, preds[i])
  }

  /** The ids a query with these predicates selects, ascending. */
  function Matching(t: Table, preds: seq<Query.Predicate>): (ids: seq<nat>)
    ensures forall id :: id in ids <==> id in t.rows && Selected(t.rows[id], preds)
    ensures Increasing(ids)
  {
    Where(t, Ids(t), row => Selected(row, preds))
  }

  /** When offset and limit apply: whenever given (`is not None`), or only
      when non-zero (a truthiness test). */
  datatype Mode = WhenGiven | WhenTruthy

  predicate Applies(x: Option<int>, mode: Mode) {
    x.Some? && (mode == WhenGiven || x.value != 0)
  }

  function Offset(skip: Option<int>, mode: Mode): int {
    if Applies(skip, mode) then skip.value else 0
  }

  /** `OFFSET` then `LIMIT` on a result, as PostgreSQL reads them: negative
      values are refused. */
  function Window<T>(xs: seq<T>, skip: Option<int>, limit: Option<int>, mode: Mode): (r: Result<seq<T>>)
    ensures r.Err? <==> Offset(skip, mode) < 0 || (Applies(limit, mode) && limit.value < 0)
    ensures r.Err? ==> r.error.Rejected?
    ensures r.Ok? ==> forall i :: 0 <= i < |r.value| ==> Offset(skip, mode) + i < |xs| && r.value[i] == xs[Offset(skip, mode) + i]
    ensures r.Ok? && Offset(skip, mode) <= |xs| && !Applies(limit, mode) ==> |r.value| == |xs| - Offset(skip, mode)
    ensures r.Ok? && Offset(skip, mode) <= |xs| && Applies(limit, mode) ==>
      |r.value| == if limit.value < |xs| - Offset(skip, mode) then limit.value else |xs| - Offset(skip, mode)
    ensures r.Ok? && Offset(skip, mode) > |xs| ==> r.value == []
  {
    var o := Offset(skip, mode);
    if o < 0 then Err(Rejected("OFFSET must not be negative"))
    else if Applies(limit, mode) && limit.value < 0 then Err(Rejected("LIMIT must not be negative"))
    else
      var rest := if o <= |xs| then xs[o..] else [];
      if Applies(limit, mode) && limit.value < |rest| then Ok(rest[..limit.value]) else Ok(rest)
  }

  /** `OFFSET` then `LIMIT` as SQLite reads them: a negative offset skips
      nothing and a negative limit sets no bound. */
  function WindowLenient<T>(xs: seq<T>, skip: Option<int>, limit: Option<int>, mode: Mode): (r: seq<T>)
    ensures var o := if Offset(skip, mode) < 0 then 0 else Offset(skip, mode);
      && (forall i :: 0 <= i < |r| ==> o + i < |xs| && r[i] == xs[o + i])
      && |r| == if o >= |xs| then 0
                else if Applies(limit, mode) && 0 <= limit.value < |xs| - o then limit.value
                else |xs| - o
  {
    var o := if Offset(skip, mode) < 0 then 0 else Offset(skip, mode);
    var rest := if o <= |xs| then xs[o..] else [];
    if Applies(limit, mode) && 0 <= limit.value < |rest| then rest[..limit.value] else rest
  }

  /** The two readings agree wherever the strict one accepts, and the lenient
      one answers a negative limit with every row from the offset on. */
  lemma WindowDialectsAgree<T>(xs: seq<T>, skip: Option<int>, limit: Option<int>, mode: Mode)
    ensures Window(xs, skip, limit, mode).Ok? ==> Window(xs, skip, limit, mode).value == WindowLenient(xs, skip, limit, mode)
    ensures Offset(skip, mode) == 0 && Applies(limit, mode) && limit.value < 0 ==>
      Window(xs, skip, limit, mode).Err? && WindowLenient(xs, skip, limit, mode) == xs
  {
  }

  /** The predicates of a filter map: none for an empty map (the `if filter:`
      guard), otherwise what `apply_filters` produces. */
  function Predicates(attrs: set<string>, filter: seq<(string, Query.FilterValue)>): (r: Result<seq<Query.Predicate>>)
    ensures r == Query.ApplyFilters(attrs, filter)
  {
    if |filter| == 0 then Ok([]) else Query.ApplyFilters(attrs, filter)
  }

  /** `list_*`: the selected rows, sorted (when a sort map is given) and
      windowed. A filter error is reported before a sort error. */
  function List(t: Table, attrs: set<string>, skip: Option<int>, limit: Option<int>,
                sort: seq<(string, string)>, filter: seq<(string, Query.FilterValue)>, mode: Mode): (r: Result<seq<nat>>)
    ensures Query.ApplyFilters(attrs, filter).Err? ==> r == Err(Query.ApplyFilters(attrs, filter).error)
    ensures Query.ApplyFilters(attrs, filter).Ok? && Query.ApplySorting(attrs, sort).Err? ==>
      r == Err(Query.ApplySorting(attrs, sort).error)
    ensures Query.ApplyFilters(attrs, filter).Ok? && Query.ApplySorting(attrs, sort).Ok? ==>
      r == Window(Matching(t, Query.ApplyFilters(attrs, filter).value), skip, limit, mode)
  {
    var preds :- Predicates(attrs, filter);
    var _ :- if |sort| == 0 then Ok([]) else Query.ApplySorting(attrs, sort);
    Window(Matching(t, preds), skip, limit, mode)
  }

  /** `count_*`: how many rows the same predicates select. */
  function Count(t: Table, attrs: set<string>, filter: seq<(string, Query.FilterValue)>): (r: Result<nat>)
    ensures r.Ok? <==> Query.ApplyFilters(attrs, filter).Ok?
    ensures r.Ok? ==> r.value == |Matching(t, Query.ApplyFilters(attrs, filter).value)|
  {
    var preds :- Predicates(attrs, filter);
    Ok(|Matching(t, preds)|)
  }

  /** A count is the length of the unwindowed list over the same filter. */
  lemma CountIsListLength(t: Table, attrs: set<string>, sort: seq<(string, string)>,
                          filter: seq<(string, Query.FilterValue)>, mode: Mode)
    requires List(t, attrs, None, None, sort, filter, mode).Ok?
    ensures Count(t, attrs, filter) == Ok(|List(t, attrs, None, None, sort, filter, mode).value|)
  {
  }

  /** Every listed row is an active row. */
  lemma ListedAreActive(t: Table, attrs: set<string>, skip: Option<int>, limit: Option<int>,
                        sort: seq<(string, string)>, filter: seq<(string, Query.FilterValue)>, mode: Mode, i: nat)
    requires List(t, attrs, skip, limit, sort, filter, mode).Ok?
    requires i < |List(t, attrs, skip, limit, sort, filter, mode).value|
    ensures GetActive(t, List(t, attrs, skip, limit, sort, filter, mode).value[i]).Some?
  {
    var preds := Query.ApplyFilters(attrs, filter).value;
    var m := Matching(t, preds);
    var o := Offset(skip, mode);
    assert List(t, attrs, skip, limit, sort, filter, mode).value[i] == m[o + i];
  }

  /** A zero limit: nothing when offsets apply whenever given, everything
      from the offset on when they apply only when non-zero. */
  lemma ZeroLimit<T>(xs: seq<T>, skip: Option<int>)
    requires Offset(skip, WhenGiven) == Offset(skip, WhenTruthy) == 0
    ensures Window(xs, skip, Some(0), WhenGiven) == Ok([])
    ensures Window(xs, skip, Some(0), WhenTruthy) == Ok(xs)
  {
  }

  // ---------------------------------------------------------------------------
  // Writes

  /** `create_*`: a new, active row under the next id. */
  function Create(t: Table, fields: Object): (r: (Table, nat))
    ensures r.1 !in t.rows && r.1 in r.0.rows
    ensures r.0.rows == t.rows[r.1 := Row(false, fields)]
    ensures GetActive(r.0, r.1) == Some(Row(false, fields))
  {
    (TableState(t.rows[t.next := Row(false, fields)], t.next + 1), t.next)
  }

  /** Creating a row from a payload with one field overridden: the new row
      holds the override and every other field of the payload. */
  lemma CreateOverriding(t: Table, data: Object, k: string, v: Value)
    ensures var (t', id) := Create(t, data[k := v]);
      && id in t'.rows && Get(t'.rows[id].fields, k) == v
      && forall k' :: k' in data && k' != k ==> Get(t'.rows[id].fields, k') == data[k']
  {
  }

  /** The row a partial update produces: each supplied field set, every other
      field and the `deleted` flag kept. */
  function Patch(row: Row, patch: Object): (r: Row)
    ensures r.deleted == row.deleted
    ensures r.fields.Keys == row.fields.Keys + patch.Keys
    ensures forall k :: k in patch ==> r.fields[k] == patch[k]
    ensures forall k :: k in row.fields && k !in patch ==> r.fields[k] == row.fields[k]
  {
    Row(row.deleted, row.fields + patch)
  }

  /** `update_*`: the partial update of the row with that id, deleted or
      not; nothing happens, and nothing is returned, for an absent id. */
  function Update(t: Table, id: int, patch: Object): (r: (Table, Option<Row>))
    ensures Find(t, id).None? ==> r == (t, None)
    ensures Find(t, id).Some? ==> r.1 == Some(Patch(t.rows[id], patch))
    ensures Find(t, id).Some? ==> r.0 == TableState(t.rows[id := Patch(t.rows[id], patch)], t.next)
  {
    match Find(t, id)
    case None => (t, None)
    case Some(row) => (TableState(t.rows[id := Patch(row, patch)], t.next), Some(Patch(row, patch)))
  }

  /** `delete_*`: a hard delete removes the row, a soft one sets its flag and
      nothing else (no deletion time is recorded); an absent id is a no-op. */
  function Delete(t: Table, id: int, hard: bool): (r: Table)
    ensures Find(t, id).None? ==> r == t
    ensures Find(t, id).Some? && hard ==> r.rows == t.rows - {id}
    ensures Find(t, id).Some? && !hard ==> r.rows == t.rows[id := Row(true, t.rows[id].fields)]
    ensures r.next == t.next
  {
    match Find(t, id)
    case None => t
    case Some(row) =>
      if hard then TableState(t.rows - {id as nat}, t.next)
      else TableState(t.rows[id := Row(true, row.fields)], t.next)
  }

  /** After either kind of delete the row is no longer found by id; the other
      rows are untouched. */
  lemma DeleteHides(t: Table, id: int, hard: bool, other: int)
    requires other != id
    ensures GetActive(Delete(t, id, hard), id).None?
    ensures Find(Delete(t, id, hard), other) == Find(t, other)
  {
  }

  /** Deleting a stored row: it is no longer active, it is still found
      exactly when the delete was soft, and no other row changes. */
  lemma DeleteEffect(t: Table, id: int, hard: bool)
    requires Find(t, id).Some?
    ensures GetActive(Delete(t, id, hard), id).None?
    ensures Find(Delete(t, id, hard), id).Some? <==> !hard
    ensures forall other :: other != id ==> Find(Delete(t, id, hard), other) == Find(t, other)
  {
  }

  /** A soft delete is idempotent. */
  lemma SoftDeleteIdempotent(t: Table, id: int)
    ensures Delete(Delete(t, id, false), id, false) == Delete(t, id, false)
  {
  }

  /** An update does not revive a soft-deleted row, and a soft-deleted row is
      still updated. */
  lemma UpdateIgnoresDeleted(t: Table, id: int, patch: Object)
    requires Find(t, id).Some? && t.rows[id].deleted
    ensures Update(t, id, patch).1.Some?
    ensures GetActive(Update(t, id, patch).0, id).None?
  {
  }

  // ---------------------------------------------------------------------------
  // Name lookups

  /** Whether a stored value is the name looked up: compared after
      lower-casing both sides (`func.lower(col) == name.lower()`), or exactly. */
  predicate SameName(v: Value, name: string, fold: bool) {
    v.Text? && (if fold then Lower(v.s) == Lower(name) else v.s == name)
  }

  predicate NamedActive(row: Row, field: string, name: string, fold: bool) {
    !row.deleted && SameName(Get(row.fields, field), name, fold)
  }

  /** `get_*_by_name`: the first active row whose `field` is the name. */
  function FindByName(t: Table, field: string, name: string, fold: bool): (r: Option<nat>)
    ensures r.None? <==> forall id :: id in t.rows ==> !NamedActive(t.rows[id], field, name, fold)
    ensures r.Some? ==> r.value in t.rows && NamedActive(t.rows[r.value], field, name, fold)
    ensures r.Some? ==> forall id :: id in t.rows && id < r.value ==> !NamedActive(t.rows[id], field, name, fold)
  {
    FirstWhere(t, row => NamedActive(row, field, name, fold))
  }

  /** A case-insensitive lookup does not see the case of the name asked for. */
  lemma FoldedLookupIgnoresCase(t: Table, field: string, name: string)
    ensures FindByName(t, field, name, true) == FindByName(t, field, Lower(name), true)
  {
    LowerIdempotent(name);
    var a := FindByName(t, field, name, true);
    var b := FindByName(t, field, Lower(name), true);
    assert forall row :: NamedActive(row, field, name, true) == NamedActive(row, field, Lower(name), true);
  }

  /** The case-insensitive lookups (`func.lower(col) == name.lower()`): the
      first active row whose column matches the name once both sides are
      lower-cased. */
  function FindFolded(t: Table, field: string, name: string): (r: Option<nat>)
    ensures r.Some? ==> GetActive(t, r.value).Some?
    ensures r.Some? ==> var v := Get(t.rows[r.value].fields, field); v.Text? && Lower(v.s) == Lower(name)
    ensures r == FindByName(t, field, Lower(name), true)
  {
    FoldedLookupIgnoresCase(t, field, name);
    FindByName(t, field, name, true)
  }

  /** A lookup in a table of one row finds that row exactly when it matches. */
  lemma FindOnlyRow(row: Row, field: string, name: string, fold: bool)
    ensures FindByName(TableState(map[1 := row], 2), field, name, fold)
      == if NamedActive(row, field, name, fold) then Some(1) else None
  {
    var t: Table := TableState(map[1 := row], 2);
    assert t.rows[1] == row;
  }

  /** The two kinds of lookup on a table holding one tag called "Alpha". */
  lemma LookupModes()
    ensures var t: Table := TableState(map[1 := Row(false, map["name" := Text("Alpha")])], 2);
      FindByName(t, "name", "alpha", true) == Some(1) && FindByName(t, "name", "alpha", false) == None
  {
    var row := Row(false, map["name" := Text("Alpha")]);
    assert Get(row.fields, "name") == Text("Alpha");
    assert Lower("Alpha") == "alpha";
    assert Lower("alpha") == "alpha";
    assert "Alpha" != "alpha";
    FindOnlyRow(row, "name", "alpha", true);
    FindOnlyRow(row, "name", "alpha", false);
  }
}

/** api/crud/events.py on the store: events and paths follow the common
    soft-delete pattern; participations and reviews are looked up by the
    (profile, event) pair. */
module EventsCrud {
  import opened Wrappers
  import opened Ascii
  import opened Json
  import opened Store
  import Query

  /** `list_events` and `list_paths`: offset and limit apply whenever given. */
  function ListRows(t: Table, attrs: set<string>, skip: Option<int>, limit: Option<int>,
                    sort: seq<(string, string)>, filter: seq<(string, Query.FilterValue)>): (r: Result<seq<nat>>)
    ensures r.Ok? && limit == Some(0) ==> r.value == []
    ensures r.Ok? ==> forall i :: 0 <= i < |r.value| ==> GetActive(t, r.value[i]).Some?
    ensures r.Ok? && skip.None? && limit.None? ==> Count(t, attrs, filter) == Ok(|r.value|)
  {
    var r := List(t, attrs, skip, limit, sort, filter, WhenGiven);
    if r.Ok? then
      ActiveListed(t, attrs, skip, limit, sort, filter, WhenGiven);
      r
    else r
  }

  /** Every id of a successful list is an active row. */
  lemma ActiveListed(t: Table, attrs: set<string>, skip: Option<int>, limit: Option<int>,
                     sort: seq<(string, string)>, filter: seq<(string, Query.FilterValue)>, mode: Mode)
    requires List(t, attrs, skip, limit, sort, filter, mode).Ok?
    ensures var ids := List(t, attrs, skip, limit, sort, filter, mode).value;
      forall i :: 0 <= i < |ids| ==> GetActive(t, ids[i]).Some?
  {
    var ids := List(t, attrs, skip, limit, sort, filter, mode).value;
    forall i | 0 <= i < |ids|
      ensures GetActive(t, ids[i]).Some?
    {
      ListedAreActive(t, attrs, skip, limit, sort, filter, mode, i);
    }
  }

  // ---------------------------------------------------------------------------
  // Participations and reviews

  /** A row linking `who` (in `column`) to `event`. */
  predicate Links(row: Row, column: string, who: int, event: int) {
    Get(row.fields, column) == Int(who) && Get(row.fields, "event_id") == Int(event)
  }

  /** `get_participation` (column `member_id`) and `get_review` (column
      `author_id`): the first row for the pair, deleted or not. */
  function ByPair(t: Table, column: string, who: int, event: int): (r: Option<nat>)
    ensures r.None? <==> forall id :: id in t.rows ==> !Links(t.rows[id], column, who, event)
    ensures r.Some? ==> Find(t, r.value).Some? && Links(t.rows[r.value], column, who, event)
  {
    FirstWhere(t, row => Links(row, column, who, event))
  }

  /** A soft-deleted participation is still found. */
  lemma DeletedPairFound(t: Table, id: nat, column: string, who: int, event: int)
    requires id in t.rows && t.rows[id].deleted && Links(t.rows[id], column, who, event)
    ensures ByPair(t, column, who, event).Some?
  {
  }

  /** `create_participation`: a new row for the pair carrying `attended`. */
  function CreateParticipation(t: Table, profile: int, event: int, attended: Value): (r: (Table, nat))
    ensures GetActive(r.0, r.1).Some? && Links(r.0.rows[r.1], "member_id", profile, event)
    ensures Get(r.0.rows[r.1].fields, "attended") == attended
    ensures r.1 !in t.rows && r.0.rows.Keys == t.rows.Keys + {r.1}
    ensures r.1 == t.next && forall id :: id in t.rows ==> r.0.rows[id] == t.rows[id]
  {
    Create(t, map["member_id" := Int(profile), "event_id" := Int(event), "attended" := attended])
  }

  /** `update_participation`: `attended` takes the payload's value even when
      that is `None`; everything else is kept. */
  function UpdateParticipation(t: Table, id: nat, attended: Value): (r: Table)
    requires id in t.rows
    ensures id in r.rows && "attended" in r.rows[id].fields && r.rows[id].fields["attended"] == attended
    ensures r.rows[id].deleted == t.rows[id].deleted
    ensures forall k :: k in t.rows[id].fields && k != "attended" ==> k in r.rows[id].fields && r.rows[id].fields[k] == t.rows[id].fields[k]
    ensures forall other :: other in t.rows && other != id ==> other in r.rows && r.rows[other] == t.rows[other]
  {
    Update(t, id, map["attended" := attended]).0
  }
}

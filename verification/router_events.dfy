/** api/routers/events.py: the event and path lists with their pagination
    envelope, and the participation endpoints. */
module EventsRouter {
  import opened Wrappers
  import opened Json
  import opened Store
  import opened Pagination
  import Listing
  import EventsCrud
  import UsersCrud

  /** `list_events` and `list_paths`: offset and limit apply whenever given,
      so a zero limit is an empty single page. */
  function ListEvents(t: Table, attrs: set<string>, skip: int, limit: int,
                      sort: Option<string>, filter: Option<string>): (r: Result<Page<nat>>)
    ensures r.Ok? <==> Listing.Valid(attrs, sort, filter) && skip >= 0 && limit >= 0
    ensures r.Ok? ==> |r.value.data| <= limit
    ensures r.Ok? ==> forall i :: 0 <= i < |r.value.data| ==> GetActive(t, r.value.data[i]).Some?
    ensures r.Ok? && limit == 0 ==> r.value.data == [] && r.value.pagination.totalPages == 1 && r.value.pagination.nextPage.None?
    ensures r.Ok? ==> r.value.pagination.totalRecords == |Listing.Selection(t, attrs, filter)|
  {
    Listing.Envelope(t, attrs, skip, limit, sort, filter, WhenGiven)
  }

  // ---------------------------------------------------------------------------
  // Participations

  /** The participation rows whose `column` holds `who`, deleted or not,
      ascending: `event.members` (column `event_id`) and
      `profile.attended_events` (column `member_id`). */
  function Linked(parts: Table, column: string, who: int): (r: seq<nat>)
    ensures forall id :: id in r <==> id in parts.rows && Get(parts.rows[id].fields, column) == Int(who)
    ensures Increasing(r)
  {
    Where(parts, Ids(parts), (row: Row) => Get(row.fields, column) == Int(who))
  }

  /** The participations among `ids` whose `attended` is the flag, in their
      order; every one of them when no flag is given. */
  function Attended(parts: Table, ids: seq<nat>, attended: Option<bool>): (r: seq<nat>)
    ensures attended.None? ==> r == ids
    ensures attended.Some? ==> forall id :: id in r <==>
      id in ids && id in parts.rows && Get(parts.rows[id].fields, "attended") == Bool(attended.value)
    ensures |r| <= |ids|
    ensures Increasing(ids) ==> Increasing(r)
  {
    match attended
    case None => ids
    case Some(b) =>
      var keep := (id: nat) => id in parts.rows && Get(parts.rows[id].fields, "attended") == Bool(b);
      if Increasing(ids) then
        FilterIncreasing(ids, keep);
        Filter(ids, keep)
      else Filter(ids, keep)
  }

  /** Two filters that never both keep an id keep no more ids between them
      than there are. */
  lemma {:induction false} DisjointFilters(ids: seq<nat>, a: nat -> bool, b: nat -> bool)
    requires forall id :: id in ids ==> !(a(id) && b(id))
    ensures |Filter(ids, a)| + |Filter(ids, b)| <= |ids|
  {
    if |ids| > 0 {
      assert forall id :: id in ids[1..] ==> id in ids;
      DisjointFilters(ids[1..], a, b);
    }
  }

  /** The attended and the not-attended participations are disjoint and
      together no more than all of them; a participation whose `attended` is
      unset is in neither. */
  lemma AttendedSplit(parts: Table, ids: seq<nat>)
    ensures |Attended(parts, ids, Some(true))| + |Attended(parts, ids, Some(false))| <= |ids|
    ensures forall id :: !(id in Attended(parts, ids, Some(true)) && id in Attended(parts, ids, Some(false)))
  {
    var yes := (id: nat) => id in parts.rows && Get(parts.rows[id].fields, "attended") == Bool(true);
    var no := (id: nat) => id in parts.rows && Get(parts.rows[id].fields, "attended") == Bool(false);
    DisjointFilters(ids, yes, no);
    assert Attended(parts, ids, Some(true)) == Filter(ids, yes);
    assert Attended(parts, ids, Some(false)) == Filter(ids, no);
  }

  const EventNotFound: Error := Http(404, "Event not found!")
  const UserNotFound: Error := Http(404, "User not found!")
  const AlreadyParticipating: Error := Http(400, "User is already part of the event!")
  const NoProfile: Error := Crash("AttributeError: 'NoneType' object has no attribute 'id'")

  /** `create_participation`: a missing event is reported before a missing
      user, an existing participation of the user's profile in the event is
      refused, and otherwise exactly one participation is created and the
      event's participations are returned with the new one last, each once. */
  function CreateParticipation(events: Table, users: Table, profiles: Table, parts: Table,
                               eid: int, uid: int, attended: Value): (r: Result<(Table, seq<nat>)>)
    ensures GetActive(events, eid).None? ==> r == Err(EventNotFound)
    ensures GetActive(events, eid).Some? && GetActive(users, uid).None? ==> r == Err(UserNotFound)
    ensures r.Err? && r.error.Status() == 404 <==> GetActive(events, eid).None? || GetActive(users, uid).None?
    ensures r == Err(NoProfile) <==>
      GetActive(events, eid).Some? && GetActive(users, uid).Some? && UsersCrud.ProfileOf(profiles, uid).None?
    ensures r.Ok? <==>
      && GetActive(events, eid).Some? && GetActive(users, uid).Some? && UsersCrud.ProfileOf(profiles, uid).Some?
      && EventsCrud.ByPair(parts, "member_id", UsersCrud.ProfileOf(profiles, uid).value, eid).None?
    ensures r == Err(AlreadyParticipating) <==>
      && GetActive(events, eid).Some? && GetActive(users, uid).Some? && UsersCrud.ProfileOf(profiles, uid).Some?
      && EventsCrud.ByPair(parts, "member_id", UsersCrud.ProfileOf(profiles, uid).value, eid).Some?
    ensures r.Ok? ==> var (p, listed) := r.value;
      && UsersCrud.ProfileOf(profiles, uid).Some?
      && |listed| > 0 && listed[|listed| - 1] !in parts.rows
      && p.rows.Keys == parts.rows.Keys + {listed[|listed| - 1]}
      && (forall id :: id in parts.rows ==> p.rows[id] == parts.rows[id])
      && EventsCrud.Links(p.rows[listed[|listed| - 1]], "member_id", UsersCrud.ProfileOf(profiles, uid).value, eid)
      && listed == Linked(parts, "event_id", eid) + [listed[|listed| - 1]]
      && listed == Linked(p, "event_id", eid)
  {
    if GetActive(events, eid).None? then Err(EventNotFound)
    else if GetActive(users, uid).None? then Err(UserNotFound)
    else match UsersCrud.ProfileOf(profiles, uid)
      case None => Err(NoProfile)
      case Some(pid) =>
        if EventsCrud.ByPair(parts, "member_id", pid, eid).Some? then Err(AlreadyParticipating)
        else
          var (p, id) := EventsCrud.CreateParticipation(parts, pid, eid, attended);
          ParticipationAdded(parts, pid, eid, attended);
          Ok((p, Linked(parts, "event_id", eid) + [id]))
  }

  /** The new participation links the profile to the event, nothing else
      changes, and it is listed last among the event's participations. */
  lemma ParticipationAdded(parts: Table, pid: nat, eid: int, attended: Value)
    ensures var (p, id) := EventsCrud.CreateParticipation(parts, pid, eid, attended);
      var listed := Linked(parts, "event_id", eid) + [id];
      && |listed| > 0 && listed[|listed| - 1] !in parts.rows
      && p.rows.Keys == parts.rows.Keys + {listed[|listed| - 1]}
      && (forall id :: id in parts.rows ==> p.rows[id] == parts.rows[id])
      && EventsCrud.Links(p.rows[listed[|listed| - 1]], "member_id", pid, eid)
      && listed == Linked(p, "event_id", eid)
  {
    var (p, id) := EventsCrud.CreateParticipation(parts, pid, eid, attended);
    NewLinkedLast(parts, p, id, eid);
  }

  /** `create_participation` as written: the crud call commits, which expires
      the event, so `event.members` is loaded afterwards and already holds the
      new participation; the `append` then adds it a second time. */
  function CreateParticipationAsWritten(events: Table, users: Table, profiles: Table, parts: Table,
                                        eid: int, uid: int, attended: Value): (r: Result<(Table, seq<nat>)>)
    ensures r.Err? <==> CreateParticipation(events, users, profiles, parts, eid, uid, attended).Err?
    ensures r.Err? ==> r == CreateParticipation(events, users, profiles, parts, eid, uid, attended)
    ensures r.Ok? ==> var (p, listed) := r.value;
      && |listed| >= 2 && listed[|listed| - 1] !in parts.rows
      && listed == Linked(p, "event_id", eid) + [listed[|listed| - 1]]
      && listed == Linked(parts, "event_id", eid) + [listed[|listed| - 1], listed[|listed| - 1]]
  {
    var c := CreateParticipation(events, users, profiles, parts, eid, uid, attended);
    if c.Err? then c
    else
      var p := c.value.0;
      var loaded := c.value.1;
      DoubledLast(loaded, Linked(parts, "event_id", eid));
      Ok((p, loaded + [loaded[|loaded| - 1]]))
  }

  /** Appending the last element of a list again. */
  lemma DoubledLast(loaded: seq<nat>, before: seq<nat>)
    requires |loaded| > 0 && loaded == before + [loaded[|loaded| - 1]]
    ensures var listed := loaded + [loaded[|loaded| - 1]];
      && |listed| >= 2 && listed[|listed| - 1] == loaded[|loaded| - 1]
      && listed == loaded + [listed[|listed| - 1]]
      && listed == before + [listed[|listed| - 1], listed[|listed| - 1]]
  {
  }

  /** The response of the endpoint as written lists the new participation
      twice, where the event holds it once. */
  lemma ParticipationListedTwice(events: Table, users: Table, profiles: Table, parts: Table,
                                 eid: int, uid: int, attended: Value)
    requires CreateParticipationAsWritten(events, users, profiles, parts, eid, uid, attended).Ok?
    ensures var (p, listed) := CreateParticipationAsWritten(events, users, profiles, parts, eid, uid, attended).value;
      var id := listed[|listed| - 1];
      && multiset(listed)[id] == 2
      && multiset(Linked(p, "event_id", eid))[id] == 1
      && CreateParticipation(events, users, profiles, parts, eid, uid, attended).value.1 == Linked(p, "event_id", eid)
  {
    var (p, listed) := CreateParticipationAsWritten(events, users, profiles, parts, eid, uid, attended).value;
    var id := listed[|listed| - 1];
    var before := Linked(parts, "event_id", eid);
    assert id !in before;
    assert multiset(before)[id] == 0;
    assert listed == before + [id] + [id];
    assert Linked(p, "event_id", eid) == before + [id];
  }

  /** A row added under the next id comes last among the rows of its event. */
  lemma NewLinkedLast(parts: Table, p: Table, id: nat, eid: int)
    requires id == parts.next && p.rows.Keys == parts.rows.Keys + {id}
    requires forall other :: other in parts.rows ==> p.rows[other] == parts.rows[other]
    requires Get(p.rows[id].fields, "event_id") == Int(eid)
    ensures Linked(p, "event_id", eid) == Linked(parts, "event_id", eid) + [id]
  {
    var before := Linked(parts, "event_id", eid);
    var after := Linked(p, "event_id", eid);
    NewLinkedMembers(parts, p, id, eid);
    forall x | x in before
      ensures x < id
    {
      assert x in parts.rows;
    }
    AppendLargest(before, id);
    SameIncreasing(after, before + [id]);
  }

  /** The rows of the event after the insertion are those before it and the
      new one. */
  lemma NewLinkedMembers(parts: Table, p: Table, id: nat, eid: int)
    requires id == parts.next && p.rows.Keys == parts.rows.Keys + {id}
    requires forall other :: other in parts.rows ==> p.rows[other] == parts.rows[other]
    requires Get(p.rows[id].fields, "event_id") == Int(eid)
    ensures forall x :: x in Linked(p, "event_id", eid) <==> x in Linked(parts, "event_id", eid) + [id]
  {
  }

  /** Appending an element above every element keeps a sequence ascending. */
  lemma AppendLargest(s: seq<nat>, x: nat)
    requires Increasing(s)
    requires forall y :: y in s ==> y < x
    ensures Increasing(s + [x])
  {
    forall i, j | 0 <= i < j < |s + [x]|
      ensures (s + [x])[i] < (s + [x])[j]
    {
      assert (s + [x])[i] == s[i];
      if j == |s| {
        assert s[i] in s;
      }
    }
  }

  /** The first element of an ascending sequence is its least. */
  lemma FirstIsLeast(s: seq<nat>, x: nat)
    requires Increasing(s) && x in s
    ensures s[0] <= x
  {
    var i :| 0 <= i < |s| && s[i] == x;
    assert i == 0 || s[0] < s[i];
  }

  /** Two ascending sequences with the same elements are equal. */
  lemma {:induction false} SameIncreasing(a: seq<nat>, b: seq<nat>)
    requires Increasing(a) && Increasing(b)
    requires forall x :: x in a <==> x in b
    ensures a == b
  {
    assert |a| > 0 ==> a[0] in b;
    assert |b| > 0 ==> b[0] in a;
    if |a| > 0 {
      FirstIsLeast(b, a[0]);
      FirstIsLeast(a, b[0]);
      forall x
        ensures x in a[1..] <==> x in b[1..]
      {
        if x in a[1..] {
          var i :| 1 <= i < |a| && a[i] == x;
          assert x in b && x != b[0];
        }
        if x in b[1..] {
          var i :| 1 <= i < |b| && b[i] == x;
          assert x in a && x != a[0];
        }
      }
      SameIncreasing(a[1..], b[1..]);
      assert a == [a[0]] + a[1..] && b == [b[0]] + b[1..];
    }
  }

  /** A successful participation cannot be created a second time. */
  lemma SecondParticipationRefused(events: Table, users: Table, profiles: Table, parts: Table,
                                   eid: int, uid: int, attended: Value, again: Value)
    requires CreateParticipation(events, users, profiles, parts, eid, uid, attended).Ok?
    ensures var p := CreateParticipation(events, users, profiles, parts, eid, uid, attended).value.0;
      CreateParticipation(events, users, profiles, p, eid, uid, again) == Err(AlreadyParticipating)
  {
    var (p, listed) := CreateParticipation(events, users, profiles, parts, eid, uid, attended).value;
    var pid := UsersCrud.ProfileOf(profiles, uid).value;
    assert EventsCrud.Links(p.rows[listed[|listed| - 1]], "member_id", pid, eid);
  }

  /** `list_event_participations`: the event's participations, filtered by
      the attended flag when one is given. */
  function EventParticipations(events: Table, parts: Table, eid: int, attended: Option<bool>): (r: Result<seq<nat>>)
    ensures r.Err? <==> GetActive(events, eid).None?
    ensures r.Err? ==> r.error == EventNotFound
    ensures r.Ok? ==> Increasing(r.value)
    ensures r.Ok? ==> forall id :: id in r.value <==>
      && id in parts.rows && Get(parts.rows[id].fields, "event_id") == Int(eid)
      && (attended.Some? ==> Get(parts.rows[id].fields, "attended") == Bool(attended.value))
  {
    if GetActive(events, eid).None? then Err(EventNotFound)
    else Ok(Attended(parts, Linked(parts, "event_id", eid), attended))
  }

  /** `list_user_participations`: the participations of the user's profile,
      filtered by the attended flag when one is given. */
  function UserParticipations(users: Table, profiles: Table, parts: Table, uid: int, attended: Option<bool>): (r: Result<seq<nat>>)
    ensures r.Err? <==> GetActive(users, uid).None? || UsersCrud.ProfileOf(profiles, uid).None?
    ensures GetActive(users, uid).None? ==> r == Err(UserNotFound)
    ensures GetActive(users, uid).Some? && UsersCrud.ProfileOf(profiles, uid).None? ==> r == Err(NoProfile)
    ensures r.Ok? ==> Increasing(r.value)
    ensures r.Ok? ==> forall id :: id in r.value <==>
      && id in parts.rows && Get(parts.rows[id].fields, "member_id") == Int(UsersCrud.ProfileOf(profiles, uid).value)
      && (attended.Some? ==> Get(parts.rows[id].fields, "attended") == Bool(attended.value))
  {
    if GetActive(users, uid).None? then Err(UserNotFound)
    else match UsersCrud.ProfileOf(profiles, uid)
      case None => Err(NoProfile)
      case Some(pid) => Ok(Attended(parts, Linked(parts, "member_id", pid), attended))
  }
}

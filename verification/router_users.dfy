/** api/routers/users.py: the role, motorcycle, brand and user lists, the
    motorcycle creation checks, user update and deletion, and the birthdate
    query dispatch. */
module UsersRouter {
  import opened Wrappers
  import opened Json
  import opened Store
  import opened Pagination
  import opened Calendar
  import Query
  import Listing
  import UsersCrud

  // ---------------------------------------------------------------------------
  // Lists

  /** The four list endpoints as written: after parsing the query strings
      they call `count_roles`, `count_motorcycles`, `count_brands` or
      `count_users`, which the users crud module does not define, so every
      request that gets that far fails. */
  function ListAsWritten(counter: string, sort: Option<string>, filter: Option<string>): (r: Result<Page<nat>>)
    ensures r.Err? && r.error.Status() == 500
    ensures Listing.SortOf(sort).Err? ==> r == Err(Query.UnpackError)
  {
    var _ :- Listing.SortOf(sort);
    var _ :- Listing.FilterOf(filter);
    Err(Crash("AttributeError: module 'api.crud.users' has no attribute '" + counter + "'"))
  }

  /** The four list endpoints as meant: counted by the same predicate as
      the page, offset and limit applying whenever given. */
  function List(t: Table, attrs: set<string>, skip: int, limit: int,
                sort: Option<string>, filter: Option<string>): (r: Result<Page<nat>>)
    ensures r.Ok? <==> Listing.Valid(attrs, sort, filter) && skip >= 0 && limit >= 0
    ensures r.Ok? ==> r.value.pagination.totalRecords == |Listing.Selection(t, attrs, filter)|
    ensures r.Ok? ==> |r.value.data| <= limit
    ensures r.Ok? ==> forall i :: 0 <= i < |r.value.data| ==> GetActive(t, r.value.data[i]).Some?
  {
    Listing.Envelope(t, attrs, skip, limit, sort, filter, WhenGiven)
  }

  /** The default request (`skip=0, limit=100`, no sort, no filter) fails as
      written on any table, and succeeds once the count exists. */
  lemma DefaultListFails(t: Table, attrs: set<string>, counter: string)
    ensures ListAsWritten(counter, None, None).Err?
    ensures List(t, attrs, 0, 100, None, None).Ok?
  {
    assert Listing.Valid(attrs, None, None) by {
      assert Query.ApplyFilters(attrs, []).Ok?;
    }
  }

  // ---------------------------------------------------------------------------
  // Motorcycles

  const PlateTaken: Error := Http(409, "Motorcycle already exists!")
  const BrandNotFound: Error := Http(404, "Brand not found!")
  const UserNotFound: Error := Http(404, "User not found!")
  const NoProfile: Error := Crash("AttributeError: 'NoneType' object has no attribute 'id'")

  /** `create_motorcycle`: a taken licence plate (any case) is reported
      before a missing brand, which is reported before a missing owner; the
      owner is given as a user id and stored as that user's profile id. */
  function CreateMotorcycle(motorcycles: Table, brands: Table, users: Table, profiles: Table, data: Object): (r: Result<(Table, nat)>)
    requires "license_plate" in data && data["license_plate"].Text?
    requires "brand_id" in data && data["brand_id"].Int?
    requires "owner_id" in data && data["owner_id"].Int?
    ensures FindFolded(motorcycles, "license_plate", data["license_plate"].s).Some? ==> r == Err(PlateTaken)
    ensures FindFolded(motorcycles, "license_plate", data["license_plate"].s).None? && GetActive(brands, data["brand_id"].i).None? ==>
      r == Err(BrandNotFound)
    ensures r == Err(UserNotFound) <==>
      && FindFolded(motorcycles, "license_plate", data["license_plate"].s).None?
      && GetActive(brands, data["brand_id"].i).Some? && GetActive(users, data["owner_id"].i).None?
    ensures r.Ok? <==>
      && FindFolded(motorcycles, "license_plate", data["license_plate"].s).None?
      && GetActive(brands, data["brand_id"].i).Some? && GetActive(users, data["owner_id"].i).Some?
      && UsersCrud.ProfileOf(profiles, data["owner_id"].i).Some?
    ensures r.Ok? ==> var (t, id) := r.value;
      && id !in motorcycles.rows && GetActive(t, id).Some?
      && var owner := Get(t.rows[id].fields, "owner_id");
      && owner.Int? && owner.i >= 0 && owner.i in profiles.rows
      && UsersCrud.OwnedBy(profiles.rows[owner.i], data["owner_id"].i)
      && (forall k :: k in data && k != "owner_id" ==> Get(t.rows[id].fields, k) == data[k])
    ensures r.Ok? ==> var (t, id) := r.value;
      t.rows.Keys == motorcycles.rows.Keys + {id} && forall other :: other in motorcycles.rows ==> t.rows[other] == motorcycles.rows[other]
  {
    if FindFolded(motorcycles, "license_plate", data["license_plate"].s).Some? then Err(PlateTaken)
    else if GetActive(brands, data["brand_id"].i).None? then Err(BrandNotFound)
    else if GetActive(users, data["owner_id"].i).None? then Err(UserNotFound)
    else match UsersCrud.ProfileOf(profiles, data["owner_id"].i)
      case None => Err(NoProfile)
      case Some(pid) =>
        CreateOverriding(motorcycles, data, "owner_id", Int(pid));
        Ok(Create(motorcycles, data["owner_id" := Int(pid)]))
  }

  // ---------------------------------------------------------------------------
  // Users

  /** `update_user` over the crud update as written: an unknown id crashes
      inside the crud call, so the endpoint's 404 is never produced. */
  function UpdateUserAsWritten(users: Table, profiles: Table, uid: int, patch: Object, profilePatch: Option<Object>): (r: Result<(Table, Table, Row)>)
    ensures r.Err? ==> r.error.Status() != 404
    ensures Find(users, uid).None? ==> r.Err? && r.error.Crash?
  {
    var (u, p, row) :- UsersCrud.UpdateUserAsWritten(users, profiles, uid, patch, profilePatch);
    if row.None? then Err(UserNotFound) else Ok((u, p, row.value))
  }

  /** `update_user` over the corrected crud update: 404 exactly for an
      unknown id, a crash for a profile patch on a user without a profile,
      and otherwise the patched user (a soft-deleted one too) and profile. */
  function UpdateUser(users: Table, profiles: Table, uid: int, patch: Object, profilePatch: Option<Object>): (r: Result<(Table, Table, Row)>)
    ensures r == Err(UserNotFound) <==> Find(users, uid).None?
    ensures r.Ok? <==>
      && Find(users, uid).Some?
      && !(profilePatch.Some? && |profilePatch.value| > 0 && UsersCrud.ProfileOf(profiles, uid).None?)
    ensures r.Err? && r != Err(UserNotFound) ==> r.error.Crash?
    ensures r.Ok? ==> r.value.2 == Patch(users.rows[uid], patch) && r.value.0.rows == users.rows[uid := r.value.2]
    ensures r.Ok? && (profilePatch.None? || |profilePatch.value| == 0) ==> r.value.1 == profiles
    ensures r.Ok? && profilePatch.Some? && |profilePatch.value| > 0 ==>
      r.value.1 == Update(profiles, UsersCrud.ProfileOf(profiles, uid).value, profilePatch.value).0
  {
    var (u, p, row) :- UsersCrud.UpdateUser(users, profiles, uid, patch, profilePatch);
    if row.None? then Err(UserNotFound) else Ok((u, p, row.value))
  }

  /** The two endpoints differ exactly on unknown ids, which only the
      corrected one answers with 404. */
  lemma UpdateUserNotFound(users: Table, profiles: Table, uid: int, patch: Object, profilePatch: Option<Object>)
    requires Find(users, uid).None?
    ensures UpdateUser(users, profiles, uid, patch, profilePatch) == Err(UserNotFound)
    ensures UpdateUserAsWritten(users, profiles, uid, patch, profilePatch).Err?
    ensures UpdateUserAsWritten(users, profiles, uid, patch, profilePatch).error.Status() == 500
  {
  }

  /** `delete_user`: 404 unless the user is active; then the crud delete of
      the user and their profile. */
  function DeleteUser(users: Table, profiles: Table, uid: int, hard: bool): (r: Result<(Table, Table)>)
    ensures GetActive(users, uid).None? ==> r == Err(UserNotFound)
    ensures r.Ok? ==> GetActive(r.value.0, uid).None?
    ensures r.Ok? ==> forall id :: id in users.rows && id != uid ==> Find(r.value.0, id) == Find(users, id)
    ensures GetActive(users, uid).Some? && (hard || UsersCrud.ProfileOf(profiles, uid).Some?) ==> r.Ok?
  {
    if GetActive(users, uid).None? then Err(UserNotFound)
    else UsersCrud.DeleteUser(users, profiles, uid, hard)
  }

  /** A deleted user cannot be deleted again. */
  lemma DeleteUserTwice(users: Table, profiles: Table, uid: int, first: bool, second: bool)
    requires DeleteUser(users, profiles, uid, first).Ok?
    ensures var (u, p) := DeleteUser(users, profiles, uid, first).value;
      DeleteUser(u, p, uid, second) == Err(UserNotFound)
  {
  }

  // ---------------------------------------------------------------------------
  // Birthdates

  const BirthdateQueryMissing: Error :=
    Http(400, "You must provide either 'date' or both 'start_date' and 'end_date' parameters.")

  /** `list_birthdays_by_date`: a single date wins when given; otherwise both
      ends of a range are needed. */
  function BirthdatesBy(users: Table, profiles: Table, birthdates: UsersCrud.Birthdates,
                        date: Option<Date>, start: Option<Date>, end: Option<Date>): (r: Result<seq<nat>>)
    ensures r.Err? <==> date.None? && (start.None? || end.None?)
    ensures r.Err? ==> r.error == BirthdateQueryMissing
    ensures date.Some? ==> r.Ok? && forall uid :: uid in r.value <==>
      GetActive(users, uid).Some? && UsersCrud.Has(profiles, birthdates, uid, UsersCrud.On(date.value))
    ensures date.None? && r.Ok? ==> forall uid :: uid in r.value <==>
      && GetActive(users, uid).Some?
      && UsersCrud.Has(profiles, birthdates, uid, UsersCrud.NotBefore(start.value))
      && UsersCrud.Has(profiles, birthdates, uid, UsersCrud.NotAfter(end.value))
  {
    if date.Some? then Ok(UsersCrud.ByBirthdate(users, profiles, birthdates, date.value))
    else if start.Some? && end.Some? then Ok(UsersCrud.ByBirthdateRange(users, profiles, birthdates, start.value, end.value))
    else Err(BirthdateQueryMissing)
  }

  /** With a single date, the range parameters make no difference. */
  lemma DateIgnoresRange(users: Table, profiles: Table, birthdates: UsersCrud.Birthdates,
                         date: Date, start: Option<Date>, end: Option<Date>)
    ensures BirthdatesBy(users, profiles, birthdates, Some(date), start, end)
         == BirthdatesBy(users, profiles, birthdates, Some(date), None, None)
  {
  }
}

/** api/crud/users.py on the store: roles, motorcycles and brands follow the
    common soft-delete pattern; a user owns a profile row (the profile's
    `user_id`), which user creation, update and deletion handle together.
    Birthdates are calendar dates, kept beside the profile rows by profile id. */
module UsersCrud {
  import opened Wrappers
  import opened Json
  import opened Store
  import opened Calendar

  /** Whether a profile row belongs to user `uid`. */
  predicate OwnedBy(row: Row, uid: int) {
    Get(row.fields, "user_id") == Int(uid)
  }

  /** `user.profile`: the profile row of the user, deleted or not. */
  function ProfileOf(profiles: Table, uid: int): (r: Option<nat>)
    ensures r.None? <==> forall pid :: pid in profiles.rows ==> !OwnedBy(profiles.rows[pid], uid)
    ensures r.Some? ==> r.value in profiles.rows && OwnedBy(profiles.rows[r.value], uid)
  {
    FirstWhere(profiles, row => OwnedBy(row, uid))
  }

  // ---------------------------------------------------------------------------
  // Users and profiles

  /** `create_user`: the user row carries the hash of the password instead of
      the password, and a new profile row holding the profile payload is
      linked to it; no existing row of either table changes. */
  function CreateUser(users: Table, profiles: Table, user: Object, profile: Object, hash: string -> string): (r: (Table, Table, nat))
    requires "password" in user && user["password"].Text?
    ensures var (u, p, uid) := r;
      && uid !in users.rows && GetActive(u, uid).Some? && u.rows.Keys == users.rows.Keys + {uid}
      && Get(u.rows[uid].fields, "password") == Text(hash(user["password"].s))
      && (forall k :: k in user && k != "password" && k != "profile" ==> Get(u.rows[uid].fields, k) == user[k])
      && "profile" !in u.rows[uid].fields
      && ProfileOf(p, uid).Some? && p.rows.Keys == profiles.rows.Keys + {profiles.next}
      && OwnedBy(p.rows[profiles.next], uid) && !p.rows[profiles.next].deleted
    ensures profiles.next in r.1.rows && r.1.rows[profiles.next].fields == profile["user_id" := Int(r.2)]
    ensures forall id :: id in users.rows ==> r.0.rows[id] == users.rows[id]
    ensures forall id :: id in profiles.rows ==> r.1.rows[id] == profiles.rows[id]
  {
    var fields := (user - {"profile"})["password" := Text(hash(user["password"].s))];
    var (u, uid) := Create(users, fields);
    var (p, _) := Create(profiles, profile["user_id" := Int(uid)]);
    assert OwnedBy(p.rows[profiles.next], uid);
    (u, p, uid)
  }

  /** `update_user` as it is meant to work: the user's set fields are
      assigned, deleted or not; a profile payload's fields are assigned to the
      user's profile, which must exist once there is something to assign; an
      unknown id changes nothing. */
  function UpdateUser(users: Table, profiles: Table, uid: int, patch: Object, profilePatch: Option<Object>): (r: Result<(Table, Table, Option<Row>)>)
    ensures Find(users, uid).None? ==> r == Ok((users, profiles, None))
    ensures r.Err? <==> Find(users, uid).Some? && profilePatch.Some? && |profilePatch.value| > 0 && ProfileOf(profiles, uid).None?
    ensures r.Err? ==> r.error.Crash?
    ensures r.Ok? && Find(users, uid).Some? ==>
      r.value.0 == Update(users, uid, patch).0 && r.value.2 == Some(Patch(users.rows[uid], patch))
    ensures r.Ok? && Find(users, uid).Some? && profilePatch.Some? && |profilePatch.value| > 0 ==>
      var pid := ProfileOf(profiles, uid).value;
      r.value.1 == Update(profiles, pid, profilePatch.value).0
    ensures r.Ok? && (profilePatch.None? || |profilePatch.value| == 0) ==> r.value.1 == profiles
  {
    if Find(users, uid).None? then Ok((users, profiles, None))
    else
      var (u, row) := Update(users, uid, patch);
      if profilePatch.None? || |profilePatch.value| == 0 then Ok((u, profiles, row))
      else
        match ProfileOf(profiles, uid)
        case None => Err(Crash("AttributeError: 'NoneType' object has no attribute"))
        case Some(pid) => Ok((u, Update(profiles, pid, profilePatch.value).0, row))
  }

  /** `update_user` as written: it assigns to the looked-up user without
      checking that there is one, so an unknown id fails inside the update
      (an attribute assignment on `None`, or the refresh of `None`) instead of
      returning `None`. */
  function UpdateUserAsWritten(users: Table, profiles: Table, uid: int, patch: Object, profilePatch: Option<Object>): (r: Result<(Table, Table, Option<Row>)>)
    ensures Find(users, uid).None? ==> r.Err? && r.error.Crash?
    ensures Find(users, uid).Some? ==> r == UpdateUser(users, profiles, uid, patch, profilePatch)
  {
    if Find(users, uid).None? then Err(Crash("AttributeError: 'NoneType' object has no attribute"))
    else UpdateUser(users, profiles, uid, patch, profilePatch)
  }

  /** The two versions differ exactly on unknown ids. */
  lemma UpdateUserVersions(users: Table, profiles: Table, uid: int, patch: Object, profilePatch: Option<Object>)
    ensures UpdateUserAsWritten(users, profiles, uid, patch, profilePatch) == UpdateUser(users, profiles, uid, patch, profilePatch)
      <==> Find(users, uid).Some?
  {
  }

  /** `delete_user`: a hard delete removes the profile (when there is one)
      and the user; a soft delete marks both, and fails on a user without a
      profile before anything is committed; an unknown id changes nothing. */
  function DeleteUser(users: Table, profiles: Table, uid: int, hard: bool): (r: Result<(Table, Table)>)
    ensures Find(users, uid).None? ==> r == Ok((users, profiles))
    ensures r.Err? <==> Find(users, uid).Some? && !hard && ProfileOf(profiles, uid).None?
    ensures r.Err? ==> r.error.Crash?
    ensures r.Ok? && Find(users, uid).Some? ==> (Find(r.value.0, uid).Some? <==> !hard)
    ensures r.Ok? && Find(users, uid).Some? ==> GetActive(r.value.0, uid).None?
    ensures r.Ok? && Find(users, uid).Some? && ProfileOf(profiles, uid).Some? ==>
      var pid := ProfileOf(profiles, uid).value;
      GetActive(r.value.1, pid).None? && (Find(r.value.1, pid).Some? <==> !hard)
    ensures r.Ok? ==> forall id :: id in users.rows && id != uid ==> Find(r.value.0, id) == Find(users, id)
    ensures r.Ok? && ProfileOf(profiles, uid).None? ==> r.value.1 == profiles
    ensures r.Ok? && ProfileOf(profiles, uid).Some? ==>
      forall id :: id != ProfileOf(profiles, uid).value ==> Find(r.value.1, id) == Find(profiles, id)
  {
    if Find(users, uid).None? then Ok((users, profiles))
    else
      var profile := ProfileOf(profiles, uid);
      DeleteEffect(users, uid, hard);
      if hard then
        var p := if profile.Some? then DeleteEffect(profiles, profile.value, true); Delete(profiles, profile.value, true)
                 else profiles;
        Ok((Delete(users, uid, true), p))
      else if profile.None? then Err(Crash("AttributeError: 'NoneType' object has no attribute 'deleted'"))
      else
        DeleteEffect(profiles, profile.value, false);
        Ok((Delete(users, uid, false), Delete(profiles, profile.value, false)))
  }

  /** `change_password`: the stored password becomes the hash of the new
      one; nothing else changes. An unknown id fails on `None`. */
  function ChangePassword(users: Table, uid: int, newPassword: string, hash: string -> string): (r: Result<Table>)
    ensures r.Ok? <==> Find(users, uid).Some?
    ensures r.Err? ==> r.error.Crash?
    ensures r.Ok? ==> uid in r.value.rows && Get(r.value.rows[uid].fields, "password") == Text(hash(newPassword))
    ensures r.Ok? ==> r.value.rows.Keys == users.rows.Keys && r.value.rows[uid].deleted == users.rows[uid].deleted
    ensures r.Ok? ==> forall k :: k in users.rows[uid].fields && k != "password" ==> Get(r.value.rows[uid].fields, k) == users.rows[uid].fields[k]
    ensures r.Ok? ==> forall id :: id in users.rows && id != uid ==> r.value.rows[id] == users.rows[id]
  {
    if Find(users, uid).None? then Err(Crash("AttributeError: 'NoneType' object has no attribute 'password'"))
    else Ok(Update(users, uid, map["password" := Text(hash(newPassword))]).0)
  }

  // ---------------------------------------------------------------------------
  // Birthdate queries

  /** Birthdates by profile id. */
  type Birthdates = map<nat, Date>

  /** A condition on a birthdate, as the queries write them. */
  datatype Cond = On(day: Date) | NotBefore(start: Date) | NotAfter(end: Date) | SameDayAs(today: Date)

  /** Same month and day: a birthday. */
  predicate SameDay(b: Date, today: Date) {
    b.month == today.month && b.day == today.day
  }

  predicate Meets(b: Date, c: Cond) {
    match c
    case On(day) => b == day
    case NotBefore(start) => !After(start, b)
    case NotAfter(end) => !After(b, end)
    case SameDayAs(today) => SameDay(b, today)
  }

  /** Whether profile `pid` belongs to `uid` and has a birthdate meeting `c`. */
  predicate BornAs(profiles: Table, birthdates: Birthdates, uid: int, pid: nat, c: Cond) {
    pid in profiles.rows && OwnedBy(profiles.rows[pid], uid) && pid in birthdates && Meets(birthdates[pid], c)
  }

  /** `User.profile.has(<condition>)`: some profile of the user, deleted or
      not, meets the condition. */
  function Has(profiles: Table, birthdates: Birthdates, uid: int, c: Cond): (b: bool)
    ensures b <==> exists pid :: BornAs(profiles, birthdates, uid, pid, c)
  {
    var found := Filter(Ids(profiles), (pid: nat) => BornAs(profiles, birthdates, uid, pid, c));
    if |found| > 0 then
      assert found[0] in found;
      true
    else
      assert forall pid :: BornAs(profiles, birthdates, uid, pid, c) ==> pid in Ids(profiles);
      false
  }

  /** The active users whose profiles meet every condition, each through
      its own `has`, ascending. */
  function UsersWith(users: Table, profiles: Table, birthdates: Birthdates, conds: seq<Cond>): (r: seq<nat>)
    ensures forall uid :: uid in r <==> GetActive(users, uid).Some? && forall c :: c in conds ==> Has(profiles, birthdates, uid, c)
    ensures Increasing(r)
  {
    var keep := (uid: nat) => uid in users.rows && !users.rows[uid].deleted && forall c :: c in conds ==> Has(profiles, birthdates, uid, c);
    FilterIncreasing(Ids(users), keep);
    Filter(Ids(users), keep)
  }

  /** `list_users_by_birthdate`: active users whose profile has exactly this
      birthdate. */
  function ByBirthdate(users: Table, profiles: Table, birthdates: Birthdates, day: Date): (r: seq<nat>)
    ensures forall uid :: uid in r <==> GetActive(users, uid).Some? && Has(profiles, birthdates, uid, On(day))
    ensures Increasing(r)
  {
    var conds := [On(day)];
    assert forall uid :: ((forall c :: c in conds ==> Has(profiles, birthdates, uid, c))
      <==> (Has(profiles, birthdates, uid, On(day))));
    UsersWith(users, profiles, birthdates, conds)
  }

  /** `list_users_by_birthdate_range`: active users with a profile born no
      earlier than `start` and a profile born no later than `end`, both ends
      inclusive. */
  function ByBirthdateRange(users: Table, profiles: Table, birthdates: Birthdates, start: Date, end: Date): (r: seq<nat>)
    ensures forall uid :: uid in r <==> (GetActive(users, uid).Some?
      && Has(profiles, birthdates, uid, NotBefore(start)) && Has(profiles, birthdates, uid, NotAfter(end)))
    ensures Increasing(r)
  {
    var conds := [NotBefore(start), NotAfter(end)];
    assert forall uid :: ((forall c :: c in conds ==> Has(profiles, birthdates, uid, c))
      <==> (Has(profiles, birthdates, uid, NotBefore(start)) && Has(profiles, birthdates, uid, NotAfter(end))));
    UsersWith(users, profiles, birthdates, conds)
  }

  /** A user whose profile is born within the range is listed, including on
      either bound. */
  lemma RangeInclusive(users: Table, profiles: Table, birthdates: Birthdates, start: Date, end: Date, uid: nat, pid: nat)
    requires GetActive(users, uid).Some?
    requires pid in profiles.rows && OwnedBy(profiles.rows[pid], uid) && pid in birthdates
    requires !After(start, birthdates[pid]) && !After(birthdates[pid], end)
    ensures uid in ByBirthdateRange(users, profiles, birthdates, start, end)
  {
    assert BornAs(profiles, birthdates, uid, pid, NotBefore(start));
    assert BornAs(profiles, birthdates, uid, pid, NotAfter(end));
  }

  /** `list_users_birthday_is_today` as written: the birthdate must equal
      today's date, year included. */
  function BirthdaysTodayAsWritten(users: Table, profiles: Table, birthdates: Birthdates, today: Date): (r: seq<nat>)
    ensures forall uid :: uid in r <==> GetActive(users, uid).Some? && Has(profiles, birthdates, uid, On(today))
  {
    ByBirthdate(users, profiles, birthdates, today)
  }

  /** `list_users_birthday_is_today` as meant: the birthdate falls on today's
      month and day, in any year. */
  function BirthdaysToday(users: Table, profiles: Table, birthdates: Birthdates, today: Date): (r: seq<nat>)
    ensures forall uid :: uid in r <==> GetActive(users, uid).Some? && Has(profiles, birthdates, uid, SameDayAs(today))
    ensures Increasing(r)
  {
    var conds := [SameDayAs(today)];
    assert forall uid :: ((forall c :: c in conds ==> Has(profiles, birthdates, uid, c))
      <==> (Has(profiles, birthdates, uid, SameDayAs(today))));
    UsersWith(users, profiles, birthdates, conds)
  }

  /** The table of the counterexample: one active user, id 1, whose profile
      (id 1) is born on 2000-10-10. */
  const OneUser: Table := TableState(map[1 := Row(false, map[])], 2)
  const OneProfile: Table := TableState(map[1 := Row(false, map["user_id" := Int(1)])], 2)
  const BornTenth: Birthdates := map[1 := Date(2000, 10, 10)]

  /** On 2026-10-10 that user has a birthday, yet the query as written does
      not list them: no one born before today ever is. */
  lemma BirthdayMissed()
    ensures 1 !in BirthdaysTodayAsWritten(OneUser, OneProfile, BornTenth, Date(2026, 10, 10))
    ensures 1 in BirthdaysToday(OneUser, OneProfile, BornTenth, Date(2026, 10, 10))
  {
    var today := Date(2026, 10, 10);
    assert forall pid :: !BornAs(OneProfile, BornTenth, 1, pid, On(today));
    assert BornAs(OneProfile, BornTenth, 1, 1, SameDayAs(today));
  }

  /** The corrected query lists everyone the original lists. */
  lemma BirthdaysTodayWidens(users: Table, profiles: Table, birthdates: Birthdates, today: Date, uid: nat)
    requires uid in BirthdaysTodayAsWritten(users, profiles, birthdates, today)
    ensures uid in BirthdaysToday(users, profiles, birthdates, today)
  {
    var pid :| BornAs(profiles, birthdates, uid, pid, On(today));
    assert BornAs(profiles, birthdates, uid, pid, SameDayAs(today));
  }
}

/** The request schemas of api/schemas/users.py: profiles, users, password
    changes, roles, motorcycles and brands. Each schema is its "before"
    validator followed by field validation.

    The proofs follow the rule-list convention described at
    `Fields.CheckFields`. */
module UserSchemas {
  import opened Wrappers
  import opened Ascii
  import opened Json
  import opened SchemaUtils
  import opened Fields
  import opened Calendar

  // ---------------------------------------------------------------------------
  // Profiles

  const ProfileTelephoneMessage: string := "phone number must be a valid phone number, e.g., 3001234567."

  /** `ProfileBase.validate_schema`: strip every string, then reduce the
      telephone to its digits, which runs even when no telephone was sent. */
  function ProfileBefore(o: Object): (r: Result<Object>)
    ensures !Get(o, "telephone").Text? ==> r.Err? && r.error.Crash?
    ensures Get(o, "telephone").Text? ==>
      var d := DigitsOnly(Strip(o["telephone"].s));
      (r.Ok? <==> d == "" || IsMobile(d))
      && (r.Ok? ==> r.value == RemoveWhitespaces(o)["telephone" := Text(d)])
      && (r.Err? ==> r.error == Validation(ProfileTelephoneMessage))
  {
    var v := RemoveWhitespaces(o);
    var d :- DigitsOfValue(Get(v, "telephone"));
    if d != "" && !IsMobile(d) then Err(Validation(ProfileTelephoneMessage))
    else Ok(v["telephone" := Text(d)])
  }

  /** With a telephone present the profile validator accepts exactly what
      `check_telephone` accepts on the stripped payload, with the same result;
      only the message differs. */
  lemma ProfileAgreesWithCheckTelephone(o: Object)
    requires Get(o, "telephone").Text?
    ensures ProfileBefore(o).Ok? <==> CheckTelephone(RemoveWhitespaces(o), "telephone").Ok?
    ensures ProfileBefore(o).Ok? ==> ProfileBefore(o) == CheckTelephone(RemoveWhitespaces(o), "telephone")
  {
  }

  /** A profile payload without a telephone, or with `None`, cannot pass. */
  lemma ProfileWithoutTelephone(o: Object)
    requires "telephone" !in o || o["telephone"].Null?
    ensures ProfileBefore(o).Err? && ProfileBefore(o).error.Crash?
  {
  }

  const ProfileCreateRules: seq<FieldRule> := [
    Required("first_name", Str(3, Some(25))),
    Required("last_name", Str(3, Some(25))),
    Optional("nickname", Str(3, Some(25))),
    Optional("telephone", Str(0, None)),
    Required("document_type", Typed),
    Required("document_number", Str(0, None)),
    Required("rh", Typed),
    Required("birthdate", Typed),
    Required("genre", Typed),
    Optional("photo", Typed),
    Required("team_id", Typed)]

  /** `ProfileCreate`: the profile validator, the field bounds, then the
      birthdate rule on the parsed `birthdate` against `today`. */
  function ProfileCreate(o: Object, birthdate: Date, today: Date): (r: Result<Object>)
    requires Valid(today)
    ensures r.Ok? <==> ProfileBefore(o).Ok? && ProfileFieldsMet(RemoveWhitespaces(o)) && ValidateBirthdate(birthdate, today).Ok?
    ensures r.Ok? ==> Get(o, "telephone").Text?
    ensures r.Ok? ==> "telephone" in r.value && r.value["telephone"].Text?
    ensures r.Ok? ==> var t := r.value["telephone"].s; t == "" || (|t| == 10 && t[0] == '3' && AllDigits(t))
    ensures r.Ok? ==> StrWithin(r.value, "first_name", 3, 25) && StrWithin(r.value, "last_name", 3, 25)
    ensures r.Ok? ==> !After(birthdate, today)
  {
    var fields :- ProfileFields(o);
    var _ :- ValidateBirthdate(birthdate, today);
    Ok(fields)
  }

  /** What the field declarations of `ProfileCreate` demand of the stripped
      payload. The telephone is not among them: once the profile validator
      has stored its digits it is a string, which the field accepts. */
  predicate ProfileFieldsMet(w: Object) {
    && StrWithin(w, "first_name", 3, 25) && StrWithin(w, "last_name", 3, 25)
    && OptStrWithin(w, "nickname", 3, 25)
    && Given(w, "document_type") && TextGiven(w, "document_number") && Given(w, "rh")
    && Given(w, "birthdate") && Given(w, "genre") && Given(w, "team_id")
  }

  /** The profile validator and the field bounds of `ProfileCreate`, before
      the birthdate rule. */
  function ProfileFields(o: Object): (r: Result<Object>)
    ensures r.Ok? <==> ProfileBefore(o).Ok? && ProfileFieldsMet(RemoveWhitespaces(o))
    ensures r.Ok? ==> Get(o, "telephone").Text?
    ensures r.Ok? ==> "telephone" in r.value && r.value["telephone"].Text?
    ensures r.Ok? ==> var t := r.value["telephone"].s; t == "" || (|t| == 10 && t[0] == '3' && AllDigits(t))
    ensures r.Ok? ==> StrWithin(r.value, "first_name", 3, 25) && StrWithin(r.value, "last_name", 3, 25)
  {
    var v :- ProfileBefore(o);
    var fields := CheckFields(ProfileCreateRules, v);
    ProfileCreateShape();
    assert v == RemoveWhitespaces(o)["telephone" := v["telephone"]];
    ProfileMetStripped(RemoveWhitespaces(o), v["telephone"]);
    ProfileCreateMet(v, ProfileCreateRules);
    if fields.Ok? then
      ProfileCreateAccepted(o, v, ProfileCreateRules);
      fields
    else fields
  }

  /** The entries of the rule list that the proofs about `ProfileCreate`
      use, stated apart so those proofs work on these facts rather than on
      the whole list. */
  lemma ProfileCreateShape()
    ensures |ProfileCreateRules| == 11
    ensures ProfileCreateRules[0] == Required("first_name", Str(3, Some(25)))
    ensures ProfileCreateRules[1] == Required("last_name", Str(3, Some(25)))
    ensures ProfileCreateRules[2] == Optional("nickname", Str(3, Some(25)))
    ensures ProfileCreateRules[3] == Optional("telephone", Str(0, None))
    ensures ProfileCreateRules[4] == Required("document_type", Typed)
    ensures ProfileCreateRules[5] == Required("document_number", Str(0, None))
    ensures ProfileCreateRules[6] == Required("rh", Typed)
    ensures ProfileCreateRules[7] == Required("birthdate", Typed)
    ensures ProfileCreateRules[8] == Required("genre", Typed)
    ensures ProfileCreateRules[9] == Optional("photo", Typed)
    ensures ProfileCreateRules[10] == Required("team_id", Typed)
  {
  }

  /** A profile payload passes the field bounds exactly when its fields meet
      the declarations. */
  lemma ProfileCreateMet(v: Object, rules: seq<FieldRule>)
    requires |rules| == 11
    requires rules[0] == Required("first_name", Str(3, Some(25)))
    requires rules[1] == Required("last_name", Str(3, Some(25)))
    requires rules[2] == Optional("nickname", Str(3, Some(25)))
    requires rules[3] == Optional("telephone", Str(0, None))
    requires rules[4] == Required("document_type", Typed)
    requires rules[5] == Required("document_number", Str(0, None))
    requires rules[6] == Required("rh", Typed)
    requires rules[7] == Required("birthdate", Typed)
    requires rules[8] == Required("genre", Typed)
    requires rules[9] == Optional("photo", Typed)
    requires rules[10] == Required("team_id", Typed)
    requires TextGiven(v, "telephone")
    ensures CheckFields(rules, v).Ok? <==> ProfileFieldsMet(v)
  {
    CheckFieldsEleven(rules, v);
    RequiredStrError("first_name", 3, 25, v);
    RequiredStrError("last_name", 3, 25, v);
    OptionalStrError("nickname", 3, 25, v);
    OptionalTextError("telephone", v);
    RequiredTypedError("document_type", v);
    RequiredTextError("document_number", v);
    RequiredTypedError("rh", v);
    RequiredTypedError("birthdate", v);
    RequiredTypedError("genre", v);
    OptionalTypedError("photo", v);
    RequiredTypedError("team_id", v);
  }

  /** The profile validator replaces only the telephone, which the
      declarations do not constrain. */
  lemma ProfileMetStripped(w: Object, x: Value)
    ensures ProfileFieldsMet(w["telephone" := x]) <==> ProfileFieldsMet(w)
  {
  }

  /** An accepted profile: a telephone that is empty or a mobile number, and
      names within their bounds. */
  lemma ProfileCreateAccepted(o: Object, v: Object, rules: seq<FieldRule>)
    requires |rules| == 11 && rules[3].name == "telephone"
    requires rules[0] == Required("first_name", Str(3, Some(25)))
    requires rules[1] == Required("last_name", Str(3, Some(25)))
    requires ProfileBefore(o) == Ok(v) && CheckFields(rules, v).Ok?
    ensures Get(o, "telephone").Text?
    ensures var d := CheckFields(rules, v).value;
      && "telephone" in d && d["telephone"].Text?
      && (var t := d["telephone"].s; t == "" || (|t| == 10 && t[0] == '3' && AllDigits(t)))
      && StrWithin(d, "first_name", 3, 25) && StrWithin(d, "last_name", 3, 25)
  {
    AcceptedProfile(o, v, rules, 3);
    AcceptedRequiredStr(rules, v, 0);
    AcceptedRequiredStr(rules, v, 1);
  }

  /** The telephone an accepted profile stores: empty or a mobile number. */
  lemma AcceptedProfile(o: Object, v: Object, rules: seq<FieldRule>, i: nat)
    requires ProfileBefore(o) == Ok(v) && CheckFields(rules, v).Ok?
    requires i < |rules| && rules[i].name == "telephone"
    ensures Get(o, "telephone").Text?
    ensures "telephone" in CheckFields(rules, v).value
    ensures var t := CheckFields(rules, v).value["telephone"];
      t.Text? && (t.s == "" || (|t.s| == 10 && t.s[0] == '3' && AllDigits(t.s)))
  {
    var d := DigitsOnly(Strip(o["telephone"].s));
    MobileOnDigits(d);
    AcceptedKept(rules, v, i);
  }

  /** On February 29 no profile can be created. */
  lemma NoProfileOnLeapDay(o: Object, birthdate: Date, today: Date)
    requires Valid(today) && today.month == 2 && today.day == 29
    ensures ProfileCreate(o, birthdate, today).Err?
  {
    LeapDayRejectsAll(birthdate, today);
  }

  const ProfileUpdateRules: seq<FieldRule> := [
    Optional("first_name", Str(3, Some(25))),
    Optional("last_name", Str(3, Some(25))),
    Optional("nickname", Str(3, Some(25))),
    Optional("telephone", Str(0, None)),
    Optional("photo", Typed),
    Optional("team_id", Typed)]

  /** `ProfileUpdate`: the same profile validator, every field optional. */
  function ProfileUpdate(o: Object): (r: Result<Object>)
    ensures r.Ok? <==> ProfileBefore(o).Ok? && ProfileUpdateFieldsMet(RemoveWhitespaces(o))
    ensures r.Ok? ==> "telephone" in r.value && r.value["telephone"].Text?
    ensures r.Ok? ==> var t := r.value["telephone"].s; t == "" || (|t| == 10 && t[0] == '3' && AllDigits(t))
    ensures r.Ok? ==> OptStrWithin(r.value, "first_name", 3, 25) && OptStrWithin(r.value, "last_name", 3, 25)
    ensures r.Ok? ==> r.value.Keys <= Names(ProfileUpdateRules)
  {
    var v :- ProfileBefore(o);
    var fields := CheckFields(ProfileUpdateRules, v);
    ProfileUpdateShape();
    assert v == RemoveWhitespaces(o)["telephone" := v["telephone"]];
    ProfileUpdateMetStripped(RemoveWhitespaces(o), v["telephone"]);
    ProfileUpdateMet(v, ProfileUpdateRules);
    if fields.Ok? then
      ProfileUpdateAccepted(o, v, ProfileUpdateRules);
      fields
    else fields
  }

  /** What the field declarations of `ProfileUpdate` demand: each name, when
      sent, within its bounds. */
  predicate ProfileUpdateFieldsMet(w: Object) {
    && OptStrWithin(w, "first_name", 3, 25) && OptStrWithin(w, "last_name", 3, 25)
    && OptStrWithin(w, "nickname", 3, 25)
  }

  /** The entries of the rule list that the proofs about `ProfileUpdate`
      use, stated apart so those proofs work on these facts rather than on
      the whole list. */
  lemma ProfileUpdateShape()
    ensures |ProfileUpdateRules| == 6
    ensures ProfileUpdateRules[0] == Optional("first_name", Str(3, Some(25)))
    ensures ProfileUpdateRules[1] == Optional("last_name", Str(3, Some(25)))
    ensures ProfileUpdateRules[2] == Optional("nickname", Str(3, Some(25)))
    ensures ProfileUpdateRules[3] == Optional("telephone", Str(0, None))
    ensures ProfileUpdateRules[4] == Optional("photo", Typed)
    ensures ProfileUpdateRules[5] == Optional("team_id", Typed)
  {
  }

  /** A profile update passes the field bounds exactly when its names meet
      the declarations. */
  lemma ProfileUpdateMet(v: Object, rules: seq<FieldRule>)
    requires |rules| == 6
    requires rules[0] == Optional("first_name", Str(3, Some(25)))
    requires rules[1] == Optional("last_name", Str(3, Some(25)))
    requires rules[2] == Optional("nickname", Str(3, Some(25)))
    requires rules[3] == Optional("telephone", Str(0, None))
    requires rules[4] == Optional("photo", Typed)
    requires rules[5] == Optional("team_id", Typed)
    requires TextGiven(v, "telephone")
    ensures CheckFields(rules, v).Ok? <==> ProfileUpdateFieldsMet(v)
  {
    CheckFieldsSix(rules, v);
    OptionalStrError("first_name", 3, 25, v);
    OptionalStrError("last_name", 3, 25, v);
    OptionalStrError("nickname", 3, 25, v);
    OptionalTextError("telephone", v);
    OptionalTypedError("photo", v);
    OptionalTypedError("team_id", v);
  }

  /** The profile validator replaces only the telephone, which the update
      declarations do not constrain. */
  lemma ProfileUpdateMetStripped(w: Object, x: Value)
    ensures ProfileUpdateFieldsMet(w["telephone" := x]) <==> ProfileUpdateFieldsMet(w)
  {
  }

  /** An accepted profile update: the telephone as for a new profile, the
      names within their bounds when given, and only declared fields. */
  lemma ProfileUpdateAccepted(o: Object, v: Object, rules: seq<FieldRule>)
    requires |rules| == 6 && rules[3].name == "telephone"
    requires rules[0] == Optional("first_name", Str(3, Some(25)))
    requires rules[1] == Optional("last_name", Str(3, Some(25)))
    requires ProfileBefore(o) == Ok(v) && CheckFields(rules, v).Ok?
    ensures var d := CheckFields(rules, v).value;
      && "telephone" in d && d["telephone"].Text?
      && (var t := d["telephone"].s; t == "" || (|t| == 10 && t[0] == '3' && AllDigits(t)))
      && OptStrWithin(d, "first_name", 3, 25) && OptStrWithin(d, "last_name", 3, 25)
      && d.Keys <= Names(rules)
  {
    AcceptedKeys(rules, v);
    AcceptedProfile(o, v, rules, 3);
    AcceptedOptionalStr(rules, v, 0);
    AcceptedOptionalStr(rules, v, 1);
  }

  // ---------------------------------------------------------------------------
  // Users

  /** The language of `[A-Za-z0-9-_]+`. */
  predicate UsernameBody(s: string) {
    |s| > 0 && forall i :: 0 <= i < |s| ==> IsAlnum(s[i]) || s[i] == '-' || s[i] == '_'
  }

  /** `re.match(r"^[A-Za-z0-9-_]+$", s)`. */
  predicate UsernameMatches(s: string) {
    AnchoredMatch(s, UsernameBody)
  }

  const UsernameMessage: string := "Username can only contain alphanumeric characters, hyphens(-), and underscores (_)."

  /** The pattern's `$` also matches before one final newline. */
  lemma UsernameTrailingNewline()
    ensures UsernameMatches("ab-c\n") && !UsernameBody("ab-c\n")
    ensures !UsernameMatches("ab c")
  {
    assert "ab-c\n"[..4] == "ab-c";
    assert "ab c"[2] == ' ';
  }

  /** `UserCreate.validate_schema`: the username pattern, then the password
      rules of `check_password`, on the raw values. */
  function UserCreateBefore(o: Object): (r: Result<Object>)
    ensures r.Ok? ==> r.value == o
    ensures r.Ok? <==> Get(o, "username").Text? && UsernameMatches(Get(o, "username").s) && CheckPassword(o, "password").Ok?
    ensures Get(o, "username").Text? && !UsernameMatches(Get(o, "username").s) ==> r == Err(Validation(UsernameMessage))
    ensures !Get(o, "username").Text? ==> r.Err? && r.error.Crash?
  {
    var u := Get(o, "username");
    if !u.Text? then Err(Crash("TypeError: expected string or bytes-like object"))
    else if !UsernameMatches(u.s) then Err(Validation(UsernameMessage))
    else match PasswordErrors(Get(o, "password"))
      case Some(e) => Err(e)
      case None => Ok(o)
  }

  const UserCreateRules: seq<FieldRule> := [
    Required("username", Str(3, Some(50))),
    Required("email", Typed),
    Required("password", Str(0, None)),
    Optional("role_id", Typed),
    Optional("status", Typed),
    Required("profile", Typed)]

  /** The profile validator reads `values.items()`, which a value that is not
      an object, `None` included, does not have. */
  const ProfileNotDict: Error := Crash("AttributeError: object has no attribute 'items'")

  /** `UserCreate`: the username and password validator on the raw payload,
      then the declared fields, of which `profile` is validated as a nested
      `ProfileCreate`. The JSON model does not nest objects, so the object sent
      under `profile` is the separate argument `profile`, `None` when that
      value is not an object. A missing `profile` is a 422 among the other
      fields'; a `profile` that is `None` or not an object reaches the profile
      validator, which raises. A nested validator that raises stops the
      validation at once; a nested 422 is reported after the other fields'. */
  function UserCreate(o: Object, profile: Option<Object>, birthdate: Date, today: Date): (r: Result<(Object, Object)>)
    requires Valid(today)
    ensures r.Ok? <==>
      && UserCreateBefore(o).Ok? && StrWithin(o, "username", 3, 50) && Given(o, "email")
      && TextGiven(o, "password") && Given(o, "profile")
      && profile.Some? && ProfileCreate(profile.value, birthdate, today).Ok?
    ensures r.Ok? ==> UsernameMatches(o["username"].s) && CheckPassword(o, "password").Ok?
    ensures r.Ok? ==> r.value.0.Keys <= Names(UserCreateRules) && r.value.1 == ProfileCreate(profile.value, birthdate, today).value
    ensures UserCreateBefore(o).Ok? && "profile" !in o ==> r.Err? && r.error.Validation?
    ensures UserCreateBefore(o).Ok? && "profile" in o && (o["profile"].Null? || profile.None?) ==> r == Err(ProfileNotDict)
    ensures UserCreateBefore(o).Ok? && Given(o, "profile") && profile.Some? && ProfileCreate(profile.value, birthdate, today).Err?
            && ProfileCreate(profile.value, birthdate, today).error.Crash? ==>
      r == Err(ProfileCreate(profile.value, birthdate, today).error)
  {
    var v :- UserCreateBefore(o);
    var nested := if profile.Some? then ProfileCreate(profile.value, birthdate, today) else Err(ProfileNotDict);
    UserFields(v, profile.Some?, nested)
  }

  /** The declared fields of `UserCreate` on the payload the user validator
      passed, given whether an object was sent under `profile` and what the
      nested profile schema made of it. */
  function UserFields(v: Object, objectSent: bool, nested: Result<Object>): (r: Result<(Object, Object)>)
    ensures r.Ok? <==>
      && StrWithin(v, "username", 3, 50) && Given(v, "email") && TextGiven(v, "password") && Given(v, "profile")
      && objectSent && nested.Ok?
    ensures r.Ok? ==> r.value.0.Keys <= Names(UserCreateRules) && r.value.1 == nested.value
    ensures "profile" !in v ==> r.Err? && r.error.Validation?
    ensures "profile" in v && (v["profile"].Null? || !objectSent) ==> r == Err(ProfileNotDict)
    ensures Given(v, "profile") && objectSent && nested.Err? && nested.error.Crash? ==> r == Err(nested.error)
  {
    UserCreateShape();
    UserCreateMet(v, UserCreateRules);
    if "profile" !in v then
      UserWithoutProfile(v, UserCreateRules);
      Err(CheckFields(UserCreateRules, v).error)
    else if v["profile"].Null? || !objectSent then Err(ProfileNotDict)
    else if nested.Err? && nested.error.Crash? then Err(nested.error)
    else
      var fields :- CheckFields(UserCreateRules, v);
      AcceptedKeys(UserCreateRules, v);
      var q :- nested;
      Ok((fields, q))
  }

  /** The entries of the rule list that the proofs about `UserCreate` use,
      stated apart so those proofs work on these facts rather than on the
      whole list. */
  lemma UserCreateShape()
    ensures |UserCreateRules| == 6
    ensures UserCreateRules[0] == Required("username", Str(3, Some(50)))
    ensures UserCreateRules[1] == Required("email", Typed)
    ensures UserCreateRules[2] == Required("password", Str(0, None))
    ensures UserCreateRules[3] == Optional("role_id", Typed)
    ensures UserCreateRules[4] == Optional("status", Typed)
    ensures UserCreateRules[5] == Required("profile", Typed)
    ensures forall i :: 0 <= i < |UserCreateRules| ==> UserCreateRules[i].check == NoCheck
  {
  }

  /** The declared fields of a user pass exactly when the username has 3 to
      50 characters, the password is a string, and an e-mail and a profile
      are given. */
  lemma UserCreateMet(v: Object, rules: seq<FieldRule>)
    requires |rules| == 6
    requires rules[0] == Required("username", Str(3, Some(50)))
    requires rules[1] == Required("email", Typed)
    requires rules[2] == Required("password", Str(0, None))
    requires rules[3] == Optional("role_id", Typed)
    requires rules[4] == Optional("status", Typed)
    requires rules[5] == Required("profile", Typed)
    ensures CheckFields(rules, v).Ok? <==>
      StrWithin(v, "username", 3, 50) && Given(v, "email") && TextGiven(v, "password") && Given(v, "profile")
  {
    CheckFieldsSix(rules, v);
    RequiredStrError("username", 3, 50, v);
    RequiredTypedError("email", v);
    RequiredTextError("password", v);
    OptionalTypedError("role_id", v);
    OptionalTypedError("status", v);
    RequiredTypedError("profile", v);
  }

  /** Without a `profile` the declared fields fail with a validation error:
      no field validator of a user can raise. */
  lemma UserWithoutProfile(v: Object, rules: seq<FieldRule>)
    requires |rules| == 6 && rules[5] == Required("profile", Typed)
    requires forall i :: 0 <= i < |rules| ==> rules[i].check == NoCheck
    requires "profile" !in v
    ensures CheckFields(rules, v).Err? && CheckFields(rules, v).error.Validation?
  {
    assert FieldError(rules[5], v).Some?;
    forall i | 0 <= i < |rules|
      ensures !Crashes(rules[i], v)
    {
      assert rules[i].check == NoCheck;
    }
  }

  /** A user whose nested profile has no telephone is a server error, whatever
      else the payload holds, once username and password pass. */
  lemma UserProfileWithoutTelephone(o: Object, profile: Object, birthdate: Date, today: Date)
    requires Valid(today) && UserCreateBefore(o).Ok? && Given(o, "profile")
    requires "telephone" !in profile || profile["telephone"].Null?
    ensures UserCreate(o, Some(profile), birthdate, today).Err?
    ensures UserCreate(o, Some(profile), birthdate, today).error.Crash?
  {
    ProfileWithoutTelephone(profile);
  }

  /** `PasswordChange.validate_schema`: only `new_password` is checked. */
  function PasswordChangeBefore(o: Object): (r: Result<Object>)
    ensures r.Ok? <==> CheckPassword(o, "new_password").Ok?
    ensures r.Ok? ==> r.value == o
  {
    match PasswordErrors(Get(o, "new_password"))
    case Some(e) => Err(e)
    case None => Ok(o)
  }

  const PasswordChangeRules: seq<FieldRule> := [
    Required("old_password", Str(0, None)),
    Required("new_password", Str(0, None))]

  /** `PasswordChange`: the new password must pass every rule, the old one
      only needs to be a string. */
  function PasswordChange(o: Object): (r: Result<Object>)
    ensures r.Ok? <==> CheckPassword(o, "new_password").Ok? && Get(o, "old_password").Text?
  {
    var v :- PasswordChangeBefore(o);
    CheckFields(PasswordChangeRules, v)
  }

  // ---------------------------------------------------------------------------
  // Roles and brands

  const RoleCreateRules: seq<FieldRule> := [
    Required("name", Str(3, Some(20))),
    Optional("description", Str(0, Some(50)))]

  /** `RoleCreate`: a stripped name of 3 to 20 characters and an optional
      stripped description of at most 50. */
  function RoleCreate(o: Object): (r: Result<Object>)
    ensures r.Ok? <==> StrWithin(RemoveWhitespaces(o), "name", 3, 20) && OptStrWithin(RemoveWhitespaces(o), "description", 0, 50)
    ensures r.Ok? ==> "name" in r.value && r.value["name"] == Text(Strip(o["name"].s))
  {
    var v := RemoveWhitespaces(o);
    var fields := CheckFields(RoleCreateRules, v);
    RoleShape();
    RequiredStrError("name", 3, 20, v);
    OptionalStrError("description", 0, 50, v);
    CheckFieldsTwo(RoleCreateRules, v);
    if fields.Ok? then AcceptedRequiredStr(RoleCreateRules, v, 0); AcceptedKept(RoleCreateRules, v, 0); fields
    else fields
  }

  const RoleUpdateRules: seq<FieldRule> := [
    Optional("name", Str(3, Some(20))),
    Optional("description", Str(0, Some(50)))]

  function RoleUpdate(o: Object): (r: Result<Object>)
    ensures r.Ok? <==> OptStrWithin(RemoveWhitespaces(o), "name", 3, 20) && OptStrWithin(RemoveWhitespaces(o), "description", 0, 50)
    ensures r.Ok? ==> r.value.Keys <= {"name", "description"}
  {
    var v := RemoveWhitespaces(o);
    var fields := CheckFields(RoleUpdateRules, v);
    RoleShape();
    OptionalStrError("name", 3, 20, v);
    OptionalStrError("description", 0, 50, v);
    CheckFieldsTwo(RoleUpdateRules, v);
    fields
  }

  /** The role rule lists, stated apart so the proofs about them work on
      these facts rather than on the constants. */
  lemma RoleShape()
    ensures RoleCreateRules == [Required("name", Str(3, Some(20))), Optional("description", Str(0, Some(50)))]
    ensures RoleUpdateRules == [Optional("name", Str(3, Some(20))), Optional("description", Str(0, Some(50)))]
  {
  }

  const BrandCreateRules: seq<FieldRule> := [Required("name", Str(3, Some(25)))]

  /** `BrandCreate`: a stripped name of 3 to 25 characters. */
  function BrandCreate(o: Object): (r: Result<Object>)
    ensures r.Ok? <==> "name" in o && o["name"].Text? && 3 <= |Strip(o["name"].s)| <= 25
  {
    var v := RemoveWhitespaces(o);
    var fields := CheckFields(BrandCreateRules, v);
    CheckFieldsOne(BrandCreateRules, v);
    fields
  }

  const BrandUpdateRules: seq<FieldRule> := [Optional("name", Str(3, Some(25)))]

  function BrandUpdate(o: Object): (r: Result<Object>)
    ensures r.Ok? <==> OptStrWithin(RemoveWhitespaces(o), "name", 3, 25)
  {
    var v := RemoveWhitespaces(o);
    var fields := CheckFields(BrandUpdateRules, v);
    CheckFieldsOne(BrandUpdateRules, v);
    fields
  }

  // ---------------------------------------------------------------------------
  // Motorcycles

  /** The language of `[A-Z]{3}\d{3}`. */
  predicate PlateBody(s: string) {
    |s| == 6 && IsUpper(s[0]) && IsUpper(s[1]) && IsUpper(s[2]) && IsDigit(s[3]) && IsDigit(s[4]) && IsDigit(s[5])
  }

  /** `re.match(r'^[A-Z]{3}\d{3}$', s)`. */
  predicate PlateMatches(s: string) {
    AnchoredMatch(s, PlateBody)
  }

  const PlateMessage: string := "license_plate must be in the format 'ABC123'."

  /** `validate_license_plate`. */
  function PlateCheck(v: Value): (e: Option<Error>)
    ensures e.None? <==> !v.Text? || PlateMatches(v.s)
    ensures e.Some? ==> e.value == Validation(PlateMessage)
  {
    if v.Text? && !PlateMatches(v.s) then Some(Validation(PlateMessage)) else None
  }

  const MotorcycleCreateRules: seq<FieldRule> := [
    Required("model", Str(3, Some(25))),
    FieldRule("license_plate", Str(0, None), None, false, PlateCheck),
    Optional("photo", Typed),
    Required("brand_id", Typed),
    Required("owner_id", Typed)]

  /** After stripping, a plate matches exactly when it is three capital
      letters and three digits: the stripped text cannot end in a newline. */
  lemma StrippedPlate(s: string)
    ensures PlateMatches(Strip(s)) <==> PlateBody(Strip(s))
  {
    var t := Strip(s);
    if |t| > 0 {
      assert !IsSpace(t[|t| - 1]);
    }
  }

  /** `MotorcycleCreate`: every string stripped, then the bounds, with the
      licence plate exactly three capital letters and three digits. */
  function MotorcycleCreate(o: Object): (r: Result<Object>)
    ensures r.Ok? <==> MotorcycleFieldsMet(RemoveWhitespaces(o))
    ensures r.Ok? ==> Get(o, "license_plate").Text? && PlateBody(Strip(o["license_plate"].s))
    ensures r.Ok? ==> "license_plate" in r.value && r.value["license_plate"] == Text(Strip(o["license_plate"].s))
    ensures r.Ok? ==> StrWithin(r.value, "model", 3, 25)
  {
    var v := RemoveWhitespaces(o);
    var fields := CheckFields(MotorcycleCreateRules, v);
    MotorcycleCreateShape();
    MotorcycleCreateMet(v, MotorcycleCreateRules);
    if fields.Err? then fields
    else
      AcceptedRequiredStr(MotorcycleCreateRules, v, 0);
      AcceptedKept(MotorcycleCreateRules, v, 1);
      StrippedPlate(o["license_plate"].s);
      fields
  }

  /** What the field declarations of `MotorcycleCreate` demand of the
      stripped payload: a model of 3 to 25 characters, a plate that matches
      the pattern, and a brand and an owner. */
  predicate MotorcycleFieldsMet(w: Object) {
    && StrWithin(w, "model", 3, 25)
    && TextGiven(w, "license_plate") && PlateMatches(w["license_plate"].s)
    && Given(w, "brand_id") && Given(w, "owner_id")
  }

  /** The entries of the rule list that the proofs about `MotorcycleCreate`
      use, stated apart so those proofs work on these facts rather than on
      the whole list. */
  lemma MotorcycleCreateShape()
    ensures |MotorcycleCreateRules| == 5
    ensures MotorcycleCreateRules[0] == Required("model", Str(3, Some(25)))
    ensures MotorcycleCreateRules[1] == FieldRule("license_plate", Str(0, None), None, false, PlateCheck)
    ensures MotorcycleCreateRules[2] == Optional("photo", Typed)
    ensures MotorcycleCreateRules[3] == Required("brand_id", Typed)
    ensures MotorcycleCreateRules[4] == Required("owner_id", Typed)
  {
  }

  /** A motorcycle payload passes the field bounds exactly when its fields
      meet the declarations. */
  lemma MotorcycleCreateMet(v: Object, rules: seq<FieldRule>)
    requires |rules| == 5
    requires rules[0] == Required("model", Str(3, Some(25)))
    requires rules[1] == FieldRule("license_plate", Str(0, None), None, false, PlateCheck)
    requires rules[2] == Optional("photo", Typed)
    requires rules[3] == Required("brand_id", Typed)
    requires rules[4] == Required("owner_id", Typed)
    ensures CheckFields(rules, v).Ok? <==> MotorcycleFieldsMet(v)
  {
    CheckFieldsFive(rules, v);
    RequiredStrError("model", 3, 25, v);
    assert FieldError(rules[1], v).None? <==> TextGiven(v, "license_plate") && PlateMatches(v["license_plate"].s);
    OptionalTypedError("photo", v);
    RequiredTypedError("brand_id", v);
    RequiredTypedError("owner_id", v);
  }

  const MotorcycleUpdateRules: seq<FieldRule> := [
    Optional("photo", Typed),
    Optional("owner_id", Typed)]

  /** `MotorcycleUpdate` declares only the photo and the owner: a model or
      plate sent in an update is ignored. */
  function MotorcycleUpdate(o: Object): (r: Result<Object>)
    ensures r.Ok?
    ensures r.value.Keys <= {"photo", "owner_id"}
  {
    CheckFields(MotorcycleUpdateRules, RemoveWhitespaces(o))
  }
}

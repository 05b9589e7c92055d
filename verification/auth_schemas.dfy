/** The user schemas of api/auth/schemas.py, whose field validators differ
    from the ones in api/schemas: the username is checked with `isalnum`, the
    e-mail address for length, and the password without the rule about
    spaces at its ends. */
module AuthSchemas {
  import opened Wrappers
  import opened Ascii
  import opened Json
  import opened SchemaUtils
  import opened Fields

  const MaxEmailLength: nat := 255

  /** `username_alphanumeric`: alphanumeric first, then 3 to 50 characters.
      `None`, which only an update can carry, has no `isalnum`. */
  function UsernameCheck(v: Value): (e: Option<Error>)
    ensures v.Text? ==> (e.None? <==> IsAlnumStr(v.s) && 3 <= |v.s| <= 50)
    ensures v.Text? && !IsAlnumStr(v.s) ==> e == Some(Validation("username must be alphanumeric"))
    ensures v.Text? && IsAlnumStr(v.s) && !(3 <= |v.s| <= 50) ==> e == Some(Validation("username must contain 3-50 characters."))
    ensures !v.Text? ==> e.Some? && e.value.Crash?
  {
    if !v.Text? then Some(Crash("AttributeError: 'NoneType' object has no attribute 'isalnum'"))
    else if !IsAlnumStr(v.s) then Some(Validation("username must be alphanumeric"))
    else if !(3 <= |v.s| <= 50) then Some(Validation("username must contain 3-50 characters."))
    else None
  }

  /** The empty username is reported as not alphanumeric, not as too short. */
  lemma EmptyUsernameNotAlphanumeric()
    ensures UsernameCheck(Text("")) == Some(Validation("username must be alphanumeric"))
  {
  }

  /** `email_length`: at most 255 characters. */
  function EmailCheck(v: Value): (e: Option<Error>)
    ensures v.Text? ==> (e.None? <==> |v.s| <= MaxEmailLength)
    ensures v.Text? && e.Some? ==> e.value == Validation("email must be less than 255 characters.")
    ensures !v.Text? ==> e.Some? && e.value.Crash?
  {
    if !v.Text? then Some(Crash("TypeError: object of type 'NoneType' has no len()"))
    else if |v.s| > MaxEmailLength then Some(Validation("email must be less than 255 characters."))
    else None
  }

  /** The password rules of this module, in the order they are checked. */
  const AuthRules: seq<PasswordRule> := [TooShort, NoLower, NoUpper, NoDigit, NoSpecial]

  function AuthMessage(rule: PasswordRule): string {
    match rule
    case EdgeSpace => ""
    case TooShort => "password must be at least 8 characters."
    case NoLower => "password must have a lowercase character."
    case NoUpper => "password must have an uppercase character."
    case NoDigit => "password must have a numeric character."
    case NoSpecial => "password must have a special character."
  }

  /** `password_complexity`: the message of the first rule broken. */
  function PasswordCheck(v: Value): (e: Option<Error>)
    ensures v.Text? ==> (e.None? <==> forall i :: 0 <= i < |AuthRules| ==> !Breaks(AuthRules[i], v.s))
    ensures v.Text? && e.Some? ==>
      (exists i :: 0 <= i < |AuthRules| && Breaks(AuthRules[i], v.s)
         && e.value == Validation(AuthMessage(AuthRules[i]))
         && forall j :: 0 <= j < i ==> !Breaks(AuthRules[j], v.s))
    ensures !v.Text? ==> e.Some? && e.value.Crash?
  {
    if !v.Text? then Some(Crash("TypeError: object of type 'NoneType' has no len()"))
    else match FirstBroken(AuthRules, v.s)
      case None => None
      case Some(rule) => Some(Validation(AuthMessage(rule)))
  }

  /** A password these rules accept is refused by the schemas in api/schemas
      exactly when it starts or ends with a space. */
  lemma AuthAndSchemaPasswords(p: string)
    ensures (forall i :: 0 <= i < |SchemaRules| ==> !Breaks(SchemaRules[i], p)) <==>
      ((forall i :: 0 <= i < |AuthRules| ==> !Breaks(AuthRules[i], p)) && !Breaks(EdgeSpace, p))
  {
    assert forall i :: 0 <= i < |AuthRules| ==> AuthRules[i] == SchemaRules[i + 1];
    assert SchemaRules[0] == EdgeSpace;
    if (forall i :: 0 <= i < |AuthRules| ==> !Breaks(AuthRules[i], p)) && !Breaks(EdgeSpace, p) {
      forall i | 0 <= i < |SchemaRules|
        ensures !Breaks(SchemaRules[i], p)
      {
        if i > 0 {
          assert SchemaRules[i] == AuthRules[i - 1];
        }
      }
    }
  }

  /** A password with a leading space that this module accepts. */
  lemma LeadingSpaceAccepted()
    ensures PasswordCheck(Text(" Abcdef1!")).None?
    ensures Breaks(EdgeSpace, " Abcdef1!")
  {
    var p := " Abcdef1!";
    assert HasLower(p) by { assert IsLower(p[2]); }
    assert HasUpper(p) by { assert IsUpper(p[1]); }
    assert HasDigit(p) by { assert IsDigit(p[7]); }
    assert HasSpecial(p) by { assert p[8] == Specials[0]; }
    assert forall i :: 0 <= i < |AuthRules| ==> !Breaks(AuthRules[i], p);
  }

  const UserCreateRules: seq<FieldRule> := [
    FieldRule("username", Str(0, None), None, false, UsernameCheck),
    FieldRule("email", Str(0, None), None, false, EmailCheck),
    FieldRule("password", Str(0, None), None, false, PasswordCheck),
    Required("role_id", Typed),
    Optional("status", Typed),
    Optional("is_superuser", Typed)]

  /** A string field whose validator accepts it. */
  predicate TextPasses(o: Object, name: string, check: Value -> Option<Error>) {
    name in o && o[name].Text? && check(o[name]).None?
  }

  /** `UserCreate`: a username, an e-mail address and a password that pass
      their validators, and a role. */
  function UserCreate(o: Object): (r: Result<Object>)
    ensures r.Ok? <==> (TextPasses(o, "username", UsernameCheck) && TextPasses(o, "email", EmailCheck)
                        && TextPasses(o, "password", PasswordCheck) && Given(o, "role_id"))
    ensures r.Ok? ==> r.value == Dump(UserCreateRules, o)
  {
    CheckFieldsSix(UserCreateRules, o);
    RequiredTypedError("role_id", o);
    OptionalTypedError("status", o);
    OptionalTypedError("is_superuser", o);
    CheckFields(UserCreateRules, o)
  }

  const UserUpdateRules: seq<FieldRule> := [
    FieldRule("username", Str(0, None), Some(Null), true, UsernameCheck),
    FieldRule("email", Str(0, None), Some(Null), true, EmailCheck),
    FieldRule("password", Str(0, None), Some(Null), true, PasswordCheck),
    Optional("role_id", Typed),
    Optional("status", Typed),
    Optional("is_superuser", Typed)]

  /** A checked field of an update: left out, or a string its validator accepts. */
  predicate AbsentOrPasses(o: Object, name: string, check: Value -> Option<Error>) {
    name !in o || TextPasses(o, name, check)
  }

  /** `UserUpdate`: every field optional; the inherited validators run on
      every field supplied. */
  function UserUpdate(o: Object): (r: Result<Object>)
    ensures r.Ok? <==> (AbsentOrPasses(o, "username", UsernameCheck) && AbsentOrPasses(o, "email", EmailCheck)
                        && AbsentOrPasses(o, "password", PasswordCheck))
  {
    CheckFieldsSix(UserUpdateRules, o);
    OptionalTypedError("role_id", o);
    OptionalTypedError("status", o);
    OptionalTypedError("is_superuser", o);
    CheckFields(UserUpdateRules, o)
  }

  /** An update that sets a checked field to `None` explicitly fails inside
      the validator rather than with a validation error. */
  lemma ExplicitNullCrashes(o: Object, k: nat)
    requires k < 3 && UserUpdateRules[k].name in o && o[UserUpdateRules[k].name].Null?
    ensures UserUpdate(o).Err? && !UserUpdate(o).error.Validation?
  {
    assert Crashes(UserUpdateRules[k], o);
  }
}

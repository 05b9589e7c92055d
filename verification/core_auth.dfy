/** The field validators of the `User` table model in core/auth/models.py,
    as functions on the string each one receives. Their length guards are
    written as chained comparisons that no length satisfies. */
module CoreAuth {
  import opened Wrappers
  import opened Ascii
  import opened SchemaUtils
  import AuthSchemas
  import Json

  /** `username_validation`. */
  function Username(value: string): (r: Result<string>)
    ensures r.Ok? <==> IsAlnumStr(value)
    ensures r.Ok? ==> r.value == value
    ensures r.Err? ==> r.error == Validation("username must be alphanumeric")
  {
    if !IsAlnumStr(value) then Err(Validation("username must be alphanumeric"))
    else if 3 > |value| > 50 then Err(Validation("username must contain 3-50 characters."))
    else Ok(value)
  }

  /** The length guard never fires: a one-character and a sixty-character
      username both pass. */
  lemma UsernameLengthUnchecked()
    ensures Username("a").Ok?
    ensures var long := seq(60, i => 'a'); Username(long).Ok?
  {
    var long := seq(60, i => 'a');
    assert forall i :: 0 <= i < |long| ==> IsAlnum(long[i]);
  }

  /** The core password rules are checked in the same order as the ones of
      api/auth/schemas.py, with slightly different messages. */
  function CoreMessage(rule: PasswordRule): string {
    match rule
    case EdgeSpace => ""
    case TooShort => "password be at least 8 characters."
    case NoLower => "password must have a lowercase character."
    case NoUpper => "password must have a uppercase character."
    case NoDigit => "password must have a numeric character."
    case NoSpecial => "password must have a special character."
  }

  /** `password_validation`. */
  function Password(value: string): (r: Result<string>)
    ensures r.Ok? <==> forall i :: 0 <= i < |AuthSchemas.AuthRules| ==> !Breaks(AuthSchemas.AuthRules[i], value)
    ensures r.Ok? ==> r.value == value
    ensures r.Err? ==>
      (exists i :: 0 <= i < |AuthSchemas.AuthRules| && Breaks(AuthSchemas.AuthRules[i], value)
         && r.error == Validation(CoreMessage(AuthSchemas.AuthRules[i]))
         && forall j :: 0 <= j < i ==> !Breaks(AuthSchemas.AuthRules[j], value))
  {
    match FirstBroken(AuthSchemas.AuthRules, value)
    case None => Ok(value)
    case Some(rule) => Err(Validation(CoreMessage(rule)))
  }

  /** The table model and the auth schemas accept the same passwords. */
  lemma PasswordAgreesWithAuth(value: string)
    ensures Password(value).Ok? <==> AuthSchemas.PasswordCheck(Json.Text(value)).None?
  {
  }

  /** A name of letters and whitespace. */
  predicate NameChars(value: string) {
    forall i :: 0 <= i < |value| ==> IsAlpha(value[i]) || IsSpace(value[i])
  }

  /** `first_name_validation` and `last_name_validation`, told apart by the
      field name that starts their messages. */
  function Name(field: string, value: string): (r: Result<string>)
    ensures r.Ok? <==> NameChars(value)
    ensures r.Ok? ==> r.value == value
    ensures r.Err? ==> r.error == Validation(field + " must be alphabetic.")
  {
    if !NameChars(value) then Err(Validation(field + " must be alphabetic."))
    else if 1 > |value| > 50 then Err(Validation(field + " must contain 1-50 characters."))
    else Ok(value)
  }

  /** The empty name and a name of only spaces pass. */
  lemma BlankNamesPass(field: string)
    ensures Name(field, "").Ok? && Name(field, "   ").Ok?
  {
    assert NameChars("   ") by {
      assert forall i :: 0 <= i < 3 ==> "   "[i] == ' ';
    }
  }
}

/** The shared "before" validators of api/schemas/utils.py and the rules they
    are built from: whitespace stripping, the start/end date order, mobile
    telephone normalisation and password complexity. */
module SchemaUtils {
  import opened Wrappers
  import opened Ascii
  import opened Json
  import opened Fields

  // ---------------------------------------------------------------------------
  // Stripping

  /** The value with surrounding whitespace removed when it is a string. */
  function StripValue(v: Value): (r: Value)
    ensures r.Text? <==> v.Text?
    ensures v.Text? ==> r.s == Strip(v.s)
    ensures !v.Text? ==> r == v
  {
    if v.Text? then Text(Strip(v.s)) else v
  }

  /** `remove_whitespaces`: every string value stripped, keys and non-string
      values untouched. */
  function RemoveWhitespaces(o: Object): (r: Object)
    ensures r.Keys == o.Keys
    ensures forall k :: k in o ==> r[k] == StripValue(o[k])
  {
    map k | k in o :: StripValue(o[k])
  }

  /** A bounded string field of a stripped payload is bounded by its stripped length. */
  lemma StrippedWithin(o: Object, n: string, lo: nat, hi: nat)
    ensures StrWithin(RemoveWhitespaces(o), n, lo, hi) <==> n in o && o[n].Text? && lo <= |Strip(o[n].s)| <= hi
    ensures OptStrWithin(RemoveWhitespaces(o), n, lo, hi) <==>
      n !in o || o[n].Null? || (o[n].Text? && lo <= |Strip(o[n].s)| <= hi)
    ensures Given(RemoveWhitespaces(o), n) <==> Given(o, n)
  {
  }

  /** A stripped payload has no string value with whitespace at either end. */
  lemma StrippedEdges(o: Object, k: string)
    requires k in o && RemoveWhitespaces(o)[k].Text?
    ensures var s := RemoveWhitespaces(o)[k].s; |s| == 0 || (!IsSpace(s[0]) && !IsSpace(s[|s| - 1]))
  {
  }

  /** Stripping twice is stripping once. */
  lemma RemoveWhitespacesIdempotent(o: Object)
    ensures RemoveWhitespaces(RemoveWhitespaces(o)) == RemoveWhitespaces(o)
  {
    forall k | k in o
      ensures StripValue(StripValue(o[k])) == StripValue(o[k])
    {
      if o[k].Text? {
        StripIdempotent(o[k].s);
      }
    }
  }

  // ---------------------------------------------------------------------------
  // Start and end dates

  const DateOrderMessage: string := "Start date must be before or equal to end date."

  /** `check_start_end_dates`: when both raw dates are truthy they are
      compared with `>` as they arrived (strings lexicographically). */
  function CheckStartEndDates(o: Object): (r: Result<Object>)
    ensures r.Ok? ==> r.value == o
    ensures r == Err(Validation(DateOrderMessage)) <==>
      Truthy(Get(o, "start_date")) && Truthy(Get(o, "end_date"))
      && Greater(Get(o, "start_date"), Get(o, "end_date")) == Ok(true)
    ensures r.Err? && r.error.Crash? <==>
      Truthy(Get(o, "start_date")) && Truthy(Get(o, "end_date"))
      && Greater(Get(o, "start_date"), Get(o, "end_date")).Err?
  {
    var start := Get(o, "start_date");
    var end := Get(o, "end_date");
    if Truthy(start) && Truthy(end) then
      var later :- Greater(start, end);
      if later then Err(Validation(DateOrderMessage)) else Ok(o)
    else Ok(o)
  }

  /** Equal dates pass. */
  lemma EqualDatesPass(o: Object)
    requires Get(o, "start_date") == Get(o, "end_date")
    requires Get(o, "start_date").Text? || Get(o, "start_date").Int?
    ensures CheckStartEndDates(o) == Ok(o)
  {
    GreaterIrreflexive(Get(o, "start_date"));
  }

  /** A payload missing either date is never checked. */
  lemma MissingDateNotChecked(o: Object)
    requires "start_date" !in o || "end_date" !in o
    ensures CheckStartEndDates(o) == Ok(o)
  {
  }

  // ---------------------------------------------------------------------------
  // Telephone

  /** The language of `3\d{9}`. */
  predicate MobileBody(s: string) {
    |s| == 10 && s[0] == '3' && AllDigits(s)
  }

  /** `re.match(r'^3\d{9}$', s)`. */
  predicate IsMobile(s: string) {
    AnchoredMatch(s, MobileBody)
  }

  /** On digits-only text the anchored match is exactly ten digits starting with 3. */
  lemma MobileOnDigits(s: string)
    requires AllDigits(s)
    ensures IsMobile(s) <==> |s| == 10 && s[0] == '3'
  {
    assert forall i :: 0 <= i < |s| ==> s[i] != '\n';
    AnchoredMatchNoNewline(s, MobileBody);
  }

  const TelephoneMessage: string := "Phone number must be a valid mobile number, e.g., 3001234567."

  /** `re.sub(r'[^\d]', '', v)` on a raw value: only strings are accepted. */
  function DigitsOfValue(v: Value): (r: Result<string>)
    ensures r.Ok? <==> v.Text?
    ensures r.Ok? ==> r.value == DigitsOnly(v.s)
    ensures r.Err? ==> r.error.Crash?
  {
    if v.Text? then Ok(DigitsOnly(v.s))
    else Err(Crash("TypeError: expected string or bytes-like object"))
  }

  /** `check_telephone`: a missing or null telephone leaves the payload alone;
      otherwise the field is replaced by its digits, which must be empty or a
      mobile number. */
  function CheckTelephone(o: Object, field: string): (r: Result<Object>)
    ensures Get(o, field).Null? ==> r == Ok(o)
    ensures r.Ok? ==> Get(o, field).Null? || Get(o, field).Text?
    ensures r.Ok? && Get(o, field).Text? ==> r.value == o[field := Text(DigitsOnly(Get(o, field).s))]
    ensures r.Ok? && Get(o, field).Text? ==>
      var d := DigitsOnly(Get(o, field).s); d == "" || (|d| == 10 && d[0] == '3')
    ensures r == Err(Validation(TelephoneMessage)) <==>
      Get(o, field).Text? && DigitsOnly(Get(o, field).s) != "" && !IsMobile(DigitsOnly(Get(o, field).s))
    ensures r.Err? && r.error.Crash? <==> !Get(o, field).Null? && !Get(o, field).Text?
  {
    var t := Get(o, field);
    if t.Null? then Ok(o)
    else
      var d :- DigitsOfValue(t);
      MobileOnDigits(d);
      if d != "" && !IsMobile(d) then Err(Validation(TelephoneMessage))
      else Ok(o[field := Text(d)])
  }

  /** A telephone without any digit is accepted and stored as "". */
  lemma NoDigitsStoredEmpty(o: Object, field: string)
    requires Get(o, field).Text? && DigitsOnly(Get(o, field).s) == ""
    ensures CheckTelephone(o, field) == Ok(o[field := Text("")])
  {
  }

  /** Normalising an already-normalised telephone changes nothing. */
  lemma CheckTelephoneIdempotent(o: Object, field: string)
    requires CheckTelephone(o, field).Ok?
    ensures CheckTelephone(CheckTelephone(o, field).value, field) == CheckTelephone(o, field)
  {
    var r := CheckTelephone(o, field).value;
    if !Get(o, field).Null? {
      var d := DigitsOnly(Get(o, field).s);
      KeepAll(d, IsDigit);
      assert r[field := Text(d)] == r;
    }
  }

  // ---------------------------------------------------------------------------
  // Password complexity

  /** The characters counted as special. */
  const Specials: string := "!@#$%^&*()-_=+[]{}|;:'\"<>,.?/~`"

  /** The complexity rules a password can break. */
  datatype PasswordRule = EdgeSpace | TooShort | NoLower | NoUpper | NoDigit | NoSpecial

  predicate HasLower(p: string) { exists i :: 0 <= i < |p| && IsLower(p[i]) }
  predicate HasUpper(p: string) { exists i :: 0 <= i < |p| && IsUpper(p[i]) }
  predicate HasDigit(p: string) { exists i :: 0 <= i < |p| && IsDigit(p[i]) }
  predicate HasSpecial(p: string) { exists i :: 0 <= i < |p| && p[i] in Specials }

  /** Whether `p` breaks `rule`. */
  predicate Breaks(rule: PasswordRule, p: string) {
    match rule
    case EdgeSpace => |p| > 0 && (p[0] == ' ' || p[|p| - 1] == ' ')
    case TooShort => |p| < 8
    case NoLower => !HasLower(p)
    case NoUpper => !HasUpper(p)
    case NoDigit => !HasDigit(p)
    case NoSpecial => !HasSpecial(p)
  }

  /** The first rule of `rules`, in order, that `p` breaks. */
  function FirstBroken(rules: seq<PasswordRule>, p: string): (r: Option<PasswordRule>)
    ensures r.None? <==> forall i :: 0 <= i < |rules| ==> !Breaks(rules[i], p)
    ensures r.Some? ==> Breaks(r.value, p)
    ensures r.Some? ==> exists i :: 0 <= i < |rules| && rules[i] == r.value
                          && forall j :: 0 <= j < i ==> !Breaks(rules[j], p)
  {
    if |rules| == 0 then None
    else if Breaks(rules[0], p) then
      Some(rules[0])
    else
      var r := FirstBroken(rules[1..], p);
      assert forall i :: 1 <= i < |rules| ==> rules[i] == rules[1..][i - 1];
      if r.Some? then
        var i :| 0 <= i < |rules[1..]| && rules[1..][i] == r.value
          && forall j :: 0 <= j < i ==> !Breaks(rules[1..][j], p);
        assert rules[i + 1] == r.value;
        r
      else r
  }

  /** The rules of api/schemas, in the order they are checked. */
  const SchemaRules: seq<PasswordRule> := [EdgeSpace, TooShort, NoLower, NoUpper, NoDigit, NoSpecial]

  function SchemaMessage(rule: PasswordRule): string {
    match rule
    case EdgeSpace => "Password cannot start or end with spaces."
    case TooShort => "Password must be at least 8 characters."
    case NoLower => "Password must have a lowercase character."
    case NoUpper => "Password must have an uppercase character."
    case NoDigit => "Password must have a numeric character."
    case NoSpecial => "Password must have a special character."
  }

  /** The password checks shared by `check_password` and the user schemas,
      on the raw value: anything but a string raises `AttributeError`. */
  function PasswordErrors(v: Value): (r: Option<Error>)
    ensures v.Text? ==> (r.None? <==> forall i :: 0 <= i < |SchemaRules| ==> !Breaks(SchemaRules[i], v.s))
    ensures v.Text? && r.Some? ==> r.value.Validation?
    ensures !v.Text? ==> r.Some? && r.value.Crash?
  {
    if !v.Text? then Some(Crash("AttributeError: object has no attribute 'startswith'"))
    else match FirstBroken(SchemaRules, v.s)
      case None => None
      case Some(rule) => Some(Validation(SchemaMessage(rule)))
  }

  /** `check_password`: the payload unchanged when the password breaks no
      rule, otherwise the message of the first rule broken. */
  function CheckPassword(o: Object, field: string): (r: Result<Object>)
    ensures r.Ok? <==> Get(o, field).Text? && forall i :: 0 <= i < |SchemaRules| ==> !Breaks(SchemaRules[i], Get(o, field).s)
    ensures r.Ok? ==> r.value == o
  {
    match PasswordErrors(Get(o, field))
    case None => Ok(o)
    case Some(e) => Err(e)
  }

  /** The message reports the first broken rule: a password that starts with a
      space is reported as such even when it is also too short. */
  lemma CheckPasswordOrder(o: Object, field: string, k: nat)
    requires Get(o, field).Text? && k < |SchemaRules|
    requires Breaks(SchemaRules[k], Get(o, field).s)
    requires forall j :: 0 <= j < k ==> !Breaks(SchemaRules[j], Get(o, field).s)
    ensures CheckPassword(o, field) == Err(Validation(SchemaMessage(SchemaRules[k])))
  {
    var p := Get(o, field).s;
    var r := FirstBroken(SchemaRules, p);
    var i :| 0 <= i < |SchemaRules| && SchemaRules[i] == r.value
      && forall j :: 0 <= j < i ==> !Breaks(SchemaRules[j], p);
  }

  /** A password that passes every rule is at least eight characters with a
      lowercase, uppercase, digit and special character and no space at its ends. */
  lemma AcceptedPasswordShape(o: Object, field: string)
    requires CheckPassword(o, field).Ok?
    ensures var p := Get(o, field).s;
      |p| >= 8 && p[0] != ' ' && p[|p| - 1] != ' '
      && HasLower(p) && HasUpper(p) && HasDigit(p) && HasSpecial(p)
  {
    var p := Get(o, field).s;
    assert !Breaks(SchemaRules[0], p);
    assert !Breaks(SchemaRules[1], p);
    assert !Breaks(SchemaRules[2], p);
    assert !Breaks(SchemaRules[3], p);
    assert !Breaks(SchemaRules[4], p);
    assert !Breaks(SchemaRules[5], p);
  }
}

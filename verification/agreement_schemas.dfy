/** The request schemas of api/schemas/agreements.py: agreements and companies.

    The proofs follow the rule-list convention described at
    `Fields.CheckFields`. */
module AgreementSchemas {
  import opened Wrappers
  import opened Ascii
  import opened Json
  import opened SchemaUtils
  import opened Fields

  /** `AgreementBase.validate_schema`: the shared stripping and date check. */
  function AgreementBefore(o: Object): (r: Result<Object>)
    ensures r.Ok? ==> r.value == RemoveWhitespaces(o)
    ensures r == Err(Validation(DateOrderMessage)) <==>
      var v := RemoveWhitespaces(o);
      Truthy(Get(v, "start_date")) && Truthy(Get(v, "end_date"))
      && Greater(Get(v, "start_date"), Get(v, "end_date")) == Ok(true)
  {
    var v := RemoveWhitespaces(o);
    CheckStartEndDates(v)
  }

  /** Equal dates pass. */
  lemma AgreementEqualDates(o: Object)
    requires Get(RemoveWhitespaces(o), "start_date") == Get(RemoveWhitespaces(o), "end_date")
    requires Get(RemoveWhitespaces(o), "start_date").Text?
    ensures AgreementBefore(o) == Ok(RemoveWhitespaces(o))
  {
    EqualDatesPass(RemoveWhitespaces(o));
  }

  const AgreementCreateRules: seq<FieldRule> := [
    Required("name", Str(3, Some(50))),
    Optional("description", Str(0, Some(2500))),
    Required("start_date", Typed),
    Required("end_date", Typed),
    FieldRule("active", Typed, Some(Bool(true)), false, NoCheck),
    Required("company_id", Typed)]

  /** `AgreementCreate`: ordered dates, a stripped name of 3 to 50 characters
      and a description of at most 2500. */
  function AgreementCreate(o: Object): (r: Result<Object>)
    ensures r.Ok? <==> AgreementBefore(o).Ok? && AgreementFieldsMet(RemoveWhitespaces(o))
    ensures r.Ok? ==> StrWithin(r.value, "name", 3, 50) && OptStrWithin(r.value, "description", 0, 2500)
  {
    var v :- AgreementBefore(o);
    var fields := CheckFields(AgreementCreateRules, v);
    AgreementCreateShape();
    AgreementCreateMet(v, AgreementCreateRules);
    if fields.Ok? then
      AcceptedRequiredStr(AgreementCreateRules, v, 0);
      AcceptedOptionalStr(AgreementCreateRules, v, 1);
      fields
    else fields
  }

  /** What the field declarations of `AgreementCreate` demand of the
      stripped payload: a name of 3 to 50 characters, a description of at
      most 2500 when sent, both dates, a company, and no explicit `None` for
      `active`, which otherwise defaults to true. */
  predicate AgreementFieldsMet(w: Object) {
    && StrWithin(w, "name", 3, 50) && OptStrWithin(w, "description", 0, 2500)
    && Given(w, "start_date") && Given(w, "end_date")
    && !("active" in w && w["active"].Null?) && Given(w, "company_id")
  }

  /** The entries of the rule list that the proofs about `AgreementCreate`
      use, stated apart so those proofs work on these facts rather than on
      the whole list. */
  lemma AgreementCreateShape()
    ensures |AgreementCreateRules| == 6
    ensures AgreementCreateRules[0] == Required("name", Str(3, Some(50)))
    ensures AgreementCreateRules[1] == Optional("description", Str(0, Some(2500)))
    ensures AgreementCreateRules[2] == Required("start_date", Typed)
    ensures AgreementCreateRules[3] == Required("end_date", Typed)
    ensures AgreementCreateRules[4] == FieldRule("active", Typed, Some(Bool(true)), false, NoCheck)
    ensures AgreementCreateRules[5] == Required("company_id", Typed)
  {
  }

  /** A new agreement passes the field bounds exactly when its fields meet
      the declarations. */
  lemma AgreementCreateMet(v: Object, rules: seq<FieldRule>)
    requires |rules| == 6
    requires rules[0] == Required("name", Str(3, Some(50)))
    requires rules[1] == Optional("description", Str(0, Some(2500)))
    requires rules[2] == Required("start_date", Typed)
    requires rules[3] == Required("end_date", Typed)
    requires rules[4] == FieldRule("active", Typed, Some(Bool(true)), false, NoCheck)
    requires rules[5] == Required("company_id", Typed)
    ensures CheckFields(rules, v).Ok? <==> AgreementFieldsMet(v)
  {
    CheckFieldsSix(rules, v);
    RequiredStrError("name", 3, 50, v);
    OptionalStrError("description", 0, 2500, v);
    RequiredTypedError("start_date", v);
    RequiredTypedError("end_date", v);
    DefaultedTypedError("active", Bool(true), v);
    RequiredTypedError("company_id", v);
  }

  /** A new agreement is active unless the payload says otherwise. */
  lemma AgreementActiveByDefault(o: Object)
    requires "active" !in o
    ensures var d := FullDump(AgreementCreateRules, o); "active" in d && d["active"] == Bool(true)
  {
    FullDumpDefault(AgreementCreateRules, o, 4);
  }

  const AgreementUpdateRules: seq<FieldRule> := [
    Optional("name", Str(3, Some(50))),
    Optional("description", Str(0, Some(2500))),
    Optional("start_date", Typed),
    Optional("end_date", Typed),
    Optional("active", Typed)]

  function AgreementUpdate(o: Object): (r: Result<Object>)
    ensures r.Ok? <==> AgreementBefore(o).Ok? && AgreementUpdateFieldsMet(RemoveWhitespaces(o))
    ensures r.Ok? ==> OptStrWithin(r.value, "name", 3, 50) && OptStrWithin(r.value, "description", 0, 2500)
  {
    var v :- AgreementBefore(o);
    var fields := CheckFields(AgreementUpdateRules, v);
    AgreementUpdateShape();
    AgreementUpdateMet(v, AgreementUpdateRules);
    if fields.Ok? then
      AcceptedOptionalStr(AgreementUpdateRules, v, 0);
      AcceptedOptionalStr(AgreementUpdateRules, v, 1);
      fields
    else fields
  }

  /** What the field declarations of `AgreementUpdate` demand: the bounds of
      a new agreement on whatever strings are sent. */
  predicate AgreementUpdateFieldsMet(w: Object) {
    OptStrWithin(w, "name", 3, 50) && OptStrWithin(w, "description", 0, 2500)
  }

  /** The entries of the rule list that the proofs about `AgreementUpdate`
      use, stated apart so those proofs work on these facts rather than on
      the whole list. */
  lemma AgreementUpdateShape()
    ensures |AgreementUpdateRules| == 5
    ensures AgreementUpdateRules[0] == Optional("name", Str(3, Some(50)))
    ensures AgreementUpdateRules[1] == Optional("description", Str(0, Some(2500)))
    ensures AgreementUpdateRules[2] == Optional("start_date", Typed)
    ensures AgreementUpdateRules[3] == Optional("end_date", Typed)
    ensures AgreementUpdateRules[4] == Optional("active", Typed)
  {
  }

  /** An agreement update passes the field bounds exactly when what it sends
      meets the declarations. */
  lemma AgreementUpdateMet(v: Object, rules: seq<FieldRule>)
    requires |rules| == 5
    requires rules[0] == Optional("name", Str(3, Some(50)))
    requires rules[1] == Optional("description", Str(0, Some(2500)))
    requires rules[2] == Optional("start_date", Typed)
    requires rules[3] == Optional("end_date", Typed)
    requires rules[4] == Optional("active", Typed)
    ensures CheckFields(rules, v).Ok? <==> AgreementUpdateFieldsMet(v)
  {
    CheckFieldsFive(rules, v);
    OptionalStrError("name", 3, 50, v);
    OptionalStrError("description", 0, 2500, v);
    OptionalTypedError("start_date", v);
    OptionalTypedError("end_date", v);
    OptionalTypedError("active", v);
  }

  // ---------------------------------------------------------------------------
  // Companies

  /** `CompanyCreate.validate_schema`: the shared stripping and telephone
      check, then the same two steps written out again, the second time
      without the guard for a missing telephone. Any telephone that is not a
      string crashes (the first pass refuses a non-string, the second a
      missing one or `None`); a string telephone is stored as the digits of
      its stripped text, which must be empty or a mobile number. */
  function CompanyBefore(o: Object): (r: Result<Object>)
    ensures r.Err? && r.error.Crash? <==> !Get(o, "contact_telephone").Text?
    ensures r == Err(Validation(TelephoneMessage)) <==>
      Get(o, "contact_telephone").Text? &&
      var d := DigitsOnly(Strip(o["contact_telephone"].s)); d != "" && !IsMobile(d)
    ensures r.Ok? ==> Get(o, "contact_telephone").Text?
    ensures r.Ok? ==>
      r.value == RemoveWhitespaces(o)["contact_telephone" := Text(DigitsOnly(Strip(o["contact_telephone"].s)))]
  {
    var v := RemoveWhitespaces(o);
    var checked :- CheckTelephone(v, "contact_telephone");
    SecondPass(o);
    var again := RemoveWhitespaces(checked);
    var d :- DigitsOfValue(Get(again, "contact_telephone"));
    if d != "" && !IsMobile(d) then Err(Validation(TelephoneMessage))
    else Ok(again["contact_telephone" := Text(d)])
  }

  /** What the second pass finds once the shared telephone check has passed:
      no telephone when there was no string telephone; otherwise a stripped
      payload holding the telephone's digits, which are already empty or a
      mobile number. */
  lemma SecondPass(o: Object)
    requires CheckTelephone(RemoveWhitespaces(o), "contact_telephone").Ok?
    ensures var c := CheckTelephone(RemoveWhitespaces(o), "contact_telephone").value;
      !Get(o, "contact_telephone").Text? ==> Get(RemoveWhitespaces(c), "contact_telephone").Null?
    ensures var c := CheckTelephone(RemoveWhitespaces(o), "contact_telephone").value;
      Get(o, "contact_telephone").Text? ==>
      var d := DigitsOnly(Strip(o["contact_telephone"].s));
      && RemoveWhitespaces(c) == c && Get(c, "contact_telephone") == Text(d)
      && DigitsOnly(d) == d && (d == "" || IsMobile(d))
      && c == RemoveWhitespaces(o)["contact_telephone" := Text(d)]
  {
    if !Get(o, "contact_telephone").Text? {
      return;
    }
    var tel := "contact_telephone";
    var v := RemoveWhitespaces(o);
    var c := CheckTelephone(v, tel);
    var d := DigitsOnly(v[tel].s);
    DigitsFixed(d);
    assert c.value == v[tel := Text(d)];
    RestripUpdated(o, tel, d);
    MobileOnDigits(d);
  }

  /** Digits are left alone by stripping and by digit extraction. */
  lemma DigitsFixed(d: string)
    requires AllDigits(d)
    ensures Strip(d) == d && DigitsOnly(d) == d
  {
    if |d| > 0 {
      WhitespaceIsSpace(d[0]);
      WhitespaceIsSpace(d[|d| - 1]);
    }
    TrimUntouched(d, Whitespace);
    KeepAll(d, IsDigit);
  }

  /** With a telephone present, the second pass changes nothing: the
      validator is exactly the shared telephone check on the stripped payload. */
  lemma CompanySecondPassNoop(o: Object)
    requires Get(o, "contact_telephone").Text?
    ensures CompanyBefore(o) == CheckTelephone(RemoveWhitespaces(o), "contact_telephone")
  {
  }

  /** Stripping a stripped payload whose one field was replaced by a text
      without surrounding blanks changes nothing. */
  lemma RestripUpdated(o: Object, k: string, d: string)
    requires Strip(d) == d
    ensures var u := RemoveWhitespaces(o)[k := Text(d)]; RemoveWhitespaces(u) == u
  {
    var v := RemoveWhitespaces(o);
    var u := v[k := Text(d)];
    RemoveWhitespacesIdempotent(o);
    forall k' | k' in u
      ensures StripValue(u[k']) == u[k']
    {
      if k' != k {
        assert u[k'] == v[k'] && StripValue(v[k']) == RemoveWhitespaces(v)[k'];
      }
    }
  }

  /** Without a telephone, or with `None`, the second pass fails on the
      missing value. */
  lemma CompanyWithoutTelephone(o: Object)
    requires "contact_telephone" !in o || o["contact_telephone"].Null?
    ensures CompanyBefore(o).Err? && CompanyBefore(o).error.Crash?
  {
  }

  const CompanyCreateRules: seq<FieldRule> := [
    Required("name", Str(3, Some(50))),
    Required("contact_name", Str(3, Some(25))),
    Required("contact_telephone", Str(0, None)),
    Optional("contact_address", Str(0, Some(100))),
    Required("location_id", Typed)]

  /** `CompanyCreate`: a stripped name of 3 to 50 characters, a contact of 3
      to 25 and a telephone stored as its digits, empty or a mobile number. */
  function CompanyCreate(o: Object): (r: Result<Object>)
    ensures r.Ok? <==> CompanyBefore(o).Ok? && CompanyFieldsMet(RemoveWhitespaces(o))
    ensures r.Ok? ==> Get(o, "contact_telephone").Text?
    ensures r.Ok? ==> StrWithin(r.value, "name", 3, 50) && StrWithin(r.value, "contact_name", 3, 25)
    ensures r.Ok? ==> "contact_telephone" in r.value && r.value["contact_telephone"] == Text(DigitsOnly(Strip(o["contact_telephone"].s)))
  {
    var v :- CompanyBefore(o);
    var fields := CheckFields(CompanyCreateRules, v);
    CompanyCreateShape();
    CompanyBeforeReplaces(o);
    CompanyMetStripped(RemoveWhitespaces(o), v["contact_telephone"]);
    CompanyCreateMet(v, CompanyCreateRules);
    if fields.Ok? then
      CompanyCreateAccepted(o, CompanyCreateRules);
      fields
    else fields
  }

  /** What the field declarations of `CompanyCreate` demand of the stripped
      payload: a name of 3 to 50 characters, a contact of 3 to 25, an address
      of at most 100 when sent, and a location. The telephone is not among
      them: once the company validator has stored its digits it is a
      string, which the field accepts. */
  predicate CompanyFieldsMet(w: Object) {
    && StrWithin(w, "name", 3, 50) && StrWithin(w, "contact_name", 3, 25)
    && OptStrWithin(w, "contact_address", 0, 100) && Given(w, "location_id")
  }

  /** What the field declarations of `CompanyUpdate` demand: the bounds of a
      new company on whatever strings are sent. */
  predicate CompanyUpdateFieldsMet(w: Object) {
    && OptStrWithin(w, "name", 3, 50) && OptStrWithin(w, "contact_name", 3, 25)
    && OptStrWithin(w, "contact_address", 0, 100)
  }

  /** An accepted company payload is the stripped payload with the telephone
      replaced by a string. */
  lemma CompanyBeforeReplaces(o: Object)
    requires CompanyBefore(o).Ok?
    ensures var v := CompanyBefore(o).value;
      && TextGiven(v, "contact_telephone")
      && v == RemoveWhitespaces(o)["contact_telephone" := v["contact_telephone"]]
  {
  }

  /** The company validator replaces only the telephone, which neither
      company schema's declarations constrain beyond being a string. */
  lemma CompanyMetStripped(w: Object, x: Value)
    ensures CompanyFieldsMet(w["contact_telephone" := x]) <==> CompanyFieldsMet(w)
    ensures CompanyUpdateFieldsMet(w["contact_telephone" := x]) <==> CompanyUpdateFieldsMet(w)
  {
  }

  /** The entries of the rule list that the proofs about `CompanyCreate`
      use, stated apart so those proofs work on these facts rather than on
      the whole list. */
  lemma CompanyCreateShape()
    ensures |CompanyCreateRules| == 5
    ensures CompanyCreateRules[0] == Required("name", Str(3, Some(50)))
    ensures CompanyCreateRules[1] == Required("contact_name", Str(3, Some(25)))
    ensures CompanyCreateRules[2] == Required("contact_telephone", Str(0, None))
    ensures CompanyCreateRules[3] == Optional("contact_address", Str(0, Some(100)))
    ensures CompanyCreateRules[4] == Required("location_id", Typed)
  {
  }

  /** A company payload whose telephone is a string passes the field bounds
      exactly when its fields meet the declarations. */
  lemma CompanyCreateMet(v: Object, rules: seq<FieldRule>)
    requires |rules| == 5
    requires rules[0] == Required("name", Str(3, Some(50)))
    requires rules[1] == Required("contact_name", Str(3, Some(25)))
    requires rules[2] == Required("contact_telephone", Str(0, None))
    requires rules[3] == Optional("contact_address", Str(0, Some(100)))
    requires rules[4] == Required("location_id", Typed)
    requires TextGiven(v, "contact_telephone")
    ensures CheckFields(rules, v).Ok? <==> CompanyFieldsMet(v)
  {
    CheckFieldsFive(rules, v);
    RequiredStrError("name", 3, 50, v);
    RequiredStrError("contact_name", 3, 25, v);
    RequiredTextError("contact_telephone", v);
    OptionalStrError("contact_address", 0, 100, v);
    RequiredTypedError("location_id", v);
  }

  /** What an accepted new company holds. */
  lemma CompanyCreateAccepted(o: Object, rules: seq<FieldRule>)
    requires |rules| == 5 && rules[0] == Required("name", Str(3, Some(50)))
    requires rules[1] == Required("contact_name", Str(3, Some(25))) && rules[2].name == "contact_telephone"
    requires CompanyBefore(o).Ok? && CheckFields(rules, CompanyBefore(o).value).Ok?
    ensures Get(o, "contact_telephone").Text?
    ensures var d := CheckFields(rules, CompanyBefore(o).value).value;
      && StrWithin(d, "name", 3, 50) && StrWithin(d, "contact_name", 3, 25)
      && "contact_telephone" in d && d["contact_telephone"] == Text(DigitsOnly(Strip(o["contact_telephone"].s)))
  {
    var v := CompanyBefore(o).value;
    AcceptedCompany(o, rules, 2);
    AcceptedRequiredStr(rules, v, 0);
    AcceptedRequiredStr(rules, v, 1);
  }

  /** The telephone an accepted company stores. */
  lemma AcceptedCompany(o: Object, rules: seq<FieldRule>, i: nat)
    requires CompanyBefore(o).Ok? && CheckFields(rules, CompanyBefore(o).value).Ok?
    requires i < |rules| && rules[i].name == "contact_telephone"
    ensures Get(o, "contact_telephone").Text?
    ensures var d := CheckFields(rules, CompanyBefore(o).value).value;
      "contact_telephone" in d && d["contact_telephone"] == Text(DigitsOnly(Strip(o["contact_telephone"].s)))
  {
    AcceptedKept(rules, CompanyBefore(o).value, i);
  }

  const CompanyUpdateRules: seq<FieldRule> := [
    Optional("name", Str(3, Some(50))),
    Optional("contact_name", Str(3, Some(25))),
    Optional("contact_telephone", Str(0, None)),
    Optional("contact_address", Str(0, Some(100))),
    Optional("location_id", Typed)]

  /** `CompanyUpdate` inherits the company validator, so although every field
      is optional, an update without a telephone cannot pass. */
  function CompanyUpdate(o: Object): (r: Result<Object>)
    ensures r.Ok? <==> CompanyBefore(o).Ok? && CompanyUpdateFieldsMet(RemoveWhitespaces(o))
    ensures r.Ok? ==> Get(o, "contact_telephone").Text?
    ensures r.Ok? ==> OptStrWithin(r.value, "name", 3, 50) && OptStrWithin(r.value, "contact_name", 3, 25)
  {
    var v :- CompanyBefore(o);
    var fields := CheckFields(CompanyUpdateRules, v);
    CompanyUpdateShape();
    CompanyBeforeReplaces(o);
    CompanyMetStripped(RemoveWhitespaces(o), v["contact_telephone"]);
    CompanyUpdateMet(v, CompanyUpdateRules);
    if fields.Ok? then
      CompanyUpdateAccepted(o, CompanyUpdateRules);
      fields
    else fields
  }

  /** The entries of the rule list that the proofs about `CompanyUpdate`
      use, stated apart so those proofs work on these facts rather than on
      the whole list. */
  lemma CompanyUpdateShape()
    ensures |CompanyUpdateRules| == 5
    ensures CompanyUpdateRules[0] == Optional("name", Str(3, Some(50)))
    ensures CompanyUpdateRules[1] == Optional("contact_name", Str(3, Some(25)))
    ensures CompanyUpdateRules[2] == Optional("contact_telephone", Str(0, None))
    ensures CompanyUpdateRules[3] == Optional("contact_address", Str(0, Some(100)))
    ensures CompanyUpdateRules[4] == Optional("location_id", Typed)
  {
  }

  /** A company update whose telephone is a string passes the field bounds
      exactly when what it sends meets the declarations. */
  lemma CompanyUpdateMet(v: Object, rules: seq<FieldRule>)
    requires |rules| == 5
    requires rules[0] == Optional("name", Str(3, Some(50)))
    requires rules[1] == Optional("contact_name", Str(3, Some(25)))
    requires rules[2] == Optional("contact_telephone", Str(0, None))
    requires rules[3] == Optional("contact_address", Str(0, Some(100)))
    requires rules[4] == Optional("location_id", Typed)
    requires TextGiven(v, "contact_telephone")
    ensures CheckFields(rules, v).Ok? <==> CompanyUpdateFieldsMet(v)
  {
    CheckFieldsFive(rules, v);
    OptionalStrError("name", 3, 50, v);
    OptionalStrError("contact_name", 3, 25, v);
    OptionalTextError("contact_telephone", v);
    OptionalStrError("contact_address", 0, 100, v);
    OptionalTypedError("location_id", v);
  }

  /** What an accepted company update holds. */
  lemma CompanyUpdateAccepted(o: Object, rules: seq<FieldRule>)
    requires |rules| == 5 && rules[0] == Optional("name", Str(3, Some(50)))
    requires rules[1] == Optional("contact_name", Str(3, Some(25))) && rules[2].name == "contact_telephone"
    requires CompanyBefore(o).Ok? && CheckFields(rules, CompanyBefore(o).value).Ok?
    ensures Get(o, "contact_telephone").Text?
    ensures var d := CheckFields(rules, CompanyBefore(o).value).value;
      OptStrWithin(d, "name", 3, 50) && OptStrWithin(d, "contact_name", 3, 25)
  {
    var v := CompanyBefore(o).value;
    AcceptedCompany(o, rules, 2);
    AcceptedOptionalStr(rules, v, 0);
    AcceptedOptionalStr(rules, v, 1);
  }
}

/** The request schemas of api/schemas/teams.py: teams and locations. */
module TeamSchemas {
  import opened Wrappers
  import opened Ascii
  import opened Json
  import opened SchemaUtils
  import opened Fields

  const TeamCreateRules: seq<FieldRule> := [
    Required("name", Str(3, Some(50))),
    Required("location_id", Typed)]

  /** `TeamCreate`: a stripped name of 3 to 50 characters and a location. */
  function TeamCreate(o: Object): (r: Result<Object>)
    ensures r.Ok? <==> ("name" in o && o["name"].Text? && 3 <= |Strip(o["name"].s)| <= 50
                        && Given(o, "location_id"))
    ensures r.Ok? ==> "name" in r.value && r.value["name"] == Text(Strip(o["name"].s))
  {
    var v := RemoveWhitespaces(o);
    var fields := CheckFields(TeamCreateRules, v);
    RequiredStrError("name", 3, 50, v);
    RequiredTypedError("location_id", v);
    StrippedWithin(o, "name", 3, 50);
    StrippedWithin(o, "location_id", 0, 0);
    CheckFieldsTwo(TeamCreateRules, v);
    if fields.Ok? then
      assert TeamCreateRules[0] == Required("name", Str(3, Some(50)));
      AcceptedKept(TeamCreateRules, v, 0);
      fields
    else fields
  }

  const TeamUpdateRules: seq<FieldRule> := [Optional("name", Str(3, Some(50)))]

  /** `TeamUpdate` can change only the name. */
  function TeamUpdate(o: Object): (r: Result<Object>)
    ensures r.Ok? <==> OptStrWithin(RemoveWhitespaces(o), "name", 3, 50)
    ensures r.Ok? ==> forall k :: k in r.value ==> k == "name"
  {
    var v := RemoveWhitespaces(o);
    var fields := CheckFields(TeamUpdateRules, v);
    CheckFieldsOne(TeamUpdateRules, v);
    if fields.Ok? then
      AcceptedKeys(TeamUpdateRules, v);
      fields
    else fields
  }

  // ---------------------------------------------------------------------------
  // Locations

  const LocationCreateRules: seq<FieldRule> := [
    Required("name", Str(3, Some(50))),
    Required("type", Typed),
    FieldRule("is_capital", Typed, Some(Bool(false)), false, NoCheck),
    Optional("department_id", Typed)]

  /** `LocationCreate`: a stripped name of 3 to 50 characters and a type;
      the capital flag may be left out but not set to `None`. */
  function LocationCreate(o: Object): (r: Result<Object>)
    ensures r.Ok? <==> ("name" in o && o["name"].Text? && 3 <= |Strip(o["name"].s)| <= 50
                        && Given(o, "type") && !("is_capital" in o && o["is_capital"].Null?))
  {
    var v := RemoveWhitespaces(o);
    CheckFieldsFour(LocationCreateRules, v);
    LocationCreateErrors(o);
    CheckFields(LocationCreateRules, v)
  }

  /** Each rule of `LocationCreate` in terms of the raw payload. */
  lemma LocationCreateErrors(o: Object)
    ensures var v := RemoveWhitespaces(o);
      && (FieldError(LocationCreateRules[0], v).None? <==>
          ("name" in o && o["name"].Text? && 3 <= |Strip(o["name"].s)| <= 50))
      && (FieldError(LocationCreateRules[1], v).None? <==> Given(o, "type"))
      && (FieldError(LocationCreateRules[2], v).None? <==> !("is_capital" in o && o["is_capital"].Null?))
      && FieldError(LocationCreateRules[3], v).None?
  {
    var v := RemoveWhitespaces(o);
    assert LocationCreateRules[0] == Required("name", Str(3, Some(50)));
    RequiredStrError("name", 3, 50, v);
    StrippedWithin(o, "name", 3, 50);
    assert LocationCreateRules[1] == Required("type", Typed);
    RequiredTypedError("type", v);
    StrippedWithin(o, "type", 0, 0);
    StrippedWithin(o, "is_capital", 0, 0);
    assert LocationCreateRules[3] == Optional("department_id", Typed);
    OptionalTypedError("department_id", v);
  }

  /** A new location is not a capital and has no department unless the
      payload says otherwise. */
  lemma LocationDefaults(o: Object)
    requires "is_capital" !in o && "department_id" !in o
    ensures var d := FullDump(LocationCreateRules, o);
      && "is_capital" in d && d["is_capital"] == Bool(false)
      && "department_id" in d && d["department_id"] == Null
  {
    var rules := LocationCreateRules;
    assert rules[2].name == "is_capital" && rules[2].default == Some(Bool(false));
    assert rules[3].name == "department_id" && rules[3].default == Some(Null);
    assert forall j :: 0 <= j < 2 ==> rules[j].name != rules[2].name;
    assert forall j :: 0 <= j < 3 ==> rules[j].name != rules[3].name;
    FullDumpDefault(rules, o, 2);
    FullDumpDefault(rules, o, 3);
  }

  const LocationUpdateRules: seq<FieldRule> := [
    Optional("name", Str(3, Some(50))),
    Optional("type", Typed),
    Optional("is_capital", Typed),
    Optional("department_id", Typed)]

  function LocationUpdate(o: Object): (r: Result<Object>)
    ensures r.Ok? <==> OptStrWithin(RemoveWhitespaces(o), "name", 3, 50)
  {
    var v := RemoveWhitespaces(o);
    var fields := CheckFields(LocationUpdateRules, v);
    OptionalStrError("name", 3, 50, v);
    OptionalTypedError("type", v);
    OptionalTypedError("is_capital", v);
    OptionalTypedError("department_id", v);
    CheckFieldsFour(LocationUpdateRules, v);
    fields
  }
}

/** The request schemas of api/schemas/events.py: events, reviews and paths.
    The organizer/team membership check of `EventCreate` queries the database
    and is not part of this model.

    The proofs follow the rule-list convention described at
    `Fields.CheckFields`. */
module EventSchemas {
  import opened Wrappers
  import opened Ascii
  import opened Json
  import opened SchemaUtils
  import opened Fields

  /** `EventBase.validate_schema`: the same stripping loop and date check as
      the shared helpers, written inline. */
  function EventBefore(o: Object): (r: Result<Object>)
    ensures r.Ok? ==> r.value == RemoveWhitespaces(o)
    ensures r == Err(Validation(DateOrderMessage)) <==>
      var v := RemoveWhitespaces(o);
      Truthy(Get(v, "start_date")) && Truthy(Get(v, "end_date"))
      && Greater(Get(v, "start_date"), Get(v, "end_date")) == Ok(true)
  {
    CheckStartEndDates(RemoveWhitespaces(o))
  }

  /** An update carrying only one of the dates is never compared with the
      stored other date. */
  lemma SingleDateNotCompared(o: Object)
    requires "start_date" !in o || "end_date" !in o
    ensures EventBefore(o) == Ok(RemoveWhitespaces(o))
  {
    MissingDateNotChecked(RemoveWhitespaces(o));
  }

  /** The dates are compared as the raw JSON strings: a start at 10:00+05:00
      (05:00 UTC) is rejected against an end at 08:00 UTC. */
  lemma RawDatesCompareAsText()
    ensures EventBefore(map["start_date" := Text("10:00+05"), "end_date" := Text("08:00+00")]) == Err(Validation(DateOrderMessage))
  {
    var o := map["start_date" := Text("10:00+05"), "end_date" := Text("08:00+00")];
    UnpaddedText("10:00+05");
    UnpaddedText("08:00+00");
    assert RemoveWhitespaces(o) == o;
    assert StrLess("08:00+00", "10:00+05");
    assert Greater(Text("10:00+05"), Text("08:00+00")) == Ok(true);
  }

  /** A string without surrounding blanks is stored as it arrived. */
  lemma UnpaddedText(s: string)
    requires |s| > 0 && '0' <= s[0] <= '9' && '0' <= s[|s| - 1] <= '9'
    ensures StripValue(Text(s)) == Text(s)
  {
    TrimUntouched(s, Whitespace);
  }

  const EventCreateRules: seq<FieldRule> := [
    Required("type", Typed),
    Required("name", Str(3, Some(50))),
    Optional("description", Str(0, Some(1000))),
    Required("start_date", Typed),
    Required("end_date", Typed),
    Required("meeting_point", Str(0, Some(100))),
    Required("location_id", Typed),
    Required("organizer_id", Typed),
    Required("team_id", Typed),
    Optional("path_id", Typed)]

  /** `EventCreate` without its membership check: ordered dates, a stripped
      name of 3 to 50 characters and a meeting point of at most 100. */
  function EventCreate(o: Object): (r: Result<Object>)
    ensures r.Ok? <==> EventBefore(o).Ok? && EventFieldsMet(RemoveWhitespaces(o))
    ensures r.Ok? ==> StrWithin(r.value, "name", 3, 50) && StrWithin(r.value, "meeting_point", 0, 100)
    ensures r.Ok? ==> OptStrWithin(r.value, "description", 0, 1000)
  {
    var v :- EventBefore(o);
    var fields := CheckFields(EventCreateRules, v);
    EventCreateShape();
    EventCreateMet(v, EventCreateRules);
    if fields.Ok? then
      EventAccepted(EventCreateRules, v);
      fields
    else fields
  }

  /** What the field declarations of `EventCreate` demand of the stripped
      payload: a type, both dates, a place, an organizer and a team, a name
      of 3 to 50 characters, a meeting point of at most 100 and, when sent, a
      description of at most 1000. */
  predicate EventFieldsMet(w: Object) {
    && Given(w, "type") && StrWithin(w, "name", 3, 50) && OptStrWithin(w, "description", 0, 1000)
    && Given(w, "start_date") && Given(w, "end_date") && StrWithin(w, "meeting_point", 0, 100)
    && Given(w, "location_id") && Given(w, "organizer_id") && Given(w, "team_id")
  }

  /** The entries of the rule list that the proofs about `EventCreate` use,
      stated apart so those proofs work on these facts rather than on the
      whole list. */
  lemma EventCreateShape()
    ensures |EventCreateRules| == 10
    ensures EventCreateRules[0] == Required("type", Typed)
    ensures EventCreateRules[1] == Required("name", Str(3, Some(50)))
    ensures EventCreateRules[2] == Optional("description", Str(0, Some(1000)))
    ensures EventCreateRules[3] == Required("start_date", Typed)
    ensures EventCreateRules[4] == Required("end_date", Typed)
    ensures EventCreateRules[5] == Required("meeting_point", Str(0, Some(100)))
    ensures EventCreateRules[6] == Required("location_id", Typed)
    ensures EventCreateRules[7] == Required("organizer_id", Typed)
    ensures EventCreateRules[8] == Required("team_id", Typed)
    ensures EventCreateRules[9] == Optional("path_id", Typed)
  {
  }

  /** A new event passes the field bounds exactly when its fields meet the
      declarations. */
  lemma EventCreateMet(v: Object, rules: seq<FieldRule>)
    requires |rules| == 10
    requires rules[0] == Required("type", Typed)
    requires rules[1] == Required("name", Str(3, Some(50)))
    requires rules[2] == Optional("description", Str(0, Some(1000)))
    requires rules[3] == Required("start_date", Typed)
    requires rules[4] == Required("end_date", Typed)
    requires rules[5] == Required("meeting_point", Str(0, Some(100)))
    requires rules[6] == Required("location_id", Typed)
    requires rules[7] == Required("organizer_id", Typed)
    requires rules[8] == Required("team_id", Typed)
    requires rules[9] == Optional("path_id", Typed)
    ensures CheckFields(rules, v).Ok? <==> EventFieldsMet(v)
  {
    CheckFieldsTen(rules, v);
    RequiredTypedError("type", v);
    RequiredStrError("name", 3, 50, v);
    OptionalStrError("description", 0, 1000, v);
    RequiredTypedError("start_date", v);
    RequiredTypedError("end_date", v);
    RequiredStrError("meeting_point", 0, 100, v);
    RequiredTypedError("location_id", v);
    RequiredTypedError("organizer_id", v);
    RequiredTypedError("team_id", v);
    OptionalTypedError("path_id", v);
  }

  /** What an accepted new event holds. */
  lemma EventAccepted(rules: seq<FieldRule>, v: Object)
    requires |rules| == 10 && rules[1] == Required("name", Str(3, Some(50)))
    requires rules[2] == Optional("description", Str(0, Some(1000)))
    requires rules[5] == Required("meeting_point", Str(0, Some(100)))
    requires CheckFields(rules, v).Ok?
    ensures var d := CheckFields(rules, v).value;
      && StrWithin(d, "name", 3, 50) && StrWithin(d, "meeting_point", 0, 100)
      && OptStrWithin(d, "description", 0, 1000)
  {
    AcceptedRequiredStr(rules, v, 1);
    AcceptedRequiredStr(rules, v, 5);
    AcceptedOptionalStr(rules, v, 2);
  }

  const EventUpdateRules: seq<FieldRule> := [
    Optional("type", Typed),
    Optional("name", Str(3, Some(50))),
    Optional("description", Str(0, Some(1000))),
    Optional("start_date", Typed),
    Optional("end_date", Typed),
    Optional("meeting_point", Str(0, Some(100))),
    Optional("location_id", Typed),
    Optional("path_id", Typed)]

  /** `EventUpdate`: every field optional with the same bounds; the organizer
      and the team cannot be changed. */
  function EventUpdate(o: Object): (r: Result<Object>)
    ensures r.Ok? <==> EventBefore(o).Ok? && EventUpdateFieldsMet(RemoveWhitespaces(o))
    ensures r.Ok? ==> OptStrWithin(r.value, "name", 3, 50) && OptStrWithin(r.value, "meeting_point", 0, 100)
    ensures r.Ok? ==> "organizer_id" !in r.value && "team_id" !in r.value
  {
    var v :- EventBefore(o);
    var fields := CheckFields(EventUpdateRules, v);
    EventUpdateShape();
    EventUpdateMet(v, EventUpdateRules);
    if fields.Ok? then
      EventUpdateAccepted(EventUpdateRules, v);
      fields
    else fields
  }

  /** What the field declarations of `EventUpdate` demand: the bounds of a
      new event on whatever strings are sent. */
  predicate EventUpdateFieldsMet(w: Object) {
    && OptStrWithin(w, "name", 3, 50) && OptStrWithin(w, "description", 0, 1000)
    && OptStrWithin(w, "meeting_point", 0, 100)
  }

  /** The entries of the rule list that the proofs about `EventUpdate` use,
      stated apart so those proofs work on these facts rather than on the
      whole list. */
  lemma EventUpdateShape()
    ensures |EventUpdateRules| == 8
    ensures EventUpdateRules[0] == Optional("type", Typed)
    ensures EventUpdateRules[1] == Optional("name", Str(3, Some(50)))
    ensures EventUpdateRules[2] == Optional("description", Str(0, Some(1000)))
    ensures EventUpdateRules[3] == Optional("start_date", Typed)
    ensures EventUpdateRules[4] == Optional("end_date", Typed)
    ensures EventUpdateRules[5] == Optional("meeting_point", Str(0, Some(100)))
    ensures EventUpdateRules[6] == Optional("location_id", Typed)
    ensures EventUpdateRules[7] == Optional("path_id", Typed)
    ensures forall i :: 0 <= i < |EventUpdateRules| ==> EventUpdateRules[i].name != "organizer_id"
    ensures forall i :: 0 <= i < |EventUpdateRules| ==> EventUpdateRules[i].name != "team_id"
  {
  }

  /** An event update passes the field bounds exactly when what it sends
      meets the declarations. */
  lemma EventUpdateMet(v: Object, rules: seq<FieldRule>)
    requires |rules| == 8
    requires rules[0] == Optional("type", Typed)
    requires rules[1] == Optional("name", Str(3, Some(50)))
    requires rules[2] == Optional("description", Str(0, Some(1000)))
    requires rules[3] == Optional("start_date", Typed)
    requires rules[4] == Optional("end_date", Typed)
    requires rules[5] == Optional("meeting_point", Str(0, Some(100)))
    requires rules[6] == Optional("location_id", Typed)
    requires rules[7] == Optional("path_id", Typed)
    ensures CheckFields(rules, v).Ok? <==> EventUpdateFieldsMet(v)
  {
    CheckFieldsEight(rules, v);
    OptionalTypedError("type", v);
    OptionalStrError("name", 3, 50, v);
    OptionalStrError("description", 0, 1000, v);
    OptionalTypedError("start_date", v);
    OptionalTypedError("end_date", v);
    OptionalStrError("meeting_point", 0, 100, v);
    OptionalTypedError("location_id", v);
    OptionalTypedError("path_id", v);
  }

  /** What an accepted event update holds. */
  lemma EventUpdateAccepted(rules: seq<FieldRule>, v: Object)
    requires |rules| == 8 && rules[1] == Optional("name", Str(3, Some(50)))
    requires rules[5] == Optional("meeting_point", Str(0, Some(100)))
    requires forall i :: 0 <= i < |rules| ==> rules[i].name != "organizer_id"
    requires forall i :: 0 <= i < |rules| ==> rules[i].name != "team_id"
    requires CheckFields(rules, v).Ok?
    ensures var d := CheckFields(rules, v).value;
      && OptStrWithin(d, "name", 3, 50) && OptStrWithin(d, "meeting_point", 0, 100)
      && "organizer_id" !in d && "team_id" !in d
  {
    AcceptedOptionalStr(rules, v, 1);
    AcceptedOptionalStr(rules, v, 5);
    AcceptedDrops(rules, v, "organizer_id");
    AcceptedDrops(rules, v, "team_id");
  }

  // ---------------------------------------------------------------------------
  // Reviews

  const ReviewCreateRules: seq<FieldRule> := [
    Required("score", Range(1, 5)),
    Optional("comment", Str(0, Some(500)))]

  /** `ReviewCreate`: a score from 1 to 5 and a stripped comment of at most 500 characters. */
  function ReviewCreate(o: Object): (r: Result<Object>)
    ensures r.Ok? <==> ("score" in o && o["score"].Int? && 1 <= o["score"].i <= 5
                        && OptStrWithin(RemoveWhitespaces(o), "comment", 0, 500))
  {
    var v := RemoveWhitespaces(o);
    var fields := CheckFields(ReviewCreateRules, v);
    ReviewShape();
    RequiredRangeError("score", 1, 5, v);
    OptionalStrError("comment", 0, 500, v);
    CheckFieldsTwo(ReviewCreateRules, v);
    fields
  }

  /** Both review rule lists, stated apart so the proofs about them work on
      these facts rather than on the constants. */
  lemma ReviewShape()
    ensures ReviewCreateRules == [Required("score", Range(1, 5)), Optional("comment", Str(0, Some(500)))]
    ensures ReviewUpdateRules == [Optional("score", Range(1, 5)), Optional("comment", Str(0, Some(500)))]
  {
  }

  const ReviewUpdateRules: seq<FieldRule> := [
    Optional("score", Range(1, 5)),
    Optional("comment", Str(0, Some(500)))]

  function ReviewUpdate(o: Object): (r: Result<Object>)
    ensures r.Ok? <==> (("score" !in o || o["score"].Null? || (o["score"].Int? && 1 <= o["score"].i <= 5))
                        && OptStrWithin(RemoveWhitespaces(o), "comment", 0, 500))
  {
    var v := RemoveWhitespaces(o);
    var fields := CheckFields(ReviewUpdateRules, v);
    ReviewShape();
    OptionalRangeError("score", 1, 5, v);
    OptionalStrError("comment", 0, 500, v);
    CheckFieldsTwo(ReviewUpdateRules, v);
    fields
  }

  // ---------------------------------------------------------------------------
  // Paths

  const PathCreateRules: seq<FieldRule> := [
    Required("name", Str(0, None)),
    Required("data", Str(0, None))]

  /** `PathCreate`: name and data are strings, stored stripped. */
  function PathCreate(o: Object): (r: Result<Object>)
    ensures r.Ok? <==> "name" in o && o["name"].Text? && "data" in o && o["data"].Text?
    ensures r.Ok? ==> "name" in r.value && r.value["name"] == Text(Strip(o["name"].s))
    ensures r.Ok? ==> "data" in r.value && r.value["data"] == Text(Strip(o["data"].s))
  {
    var v := RemoveWhitespaces(o);
    var fields := CheckFields(PathCreateRules, v);
    CheckFieldsTwo(PathCreateRules, v);
    if fields.Ok? then
      assert PathCreateRules[0] == Required("name", Str(0, None));
      AcceptedKept(PathCreateRules, v, 0);
      assert PathCreateRules[1] == Required("data", Str(0, None));
      AcceptedKept(PathCreateRules, v, 1);
      fields
    else fields
  }

  const PathUpdateRules: seq<FieldRule> := [
    Optional("name", Str(0, None)),
    Optional("data", Str(0, None))]

  function PathUpdate(o: Object): (r: Result<Object>)
    ensures r.Ok? <==> ("name" !in o || o["name"].Null? || o["name"].Text?) && ("data" !in o || o["data"].Null? || o["data"].Text?)
    ensures r.Ok? ==> forall k :: k in r.value && r.value[k].Text? ==> k in o && o[k].Text? && r.value[k] == Text(Strip(o[k].s))
  {
    var v := RemoveWhitespaces(o);
    var fields := CheckFields(PathUpdateRules, v);
    CheckFieldsTwo(PathUpdateRules, v);
    fields
  }
}

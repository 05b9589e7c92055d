/** The request schemas of api/schemas/feedbacks.py: feedback and its answers. */
module FeedbackSchemas {
  import opened Wrappers
  import opened Ascii
  import opened Json
  import opened SchemaUtils
  import opened Fields

  const FeedbackCreateRules: seq<FieldRule> := [
    Required("type", Typed),
    Required("title", Str(3, Some(100))),
    Required("content", Str(3, Some(1000))),
    Required("author_id", Typed)]

  /** `FeedbackCreate`: a type, a stripped title of 3 to 100 characters,
      stripped content of 3 to 1000 and an author. */
  function FeedbackCreate(o: Object): (r: Result<Object>)
    ensures r.Ok? <==> (Given(o, "type")
                        && "title" in o && o["title"].Text? && 3 <= |Strip(o["title"].s)| <= 100
                        && "content" in o && o["content"].Text? && 3 <= |Strip(o["content"].s)| <= 1000
                        && Given(o, "author_id"))
  {
    var v := RemoveWhitespaces(o);
    CheckFieldsFour(FeedbackCreateRules, v);
    assert FieldError(FeedbackCreateRules[0], v).None? <==> Given(o, "type") by {
      RequiredTypedError("type", v);
      StrippedWithin(o, "type", 0, 0);
    }
    assert FieldError(FeedbackCreateRules[1], v).None? <==>
      ("title" in o && o["title"].Text? && 3 <= |Strip(o["title"].s)| <= 100) by {
      RequiredStrError("title", 3, 100, v);
      StrippedWithin(o, "title", 3, 100);
    }
    assert FieldError(FeedbackCreateRules[2], v).None? <==>
      ("content" in o && o["content"].Text? && 3 <= |Strip(o["content"].s)| <= 1000) by {
      RequiredStrError("content", 3, 1000, v);
      StrippedWithin(o, "content", 3, 1000);
    }
    assert FieldError(FeedbackCreateRules[3], v).None? <==> Given(o, "author_id") by {
      RequiredTypedError("author_id", v);
      StrippedWithin(o, "author_id", 0, 0);
    }
    CheckFields(FeedbackCreateRules, v)
  }

  const FeedbackUpdateRules: seq<FieldRule> := [
    Optional("type", Typed),
    Optional("title", Str(3, Some(100))),
    Optional("content", Str(3, Some(1000)))]

  /** `FeedbackUpdate`: every field optional, with the same bounds when present. */
  function FeedbackUpdate(o: Object): (r: Result<Object>)
    ensures r.Ok? <==> (OptStrWithin(RemoveWhitespaces(o), "title", 3, 100)
                        && OptStrWithin(RemoveWhitespaces(o), "content", 3, 1000))
  {
    var v := RemoveWhitespaces(o);
    var fields := CheckFields(FeedbackUpdateRules, v);
    OptionalTypedError("type", v);
    OptionalStrError("title", 3, 100, v);
    OptionalStrError("content", 3, 1000, v);
    CheckFieldsThree(FeedbackUpdateRules, v);
    fields
  }

  const AnswerCreateRules: seq<FieldRule> := [
    Required("content", Str(3, Some(1000))),
    Required("author_id", Typed),
    Required("feedback_id", Typed)]

  /** `FeedbackAnswerCreate`: stripped content of 3 to 1000 characters, an
      author and the feedback answered. */
  function AnswerCreate(o: Object): (r: Result<Object>)
    ensures r.Ok? <==> ("content" in o && o["content"].Text? && 3 <= |Strip(o["content"].s)| <= 1000
                        && Given(o, "author_id") && Given(o, "feedback_id"))
  {
    var v := RemoveWhitespaces(o);
    var fields := CheckFields(AnswerCreateRules, v);
    RequiredStrError("content", 3, 1000, v);
    RequiredTypedError("author_id", v);
    RequiredTypedError("feedback_id", v);
    StrippedWithin(o, "content", 3, 1000);
    StrippedWithin(o, "author_id", 0, 0);
    StrippedWithin(o, "feedback_id", 0, 0);
    CheckFieldsThree(AnswerCreateRules, v);
    fields
  }

  const AnswerUpdateRules: seq<FieldRule> := [Optional("content", Str(3, Some(1000)))]

  function AnswerUpdate(o: Object): (r: Result<Object>)
    ensures r.Ok? <==> OptStrWithin(RemoveWhitespaces(o), "content", 3, 1000)
  {
    var v := RemoveWhitespaces(o);
    var fields := CheckFields(AnswerUpdateRules, v);
    CheckFieldsOne(AnswerUpdateRules, v);
    fields
  }
}

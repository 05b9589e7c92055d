/** The request schemas of api/schemas/posts.py: tags, posts with their
    generated slug, and comments.

    The proofs follow the rule-list convention described at
    `Fields.CheckFields`. */
module PostSchemas {
  import opened Wrappers
  import opened Ascii
  import opened Json
  import opened SchemaUtils
  import opened Fields

  // ---------------------------------------------------------------------------
  // Slugs

  /** The characters `[^\w\s-]` does not remove. */
  predicate SlugKept(c: char) {
    IsWordChar(c) || IsSpace(c) || c == '-'
  }

  /** `s.replace(a, b)` for single characters. */
  function ReplaceChar(s: string, a: char, b: char): (r: string)
    ensures |r| == |s|
    ensures forall i :: 0 <= i < |s| ==> r[i] == if s[i] == a then b else s[i]
  {
    if |s| == 0 then [] else [if s[0] == a then b else s[0]] + ReplaceChar(s[1..], a, b)
  }

  /** `create_slug` on ASCII titles (where NFKD normalisation changes nothing). */
  function CreateSlug(title: string): (slug: string)
    ensures |slug| <= |title|
    ensures |slug| > 0 ==> slug[0] != '-' && slug[|slug| - 1] != '-'
    ensures forall i :: 0 <= i < |slug| ==> slug[i] != ' ' && SlugKept(slug[i]) && !IsUpper(slug[i])
  {
    var kept := Keep(title, SlugKept);
    var lowered := Lower(kept);
    LoweredShape(kept);
    var dashed := ReplaceChar(lowered, ' ', '-');
    var slug := Trim(dashed, {'-'});
    TrimmedShape(dashed);
    slug
  }

  /** Lower-casing kept characters keeps them kept and leaves no capital. */
  lemma LoweredShape(kept: string)
    requires forall i :: 0 <= i < |kept| ==> SlugKept(kept[i])
    ensures forall i :: 0 <= i < |Lower(kept)| ==> SlugKept(Lower(kept)[i]) && !IsUpper(Lower(kept)[i])
  {
    forall i | 0 <= i < |Lower(kept)|
      ensures SlugKept(Lower(kept)[i]) && !IsUpper(Lower(kept)[i])
    {
      LowerCharIdempotent(kept[i]);
    }
  }

  /** Once spaces are dashes, trimming dashes leaves a slug-shaped infix. */
  lemma TrimmedShape(dashed: string)
    requires forall i :: 0 <= i < |dashed| ==> dashed[i] != ' ' && SlugKept(dashed[i]) && !IsUpper(dashed[i])
    ensures var slug := Trim(dashed, {'-'});
      forall i :: 0 <= i < |slug| ==> slug[i] != ' ' && SlugKept(slug[i]) && !IsUpper(slug[i])
  {
    var slug := Trim(dashed, {'-'});
    forall i | 0 <= i < |slug|
      ensures slug[i] != ' ' && SlugKept(slug[i]) && !IsUpper(slug[i])
    {
      assert slug[i] == dashed[Leading(dashed, {'-'}) + i];
    }
  }

  /** Every slug character is one `create_slug` leaves as it is. */
  predicate SlugShaped(s: string) {
    (|s| > 0 ==> s[0] != '-' && s[|s| - 1] != '-')
    && forall i :: 0 <= i < |s| ==> s[i] != ' ' && SlugKept(s[i]) && !IsUpper(s[i])
  }

  /** Text already in slug shape is its own slug. */
  lemma SlugOfSlugShaped(s: string)
    requires SlugShaped(s)
    ensures CreateSlug(s) == s
  {
    KeepAll(s, SlugKept);
    assert Lower(s) == s;
    assert ReplaceChar(s, ' ', '-') == s;
    TrimUntouched(s, {'-'});
  }

  /** `create_slug` is idempotent. */
  lemma SlugIdempotent(title: string)
    ensures CreateSlug(CreateSlug(title)) == CreateSlug(title)
  {
    SlugOfSlugShaped(CreateSlug(title));
  }

  /** Runs of spaces are not collapsed into one dash. */
  lemma SlugKeepsRuns()
    ensures CreateSlug("a  b") == "a--b"
  {
    KeepAll("a  b", SlugKept);
    assert Lower("a  b") == "a  b";
    assert ReplaceChar("a  b", ' ', '-') == "a--b";
    TrimUntouched("a--b", {'-'});
  }

  /** Whitespace other than a space survives in the slug. */
  lemma SlugKeepsTab()
    ensures CreateSlug("a\tB") == "a\tb"
  {
    KeepAll("a\tB", SlugKept);
    assert Lower("a\tB") == "a\tb";
    assert ReplaceChar("a\tb", ' ', '-') == "a\tb";
    TrimUntouched("a\tb", {'-'});
  }

  // ---------------------------------------------------------------------------
  // Posts

  /** `PostBase.validate_schema`: strip every string, then set `slug` from a
      truthy `title`; a truthy title that is not a string cannot be
      normalised. */
  function PostBefore(o: Object): (r: Result<Object>)
    ensures var v := RemoveWhitespaces(o);
      && (!("title" in v && Truthy(v["title"])) ==> r == Ok(v))
      && ("title" in v && Truthy(v["title"]) && v["title"].Text? ==>
            r == Ok(v["slug" := Text(CreateSlug(v["title"].s))]))
      && ("title" in v && Truthy(v["title"]) && !v["title"].Text? ==> r.Err? && r.error.Crash?)
  {
    var v := RemoveWhitespaces(o);
    if "title" in v && Truthy(v["title"]) then
      if v["title"].Text? then Ok(v["slug" := Text(CreateSlug(v["title"].s))])
      else Err(Crash("TypeError: normalize() argument 2 must be str"))
    else Ok(v)
  }

  /** Apart from the slug, the post validator only strips. */
  lemma PostBeforeStrips(o: Object, k: string)
    requires PostBefore(o).Ok? && k != "slug"
    ensures k in PostBefore(o).value <==> k in o
    ensures k in o ==> PostBefore(o).value[k] == StripValue(o[k])
  {
  }

  /** A title of only whitespace is falsy once stripped, so no slug is set. */
  lemma BlankTitleNoSlug(o: Object)
    requires "title" in o && o["title"].Text? && Strip(o["title"].s) == ""
    ensures PostBefore(o) == Ok(RemoveWhitespaces(o))
  {
  }

  /** The slug of an accepted title has slug shape. */
  lemma PostSlugShaped(o: Object)
    requires PostBefore(o).Ok? && "slug" in PostBefore(o).value && "slug" !in o
    ensures PostBefore(o).value["slug"].Text? && SlugShaped(PostBefore(o).value["slug"].s)
  {
  }

  const PostCreateRules: seq<FieldRule> := [
    Required("title", Str(3, Some(100))),
    Required("content", Str(0, Some(2500))),
    Optional("status", Str(0, None)),
    Optional("thumbnail", Typed),
    Required("author_id", Typed)]

  /** `PostCreate`: a stripped title of 3 to 100 characters and content of at
      most 2500. The schema declares no `slug` field, so the slug the
      validator computed is not part of the validated data. */
  function PostCreate(o: Object): (r: Result<Object>)
    ensures r.Ok? <==> PostBefore(o).Ok? && PostFieldsMet(RemoveWhitespaces(o))
    ensures r.Ok? ==> StrWithin(r.value, "title", 3, 100) && StrWithin(r.value, "content", 0, 2500)
    ensures r.Ok? ==> "title" in o && o["title"].Text? && r.value["title"] == Text(Strip(o["title"].s))
    ensures r.Ok? ==> "slug" !in r.value
  {
    var v :- PostBefore(o);
    var fields := CheckFields(PostCreateRules, v);
    PostCreateShape();
    PostCreateMet(v, PostCreateRules);
    assert v == RemoveWhitespaces(o) || ("slug" in v && v == RemoveWhitespaces(o)["slug" := v["slug"]]);
    PostMetBefore(RemoveWhitespaces(o), v);
    if fields.Ok? then
      AcceptedPost(o);
      fields
    else fields
  }

  /** What the field declarations of `PostCreate` demand of the stripped
      payload: a title of 3 to 100 characters, content of at most 2500, a
      status that is a string when sent, and an author. */
  predicate PostFieldsMet(w: Object) {
    && StrWithin(w, "title", 3, 100) && StrWithin(w, "content", 0, 2500)
    && OptText(w, "status") && Given(w, "author_id")
  }

  /** What the field declarations of `PostUpdate` demand: the same bounds on
      whatever is sent. */
  predicate PostUpdateFieldsMet(w: Object) {
    && OptStrWithin(w, "title", 3, 100) && OptStrWithin(w, "content", 0, 2500)
    && OptText(w, "status")
  }

  /** The post validator adds only the slug, which neither schema declares,
      so the declarations judge the stripped payload. */
  lemma PostMetBefore(w: Object, v: Object)
    requires v == w || ("slug" in v && v == w["slug" := v["slug"]])
    ensures PostFieldsMet(v) <==> PostFieldsMet(w)
    ensures PostUpdateFieldsMet(v) <==> PostUpdateFieldsMet(w)
  {
  }

  /** The entries of the rule list that the proofs about `PostCreate` use,
      stated apart so those proofs work on these facts rather than on the
      whole list. */
  lemma PostCreateShape()
    ensures |PostCreateRules| == 5
    ensures PostCreateRules[0] == Required("title", Str(3, Some(100)))
    ensures PostCreateRules[1] == Required("content", Str(0, Some(2500)))
    ensures PostCreateRules[2] == Optional("status", Str(0, None))
    ensures PostCreateRules[3] == Optional("thumbnail", Typed)
    ensures PostCreateRules[4] == Required("author_id", Typed)
  {
  }

  /** A post passes the field bounds exactly when its fields meet the
      declarations. */
  lemma PostCreateMet(v: Object, rules: seq<FieldRule>)
    requires |rules| == 5
    requires rules[0] == Required("title", Str(3, Some(100)))
    requires rules[1] == Required("content", Str(0, Some(2500)))
    requires rules[2] == Optional("status", Str(0, None))
    requires rules[3] == Optional("thumbnail", Typed)
    requires rules[4] == Required("author_id", Typed)
    ensures CheckFields(rules, v).Ok? <==> PostFieldsMet(v)
  {
    CheckFieldsFive(rules, v);
    RequiredStrError("title", 3, 100, v);
    RequiredStrError("content", 0, 2500, v);
    OptionalTextError("status", v);
    OptionalTypedError("thumbnail", v);
    RequiredTypedError("author_id", v);
  }

  /** Neither post schema declares a `slug` field. */
  lemma PostRulesUndeclareSlug()
    ensures forall i :: 0 <= i < |PostCreateRules| ==> PostCreateRules[i].name != "slug"
    ensures forall i :: 0 <= i < |PostUpdateRules| ==> PostUpdateRules[i].name != "slug"
  {
  }

  lemma AcceptedPost(o: Object)
    requires PostBefore(o).Ok? && CheckFields(PostCreateRules, PostBefore(o).value).Ok?
    ensures var d := CheckFields(PostCreateRules, PostBefore(o).value).value;
      && StrWithin(d, "title", 3, 100) && StrWithin(d, "content", 0, 2500)
      && "title" in o && o["title"].Text? && d["title"] == Text(Strip(o["title"].s))
      && "slug" !in d
  {
    var v := PostBefore(o).value;
    assert PostCreateRules[0] == Required("title", Str(3, Some(100)));
    AcceptedRequiredStr(PostCreateRules, v, 0);
    AcceptedKept(PostCreateRules, v, 0);
    PostBeforeStrips(o, "title");
    assert PostCreateRules[1] == Required("content", Str(0, Some(2500)));
    AcceptedRequiredStr(PostCreateRules, v, 1);
    PostRulesUndeclareSlug();
    AcceptedDrops(PostCreateRules, v, "slug");
  }

  const PostUpdateRules: seq<FieldRule> := [
    Optional("title", Str(3, Some(100))),
    Optional("content", Str(0, Some(2500))),
    Optional("status", Str(0, None)),
    Optional("thumbnail", Typed)]

  /** `PostUpdate`: every field optional with the same bounds; a new title
      brings no new slug into the validated data either. */
  function PostUpdate(o: Object): (r: Result<Object>)
    ensures r.Ok? <==> PostBefore(o).Ok? && PostUpdateFieldsMet(RemoveWhitespaces(o))
    ensures r.Ok? ==> OptStrWithin(r.value, "title", 3, 100) && OptStrWithin(r.value, "content", 0, 2500)
    ensures r.Ok? ==> "slug" !in r.value
  {
    var v :- PostBefore(o);
    var fields := CheckFields(PostUpdateRules, v);
    PostUpdateShape();
    PostUpdateMet(v, PostUpdateRules);
    assert v == RemoveWhitespaces(o) || ("slug" in v && v == RemoveWhitespaces(o)["slug" := v["slug"]]);
    PostMetBefore(RemoveWhitespaces(o), v);
    if fields.Ok? then
      AcceptedOptionalStr(PostUpdateRules, v, 0);
      AcceptedOptionalStr(PostUpdateRules, v, 1);
      PostRulesUndeclareSlug();
      AcceptedDrops(PostUpdateRules, v, "slug");
      fields
    else fields
  }

  /** The entries of the rule list that the proofs about `PostUpdate` use,
      stated apart so those proofs work on these facts rather than on the
      whole list. */
  lemma PostUpdateShape()
    ensures |PostUpdateRules| == 4
    ensures PostUpdateRules[0] == Optional("title", Str(3, Some(100)))
    ensures PostUpdateRules[1] == Optional("content", Str(0, Some(2500)))
    ensures PostUpdateRules[2] == Optional("status", Str(0, None))
    ensures PostUpdateRules[3] == Optional("thumbnail", Typed)
  {
  }

  /** A post update passes the field bounds exactly when what it sends
      meets the declarations. */
  lemma PostUpdateMet(v: Object, rules: seq<FieldRule>)
    requires |rules| == 4
    requires rules[0] == Optional("title", Str(3, Some(100)))
    requires rules[1] == Optional("content", Str(0, Some(2500)))
    requires rules[2] == Optional("status", Str(0, None))
    requires rules[3] == Optional("thumbnail", Typed)
    ensures CheckFields(rules, v).Ok? <==> PostUpdateFieldsMet(v)
  {
    CheckFieldsFour(rules, v);
    OptionalStrError("title", 3, 100, v);
    OptionalStrError("content", 0, 2500, v);
    OptionalTextError("status", v);
    OptionalTypedError("thumbnail", v);
  }

  // ---------------------------------------------------------------------------
  // Tags and comments

  const TagCreateRules: seq<FieldRule> := [Required("name", Str(3, Some(15)))]

  /** `TagCreate`: a stripped name of 3 to 15 characters. */
  function TagCreate(o: Object): (r: Result<Object>)
    ensures r.Ok? <==> "name" in o && o["name"].Text? && 3 <= |Strip(o["name"].s)| <= 15
    ensures r.Ok? ==> r.value == map["name" := Text(Strip(o["name"].s))]
  {
    var v := RemoveWhitespaces(o);
    var fields := CheckFields(TagCreateRules, v);
    CheckFieldsOne(TagCreateRules, v);
    RequiredStrError("name", 3, 15, v);
    StrippedWithin(o, "name", 3, 15);
    if fields.Ok? then
      DumpOne(TagCreateRules, v);
      fields
    else fields
  }

  const TagUpdateRules: seq<FieldRule> := [Optional("name", Str(3, Some(15)))]

  function TagUpdate(o: Object): (r: Result<Object>)
    ensures r.Ok? <==> OptStrWithin(RemoveWhitespaces(o), "name", 3, 15)
  {
    var v := RemoveWhitespaces(o);
    var fields := CheckFields(TagUpdateRules, v);
    CheckFieldsOne(TagUpdateRules, v);
    fields
  }

  const CommentCreateRules: seq<FieldRule> := [
    Required("content", Str(3, Some(500))),
    Required("author_id", Typed),
    Required("post_id", Typed),
    Optional("parent_id", Typed)]

  /** `CommentCreate`: stripped content of 3 to 500 characters, an author and a post. */
  function CommentCreate(o: Object): (r: Result<Object>)
    ensures r.Ok? <==> ("content" in o && o["content"].Text? && 3 <= |Strip(o["content"].s)| <= 500
                        && Given(o, "author_id") && Given(o, "post_id"))
  {
    var v := RemoveWhitespaces(o);
    var fields := CheckFields(CommentCreateRules, v);
    RequiredStrError("content", 3, 500, v);
    RequiredTypedError("author_id", v);
    RequiredTypedError("post_id", v);
    OptionalTypedError("parent_id", v);
    StrippedWithin(o, "content", 3, 500);
    StrippedWithin(o, "author_id", 0, 0);
    StrippedWithin(o, "post_id", 0, 0);
    CheckFieldsFour(CommentCreateRules, v);
    fields
  }

  const CommentUpdateRules: seq<FieldRule> := [
    Optional("content", Str(3, Some(500))),
    Optional("is_flagged", Typed)]

  function CommentUpdate(o: Object): (r: Result<Object>)
    ensures r.Ok? <==> OptStrWithin(RemoveWhitespaces(o), "content", 3, 500)
  {
    var v := RemoveWhitespaces(o);
    var fields := CheckFields(CommentUpdateRules, v);
    CheckFieldsTwo(CommentUpdateRules, v);
    fields
  }
}

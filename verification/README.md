# Motorcycle club backend — a Dafny model of its core

This project models the core of a FastAPI/SQLModel backend for a motorcycle club. The club has members with profiles, motorcycles, events and participations, posts with tags and comments, agreements with companies, teams and locations, and feedback. The model covers five layers:

- **The list query language** of `api/crud/utils.py` (module `Query`). A `filter` string such as `status=open,location` and a `sort` string such as `name,date=desc` are parsed into insertion-ordered dicts (`OrderedMap`). They are then checked against the model's attributes and turned into `WHERE` predicates and `ORDER BY` terms.
- **The pagination envelope** (module `Pagination`). The list endpoints compute `current_page`, `total_pages`, `next_page` and `prev_page` from `skip`, `limit` and the record count, using Python's floor division.
- **The request schemas** of `api/schemas/*.py` and `api/auth/schemas.py`, plus the table-model validators of `core/auth/models.py`. The modules are `SchemaUtils`, `Calendar`, `Fields`, `UserSchemas`, `PostSchemas`, `EventSchemas`, `AgreementSchemas`, `TeamSchemas`, `FeedbackSchemas`, `AuthSchemas` and `CoreAuth`.
  - Each schema is its "before" validator (whitespace stripping, date order, telephone normalisation, password rules, slug generation) followed by its `Field(...)` bounds.
  - A payload is a raw JSON object (`Json.Object`), because that is what the "before" validators see.
- **The soft-delete store** every CRUD module follows (module `Store`).
  - `session.get` returns a row whether it is deleted or not.
  - `get_*_by_id` hides deleted rows.
  - `list_*` and `count_*` select the active rows matching the filter.
  - `update_*` patches the supplied fields.
  - `delete_*` either sets the flag or removes the row.
  - The per-file modules `EventsCrud`, `UsersCrud`, `PostsCrud`, `TeamsCrud`, `AgreementsCrud`, `AuthCrud` and `RolesCrud` add what differs from that pattern: name lookups with or without case folding, offset/limit applied "when given" or "when truthy", pivots, profiles, birthdate queries and password hashing.
  - The generic members of `Store` stand for the crud functions that only repeat the pattern. Examples are `create_team`, `get_feedback_by_id`, `update_location` and `delete_comment` in `api/crud/teams.py`, `api/crud/feedbacks.py` and `api/crud/posts.py`.
- **The routers** of `api/routers/{events,users,agreements,posts}.py` (modules `Listing`, `Guards`, `EventsRouter`, `UsersRouter`, `AgreementsRouter`, `PostsRouter`). They check the following, in the order the code checks them:
  - 409 for a name that is taken;
  - 404 for a missing row;
  - 400 for an existing participation or a missing range.

Errors follow the way they reach the client (`Wrappers.Error`):

- `Http(status, detail)` is an `HTTPException` the code raises itself.
- `Validation` is a `ValueError` inside a validator, which becomes a 422.
- `Crash` is any other exception, which becomes a 500. Examples are an attribute read on `None` or a failed tuple unpack.
- `Rejected` is a statement the database refuses, such as a negative `OFFSET` as PostgreSQL reads it, or a missing value in a column that may not be null.

The model makes these choices:

- Rows come back in ascending id order, and `.first()` is the lowest matching id.
- Password hashing is a function parameter.
- "Today" is a parameter.

Where the code and its documentation disagree, the model follows the code:

- The `update_*` endpoints update a soft-deleted row and return it; they do not answer 404 for it (`Guards.Update404`, `Guards.UpdateDeletedStaysHidden`).
- The user list endpoints call count functions that do not exist (Findings, row 1).
- `create_post` reads a field its schema does not declare (Findings, row 2), and it never stores the slug the schema generates (Findings, row 3).
- `create_participation` answers with the new participation listed twice (Findings, row 6).

## Model

| member | source | states |
|---|---|---|
| Query.Coerce | api/crud/utils.py:19-21 | a value becomes a boolean exactly when it lower-cases to "true" or "false", true exactly for "true"; any other value is kept as the text it was |
| Query.FilterClause | api/crud/utils.py:16-23 | a clause parses iff it holds at most one '='; the key is the text before the '='; a bare field gets the "item exist" sentinel; a `field=value` clause is exactly key, '=', value with the value coerced; two '=' raise the unpack error |
| Query.FilterClauses | api/crud/utils.py:14-23 | every clause is parsed in order and the list has one entry per clause; any failing clause fails the whole parse |
| Query.ParseFilter | api/crud/utils.py:8-24 | `parse_filter_param` succeeds iff no clause has two '='; its result is a dict without repeated keys; a failure is the unpack error |
| Query.FilterParsed | api/crud/utils.py:13-24 | the parsed filter is the dict written from the clause entries in order, and those entries are keyed by the clause fields |
| Query.ParseFilterKeys | api/crud/utils.py:13-24 | the parsed filter has a key exactly for each field that some clause names |
| Query.ParseFilterLastWins | api/crud/utils.py:13-24 | a field named by several clauses holds the value of the last of them |
| Query.ParseFilterFirstPosition | api/crud/utils.py:13-24 | keys keep the position of their first clause: a field first named later comes later in the dict |
| Query.SentinelLiteral | api/crud/utils.py:19-23 | a literal `field=item exist` clause is indistinguishable from the bare `field` |
| Query.EmptyClauseIsBare | api/crud/utils.py:16-23 | an empty clause (as from ",," or a trailing comma) is a bare empty field, not an error |
| Query.SortClause | api/crud/utils.py:33-39 | a sort clause parses iff it holds at most one '='; a bare field defaults to "asc"; otherwise the direction is the text after '=' unmodified |
| Query.SortClauses | api/crud/utils.py:33-39 | every sort clause is parsed in order, and any failing clause fails the parse |
| Query.ParseSort | api/crud/utils.py:28-40 | `parse_sort_param` succeeds iff no clause has two '='; its result has no repeated key |
| Query.SortParsed | api/crud/utils.py:28-40 | the parsed sort is the dict written from the clause entries, which are keyed by the clause fields |
| Query.ParseSortLastWins | api/crud/utils.py:33-40 | a repeated sort field takes the direction of its last clause, "asc" when that clause has no '=' |
| Query.Fields | api/crud/utils.py:13-17 | one field name per comma-separated clause, in order, each the text before the clause's first '=' |
| Query.FirstUnknown | api/crud/utils.py:47-49 | the position of the first entry whose field is not an attribute; every earlier entry names an attribute |
| Query.ApplyFilters | api/crud/utils.py:58-68 | succeeds iff every filter field is an attribute of the model; one predicate per entry in order, `IS NOT NULL` exactly for the sentinel and an equality with the coerced value otherwise; else a 400 naming the first unknown field |
| Query.ApplySorting | api/crud/utils.py:44-54 | succeeds iff every sort field is an attribute; one ordering per entry, descending exactly when the direction lower-cases to "desc"; else a 400 naming the first unknown field |
| OrderedMap.Put | api/crud/utils.py:22-23 | `d[k] = v` keeps the position of an existing key and appends a new one; a dict without repeated keys stays so |
| OrderedMap.PutGet | api/crud/utils.py:22-23 | after `d[k] = v`, reading k gives v and every other key reads as before |
| OrderedMap.FromPairs | api/crud/utils.py:14-24 | the dict built by writing the entries in order has no repeated key |
| OrderedMap.FromPairsKeys | api/crud/utils.py:14-24 | the built dict's keys are exactly the keys written |
| OrderedMap.LastWriteWins | api/crud/utils.py:14-24 | the value under a key is that of the last entry written with it |
| OrderedMap.NeverWritten | api/crud/utils.py:14-24 | a key never written is absent |
| OrderedMap.FirstWriteOrder | api/crud/utils.py:14-24 | keys appear in the order of their first write |
| Pagination.FloorDiv | api/routers/events.py:42-43 | Python's `//`: the quotient rounds toward negative infinity, for either sign of divisor |
| Pagination.Paginate | api/routers/events.py:41-45 | for a positive limit, `skip` lies on `current_page`, the pages cover the record count with the last one non-empty, `next_page`/`prev_page` exist exactly when there is a following/preceding page and are numbered one more/less; a zero limit is page 1 of 1 |
| Pagination.ZeroLimit | api/routers/events.py:42-43 | a zero limit is falsy: one page, no neighbours, whatever the offset |
| Pagination.NextWithinPages | api/routers/events.py:44 | a next page never exceeds the page count |
| Pagination.NoRecords | api/routers/events.py:41-45 | with no records there are zero pages and no next page; a first-page offset is page 1 |
| Pagination.BeyondLastPage | api/routers/events.py:41-45 | an offset past the last page lands on a page numbered after the last, with no next page |
| Pagination.NegativeLimitExample | api/routers/events.py:41-45 | a negative limit is truthy and divides: `skip=0, limit=-1` over 5 records is page 1 of -3 |
| Store.Find | api/crud/events.py:28 | `session.get`: the row with that id, deleted or not, and nothing for a negative or unknown id |
| Store.GetActive | api/crud/events.py:25-29 | `get_*_by_id`: the row exactly when it exists and is not soft-deleted |
| Store.FirstWhere | api/crud/events.py:125-129 | `.first()` without `ORDER BY`: nothing iff no row qualifies, else a qualifying row with no qualifying row of lower id |
| Store.Matching | api/crud/events.py:52-54 | the selected ids are exactly the active rows satisfying every predicate, ascending |
| Store.Window | api/crud/events.py:57-60 | OFFSET then LIMIT as PostgreSQL reads them: rejected exactly for a negative applied offset or limit; otherwise the slice starting at the offset, as long as the limit allows |
| Store.WindowLenient | api/crud/events.py:57-60 | OFFSET then LIMIT as SQLite reads them: the slice from the offset, a negative offset counting as 0 and a negative limit as no bound |
| Store.WindowDialectsAgree | api/crud/events.py:57-60 | wherever the strict reading accepts, both readings give the same rows; a negative limit is refused by the strict one and lists every row from the offset in the lenient one |
| Store.List | api/crud/events.py:43-61 | a filter error is reported before a sort error; otherwise the windowed list of the selected rows |
| Store.Count | api/crud/events.py:65-69 | `count_*` succeeds iff the filter fields are attributes, and counts exactly the rows the list selects |
| Store.CountIsListLength | api/crud/events.py:43-69 | the count equals the length of the unwindowed list under the same filter |
| Store.ListedAreActive | api/crud/events.py:52 | no listed row is soft-deleted |
| Store.ZeroLimit | api/crud/events.py:57-60 | a zero limit gives an empty list when applied "if not None" and the whole list when applied "if truthy" |
| Store.Create | api/crud/events.py:14-21 | a new active row holding the payload, under an id no row had; the other rows unchanged |
| Store.Patch | api/crud/events.py:78-84 | every supplied field takes its new value, every other field and the deleted flag are kept |
| Store.Update | api/crud/events.py:73-84 | an unknown id changes nothing and returns nothing; a known id, deleted or not, is patched in place |
| Store.Delete | api/crud/events.py:88-99 | a hard delete removes the row, a soft delete only sets its flag; an unknown id changes nothing; the next id to hand out is unchanged |
| Store.DeleteHides | api/crud/events.py:91-99 | after either kind of delete the row is hidden from `get_*_by_id`, and no other row changes |
| Store.SoftDeleteIdempotent | api/crud/events.py:96-98 | deleting softly twice is deleting once |
| Store.UpdateIgnoresDeleted | api/crud/events.py:78-84 | an update reaches a soft-deleted row and does not revive it |
| Store.FindByName | api/crud/events.py:33-39 | `get_*_by_name`: nothing iff no active row carries the name (case-folded or exact), else the lowest such row |
| Store.FoldedLookupIgnoresCase | api/crud/events.py:36-37 | a case-insensitive lookup gives the same row whatever the case of the name asked for |
| Store.FindFolded | api/crud/events.py:33-39 | the found row is active and its name equals the asked name once both are lower-cased |
| Store.LookupModes | api/crud/teams.py:32-36 | on a table holding "Alpha", the folded lookup finds "alpha" and the exact lookup does not |
| Listing.Envelope | api/routers/events.py:28-65 | fails exactly on a malformed or unknown sort/filter or a negative applied offset/limit (an unpack error before any 400); otherwise the page of the selection starting at `skip`, with the pagination of the full selection's size; every listed row active |
| Listing.Bare | api/routers/posts.py:23-42 | the tag/post lists return the same page as the envelope, without it |
| Listing.FirstPageAtLeastOne | api/routers/events.py:42 | a valid request is on page 1 or later |
| Listing.NextPageOffset | api/routers/events.py:41-45 | the page after the current one starts at `current_page * limit`, an offset below the record count, and is numbered `next_page` |
| Listing.NextPageNotEmpty | api/routers/events.py:28-65 | following `next_page` is a valid request numbered `next_page` that holds at least one record |
| Listing.LastPageHoldsRest | api/routers/events.py:28-65 | without a next page, the page holds every selected record from `skip` on |
| SchemaUtils.StripValue | api/schemas/utils.py:9-11 | a string is stripped; any other value is kept |
| SchemaUtils.RemoveWhitespaces | api/schemas/utils.py:6-12 | same keys; every string value stripped, every other value unchanged |
| SchemaUtils.StrippedWithin | api/schemas/utils.py:9-12 | a length bound on a stripped payload is a bound on the stripped length of the original value |
| SchemaUtils.StrippedEdges | api/schemas/utils.py:9-12 | no stripped string starts or ends with whitespace |
| SchemaUtils.RemoveWhitespacesIdempotent | api/schemas/utils.py:6-12 | stripping twice is stripping once |
| SchemaUtils.CheckStartEndDates | api/schemas/utils.py:16-23 | the payload passes unchanged unless both dates are truthy; then the start must not be greater (strings lexicographically), and incomparable types raise |
| SchemaUtils.EqualDatesPass | api/schemas/utils.py:19-21 | equal start and end dates pass |
| SchemaUtils.MissingDateNotChecked | api/schemas/utils.py:19-21 | a payload lacking either date is never compared |
| SchemaUtils.MobileOnDigits | api/schemas/utils.py:34 | on a digit string, the mobile pattern means exactly ten digits starting with 3 |
| SchemaUtils.DigitsOfValue | api/schemas/utils.py:33 | `re.sub` keeps exactly the digits of a string and raises on any non-string |
| SchemaUtils.CheckTelephone | api/schemas/utils.py:27-39 | a missing or null telephone is left alone; a string is replaced by its digits, which must be empty or a mobile number (else the 422 message); any other value raises |
| SchemaUtils.NoDigitsStoredEmpty | api/schemas/utils.py:33-38 | a telephone without digits is accepted and stored as "" |
| SchemaUtils.CheckTelephoneIdempotent | api/schemas/utils.py:27-39 | normalising an accepted telephone again changes nothing |
| SchemaUtils.FirstBroken | api/schemas/utils.py:48-59 | nothing iff no rule is broken; otherwise a broken rule before which none is broken |
| SchemaUtils.PasswordErrors | api/schemas/utils.py:43-60 | a string password passes iff it breaks no rule, otherwise a 422; a non-string raises |
| SchemaUtils.CheckPassword | api/schemas/utils.py:43-60 | `check_password` passes the payload unchanged iff the password is a string breaking no rule |
| SchemaUtils.CheckPasswordOrder | api/schemas/utils.py:48-59 | the message is that of the first broken rule in source order (edge spaces, length, lower, upper, digit, special) |
| SchemaUtils.AcceptedPasswordShape | api/schemas/utils.py:48-60 | an accepted password has at least 8 characters, no space at either end, and a lowercase, uppercase, digit and special character |
| Calendar.DaysInMonth | api/schemas/users.py:64 | 28 to 31 days; February has 29 exactly in Gregorian leap years |
| Calendar.AfterTotal | api/schemas/users.py:65-68 | date order is total and asymmetric |
| Calendar.ReplaceYear | api/schemas/users.py:64 | `date.replace(year=y)` succeeds iff that day exists in year y, and keeps month and day; otherwise a ValueError |
| Calendar.ValidateBirthdate | api/schemas/users.py:58-69 | accepted iff the cut-off 18 years back exists and the birthdate is neither after today nor after it; a future birthdate gets its own message |
| Calendar.ExactlyEighteen | api/schemas/users.py:65-68 | turning 18 today is old enough |
| Calendar.OneDayShort | api/schemas/users.py:65-68 | one day younger is "too young" |
| Calendar.LeapMinusEighteen | api/schemas/users.py:64 | 18 years before a leap year is never a leap year |
| Calendar.LeapDayRejectsAll | api/schemas/users.py:64 | on February 29 every birthdate is rejected, because the cut-off date does not exist |
| Fields.FieldError | api/schemas/teams.py:60-64 | a missing field fails iff it has no default; `None` fails unless allowed; a present value outside its bound fails; otherwise the field validator decides |
| Fields.FirstCrash | api/schemas/users.py:239-252 | nothing iff no field validator raises a non-validation exception, else the error of one that does |
| Fields.FirstError | api/schemas/teams.py:60-64 | nothing iff every field passes, else the first failing field's error |
| Fields.Names | api/schemas/teams.py:60-64 | exactly the declared field names |
| Fields.Dump | api/schemas/teams.py:67-71 | `model_dump(exclude_unset=True)`: exactly the declared fields the payload supplied, with their values |
| Fields.CheckFields | api/schemas/teams.py:60-71 | accepts iff every declared field passes, giving the dump; a raising validator wins over validation errors; otherwise the first failing field's error |
| Fields.CheckFieldsThree | api/schemas/feedbacks.py:29-32 | a three-field schema accepts iff each field passes |
| Fields.CheckFieldsFour | api/schemas/teams.py:60-64 | a four-field schema accepts iff each field passes |
| Fields.CheckFieldsSix | api/auth/schemas.py:74-85 | a six-field schema accepts iff each field passes |
| Fields.AcceptedKept | api/schemas/teams.py:60-64 | a supplied declared field keeps its value in the validated data |
| Fields.RequiredStrError | api/schemas/teams.py:23 | a required bounded string passes iff present, a string, and within its bounds |
| Fields.OptionalStrError | api/schemas/teams.py:28 | an optional bounded string passes iff absent, `None`, or within its bounds |
| Fields.RequiredTypedError | api/schemas/teams.py:24 | a required typed field passes iff present and not `None` |
| Fields.OptionalTypedError | api/schemas/teams.py:64 | an optional typed field always passes |
| Fields.RequiredTextError | api/schemas/users.py:51 | a required unbounded string passes iff present and a string |
| Fields.OptionalTextError | api/schemas/users.py:49 | an optional unbounded string passes iff absent, `None` or a string |
| Fields.DefaultedTypedError | api/schemas/agreements.py:30 | a field with a default that may not be `None` passes unless sent as `None` |
| Fields.AcceptedKeys | api/schemas/teams.py:27-28 | validated data holds only declared fields |
| Fields.AcceptedDrops | api/schemas/posts.py:78-83 | a field no rule declares is dropped from the validated data |
| Fields.AcceptedRequiredStr | api/schemas/teams.py:23 | an accepted required string is within its bounds, before and after validation |
| Fields.AcceptedOptionalStr | api/schemas/teams.py:28 | an accepted optional string is absent, `None`, or within its bounds |
| Fields.FullDump | api/schemas/teams.py:60-64 | `model_dump()`: every declared field, supplied values kept and defaults filled in |
| Fields.FullDumpDefault | api/schemas/teams.py:63-64 | a field left out takes its declared default |
| UserSchemas.ProfileBefore | api/schemas/users.py:26-42 | strips the payload and reduces the telephone to its digits, which must be empty or a mobile number; a missing telephone raises, since the check runs unguarded |
| UserSchemas.ProfileAgreesWithCheckTelephone | api/schemas/users.py:35-41 | with a telephone, the profile validator accepts exactly what the shared telephone check accepts on the stripped payload, with the same result |
| UserSchemas.ProfileWithoutTelephone | api/schemas/users.py:35-36 | a profile without a telephone, or with `None`, cannot pass |
| UserSchemas.ProfileCreate | api/schemas/users.py:45-69 | accepted iff the profile validator passes, the stripped fields meet the declarations (`ProfileFieldsMet`) and the birthdate rule passes; an accepted profile had a telephone, stores it as "" or a mobile number, has names of 3-25 characters and a birthdate not in the future |
| UserSchemas.ProfileFields | api/schemas/users.py:45-55 | accepted iff the profile validator passes and the stripped payload has names of 3-25 characters, a nickname of 3-25 when sent, a string document number, and a document type, blood type, birthdate, genre and team; the telephone stored is "" or a mobile number |
| UserSchemas.ProfileCreateMet | api/schemas/users.py:45-55 | a payload whose telephone is a string passes the profile field declarations iff it meets `ProfileFieldsMet` |
| UserSchemas.ProfileMetStripped | api/schemas/users.py:35-42 | the telephone the validator rewrites is not among the constrained fields, so the declarations judge the stripped payload |
| UserSchemas.AcceptedProfile | api/schemas/users.py:35-41 | the telephone an accepted profile stores is empty or ten digits starting with 3 |
| UserSchemas.NoProfileOnLeapDay | api/schemas/users.py:64 | no profile can be created on February 29 |
| UserSchemas.ProfileUpdate | api/schemas/users.py:72-78 | accepted iff the profile validator passes and the first name, last name and nickname, each when sent, have 3-25 characters; the telephone stored is "" or a mobile number, and only declared fields survive |
| UserSchemas.ProfileUpdateMet | api/schemas/users.py:72-78 | a payload whose telephone is a string passes the update declarations iff the names sent are within 3-25 characters |
| UserSchemas.ProfileUpdateMetStripped | api/schemas/users.py:35-42 | the telephone rewrite does not affect what the update declarations demand |
| UserSchemas.UsernameTrailingNewline | api/schemas/users.py:108-113 | the username pattern's `$` also accepts a final newline, and a space is rejected |
| UserSchemas.UserCreateBefore | api/schemas/users.py:103-129 | the username must match the pattern (a 422 otherwise; a non-string raises) and then the password must pass every rule; the payload is unchanged |
| UserSchemas.UserCreate | api/schemas/users.py:95-101 | accepted iff the user validator passes, the username has 3-50 characters, an e-mail is given, the password is a string, and an object is sent under `profile` that passes `ProfileCreate`; the user part then matches the username pattern and passes every password rule, keeps only declared fields, and the profile part is the nested profile's validated data; a missing `profile` is a 422, a `profile` sent as `None` or as a non-object raises in the profile validator (api/schemas/users.py:26-31 reads `values.items()`), and a nested profile that raises makes the whole payload raise |
| UserSchemas.UserFields | api/schemas/users.py:95-101 | on the payload the user validator passed: accepted iff the declared fields pass, an object was sent under `profile` and the nested schema accepted it; a missing `profile` is a 422, a `None` or non-object `profile` raises, and a nested crash is passed on |
| UserSchemas.UserCreateMet | api/schemas/users.py:95-101 | the user field declarations pass iff the username has 3-50 characters, the password is a string, and an e-mail and a profile are given |
| UserSchemas.UserProfileWithoutTelephone | api/schemas/users.py:101 | a user whose nested profile has no telephone raises, as the profile validator does |
| UserSchemas.UserWithoutProfile | api/schemas/users.py:95-101 | without a `profile` key the user's declared fields fail with a validation error, since none of their checks can raise |
| UserSchemas.PasswordChangeBefore | api/schemas/users.py:162-180 | only the new password is checked against the rules |
| UserSchemas.PasswordChange | api/schemas/users.py:158-180 | accepted iff the new password passes every rule and the old one is a string |
| UserSchemas.RoleCreate | api/schemas/users.py:190-202 | accepted iff the stripped name has 3-20 characters and the optional stripped description at most 50; the name is stored stripped |
| UserSchemas.RoleUpdate | api/schemas/users.py:205-207 | accepted iff the optional stripped name and description are within those bounds |
| UserSchemas.BrandCreate | api/schemas/users.py:282-293 | accepted iff the stripped name has 3-25 characters |
| UserSchemas.BrandUpdate | api/schemas/users.py:296-297 | accepted iff the optional stripped name is within those bounds |
| UserSchemas.PlateCheck | api/schemas/users.py:246-252 | a string plate passes iff it matches `^[A-Z]{3}\d{3}$`, else the format message; a non-string is left to the type check |
| UserSchemas.StrippedPlate | api/schemas/users.py:228-252 | on a stripped plate the pattern means exactly three capitals and three digits |
| UserSchemas.MotorcycleCreate | api/schemas/users.py:239-252 | accepted iff the stripped payload has a model of 3-25 characters, a string plate matching `^[A-Z]{3}\d{3}$`, a brand and an owner; the accepted plate is three capitals and three digits, stored stripped |
| UserSchemas.MotorcycleCreateMet | api/schemas/users.py:239-252 | the motorcycle declarations pass iff the model has 3-25 characters, the plate is a string matching the pattern, and brand and owner are given |
| UserSchemas.MotorcycleUpdate | api/schemas/users.py:255-257 | every update is accepted, and only photo and owner survive |
| PostSchemas.ReplaceChar | api/schemas/posts.py:74 | `str.replace` of one character: same length, exactly the matching characters replaced |
| PostSchemas.CreateSlug | api/schemas/posts.py:66-75 | a slug is no longer than the title, has no space, upper-case letter or removed character, and no dash at either end |
| PostSchemas.SlugOfSlugShaped | api/schemas/posts.py:70-75 | text already in slug shape is its own slug |
| PostSchemas.SlugIdempotent | api/schemas/posts.py:66-75 | slugging a slug changes nothing |
| PostSchemas.SlugKeepsRuns | api/schemas/posts.py:74 | a run of spaces becomes a run of dashes |
| PostSchemas.SlugKeepsTab | api/schemas/posts.py:72-74 | whitespace other than a space survives, lower-cased text around it |
| PostSchemas.PostBefore | api/schemas/posts.py:52-63 | strips the payload, and sets the slug from a truthy string title; a truthy non-string title raises |
| PostSchemas.PostBeforeStrips | api/schemas/posts.py:57-59 | apart from the slug, the post validator only strips |
| PostSchemas.BlankTitleNoSlug | api/schemas/posts.py:61 | a blank title is falsy once stripped, so no slug is set |
| PostSchemas.PostSlugShaped | api/schemas/posts.py:61-62 | the slug the validator sets has slug shape |
| PostSchemas.PostCreate | api/schemas/posts.py:78-83 | accepted iff the post validator passes and the stripped payload has a title of 3-100 characters, content of at most 2500, a string status when sent, and an author; the title is stored stripped and no slug survives validation |
| PostSchemas.PostCreateMet | api/schemas/posts.py:78-83 | the post declarations pass iff title and content are strings within bounds, the status is a string when sent, and an author is given |
| PostSchemas.PostMetBefore | api/schemas/posts.py:55-62 | the slug the validator adds is declared by neither post schema, so the declarations judge the stripped payload |
| PostSchemas.PostRulesUndeclareSlug | api/schemas/posts.py:78-90 | neither post schema declares a slug |
| PostSchemas.AcceptedPost | api/schemas/posts.py:78-83 | the validated post keeps the stripped title and drops the slug |
| PostSchemas.PostUpdate | api/schemas/posts.py:86-90 | accepted iff the post validator passes and the title, content and status sent are within the same bounds; no slug survives |
| PostSchemas.PostUpdateMet | api/schemas/posts.py:86-90 | the update declarations pass iff every title, content and status sent is within bounds |
| PostSchemas.TagCreate | api/schemas/posts.py:16-27 | accepted iff the stripped name has 3-15 characters, which is all that is kept |
| PostSchemas.TagUpdate | api/schemas/posts.py:30-31 | accepted iff the optional stripped name is within those bounds |
| PostSchemas.CommentCreate | api/schemas/posts.py:117-134 | accepted iff the stripped content has 3-500 characters and an author and a post are given |
| PostSchemas.CommentUpdate | api/schemas/posts.py:137-139 | accepted iff the optional stripped content is within those bounds |
| EventSchemas.EventBefore | api/schemas/events.py:24-37 | strips the payload and rejects exactly a truthy start greater than a truthy end |
| EventSchemas.SingleDateNotCompared | api/schemas/events.py:33-35 | an update carrying one date is never compared with anything |
| EventSchemas.RawDatesCompareAsText | api/schemas/events.py:33-35 | dates are compared as raw strings, so an offset-carrying start earlier in UTC can still be rejected |
| EventSchemas.EventCreate | api/schemas/events.py:40-50 | accepted iff the dates are ordered and the stripped payload has a type, both dates, a name of 3-50 characters, a meeting point of at most 100, a description of at most 1000 when sent, a location, an organizer and a team |
| EventSchemas.EventCreateMet | api/schemas/events.py:40-50 | the event declarations pass iff every required field is given and the strings are within their bounds |
| EventSchemas.EventUpdate | api/schemas/events.py:72-80 | accepted iff the dates are ordered and the name, description and meeting point sent are within the same bounds; organizer and team cannot be changed |
| EventSchemas.EventUpdateMet | api/schemas/events.py:72-80 | the update declarations pass iff the strings sent are within their bounds |
| EventSchemas.EventUpdateShape | api/schemas/events.py:72-80 | the update schema declares neither organizer nor team |
| EventSchemas.ReviewCreate | api/schemas/events.py:140-152 | accepted iff the score is a JSON integer from 1 to 5 and the stripped comment has at most 500 characters |
| EventSchemas.ReviewUpdate | api/schemas/events.py:155-157 | accepted iff the score, when sent, is a JSON integer from 1 to 5 and the stripped comment has at most 500 characters |
| EventSchemas.PathCreate | api/schemas/events.py:186-198 | accepted iff name and data are strings, stored stripped |
| EventSchemas.PathUpdate | api/schemas/events.py:201-203 | accepted iff each of name and data is absent, `None` or a string; strings are stored stripped |
| AgreementSchemas.AgreementBefore | api/schemas/agreements.py:18-22 | strips the payload and rejects exactly a truthy start greater than a truthy end |
| AgreementSchemas.AgreementEqualDates | api/schemas/agreements.py:21 | equal dates pass |
| AgreementSchemas.AgreementCreate | api/schemas/agreements.py:25-31 | accepted iff the dates are ordered and the stripped payload has a name of 3-50 characters, a description of at most 2500 when sent, both dates, a company, and no explicit `None` for `active` |
| AgreementSchemas.AgreementCreateMet | api/schemas/agreements.py:25-31 | the agreement declarations pass iff the strings are within bounds, dates and company are given, and `active` is not sent as `None` |
| AgreementSchemas.AgreementActiveByDefault | api/schemas/agreements.py:30 | a new agreement is active unless told otherwise |
| AgreementSchemas.AgreementUpdate | api/schemas/agreements.py:34-39 | accepted iff the dates are ordered and the name and description sent are within the same bounds |
| AgreementSchemas.AgreementUpdateMet | api/schemas/agreements.py:34-39 | the update declarations pass iff the name and description sent are within bounds |
| AgreementSchemas.DigitsFixed | api/schemas/agreements.py:78-84 | a digit string survives stripping and digit extraction |
| AgreementSchemas.CompanyBefore | api/schemas/agreements.py:72-89 | a crash iff the telephone is not a string (the second pass reads a missing or `None` one); a 422 iff the digits of the stripped telephone are neither empty nor a mobile number; otherwise the stripped payload with the telephone replaced by those digits |
| AgreementSchemas.CompanySecondPassNoop | api/schemas/agreements.py:74-88 | with a telephone present, the company validator's repeated second pass changes nothing |
| AgreementSchemas.CompanyWithoutTelephone | api/schemas/agreements.py:82-83 | without a telephone the unguarded second pass raises |
| AgreementSchemas.CompanyCreate | api/schemas/agreements.py:65-89 | accepted iff the company validator passes and the stripped payload has a name of 3-50 characters, a contact of 3-25, an address of at most 100 when sent, and a location; the telephone is stored as the digits of its stripped text |
| AgreementSchemas.CompanyBeforeReplaces | api/schemas/agreements.py:72-89 | an accepted company payload is the stripped payload with the telephone replaced by a string |
| AgreementSchemas.CompanyMetStripped | api/schemas/agreements.py:65-70 | the rewritten telephone does not affect what either company schema demands of the other fields |
| AgreementSchemas.CompanyCreateMet | api/schemas/agreements.py:65-70 | with a string telephone, the company declarations pass iff names and address are within bounds and a location is given |
| AgreementSchemas.AcceptedCompany | api/schemas/agreements.py:82-88 | the telephone an accepted company payload stores is the digits of the stripped input |
| AgreementSchemas.CompanyUpdate | api/schemas/agreements.py:92-97 | accepted iff the inherited company validator passes, so a telephone is needed, and the name, contact and address sent are within bounds |
| AgreementSchemas.CompanyUpdateMet | api/schemas/agreements.py:92-97 | with a string telephone, the update declarations pass iff the strings sent are within bounds |
| TeamSchemas.TeamCreate | api/schemas/teams.py:14-24 | accepted iff the stripped name has 3-50 characters and a location is given; the name is stored stripped |
| TeamSchemas.TeamUpdate | api/schemas/teams.py:27-28 | only the name can change, within the same bounds |
| TeamSchemas.LocationCreate | api/schemas/teams.py:52-64 | accepted iff the stripped name has 3-50 characters, a type is given, and the capital flag is not explicitly `None` |
| TeamSchemas.LocationDefaults | api/schemas/teams.py:63-64 | a new location is not a capital and has no department unless told otherwise |
| TeamSchemas.LocationUpdate | api/schemas/teams.py:67-71 | accepted iff the optional stripped name is within bounds |
| FeedbackSchemas.FeedbackCreate | api/schemas/feedbacks.py:14-26 | accepted iff a type and author are given, the stripped title has 3-100 and the stripped content 3-1000 characters |
| FeedbackSchemas.FeedbackUpdate | api/schemas/feedbacks.py:29-32 | the same bounds, each field optional |
| FeedbackSchemas.AnswerCreate | api/schemas/feedbacks.py:58-69 | accepted iff the stripped content has 3-1000 characters and an author and a feedback are given |
| FeedbackSchemas.AnswerUpdate | api/schemas/feedbacks.py:72-73 | accepted iff the optional stripped content is within bounds |
| AuthSchemas.UsernameCheck | api/auth/schemas.py:41-47 | a string username passes iff alphanumeric and 3-50 characters, alphanumeric checked first; `None` raises |
| AuthSchemas.EmptyUsernameNotAlphanumeric | api/auth/schemas.py:43-44 | the empty username is reported as not alphanumeric |
| AuthSchemas.EmailCheck | api/auth/schemas.py:50-54 | an e-mail passes iff at most 255 characters; `None` raises |
| AuthSchemas.PasswordCheck | api/auth/schemas.py:57-70 | passes iff no rule of length, lower, upper, digit, special is broken; otherwise the first broken rule's message |
| AuthSchemas.AuthAndSchemaPasswords | api/auth/schemas.py:57-70 | the api/schemas rules accept exactly what these accept minus passwords with a space at either end |
| AuthSchemas.LeadingSpaceAccepted | api/auth/schemas.py:57-70 | " Abcdef1!" passes here although it breaks the edge-space rule |
| AuthSchemas.UserCreate | api/auth/schemas.py:74-85 | accepted iff username, e-mail and password are strings their validators accept and a role is given |
| AuthSchemas.UserUpdate | api/auth/schemas.py:89-100 | accepted iff each checked field is left out or passes its validator |
| AuthSchemas.ExplicitNullCrashes | api/auth/schemas.py:89-100 | an explicit `None` for a checked field raises inside the validator rather than failing validation |
| CoreAuth.Username | core/auth/models.py:25-31 | accepted iff alphanumeric; the length guard is a chained comparison that never holds |
| CoreAuth.UsernameLengthUnchecked | core/auth/models.py:29 | a 1-character and a 60-character username both pass |
| CoreAuth.Password | core/auth/models.py:34-48 | accepted iff no rule is broken, otherwise the first broken rule's message |
| CoreAuth.PasswordAgreesWithAuth | core/auth/models.py:34-48 | the table model and the auth schemas accept the same passwords |
| CoreAuth.Name | core/auth/models.py:51-65 | accepted iff letters and whitespace only; the length guard never holds |
| CoreAuth.BlankNamesPass | core/auth/models.py:53-62 | the empty name and a name of spaces pass |
| EventsCrud.ListRows | api/crud/events.py:43-69 | a zero limit lists nothing; listed rows are active; the unwindowed list is as long as the count |
| EventsCrud.ActiveListed | api/crud/events.py:52 | every listed row is active |
| EventsCrud.ByPair | api/crud/events.py:120-129 | the participation or review of a (member, event) pair, deleted or not: nothing iff no row links them |
| EventsCrud.DeletedPairFound | api/crud/events.py:125-129 | a soft-deleted participation is still found |
| EventsCrud.CreateParticipation | api/crud/events.py:105-116 | a new active row linking member and event with the given attended flag |
| EventsCrud.UpdateParticipation | api/crud/events.py:133-142 | `attended` takes the given value (even `None`); the rest of the row and the table are kept |
| UsersCrud.ProfileOf | api/crud/users.py:358 | the user's profile row, deleted or not: nothing iff no profile belongs to the user |
| UsersCrud.CreateUser | api/crud/users.py:272-285 | the new user stores the hash of the password and the other fields except the nested profile; a new active profile holding the profile payload is linked to the user; each table gains exactly its new row and no existing user or profile row changes |
| UsersCrud.UpdateUser | api/crud/users.py:335-348 | an unknown id changes nothing; a known one, deleted or not, is patched, and a non-empty profile payload patches the user's profile, which must exist |
| UsersCrud.UpdateUserAsWritten | api/crud/users.py:335-348 | as written, an unknown id raises; a known id behaves as the corrected update |
| UsersCrud.UpdateUserVersions | api/crud/users.py:335-348 | the two versions agree exactly on known ids |
| UsersCrud.DeleteUser | api/crud/users.py:352-366 | a hard delete removes user and profile; a soft one flags both and raises for a user without profile; the user is hidden afterwards, no other user changes, and no profile but the user's changes (none at all for a user without one) |
| UsersCrud.ChangePassword | api/crud/users.py:370-377 | the stored password becomes the hash of the new one and nothing else changes; an unknown id raises |
| UsersCrud.Has | api/crud/users.py:396-413 | `profile.has(cond)` holds iff some profile of the user, deleted or not, has a birthdate meeting the condition |
| UsersCrud.UsersWith | api/crud/users.py:396-413 | exactly the active users meeting every condition, ascending |
| UsersCrud.ByBirthdate | api/crud/users.py:393-400 | exactly the active users with a profile born on that date |
| UsersCrud.ByBirthdateRange | api/crud/users.py:404-414 | exactly the active users with a profile born no earlier than the start and one born no later than the end |
| UsersCrud.RangeInclusive | api/crud/users.py:404-414 | both ends of the range are inclusive |
| UsersCrud.BirthdaysTodayAsWritten | api/crud/users.py:381-389 | as written, exactly the active users born on today's full date, year included |
| UsersCrud.BirthdaysToday | api/crud/users.py:381-389 | exactly the active users born on today's month and day, any year |
| UsersCrud.BirthdayMissed | api/crud/users.py:381-389 | a user born 2000-10-10 is missed on 2026-10-10 as written and listed by the corrected query |
| UsersCrud.BirthdaysTodayWidens | api/crud/users.py:381-389 | the corrected query lists everyone the original lists |
| PostsCrud.Requested | api/crud/posts.py:29-30 | exactly the active tags the request names, ascending |
| PostsCrud.Missing | api/crud/posts.py:32-33 | exactly the requested ids that are not active tags |
| PostsCrud.TagsByIds | api/crud/posts.py:27-34 | succeeds iff every requested id is an active tag and none repeats; then exactly the requested tags |
| PostsCrud.TagsByIdsCard | api/crud/posts.py:31 | the found count equals the request's length iff the request is duplicate-free and fully active |
| PostsCrud.CountFound | api/crud/posts.py:31 | the counting argument behind the length comparison |
| PostsCrud.FoundWithin | api/crud/posts.py:29-30 | every found tag was requested |
| PostsCrud.FoundAll | api/crud/posts.py:29-30 | with every request active, every request is found |
| PostsCrud.DuplicateRequestFails | api/crud/posts.py:31-33 | naming an existing tag twice fails although nothing is missing |
| PostsCrud.ElemsCard | api/crud/posts.py:31 | a request has at least as many entries as distinct ids, exactly as many iff none repeats |
| PostsCrud.CreatePost | api/crud/posts.py:120-133 | a new active post with its payload and the slug of its title, linked to exactly the requested tags; a failed tag lookup stores nothing; other posts and their tag links are unchanged |
| PostsCrud.CreatePostAsWritten | api/crud/posts.py:123-127 | as written, reading the undeclared `tag_ids` raises |
| PostsCrud.CreatePostAlwaysFails | api/crud/posts.py:123-127 | every post creation fails as written |
| PostsCrud.CreatePostSlugUnset | api/crud/posts.py:123-130 | with `tag_ids` declared, the row is built from the payload alone: a failed tag lookup is a 404 before the commit, and a payload without a slug is refused at the commit because the slug column may not be null |
| PostsCrud.SlugNeverStored | api/crud/posts.py:123-130 | for every validated post payload whose tags are found, the creation that stores the payload alone is refused, while the corrected creation, which adds the slug of the title, succeeds |
| TeamsCrud.ByExactName | api/crud/teams.py:32-36 | the active team or location with exactly that name, case included |
| TeamsCrud.DeleteLocation | api/crud/teams.py:179-191 | the delete of the store, returning the row as the session holds it: flagged deleted after a soft delete, as it was after a hard one; nothing for an unknown id |
| AgreementsCrud.ListAgreements | api/crud/agreements.py:43-61 | a zero limit or zero offset is ignored, since the guards test truthiness |
| AgreementsCrud.ListCompanies | api/crud/agreements.py:169-187 | a zero limit lists nothing |
| AgreementsCrud.ZeroLimitModes | api/crud/agreements.py:57-60 | a zero limit lists every selected agreement but no company |
| AgreementsCrud.NameLookups | api/crud/agreements.py:33-39 | agreements are looked up by name case-insensitively, companies exactly |
| AgreementsCrud.Without | api/crud/agreements.py:129-131 | the list minus every entry for the team, no longer than before |
| AgreementsCrud.WithoutConcat | api/crud/agreements.py:129-131 | removal keeps relative order |
| AgreementsCrud.WithoutAbsent | api/crud/agreements.py:129-131 | removing an absent team changes nothing |
| AgreementsCrud.AddTeam | api/crud/agreements.py:107-118 | a team not yet linked goes at the end of the agreement's teams; a team already linked leaves the links as they were, since the loaded collection records no addition for it; the team is linked afterwards; no other agreement changes; an unknown agreement or team raises |
| AgreementsCrud.AddTeamDistinct | api/models/agreements.py:26-28 | adding keeps every team at most once per agreement, as the unique constraint on (agreement_id, team_id) requires, and a second add of the same team changes nothing |
| AgreementsCrud.RemoveTeam | api/crud/agreements.py:122-134 | the team is gone, the others remain, no other agreement changes; an unknown agreement raises |
| AgreementsCrud.AddThenRemove | api/crud/agreements.py:107-134 | adding a new team and removing it restores the agreement's teams |
| AuthCrud.CreateUser | api/auth/crud.py:24-45 | one new active user, storing the hash of the password and every other field given; the table gains exactly that row and no existing row changes |
| AuthCrud.ByEmail | api/auth/crud.py:65-83 | nothing iff no user has exactly that e-mail with a status other than "deleted", else such a user |
| AuthCrud.Users | api/auth/crud.py:87-101 | only "active" users, at most `limit` of them; a negative offset or limit is refused |
| AuthCrud.UpdateUser | api/auth/crud.py:105-135 | supplied fields set, a password as its hash, others kept; an unknown id changes nothing; a non-string password raises; no other user changes |
| AuthCrud.ChangePassword | api/auth/crud.py:139-161 | the stored password becomes the hash of the new one and nothing else changes; an unknown id raises (line 155 sets `password` on `None`) |
| AuthCrud.DeleteUser | api/auth/crud.py:165-187 | answers whether the user exists; an existing user's status becomes "deleted" and nothing else changes |
| AuthCrud.DeletedHiddenByEmail | api/auth/crud.py:77-83 | a deleted user is no longer found by e-mail but still by id |
| RolesCrud.ByName | api/roles/crud.py:60-73 | nothing iff no role has exactly that name, else such a role |
| RolesCrud.Roles | api/roles/crud.py:77-91 | at most `limit` stored roles; from offset 0 with a large enough limit, all of them; negative values refused |
| RolesCrud.DeleteRole | api/roles/crud.py:121-140 | the role is removed and the answer is whether it existed; other roles unchanged |
| Guards.CreateUnique | api/routers/agreements.py:66-73 | 409 iff an active row already carries the name; else a new active row with the payload and every other row unchanged |
| Guards.CreateUniqueTwice | api/routers/users.py:67-74 | a name just created cannot be created again |
| Guards.Get404 | api/routers/agreements.py:77-84 | the row iff it exists and is active, else 404 |
| Guards.Update404 | api/routers/agreements.py:88-97 | 404 only for an unknown id; a deleted row is updated, keeps its flag, gets every supplied field and keeps the rest |
| Guards.UpdateDeletedStaysHidden | api/routers/agreements.py:88-97 | updating a deleted row succeeds and it stays hidden from `get` |
| Guards.Delete404 | api/routers/agreements.py:101-110 | 404 unless an active row exists; afterwards it is hidden, gone iff the delete was hard, and no other row changes |
| Guards.DeleteTwice | api/routers/agreements.py:101-110 | a second delete of the same row is refused |
| EventsRouter.ListEvents | api/routers/events.py:28-65 | fails iff the query strings are invalid or skip/limit negative; at most `limit` active rows; a zero limit is one empty page; the total counts the whole selection |
| EventsRouter.Linked | api/routers/events.py:224 | exactly the participations of the event (or member), deleted or not, ascending |
| EventsRouter.Attended | api/routers/events.py:222-229 | no flag keeps all; a flag keeps exactly the participations with that attended value, in order |
| EventsRouter.DisjointFilters | api/routers/events.py:222-229 | two filters no id passes together keep no more ids between them than there were |
| EventsRouter.AttendedSplit | api/routers/events.py:222-229 | attended and not-attended participations are disjoint and together no more than all |
| EventsRouter.CreateParticipation | api/routers/events.py:184-206 | 404 for a missing event before a missing user; a crash iff the user has no profile; 400 iff the member already participates; success iff event and user are active, the user has a profile and no participation links it to the event, and then one new row linking member and event, returned last among the event's participations, each once (the corrected endpoint) |
| EventsRouter.CreateParticipationAsWritten | api/routers/events.py:196-201 | the guards and errors of the corrected endpoint; on success the event's participations as loaded after the commit, which already hold the new one, followed by the new one again |
| EventsRouter.ParticipationListedTwice | api/routers/events.py:196-201 | the answer as written holds the new participation twice, while the event holds it once and the corrected answer is exactly the event's participations |
| EventsRouter.NewLinkedLast | api/routers/events.py:197-201 | a row added under the next id comes last among its event's participations |
| EventsRouter.SecondParticipationRefused | api/routers/events.py:195-206 | a participation just created cannot be created again |
| EventsRouter.EventParticipations | api/routers/events.py:214-229 | 404 iff the event is missing; otherwise exactly its participations with the requested attended value, ascending |
| EventsRouter.UserParticipations | api/routers/events.py:237-252 | 404 for a missing user, a crash for a user without profile; otherwise exactly the participations of the user's profile with the requested attended value, ascending |
| UsersRouter.ListAsWritten | api/routers/users.py:36-43 | as written, every list request fails with a 500, an unparsable sort first |
| UsersRouter.List | api/routers/users.py:26-63 | fails iff the query strings are invalid or skip/limit negative; at most `limit` active rows; the total counts the selection |
| UsersRouter.DefaultListFails | api/routers/users.py:29-39 | the default request fails as written and succeeds once the count exists |
| UsersRouter.CreateMotorcycle | api/routers/users.py:175-192 | 409 for a taken plate (any case), then 404 for the brand, then for the owner; success iff none of these applies and the owner has a profile; the motorcycle is stored with the owner's profile id, as the only new row, and no existing motorcycle changes |
| UsersRouter.UpdateUserAsWritten | api/routers/users.py:419-428 | as written, the endpoint never answers 404, and an unknown id is a 500 |
| UsersRouter.UpdateUser | api/routers/users.py:419-428 | 404 exactly for an unknown id; a crash iff a non-empty profile patch is sent for a user without a profile; otherwise the patched user, deleted or not, and the profile patched when a profile patch is sent, unchanged otherwise |
| UsersRouter.UpdateUserNotFound | api/routers/users.py:425-427 | on an unknown id the corrected endpoint answers 404 and the original 500 |
| UsersRouter.DeleteUser | api/routers/users.py:432-441 | 404 unless the user is active; afterwards the user is hidden and no other user changes |
| UsersRouter.DeleteUserTwice | api/routers/users.py:432-441 | a deleted user cannot be deleted again |
| UsersRouter.BirthdatesBy | api/routers/users.py:506-525 | a single date wins; otherwise both ends of a range are required (400 iff missing); exactly the matching active users |
| UsersRouter.DateIgnoresRange | api/routers/users.py:515-516 | with a date given, the range parameters make no difference |
| AgreementsRouter.ListAgreements | api/routers/agreements.py:26-62 | valid iff the query strings are valid and skip/limit non-negative; a zero limit and offset list every selected agreement on one page |
| AgreementsRouter.ListCompanies | api/routers/agreements.py:183-219 | at most `limit` companies; the total counts the whole selection |
| AgreementsRouter.ZeroLimitLists | api/routers/agreements.py:38-50 | with a zero limit agreements are all listed and companies not at all |
| AgreementsRouter.AddTeam | api/routers/agreements.py:145-155 | 404 for a missing agreement before a missing team; a new team is appended, a linked one stays where it is, and the agreement's teams are returned; other agreements unchanged |
| AgreementsRouter.RemoveTeam | api/routers/agreements.py:162-173 | 404 for a missing agreement, team, or a team not in the agreement; otherwise the list shrinks to exactly the other teams, and no other agreement's teams change |
| AgreementsRouter.WithoutShrinks | api/routers/agreements.py:171-173 | removing a present team shortens the list |
| AgreementsRouter.RemoveTwice | api/routers/agreements.py:171-173 | a team removed cannot be removed again |
| AgreementsRouter.AddThenRemove | api/routers/agreements.py:145-173 | a new team added and removed through the endpoints restores the agreement's teams |
| PostsRouter.AuthorProfile | api/routers/posts.py:144 | 404 for an inactive user; a user without profile raises; otherwise the profile owned by the user |
| PostsRouter.CreatePost | api/routers/posts.py:135-145 | 409 for a title taken (any case) before 404 for the author; a crash for an author without a profile; then 404 when the tag lookup fails; success iff none of these applies; the post, the only new row, stores the author's profile id, the rest of the payload and the requested tags, and no other post or tag link changes; it builds on the corrected `PostsCrud.CreatePost`: as written, every request that passes the guards ends in a 500 |
| PostsRouter.TitleTakenAfterCreate | api/routers/posts.py:139-141 | a title just used cannot be used again in any case |
| PostsRouter.CreateComment | api/routers/posts.py:250-264 | 404 for the author, then the post, then a truthy missing parent; otherwise the comment with the author's profile id, as the only new row, no existing comment changing |
| PostsRouter.ZeroParentUnchecked | api/routers/posts.py:259 | a parent id of 0 is falsy and never looked up |
| PostsRouter.CreateReaction | api/routers/posts.py:398-408 | 404 for the author, then the comment; otherwise the reaction with the author's profile id, as the only new row, no existing reaction changing |

## Left out

- Database I/O, sessions, commits, refreshes, cascades, timestamps and `deleted_at`: the store is a map from id to row, and each operation returns the new map.
- The effect of `ORDER BY` on row order: lists come back in ascending id order, and only the checks `apply_sorting` makes are modelled. Store.List does not reorder by the sort map.
- SQL type coercion in equality filters: a filter value is compared with the stored value as a string or a boolean.
- Field types beyond strings and integers (enums, dates, e-mail addresses, file paths, booleans, ids): they are accepted as given (`Fields.Typed`), because parsing them belongs to the validation library.
- Fields.CheckFields: the validation library reports every failing field; the model reports only the first one.
- Unicode: text is ASCII, so NFKD normalisation, Unicode digit and letter classes, and case folding beyond ASCII are not modelled.
- JWT creation and checking, bcrypt hashing, the auth routers and the request dependencies: hashing is a function parameter, and "today" is a parameter.
- Error details are fixed strings without the ids formatted into them.
- The `EventCreate` organizer/team membership check: it queries the database from inside a validator.
- The checks of `create_event` (api/routers/events.py:69-90): the name is looked up first, so a taken name is a 409 even when the location, organizer, team or path is missing; those four are then 404 guards of the `Guards` kind. The organizer's user id is replaced by `organizer.profile.id`, which raises (a 500) for an organizer without a profile, as `PostsRouter.AuthorProfile` shows for posts. The endpoint as a whole is not modelled.
- The reviews endpoints (api/routers/events.py:327-481): as written they do not fit together. `create_review` calls `get_participation` (line 342), which in that module is the router's own endpoint (line 260) taking `(session, event_id, user_id)`, not the crud query. `get_review` and `delete_review` pass `(event_id, user.profile.id)` (lines 423 and 472) to `crud.get_review(session, profile_id, event_id)` (api/crud/events.py:181), swapping the two ids. `get_review` and `update_review` read `user.profile` before any `None` check (lines 422 and 447).
- The teams, feedbacks and membership-card routers, `get_user_motorcycles` and the other relationship reads: they follow the guard pattern already modelled.
- AgreementsCrud.AddTeam: the refreshed team list is taken in the order the teams were linked; the database reads the pivot rows back without an `ORDER BY`.
- Store.Window: the database dialect is configuration (`env.database_url`), and the lists follow PostgreSQL, which refuses a negative `OFFSET` or `LIMIT`. The in-memory SQLite database of the test fixtures reads a negative limit as no limit and a negative offset as 0 (`Store.WindowLenient`); the two readings agree on every non-negative value (`Store.WindowDialectsAgree`).
- Listing.Envelope: its failure for a negative `skip` or applied `limit` is the PostgreSQL reading of `Store.Window`; under SQLite such a request succeeds.
- Listing.Bare: as for `Listing.Envelope`, a negative `skip` or `limit` fails only under the PostgreSQL reading.
- AuthCrud.Users: a negative offset or limit is refused only under the PostgreSQL reading of `Store.Window`.
- RolesCrud.Roles: a negative offset or limit is refused only under the PostgreSQL reading of `Store.Window`; under SQLite, `limit=-1` lists every role.
- EventsRouter.ListEvents: its failure for a negative `skip` or `limit` is the PostgreSQL reading of `Store.Window`.
- UsersRouter.List: its failure for a negative `skip` or `limit` is the PostgreSQL reading of `Store.Window`.
- AgreementsRouter.ListAgreements: its failure for a negative `skip` or `limit` is the PostgreSQL reading of `Store.Window`.
- AgreementsRouter.ListCompanies: its failure for a negative `skip` or `limit` is the PostgreSQL reading of `Store.Window`.
- EventSchemas.ReviewCreate: the score must be a JSON integer; the validation library's lax mode also turns the string "3", the float 3.0 and a boolean into an integer, and that coercion is not modelled.
- EventSchemas.ReviewUpdate: the same lax integer coercion of the optional score is not modelled.
- Json.Greater: floats are `Json.Other`, so comparing a float with an integer, a boolean or another float raises here, where Python compares the numbers by value.
- Guards.Update404: the `update_*` endpoints answer 404 only for an unknown id, because the crud update ignores the `deleted` flag. A soft-deleted row is updated and returned, and the model follows the code in this.

## Findings

| source | as written | input that shows it | evidently intended | confidence | as-written member | corrected member |
|---|---|---|---|---|---|---|
| api/routers/users.py:36-43 | the role, motorcycle, brand and user lists call `count_roles`, `count_motorcycles`, `count_brands` and `count_users`, which api/crud/users.py does not define | the default request `GET /users/` (skip=0, limit=100, no sort, no filter) | the records counted with the same filter as the page | not executed | UsersRouter.ListAsWritten (UsersRouter.DefaultListFails) | UsersRouter.List |
| api/crud/posts.py:123-127 | `create_post` reads `data.tag_ids`, which `PostCreate` does not declare | any valid post payload | the requested tags looked up and attached | not executed | PostsCrud.CreatePostAsWritten (PostsCrud.CreatePostAlwaysFails) | PostsCrud.CreatePost |
| api/crud/posts.py:123-124 | the "before" validator writes `slug` (api/schemas/posts.py:60-62), but `PostCreate` does not declare it, so the validated payload has no slug and `Post(**post_data)` leaves the slug column, which may not be null (api/models/posts.py:70), unset; the commit fails even once `tag_ids` is declared | any valid post payload, with no tags requested | the slug generated from the title stored with the post | not executed | PostsCrud.CreatePostSlugUnset (PostsCrud.SlugNeverStored) | PostsCrud.CreatePost |
| api/crud/users.py:381-389 | the birthday query compares the full birthdate with today's date, year included | one active user born 2000-10-10, queried on 2026-10-10 | users whose birthdate falls on today's month and day | not executed | UsersCrud.BirthdaysTodayAsWritten (UsersCrud.BirthdayMissed) | UsersCrud.BirthdaysToday (UsersCrud.BirthdaysTodayWidens) |
| api/crud/users.py:335-348 | `update_user` assigns to the looked-up user without checking for `None`, so the router's 404 at api/routers/users.py:425-427 is unreachable | `PUT /users/999` with no user 999 | `None` for an unknown id, answered with 404 | not executed | UsersCrud.UpdateUserAsWritten, UsersRouter.UpdateUserAsWritten | UsersCrud.UpdateUser, UsersRouter.UpdateUser (UsersRouter.UpdateUserNotFound) |
| api/routers/events.py:196-201 | `create_participation` commits inside the crud call, which expires the event; `event.members` is then loaded with the new participation already in it, and `append` adds it a second time | user 1 with a profile joins event 1, which has no participations: the answer lists the new participation twice | the event's participations, each listed once | not executed | EventsRouter.CreateParticipationAsWritten (EventsRouter.ParticipationListedTwice) | EventsRouter.CreateParticipation |

/** Declared schema fields and their `Field(...)` bounds, checked the way a
    schema checks a payload once its "before" validators have run: every
    declared field in order, a crash inside a field validator aborting the
    whole validation, otherwise the first failing field reported. */
module Fields {
  import opened Wrappers
  import opened Json

  /** What a present, non-null value must be. `Str` is a string whose length
      lies within the bounds; `Range` an integer within the bounds; `Typed`
      any value, for the types whose parsing is not modelled (dates, enums,
      e-mail addresses, file paths, booleans and ids). */
  datatype Bound = Str(minLen: nat, maxLen: Option<nat>) | Range(lo: int, hi: int) | Typed

  predicate Accepts(b: Bound, v: Value) {
    match b
    case Str(lo, hi) => v.Text? && lo <= |v.s| && (hi.None? || |v.s| <= hi.value)
    case Range(lo, hi) => v.Int? && lo <= v.i <= hi
    case Typed => true
  }

  /** A field validator that accepts everything. */
  function NoCheck(v: Value): Option<Error> { None }

  /** One declared field: its bound, its default (`None` when the field is
      required), whether `None` is allowed, and its field validator, which
      sees every value that passed the bound. */
  datatype FieldRule = FieldRule(
    name: string,
    bound: Bound,
    default: Option<Value>,
    nullable: bool,
    check: Value -> Option<Error>)

  /** A required field without validator. */
  function Required(name: string, bound: Bound): FieldRule {
    FieldRule(name, bound, None, false, NoCheck)
  }

  /** An optional field defaulting to `None`. */
  function Optional(name: string, bound: Bound): FieldRule {
    FieldRule(name, bound, Some(Null), true, NoCheck)
  }

  /** The error, if any, that validating one field produces. */
  function FieldError(r: FieldRule, o: Object): (e: Option<Error>)
    ensures r.name !in o ==> (e.None? <==> r.default.Some?)
    ensures r.name in o && o[r.name].Null? && !r.nullable ==> e.Some? && e.value.Validation?
    ensures r.name in o && !o[r.name].Null? && !Accepts(r.bound, o[r.name]) ==> e.Some? && e.value.Validation?
    ensures r.name in o && (o[r.name].Null? ==> r.nullable) && (!o[r.name].Null? ==> Accepts(r.bound, o[r.name]))
      ==> e == r.check(o[r.name])
  {
    if r.name !in o then
      if r.default.None? then Some(Validation(r.name + ": field required")) else None
    else
      var v := o[r.name];
      if v.Null? && !r.nullable then Some(Validation(r.name + ": input should not be None"))
      else if !v.Null? && !Accepts(r.bound, v) then Some(Validation(r.name + ": input out of bounds"))
      else r.check(v)
  }

  predicate Crashes(r: FieldRule, o: Object) {
    var e := FieldError(r, o); e.Some? && !e.value.Validation?
  }

  /** The first crash among the fields, in declared order. */
  function FirstCrash(rules: seq<FieldRule>, o: Object): (e: Option<Error>)
    ensures e.None? <==> forall i :: 0 <= i < |rules| ==> !Crashes(rules[i], o)
    ensures e.Some? ==> exists i :: 0 <= i < |rules| && Crashes(rules[i], o) && FieldError(rules[i], o) == e
  {
    if |rules| == 0 then None
    else if Crashes(rules[0], o) then FieldError(rules[0], o)
    else
      var e := FirstCrash(rules[1..], o);
      assert forall i :: 1 <= i < |rules| ==> rules[i] == rules[1..][i - 1];
      if e.Some? then
        var i :| 0 <= i < |rules[1..]| && Crashes(rules[1..][i], o) && FieldError(rules[1..][i], o) == e;
        assert rules[i + 1] == rules[1..][i];
        e
      else e
  }

  /** The first failing field, in declared order. */
  function FirstError(rules: seq<FieldRule>, o: Object): (e: Option<Error>)
    ensures e.None? <==> forall i :: 0 <= i < |rules| ==> FieldError(rules[i], o).None?
    ensures e.Some? ==> exists i :: 0 <= i < |rules| && FieldError(rules[i], o) == e
                          && forall j :: 0 <= j < i ==> FieldError(rules[j], o).None?
  {
    if |rules| == 0 then None
    else if FieldError(rules[0], o).Some? then FieldError(rules[0], o)
    else
      var e := FirstError(rules[1..], o);
      assert forall i :: 1 <= i < |rules| ==> rules[i] == rules[1..][i - 1];
      if e.Some? then
        var i :| 0 <= i < |rules[1..]| && FieldError(rules[1..][i], o) == e
          && forall j :: 0 <= j < i ==> FieldError(rules[1..][j], o).None?;
        assert rules[i + 1] == rules[1..][i];
        e
      else e
  }

  /** A string field present with a length in `lo..hi`. */
  predicate StrWithin(o: Object, name: string, lo: nat, hi: nat) {
    name in o && o[name].Text? && lo <= |o[name].s| <= hi
  }

  /** An optional string field: absent, `None`, or a string with a length in `lo..hi`. */
  predicate OptStrWithin(o: Object, name: string, lo: nat, hi: nat) {
    name !in o || o[name].Null? || (o[name].Text? && lo <= |o[name].s| <= hi)
  }

  /** A required string field without bounds: present and a string. */
  predicate TextGiven(o: Object, name: string) {
    name in o && o[name].Text?
  }

  /** An optional string field without bounds: absent, `None` or a string. */
  predicate OptText(o: Object, name: string) {
    name !in o || o[name].Null? || o[name].Text?
  }

  /** A required field present and not `None`. */
  predicate Given(o: Object, name: string) {
    name in o && !o[name].Null?
  }

  /** The declared field names. */
  function Names(rules: seq<FieldRule>): (ns: set<string>)
    ensures forall i :: 0 <= i < |rules| ==> rules[i].name in ns
    ensures forall n :: n in ns ==> exists i :: 0 <= i < |rules| && rules[i].name == n
  {
    if |rules| == 0 then {}
    else
      var rest := Names(rules[1..]);
      assert forall i :: 1 <= i < |rules| ==> rules[i] == rules[1..][i - 1];
      {rules[0].name} + rest
  }

  /** `model_dump(exclude_unset=True)` of the validated model: the declared
      fields the payload supplied; undeclared keys are ignored. */
  function Dump(rules: seq<FieldRule>, o: Object): (d: Object)
    ensures d.Keys == o.Keys * Names(rules)
    ensures forall k :: k in d ==> d[k] == o[k]
  {
    map k | k in o.Keys * Names(rules) :: o[k]
  }

  /** Field validation: the payload's declared fields when every field
      passes, otherwise the first crash or, failing that, the first error.

      The lemmas about one schema take its rule list as a parameter whose
      entries their `requires` spell out, and the schema's `...Shape` lemma
      states those entries of the constant: the proofs then work on a
      handful of facts rather than on the whole list literal, which keeps
      them small. */
  function CheckFields(rules: seq<FieldRule>, o: Object): (r: Result<Object>)
    ensures r.Ok? <==> forall i :: 0 <= i < |rules| ==> FieldError(rules[i], o).None?
    ensures r.Ok? ==> r.value == Dump(rules, o)
    ensures r.Err? && (exists i :: 0 <= i < |rules| && Crashes(rules[i], o)) ==> !r.error.Validation?
    ensures r.Err? && (forall i :: 0 <= i < |rules| ==> !Crashes(rules[i], o)) ==>
      exists i :: 0 <= i < |rules| && FieldError(rules[i], o) == Some(r.error)
        && forall j :: 0 <= j < i ==> FieldError(rules[j], o).None?
  {
    match FirstCrash(rules, o)
    case Some(e) => Err(e)
    case None =>
      match FirstError(rules, o)
      case Some(e) => Err(e)
      case None => Ok(Dump(rules, o))
  }

  /** Acceptance field by field, for schemas of one to eleven fields. */
  lemma CheckFieldsOne(rules: seq<FieldRule>, o: Object)
    requires |rules| == 1
    ensures CheckFields(rules, o).Ok? <==> FieldError(rules[0], o).None?
  {
  }

  /** The dump of a one-field schema holding that field. */
  lemma DumpOne(rules: seq<FieldRule>, o: Object)
    requires |rules| == 1 && rules[0].name in o
    ensures Dump(rules, o) == map[rules[0].name := o[rules[0].name]]
  {
    assert Names(rules) == {rules[0].name};
  }

  lemma CheckFieldsTwo(rules: seq<FieldRule>, o: Object)
    requires |rules| == 2
    ensures CheckFields(rules, o).Ok? <==> (FieldError(rules[0], o).None? && FieldError(rules[1], o).None?)
  {
  }

  lemma CheckFieldsThree(rules: seq<FieldRule>, o: Object)
    requires |rules| == 3
    ensures CheckFields(rules, o).Ok? <==>
      (FieldError(rules[0], o).None? && FieldError(rules[1], o).None? && FieldError(rules[2], o).None?)
  {
    if FieldError(rules[0], o).None? && FieldError(rules[1], o).None? && FieldError(rules[2], o).None? {
      forall i | 0 <= i < |rules|
        ensures FieldError(rules[i], o).None?
      {
        assert i < 3;
      }
    }
  }

  lemma CheckFieldsFour(rules: seq<FieldRule>, o: Object)
    requires |rules| == 4
    ensures CheckFields(rules, o).Ok? <==>
      (FieldError(rules[0], o).None? && FieldError(rules[1], o).None?
       && FieldError(rules[2], o).None? && FieldError(rules[3], o).None?)
  {
    if && FieldError(rules[0], o).None? && FieldError(rules[1], o).None?
       && FieldError(rules[2], o).None? && FieldError(rules[3], o).None?
    {
      forall i | 0 <= i < |rules|
        ensures FieldError(rules[i], o).None?
      {
        assert i < 4;
      }
    }
  }

  lemma CheckFieldsSix(rules: seq<FieldRule>, o: Object)
    requires |rules| == 6
    ensures CheckFields(rules, o).Ok? <==>
      (FieldError(rules[0], o).None? && FieldError(rules[1], o).None? && FieldError(rules[2], o).None?
       && FieldError(rules[3], o).None? && FieldError(rules[4], o).None? && FieldError(rules[5], o).None?)
  {
    if && FieldError(rules[0], o).None? && FieldError(rules[1], o).None? && FieldError(rules[2], o).None?
       && FieldError(rules[3], o).None? && FieldError(rules[4], o).None? && FieldError(rules[5], o).None?
    {
      forall i | 0 <= i < |rules|
        ensures FieldError(rules[i], o).None?
      {
        assert i < 6;
      }
    }
  }

  lemma CheckFieldsFive(rules: seq<FieldRule>, o: Object)
    requires |rules| == 5
    ensures CheckFields(rules, o).Ok? <==>
      (FieldError(rules[0], o).None? && FieldError(rules[1], o).None? && FieldError(rules[2], o).None?
       && FieldError(rules[3], o).None? && FieldError(rules[4], o).None?)
  {
    if && FieldError(rules[0], o).None? && FieldError(rules[1], o).None? && FieldError(rules[2], o).None?
       && FieldError(rules[3], o).None? && FieldError(rules[4], o).None?
    {
      forall i | 0 <= i < |rules|
        ensures FieldError(rules[i], o).None?
      {
        assert i < 5;
      }
    }
  }

  lemma CheckFieldsEight(rules: seq<FieldRule>, o: Object)
    requires |rules| == 8
    ensures CheckFields(rules, o).Ok? <==>
      (FieldError(rules[0], o).None? && FieldError(rules[1], o).None? && FieldError(rules[2], o).None?
       && FieldError(rules[3], o).None? && FieldError(rules[4], o).None? && FieldError(rules[5], o).None?
       && FieldError(rules[6], o).None? && FieldError(rules[7], o).None?)
  {
    if && FieldError(rules[0], o).None? && FieldError(rules[1], o).None? && FieldError(rules[2], o).None?
       && FieldError(rules[3], o).None? && FieldError(rules[4], o).None? && FieldError(rules[5], o).None?
       && FieldError(rules[6], o).None? && FieldError(rules[7], o).None?
    {
      forall i | 0 <= i < |rules|
        ensures FieldError(rules[i], o).None?
      {
        assert i < 8;
      }
    }
  }

  lemma CheckFieldsTen(rules: seq<FieldRule>, o: Object)
    requires |rules| == 10
    ensures CheckFields(rules, o).Ok? <==>
      (FieldError(rules[0], o).None? && FieldError(rules[1], o).None? && FieldError(rules[2], o).None?
       && FieldError(rules[3], o).None? && FieldError(rules[4], o).None? && FieldError(rules[5], o).None?
       && FieldError(rules[6], o).None? && FieldError(rules[7], o).None? && FieldError(rules[8], o).None?
       && FieldError(rules[9], o).None?)
  {
    if && FieldError(rules[0], o).None? && FieldError(rules[1], o).None? && FieldError(rules[2], o).None?
       && FieldError(rules[3], o).None? && FieldError(rules[4], o).None? && FieldError(rules[5], o).None?
       && FieldError(rules[6], o).None? && FieldError(rules[7], o).None? && FieldError(rules[8], o).None?
       && FieldError(rules[9], o).None?
    {
      forall i | 0 <= i < |rules|
        ensures FieldError(rules[i], o).None?
      {
        assert i < 10;
      }
    }
  }

  lemma CheckFieldsEleven(rules: seq<FieldRule>, o: Object)
    requires |rules| == 11
    ensures CheckFields(rules, o).Ok? <==>
      (FieldError(rules[0], o).None? && FieldError(rules[1], o).None? && FieldError(rules[2], o).None?
       && FieldError(rules[3], o).None? && FieldError(rules[4], o).None? && FieldError(rules[5], o).None?
       && FieldError(rules[6], o).None? && FieldError(rules[7], o).None? && FieldError(rules[8], o).None?
       && FieldError(rules[9], o).None? && FieldError(rules[10], o).None?)
  {
    if && FieldError(rules[0], o).None? && FieldError(rules[1], o).None? && FieldError(rules[2], o).None?
       && FieldError(rules[3], o).None? && FieldError(rules[4], o).None? && FieldError(rules[5], o).None?
       && FieldError(rules[6], o).None? && FieldError(rules[7], o).None? && FieldError(rules[8], o).None?
       && FieldError(rules[9], o).None? && FieldError(rules[10], o).None?
    {
      forall i | 0 <= i < |rules|
        ensures FieldError(rules[i], o).None?
      {
        assert i < 11;
      }
    }
  }

  /** A field an accepted payload supplies keeps its value in the dump. */
  lemma AcceptedKept(rules: seq<FieldRule>, o: Object, i: nat)
    requires CheckFields(rules, o).Ok? && i < |rules| && rules[i].name in o
    ensures rules[i].name in CheckFields(rules, o).value
    ensures CheckFields(rules, o).value[rules[i].name] == o[rules[i].name]
  {
  }

  /** What each kind of plain field accepts. */
  lemma RequiredStrError(n: string, lo: nat, hi: nat, o: Object)
    ensures FieldError(Required(n, Str(lo, Some(hi))), o).None? <==> StrWithin(o, n, lo, hi)
  {
  }

  lemma OptionalStrError(n: string, lo: nat, hi: nat, o: Object)
    ensures FieldError(Optional(n, Str(lo, Some(hi))), o).None? <==> OptStrWithin(o, n, lo, hi)
  {
  }

  lemma RequiredTextError(n: string, o: Object)
    ensures FieldError(Required(n, Str(0, None)), o).None? <==> TextGiven(o, n)
  {
  }

  lemma OptionalTextError(n: string, o: Object)
    ensures FieldError(Optional(n, Str(0, None)), o).None? <==> OptText(o, n)
  {
  }

  /** A field with a default that may not be `None`: it passes unless the
      payload sends `None`. */
  lemma DefaultedTypedError(n: string, d: Value, o: Object)
    ensures FieldError(FieldRule(n, Typed, Some(d), false, NoCheck), o).None? <==> !(n in o && o[n].Null?)
  {
  }

  lemma RequiredRangeError(n: string, lo: int, hi: int, o: Object)
    ensures FieldError(Required(n, Range(lo, hi)), o).None? <==> n in o && o[n].Int? && lo <= o[n].i <= hi
  {
  }

  lemma OptionalRangeError(n: string, lo: int, hi: int, o: Object)
    ensures FieldError(Optional(n, Range(lo, hi)), o).None? <==>
      n !in o || o[n].Null? || (o[n].Int? && lo <= o[n].i <= hi)
  {
  }

  lemma RequiredTypedError(n: string, o: Object)
    ensures FieldError(Required(n, Typed), o).None? <==> Given(o, n)
  {
  }

  lemma OptionalTypedError(n: string, o: Object)
    ensures FieldError(Optional(n, Typed), o).None?
  {
  }

  /** An accepted payload keeps only declared fields. */
  lemma AcceptedKeys(rules: seq<FieldRule>, o: Object)
    requires CheckFields(rules, o).Ok?
    ensures CheckFields(rules, o).value.Keys <= Names(rules)
  {
  }

  /** A field no rule declares is dropped. */
  lemma AcceptedDrops(rules: seq<FieldRule>, o: Object, n: string)
    requires CheckFields(rules, o).Ok?
    requires forall i :: 0 <= i < |rules| ==> rules[i].name != n
    ensures n !in CheckFields(rules, o).value
  {
  }

  /** A required, bounded string field of an accepted payload is present and
      within its bounds. */
  lemma AcceptedRequiredStr(rules: seq<FieldRule>, o: Object, i: nat)
    requires CheckFields(rules, o).Ok? && i < |rules|
    requires rules[i].bound.Str? && rules[i].bound.maxLen.Some? && rules[i].default.None? && !rules[i].nullable
    ensures StrWithin(o, rules[i].name, rules[i].bound.minLen, rules[i].bound.maxLen.value)
    ensures StrWithin(CheckFields(rules, o).value, rules[i].name, rules[i].bound.minLen, rules[i].bound.maxLen.value)
  {
    assert FieldError(rules[i], o).None?;
  }

  /** An optional, bounded string field of an accepted payload is absent,
      `None`, or within its bounds. */
  lemma AcceptedOptionalStr(rules: seq<FieldRule>, o: Object, i: nat)
    requires CheckFields(rules, o).Ok? && i < |rules|
    requires rules[i].bound.Str? && rules[i].bound.maxLen.Some?
    ensures OptStrWithin(o, rules[i].name, rules[i].bound.minLen, rules[i].bound.maxLen.value)
    ensures OptStrWithin(CheckFields(rules, o).value, rules[i].name, rules[i].bound.minLen, rules[i].bound.maxLen.value)
  {
    assert FieldError(rules[i], o).None?;
  }

  /** `model_dump()` of the validated model: every declared field, with the
      default for the ones the payload left out. */
  function FullDump(rules: seq<FieldRule>, o: Object): (d: Object)
    ensures forall k :: k in d <==> k in Names(rules) && (k in o || exists i :: 0 <= i < |rules| && rules[i].name == k && rules[i].default.Some?)
    ensures forall k :: k in d && k in o ==> d[k] == o[k]
  {
    if |rules| == 0 then map[]
    else
      var r := rules[0];
      var rest := FullDump(rules[1..], o);
      assert forall i :: 1 <= i < |rules| ==> rules[i] == rules[1..][i - 1];
      assert Names(rules) == {r.name} + Names(rules[1..]);
      if r.name in o then rest[r.name := o[r.name]]
      else if r.default.Some? then rest[r.name := r.default.value]
      else rest
  }

  /** A field the payload leaves out takes the default of the first rule
      declaring it. */
  lemma {:induction false} FullDumpDefault(rules: seq<FieldRule>, o: Object, i: nat)
    requires i < |rules| && rules[i].name !in o && rules[i].default.Some?
    requires forall j :: 0 <= j < i ==> rules[j].name != rules[i].name
    ensures rules[i].name in FullDump(rules, o) && FullDump(rules, o)[rules[i].name] == rules[i].default.value
  {
    if i > 0 {
      var tail := rules[1..];
      assert tail[i - 1] == rules[i];
      forall j | 0 <= j < i - 1
        ensures tail[j].name != tail[i - 1].name
      {
        assert tail[j] == rules[j + 1];
      }
      FullDumpDefault(tail, o, i - 1);
      DumpHeadOther(rules, o, rules[i].name);
    } else {
      DumpHeadDefault(rules, o);
    }
  }

  /** The first rule's default is dumped when the payload lacks its field. */
  lemma DumpHeadDefault(rules: seq<FieldRule>, o: Object)
    requires |rules| > 0 && rules[0].name !in o && rules[0].default.Some?
    ensures rules[0].name in FullDump(rules, o) && FullDump(rules, o)[rules[0].name] == rules[0].default.value
  {
  }

  /** The first rule does not touch the entries of other fields. */
  lemma DumpHeadOther(rules: seq<FieldRule>, o: Object, k: string)
    requires |rules| > 0 && k != rules[0].name
    ensures k in FullDump(rules, o) <==> k in FullDump(rules[1..], o)
    ensures k in FullDump(rules[1..], o) ==> FullDump(rules, o)[k] == FullDump(rules[1..], o)[k]
  {
    var r := rules[0];
    var rest := FullDump(rules[1..], o);
    if r.name in o {
      assert FullDump(rules, o) == rest[r.name := o[r.name]];
    } else if r.default.Some? {
      assert FullDump(rules, o) == rest[r.name := r.default.value];
    } else {
      assert FullDump(rules, o) == rest;
    }
  }
}

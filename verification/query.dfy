/** The list-query mini-language of the CRUD layer.

    A `filter` query parameter such as `status=open,deleted=false,location` and
    a `sort` parameter such as `name,date=desc` are parsed into ordered maps
    (Python dicts); the maps are then checked against the attributes of the
    entity and turned into `WHERE` predicates and `ORDER BY` terms. */
module Query {
  import opened Wrappers
  import opened Ascii
  import OM = OrderedMap

  /** A filter value: a string, or a boolean coerced from "true"/"false". */
  datatype FilterValue = Text(text: string) | Flag(flag: bool)

  /** The value a bare `field` clause is stored with. */
  const Sentinel: string := "item exist"

  /** The exception a tuple unpack raises for `a=b=c`. */
  const UnpackError: Error := Crash("ValueError: too many values to unpack (expected 2)")

  /** The field named by one clause: the text before its first '=' (the
      whole clause when there is none). */
  function FieldOf(item: string): string {
    Split(item, '=')[0]
  }

  /** The value text of a `field=value` clause. */
  function ValueOf(item: string): string {
    var pieces := Split(item, '=');
    if |pieces| >= 2 then pieces[1] else ""
  }

  // ---------------------------------------------------------------------------
  // Filters

  /** The fields named by the clauses of `query`, in clause order. */
  function Fields(query: string): (fs: seq<string>)
    ensures |fs| == |Split(query, ',')|
    ensures forall i :: 0 <= i < |fs| ==> fs[i] == FieldOf(Split(query, ',')[i])
  {
    var items := Split(query, ',');
    seq(|items|, i requires 0 <= i < |items| => FieldOf(items[i]))
  }

  /** No clause of `query` holds two or more '='. */
  predicate WellFormed(query: string) {
    var items := Split(query, ',');
    forall i :: 0 <= i < |items| ==> Occurrences(items[i], '=') <= 1
  }

  /** Boolean coercion of a filter value. */
  function Coerce(value: string): (r: FilterValue)
    ensures r.Flag? <==> Lower(value) == "true" || Lower(value) == "false"
    ensures r.Flag? ==> (r.flag <==> Lower(value) == "true")
    ensures r.Text? ==> r.text == value
  {
    var l := Lower(value);
    if l == "true" || l == "false" then Flag(l == "true") else Text(value)
  }

  /** One clause of a filter string. */
  function FilterClause(item: string): (r: Result<(string, FilterValue)>)
    ensures r.Ok? <==> Occurrences(item, '=') <= 1
    ensures r.Ok? ==> r.value.0 == FieldOf(item)
    ensures r.Ok? && '=' !in item ==> r.value.1 == Text(Sentinel)
    ensures r.Ok? && '=' in item ==>
      item == r.value.0 + "=" + ValueOf(item) && r.value.1 == Coerce(ValueOf(item))
    ensures r.Err? ==> r.error == UnpackError
  {
    var pieces := Split(item, '=');
    SplitLength(item, '=');
    JoinSplit(item, '=');
    if '=' !in item then
      SplitNoSeparator(item, '=');
      Ok((item, Text(Sentinel)))
    else if |pieces| != 2 then Err(UnpackError)
    else Ok((pieces[0], Coerce(pieces[1])))
  }

  /** Parses every clause; the first clause that fails aborts the parse. */
  function FilterClauses(items: seq<string>): (r: Result<seq<(string, FilterValue)>>)
    ensures r.Ok? <==> forall i :: 0 <= i < |items| ==> FilterClause(items[i]).Ok?
    ensures r.Ok? ==> |r.value| == |items|
    ensures r.Ok? ==> forall i :: 0 <= i < |items| ==> Ok(r.value[i]) == FilterClause(items[i])
    ensures r.Err? ==> r.error == UnpackError
  {
    if |items| == 0 then Ok([])
    else
      var head :- FilterClause(items[0]);
      var tail :- FilterClauses(items[1..]);
      assert forall i :: 1 <= i < |items| ==> items[i] == items[1..][i - 1];
      Ok([head] + tail)
  }

  /** `parse_filter_param`: the clauses between commas, written into a dict in order. */
  function ParseFilter(query: string): (r: Result<seq<(string, FilterValue)>>)
    ensures r.Ok? <==> WellFormed(query)
    ensures r.Ok? ==> OM.Valid(r.value)
    ensures r.Err? ==> r.error == UnpackError
  {
    var items := Split(query, ',');
    var pairs := FilterClauses(items);
    if pairs.Err? then
      var i :| 0 <= i < |items| && !FilterClause(items[i]).Ok?;
      assert Occurrences(items[i], '=') > 1;
      Err(pairs.error)
    else
      assert forall i :: 0 <= i < |items| ==> FilterClause(items[i]).Ok?;
      Ok(OM.FromPairs(pairs.value))
  }

  /** The parsed filter is the dict built from the clause entries, which are
      keyed by the clause fields. */
  lemma FilterParsed(query: string)
    requires ParseFilter(query).Ok?
    ensures FilterClauses(Split(query, ',')).Ok?
    ensures ParseFilter(query).value == OM.FromPairs(FilterClauses(Split(query, ',')).value)
    ensures OM.Keys(FilterClauses(Split(query, ',')).value) == Fields(query)
  {
    var items := Split(query, ',');
    var ps := FilterClauses(items).value;
    forall i | 0 <= i < |items|
      ensures OM.Keys(ps)[i] == Fields(query)[i]
    {
      assert Ok(ps[i]) == FilterClause(items[i]);
    }
  }

  /** The parsed filter has one key per distinct clause field. */
  lemma ParseFilterKeys(query: string, field: string)
    requires ParseFilter(query).Ok?
    ensures field in OM.Keys(ParseFilter(query).value) <==> field in Fields(query)
  {
    FilterParsed(query);
    OM.FromPairsKeys(FilterClauses(Split(query, ',')).value, field);
  }

  /** A repeated field takes the value of its last clause. */
  lemma ParseFilterLastWins(query: string, i: nat)
    requires ParseFilter(query).Ok?
    requires i < |Split(query, ',')|
    requires forall j :: i < j < |Split(query, ',')| ==> Fields(query)[j] != Fields(query)[i]
    ensures OM.Get(ParseFilter(query).value, Fields(query)[i])
         == Some(FilterClause(Split(query, ',')[i]).value.1)
  {
    var items := Split(query, ',');
    var ps := FilterClauses(items).value;
    FilterParsed(query);
    assert Ok(ps[i]) == FilterClause(items[i]);
    assert ps[i].0 == Fields(query)[i] by { assert OM.Keys(ps)[i] == ps[i].0; }
    forall j | i < j < |ps|
      ensures ps[j].0 != ps[i].0
    {
      assert OM.Keys(ps)[j] == ps[j].0;
    }
    OM.LastWriteWins(ps, i);
  }

  /** An element that does not occur before position `j` is first found at `j`. */
  lemma FirstOccurrence(xs: seq<string>, j: nat)
    requires j < |xs|
    requires forall k :: 0 <= k < j ==> xs[k] != xs[j]
    ensures OM.IndexOf(xs, xs[j]) == j
  {
  }

  /** Fields are keyed in the order of their first clause: a field whose
      first clause is `j` comes after the field of any earlier clause `i`. */
  lemma ParseFilterFirstPosition(query: string, i: nat, j: nat)
    requires ParseFilter(query).Ok?
    requires i < j < |Split(query, ',')|
    requires forall k :: 0 <= k < j ==> Fields(query)[k] != Fields(query)[j]
    ensures Fields(query)[i] in OM.Keys(ParseFilter(query).value)
    ensures Fields(query)[j] in OM.Keys(ParseFilter(query).value)
    ensures OM.IndexOf(OM.Keys(ParseFilter(query).value), Fields(query)[i])
          < OM.IndexOf(OM.Keys(ParseFilter(query).value), Fields(query)[j])
  {
    var ps := FilterClauses(Split(query, ',')).value;
    var ks := Fields(query);
    FilterParsed(query);
    var a := ks[i];
    var b := ks[j];
    FirstOccurrence(ks, j);
    assert OM.IndexOf(ks, a) <= i;
    OM.FirstWriteOrder(ps, a, b);
  }

  /** A literal `field=item exist` clause parses exactly like the bare `field`. */
  lemma SentinelLiteral(field: string)
    requires '=' !in field
    ensures FilterClause(field + "=" + Sentinel) == FilterClause(field) == Ok((field, Text(Sentinel)))
  {
    var item := field + "=" + Sentinel;
    assert '=' !in Sentinel by {
      forall k | 0 <= k < |Sentinel| ensures Sentinel[k] != '=' { }
    }
    SplitAt(field, Sentinel, '=');
    SplitNoSeparator(Sentinel, '=');
    SplitNoSeparator(field, '=');
    assert Split(item, '=') == [field, Sentinel];
    assert |Lower(Sentinel)| == 10;
    assert Coerce(Sentinel) == Text(Sentinel);
    SplitLength(item, '=');
  }

  /** An empty clause (from ",," or a trailing comma) is a bare, empty field. */
  lemma EmptyClauseIsBare()
    ensures FilterClause("") == Ok(("", Text(Sentinel)))
  {
  }

  // ---------------------------------------------------------------------------
  // Sorting

  /** The direction a bare sort field gets. */
  const DefaultDirection: string := "asc"

  /** One clause of a sort string. */
  function SortClause(item: string): (r: Result<(string, string)>)
    ensures r.Ok? <==> Occurrences(item, '=') <= 1
    ensures r.Ok? ==> r.value.0 == FieldOf(item)
    ensures r.Ok? && '=' !in item ==> r.value.1 == DefaultDirection
    ensures r.Ok? && '=' in item ==> item == r.value.0 + "=" + r.value.1
    ensures r.Err? ==> r.error == UnpackError
  {
    var pieces := Split(item, '=');
    SplitLength(item, '=');
    JoinSplit(item, '=');
    if '=' !in item then
      SplitNoSeparator(item, '=');
      Ok((item, DefaultDirection))
    else if |pieces| != 2 then Err(UnpackError)
    else Ok((pieces[0], pieces[1]))
  }

  function SortClauses(items: seq<string>): (r: Result<seq<(string, string)>>)
    ensures r.Ok? <==> forall i :: 0 <= i < |items| ==> SortClause(items[i]).Ok?
    ensures r.Ok? ==> |r.value| == |items|
    ensures r.Ok? ==> forall i :: 0 <= i < |items| ==> Ok(r.value[i]) == SortClause(items[i])
    ensures r.Err? ==> r.error == UnpackError
  {
    if |items| == 0 then Ok([])
    else
      var head :- SortClause(items[0]);
      var tail :- SortClauses(items[1..]);
      assert forall i :: 1 <= i < |items| ==> items[i] == items[1..][i - 1];
      Ok([head] + tail)
  }

  /** `parse_sort_param`. */
  function ParseSort(query: string): (r: Result<seq<(string, string)>>)
    ensures r.Ok? <==> WellFormed(query)
    ensures r.Ok? ==> OM.Valid(r.value)
    ensures r.Err? ==> r.error == UnpackError
  {
    var items := Split(query, ',');
    var pairs := SortClauses(items);
    if pairs.Err? then
      var i :| 0 <= i < |items| && !SortClause(items[i]).Ok?;
      assert Occurrences(items[i], '=') > 1;
      Err(pairs.error)
    else
      assert forall i :: 0 <= i < |items| ==> SortClause(items[i]).Ok?;
      Ok(OM.FromPairs(pairs.value))
  }

  /** The parsed sort is the dict built from the clause entries, which are
      keyed by the clause fields. */
  lemma SortParsed(query: string)
    requires ParseSort(query).Ok?
    ensures SortClauses(Split(query, ',')).Ok?
    ensures ParseSort(query).value == OM.FromPairs(SortClauses(Split(query, ',')).value)
    ensures OM.Keys(SortClauses(Split(query, ',')).value) == Fields(query)
  {
    var items := Split(query, ',');
    var ps := SortClauses(items).value;
    forall i | 0 <= i < |items|
      ensures OM.Keys(ps)[i] == Fields(query)[i]
    {
      assert Ok(ps[i]) == SortClause(items[i]);
    }
  }

  /** A sort field's direction is that of its last clause, stored unmodified,
      or "asc" when that clause has no '='. */
  lemma ParseSortLastWins(query: string, i: nat)
    requires ParseSort(query).Ok?
    requires i < |Split(query, ',')|
    requires forall j :: i < j < |Split(query, ',')| ==> Fields(query)[j] != Fields(query)[i]
    ensures var item := Split(query, ',')[i];
      OM.Get(ParseSort(query).value, Fields(query)[i])
        == Some(if '=' in item then ValueOf(item) else DefaultDirection)
  {
    var items := Split(query, ',');
    var ps := SortClauses(items).value;
    SortParsed(query);
    assert Ok(ps[i]) == SortClause(items[i]);
    assert ps[i].0 == Fields(query)[i] by { assert OM.Keys(ps)[i] == ps[i].0; }
    forall j | i < j < |ps|
      ensures ps[j].0 != ps[i].0
    {
      assert OM.Keys(ps)[j] == ps[j].0;
    }
    var item := items[i];
    if '=' in item {
      SplitLength(item, '=');
      assert |Split(item, '=')| == 2;
    }
    OM.LastWriteWins(ps, i);
  }

  // ---------------------------------------------------------------------------
  // Applying filters and sorting

  /** A `WHERE` term. */
  datatype Predicate = IsNotNull(field: string) | Equals(field: string, value: FilterValue)

  /** An `ORDER BY` term. */
  datatype Ordering = Asc(field: string) | Desc(field: string)

  /** Index of the first key that is not an attribute. */
  function FirstUnknown<V>(m: seq<(string, V)>, attrs: set<string>): (n: nat)
    requires exists i :: 0 <= i < |m| && m[i].0 !in attrs
    ensures n < |m| && m[n].0 !in attrs
    ensures forall j :: 0 <= j < n ==> m[j].0 in attrs
  {
    if m[0].0 !in attrs then 0
    else
      assert exists i :: 0 <= i < |m[1..]| && m[1..][i].0 !in attrs by {
        var i :| 0 <= i < |m| && m[i].0 !in attrs;
        assert m[1..][i - 1] == m[i];
      }
      1 + FirstUnknown(m[1..], attrs)
  }

  /** The 400 raised for an unknown field. */
  function InvalidField(kind: string, field: string): Error {
    Http(400, "Invalid " + kind + " field: " + field)
  }

  /** The `WHERE` term of one filter entry. */
  function ToPredicate(e: (string, FilterValue)): Predicate {
    if e.1 == Text(Sentinel) then IsNotNull(e.0) else Equals(e.0, e.1)
  }

  /** `apply_filters`: one predicate per entry in map order, or a 400 naming
      the first entry whose field is not an attribute. */
  function ApplyFilters(attrs: set<string>, filters: seq<(string, FilterValue)>): (r: Result<seq<Predicate>>)
    ensures r.Ok? <==> forall i :: 0 <= i < |filters| ==> filters[i].0 in attrs
    ensures r.Ok? ==> |r.value| == |filters|
    ensures r.Ok? ==> forall i :: 0 <= i < |filters| ==>
      r.value[i].field == filters[i].0
      && (r.value[i].IsNotNull? <==> filters[i].1 == Text(Sentinel))
      && (r.value[i].Equals? ==> r.value[i].value == filters[i].1)
    ensures r.Err? ==> r.error == InvalidField("filter", filters[FirstUnknown(filters, attrs)].0)
  {
    if |filters| == 0 then Ok([])
    else if filters[0].0 !in attrs then Err(InvalidField("filter", filters[0].0))
    else
      var rest := ApplyFilters(attrs, filters[1..]);
      assert forall i :: 1 <= i < |filters| ==> filters[i] == filters[1..][i - 1];
      if rest.Err? then Err(rest.error)
      else Ok([ToPredicate(filters[0])] + rest.value)
  }

  function ToOrdering(e: (string, string)): Ordering {
    if Lower(e.1) == "desc" then Desc(e.0) else Asc(e.0)
  }

  /** `apply_sorting`: one ordering per entry in map order, descending exactly
      when the direction lower-cases to "desc", or a 400 naming the first
      entry whose field is not an attribute. */
  function ApplySorting(attrs: set<string>, sort: seq<(string, string)>): (r: Result<seq<Ordering>>)
    ensures r.Ok? <==> forall i :: 0 <= i < |sort| ==> sort[i].0 in attrs
    ensures r.Ok? ==> |r.value| == |sort|
    ensures r.Ok? ==> forall i :: 0 <= i < |sort| ==>
      r.value[i].field == sort[i].0 && (r.value[i].Desc? <==> Lower(sort[i].1) == "desc")
    ensures r.Err? ==> r.error == InvalidField("sort", sort[FirstUnknown(sort, attrs)].0)
  {
    if |sort| == 0 then Ok([])
    else if sort[0].0 !in attrs then Err(InvalidField("sort", sort[0].0))
    else
      var rest := ApplySorting(attrs, sort[1..]);
      assert forall i :: 1 <= i < |sort| ==> sort[i] == sort[1..][i - 1];
      if rest.Err? then Err(rest.error)
      else Ok([ToOrdering(sort[0])] + rest.value)
  }
}

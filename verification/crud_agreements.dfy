/** api/crud/agreements.py on the store: agreements and companies follow the
    common soft-delete pattern, with two differences between them (how the
    list treats a zero offset or limit, and how a name is matched), and an
    agreement holds an ordered list of teams. */
module AgreementsCrud {
  import opened Wrappers
  import opened Store
  import Query

  /** `list_agreements`: offset and limit apply only when non-zero. */
  function ListAgreements(t: Table, attrs: set<string>, skip: Option<int>, limit: Option<int>,
                          sort: seq<(string, string)>, filter: seq<(string, Query.FilterValue)>): (r: Result<seq<nat>>)
    ensures limit == Some(0) ==> r == List(t, attrs, skip, None, sort, filter, WhenTruthy)
    ensures skip == Some(0) ==> r == List(t, attrs, None, limit, sort, filter, WhenTruthy)
  {
    List(t, attrs, skip, limit, sort, filter, WhenTruthy)
  }

  /** `list_companies`: offset and limit apply whenever given. */
  function ListCompanies(t: Table, attrs: set<string>, skip: Option<int>, limit: Option<int>,
                         sort: seq<(string, string)>, filter: seq<(string, Query.FilterValue)>): (r: Result<seq<nat>>)
    ensures r.Ok? && limit == Some(0) ==> r.value == []
  {
    List(t, attrs, skip, limit, sort, filter, WhenGiven)
  }

  /** A limit of zero lists every agreement but no company. */
  lemma ZeroLimitModes(agreements: Table, companies: Table, attrs: set<string>,
                       sort: seq<(string, string)>, filter: seq<(string, Query.FilterValue)>)
    requires Query.ApplyFilters(attrs, filter).Ok? && Query.ApplySorting(attrs, sort).Ok?
    ensures ListAgreements(agreements, attrs, None, Some(0), sort, filter) == Ok(Matching(agreements, Query.ApplyFilters(attrs, filter).value))
    ensures ListCompanies(companies, attrs, None, Some(0), sort, filter) == Ok([])
  {
    var preds := Query.ApplyFilters(attrs, filter).value;
    ZeroLimit(Matching(agreements, preds), None);
    ZeroLimit(Matching(companies, preds), None);
  }

  /** `get_agreement_by_name` matches without regard to case,
      `get_company_by_name` exactly. */
  lemma NameLookups(agreements: Table, companies: Table, name: string)
    ensures FindFolded(agreements, "name", name) == FindByName(agreements, "name", Ascii.Lower(name), true)
    ensures FindByName(companies, "name", name, false).Some? ==>
      Json.Get(companies.rows[FindByName(companies, "name", name, false).value].fields, "name") == Json.Text(name)
  {
  }

  // ---------------------------------------------------------------------------
  // Teams of an agreement

  /** The teams of each agreement, by agreement id, in the order they were
      added. */
  type Teams = map<nat, seq<nat>>

  function TeamsOf(links: Teams, aid: nat): seq<nat> {
    if aid in links then links[aid] else []
  }

  /** `[team for team in teams if team.id != team_id]`. */
  function Without(xs: seq<nat>, tid: int): (r: seq<nat>)
    ensures forall x :: x in r <==> x in xs && x != tid
    ensures |r| <= |xs|
  {
    if |xs| == 0 then []
    else
      var rest := Without(xs[1..], tid);
      assert forall x :: x in xs[1..] ==> x in xs;
      if xs[0] == tid then rest else [xs[0]] + rest
  }

  /** Removal keeps the relative order: it distributes over concatenation. */
  lemma {:induction false} WithoutConcat(a: seq<nat>, b: seq<nat>, tid: int)
    ensures Without(a + b, tid) == Without(a, tid) + Without(b, tid)
  {
    if |a| > 0 {
      WithoutConcat(a[1..], b, tid);
      assert (a + b)[1..] == a[1..] + b;
    } else {
      assert a + b == b;
    }
  }

  /** Removing a team that is not there changes nothing. */
  lemma {:induction false} WithoutAbsent(xs: seq<nat>, tid: int)
    requires tid !in xs
    ensures Without(xs, tid) == xs
  {
    if |xs| > 0 {
      assert xs[0] != tid;
      assert tid !in xs[1..];
      WithoutAbsent(xs[1..], tid);
    }
  }

  /** `add_team_to_agreement`: a new team goes at the end of the agreement's
      teams. A team that is already there is not inserted again: the
      collection's history holds no addition for it, and the refreshed list
      is the stored one. An unknown agreement, or appending an unknown team,
      fails. */
  function AddTeam(agreements: Table, teams: Table, links: Teams, aid: int, tid: int): (r: Result<Teams>)
    ensures r.Ok? <==> Find(agreements, aid).Some? && Find(teams, tid).Some?
    ensures r.Err? ==> r.error.Crash?
    ensures r.Ok? ==> tid in TeamsOf(r.value, aid)
    ensures r.Ok? && tid !in TeamsOf(links, aid) ==> TeamsOf(r.value, aid) == TeamsOf(links, aid) + [tid]
    ensures r.Ok? && tid in TeamsOf(links, aid) ==> r.value == links
    ensures r.Ok? ==> forall other :: other != aid ==> TeamsOf(r.value, other) == TeamsOf(links, other)
  {
    if Find(agreements, aid).None? then Err(Crash("AttributeError: 'NoneType' object has no attribute 'teams'"))
    else if Find(teams, tid).None? then Err(Crash("a relationship list cannot hold None"))
    else if tid in TeamsOf(links, aid) then Ok(links)
    else Ok(links[aid := TeamsOf(links, aid) + [tid]])
  }

  /** Whether no team is listed twice for any agreement, as the pivot's
      unique constraint on (agreement, team) guarantees. */
  predicate Distinct(links: Teams) {
    forall aid, i, j :: aid in links && 0 <= i < j < |links[aid]| ==> links[aid][i] != links[aid][j]
  }

  /** Adding keeps every team listed at most once, and a second add of the
      same team changes nothing. */
  lemma AddTeamDistinct(agreements: Table, teams: Table, links: Teams, aid: int, tid: int)
    requires Distinct(links)
    requires AddTeam(agreements, teams, links, aid, tid).Ok?
    ensures Distinct(AddTeam(agreements, teams, links, aid, tid).value)
    ensures var added := AddTeam(agreements, teams, links, aid, tid).value;
      AddTeam(agreements, teams, added, aid, tid) == Ok(added)
  {
    var added := AddTeam(agreements, teams, links, aid, tid).value;
    if tid !in TeamsOf(links, aid) {
      var xs := TeamsOf(links, aid);
      assert added[aid] == xs + [tid];
      forall a, i, j | a in added && 0 <= i < j < |added[a]|
        ensures added[a][i] != added[a][j]
      {
        if a == aid && j == |xs| {
          assert added[a][i] == xs[i];
        }
      }
    }
  }

  /** `remove_team_from_agreement`: every entry for the team goes, the
      others keep their order. An unknown agreement fails. */
  function RemoveTeam(agreements: Table, links: Teams, aid: int, tid: int): (r: Result<Teams>)
    ensures r.Ok? <==> Find(agreements, aid).Some?
    ensures r.Err? ==> r.error.Crash?
    ensures r.Ok? ==> tid !in TeamsOf(r.value, aid)
    ensures r.Ok? ==> forall x :: x in TeamsOf(r.value, aid) <==> x in TeamsOf(links, aid) && x != tid
    ensures r.Ok? && tid !in TeamsOf(links, aid) ==> TeamsOf(r.value, aid) == TeamsOf(links, aid)
    ensures r.Ok? ==> forall other :: other != aid ==> TeamsOf(r.value, other) == TeamsOf(links, other)
  {
    if Find(agreements, aid).None? then Err(Crash("AttributeError: 'NoneType' object has no attribute 'teams'"))
    else
      if tid !in TeamsOf(links, aid) then
        WithoutAbsent(TeamsOf(links, aid), tid);
        Ok(links[aid := Without(TeamsOf(links, aid), tid)])
      else Ok(links[aid := Without(TeamsOf(links, aid), tid)])
  }

  /** Adding a team that was not there and removing it again restores the
      agreement's teams. */
  lemma AddThenRemove(agreements: Table, teams: Table, links: Teams, aid: nat, tid: nat)
    requires Find(agreements, aid).Some? && Find(teams, tid).Some?
    requires tid !in TeamsOf(links, aid)
    ensures var added := AddTeam(agreements, teams, links, aid, tid).value;
      TeamsOf(RemoveTeam(agreements, added, aid, tid).value, aid) == TeamsOf(links, aid)
  {
    var xs := TeamsOf(links, aid);
    WithoutConcat(xs, [tid], tid);
    WithoutAbsent(xs, tid);
    assert Without([tid], tid) == [];
  }
}

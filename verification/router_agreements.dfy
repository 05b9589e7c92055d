/** api/routers/agreements.py: the agreement and company lists, and the
    endpoints that add a team to an agreement and take it off again. */
module AgreementsRouter {
  import opened Wrappers
  import opened Store
  import opened Pagination
  import Listing
  import AgreementsCrud

  /** `list_agreements`: the crud list applies offset and limit only when
      non-zero, so a zero limit lists every selected agreement on one page. */
  function ListAgreements(t: Table, attrs: set<string>, skip: int, limit: int,
                          sort: Option<string>, filter: Option<string>): (r: Result<Page<nat>>)
    ensures r.Ok? <==> Listing.Valid(attrs, sort, filter) && skip >= 0 && limit >= 0
    ensures r.Ok? ==> r.value.pagination.totalRecords == |Listing.Selection(t, attrs, filter)|
    ensures r.Ok? && limit == 0 && skip == 0 ==>
      r.value.data == Listing.Selection(t, attrs, filter) && r.value.pagination.totalPages == 1
  {
    var r := Listing.Envelope(t, attrs, skip, limit, sort, filter, WhenTruthy);
    if r.Ok? && limit == 0 && skip == 0 then
      var all := Listing.Selection(t, attrs, filter);
      assert r.value.data == all;
      r
    else r
  }

  /** `list_companies`: offset and limit apply whenever given, so a zero
      limit is an empty page. */
  function ListCompanies(t: Table, attrs: set<string>, skip: int, limit: int,
                         sort: Option<string>, filter: Option<string>): (r: Result<Page<nat>>)
    ensures r.Ok? <==> Listing.Valid(attrs, sort, filter) && skip >= 0 && limit >= 0
    ensures r.Ok? ==> r.value.pagination.totalRecords == |Listing.Selection(t, attrs, filter)|
    ensures r.Ok? ==> |r.value.data| <= limit
  {
    Listing.Envelope(t, attrs, skip, limit, sort, filter, WhenGiven)
  }

  /** With a zero limit the two lists disagree as soon as anything is
      selected: agreements are all listed, companies not at all. */
  lemma ZeroLimitLists(agreements: Table, companies: Table, attrs: set<string>, filter: Option<string>)
    requires ListAgreements(agreements, attrs, 0, 0, None, filter).Ok?
    ensures ListCompanies(companies, attrs, 0, 0, None, filter).Ok?
    ensures |ListAgreements(agreements, attrs, 0, 0, None, filter).value.data| == |Listing.Selection(agreements, attrs, filter)|
    ensures ListCompanies(companies, attrs, 0, 0, None, filter).value.data == []
  {
  }

  const AgreementNotFound: Error := Http(404, "Agreement not found!")
  const TeamNotFound: Error := Http(404, "Team not found!")
  const TeamNotInAgreement: Error := Http(404, "Team not found in agreement!")

  /** `add_team_to_agreement`: a missing agreement is reported before a
      missing team; both active, a new team goes at the end of the
      agreement's teams, one already there is left where it is, and the
      agreement's teams are returned. */
  function AddTeam(agreements: Table, teams: Table, links: AgreementsCrud.Teams, aid: int, tid: int): (r: Result<(AgreementsCrud.Teams, seq<nat>)>)
    ensures GetActive(agreements, aid).None? ==> r == Err(AgreementNotFound)
    ensures GetActive(agreements, aid).Some? && GetActive(teams, tid).None? ==> r == Err(TeamNotFound)
    ensures r.Ok? <==> GetActive(agreements, aid).Some? && GetActive(teams, tid).Some?
    ensures r.Ok? ==>
      && r.value.1 == (if tid in AgreementsCrud.TeamsOf(links, aid) then AgreementsCrud.TeamsOf(links, aid)
                       else AgreementsCrud.TeamsOf(links, aid) + [tid])
      && AgreementsCrud.TeamsOf(r.value.0, aid) == r.value.1
      && forall other :: other != aid ==> AgreementsCrud.TeamsOf(r.value.0, other) == AgreementsCrud.TeamsOf(links, other)
  {
    if GetActive(agreements, aid).None? then Err(AgreementNotFound)
    else if GetActive(teams, tid).None? then Err(TeamNotFound)
    else
      var l := AgreementsCrud.AddTeam(agreements, teams, links, aid, tid).value;
      Ok((l, AgreementsCrud.TeamsOf(l, aid)))
  }

  /** `remove_team_from_agreement`: a missing agreement, then a missing team,
      then a team that is not among the agreement's teams, each 404; otherwise
      every entry for the team is taken off, and no other agreement's teams
      change. */
  function RemoveTeam(agreements: Table, teams: Table, links: AgreementsCrud.Teams, aid: int, tid: int): (r: Result<AgreementsCrud.Teams>)
    ensures GetActive(agreements, aid).None? ==> r == Err(AgreementNotFound)
    ensures GetActive(agreements, aid).Some? && GetActive(teams, tid).None? ==> r == Err(TeamNotFound)
    ensures r == Err(TeamNotInAgreement) <==>
      GetActive(agreements, aid).Some? && GetActive(teams, tid).Some? && tid !in AgreementsCrud.TeamsOf(links, aid)
    ensures r.Ok? <==> GetActive(agreements, aid).Some? && GetActive(teams, tid).Some? && tid in AgreementsCrud.TeamsOf(links, aid)
    ensures r.Ok? ==> |AgreementsCrud.TeamsOf(r.value, aid)| < |AgreementsCrud.TeamsOf(links, aid)|
    ensures r.Ok? ==> forall x :: x in AgreementsCrud.TeamsOf(r.value, aid) <==> x in AgreementsCrud.TeamsOf(links, aid) && x != tid
    ensures r.Ok? ==> forall other :: other != aid ==> AgreementsCrud.TeamsOf(r.value, other) == AgreementsCrud.TeamsOf(links, other)
  {
    if GetActive(agreements, aid).None? then Err(AgreementNotFound)
    else if GetActive(teams, tid).None? then Err(TeamNotFound)
    else if tid !in AgreementsCrud.TeamsOf(links, aid) then Err(TeamNotInAgreement)
    else
      var xs := AgreementsCrud.TeamsOf(links, aid);
      WithoutShrinks(xs, tid);
      AgreementsCrud.RemoveTeam(agreements, links, aid, tid)
  }

  /** Taking off a team that is there shortens the list. */
  lemma {:induction false} WithoutShrinks(xs: seq<nat>, tid: int)
    requires tid in xs
    ensures |AgreementsCrud.Without(xs, tid)| < |xs|
  {
    if xs[0] != tid {
      assert tid in xs[1..];
      WithoutShrinks(xs[1..], tid);
    } else {
      assert |AgreementsCrud.Without(xs[1..], tid)| <= |xs[1..]|;
    }
  }

  /** Once removed, the team cannot be removed a second time. */
  lemma RemoveTwice(agreements: Table, teams: Table, links: AgreementsCrud.Teams, aid: int, tid: int)
    requires RemoveTeam(agreements, teams, links, aid, tid).Ok?
    ensures RemoveTeam(agreements, teams, RemoveTeam(agreements, teams, links, aid, tid).value, aid, tid) == Err(TeamNotInAgreement)
  {
  }

  /** A team added through the endpoint can be removed through it again,
      which restores the agreement's teams when it was not there before. */
  lemma AddThenRemove(agreements: Table, teams: Table, links: AgreementsCrud.Teams, aid: int, tid: int)
    requires AddTeam(agreements, teams, links, aid, tid).Ok?
    requires tid !in AgreementsCrud.TeamsOf(links, aid)
    ensures var added := AddTeam(agreements, teams, links, aid, tid).value.0;
      && RemoveTeam(agreements, teams, added, aid, tid).Ok?
      && AgreementsCrud.TeamsOf(RemoveTeam(agreements, teams, added, aid, tid).value, aid) == AgreementsCrud.TeamsOf(links, aid)
  {
    assert aid >= 0 && tid >= 0;
    AgreementsCrud.AddThenRemove(agreements, teams, links, aid, tid);
  }
}

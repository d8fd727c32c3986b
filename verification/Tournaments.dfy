/** A match from its creation to the end, through the operations' contracts alone. */
module Tournaments {
  import opened Duels
  import opened Groups
  import opened TeamStages
  import opened Rosters
  import opened EliStages
  import opened Layouts
  import opened Matches
  import B = Brackets

  /** The list after the first `i` applications. */
  function Applied(eids: seq<int>, i: nat): (r: seq<int>)
    requires i <= |eids|
    ensures |r| == |eids|
  {
    eids[..i] + seq(|eids| - i, _ => 0)
  }

  lemma NextApplication(eids: seq<int>, i: nat)
    requires DistinctPlayers(eids) && i < |eids|
    ensures Stop(Applied(eids, i), eids[i]) == i && Accepted(Applied(eids, i), eids[i])
    ensures Applied(eids, i)[i := eids[i]] == Applied(eids, i + 1)
  {
    var r, k := Applied(eids, i), Stop(Applied(eids, i), eids[i]);
    assert r[i] == 0;
    assert forall j :: 0 <= j < i ==> r[j] == eids[j];
  }

  /** Creates a match, lets everybody apply and draws the groups. */
  method StartMatch(eids: seq<int>) returns (m: Match)
    requires |eids| <= MAX_MATCH_PLAYER && |eids| % 4 == 0 && DistinctPlayers(eids)
    ensures fresh(m) && fresh(m.players) && fresh(m.ePlayers)
    ensures m.TeamValid() && m.EliBlank() && m.maxPlayer == |eids| && m.status == STATUS_ROUND_END
    ensures FreshStage(m.teams) && m.teams == Draw(m.Roster()) && multiset(m.Roster()) == multiset(eids)
  {
    m := new Match();
    var ret := m.Create(|eids|, []);
    assert m.Roster() == Applied(eids, 0);
    for i := 0 to |eids|
      invariant m.Applying() && m.EliBlank() && m.status == STATUS_READY && m.maxPlayer == |eids|
      invariant fresh(m) && fresh(m.players) && fresh(m.ePlayers) && m.Roster() == Applied(eids, i)
    {
      NextApplication(eids, i);
      ret := m.Apply(eids[i]);
    }
    assert Applied(eids, |eids|) == eids;
    ret := m.TeamInit();
  }

  /** Sends any reports between players and hands over to the elimination stage. What came before it
      is a run of reports from the draw, so what is proved of such runs holds of the groups handed over. */
  method PlayTeamStage(m: Match, reports: seq<Report>) returns (ghost states: seq<seq<Team>>)
    requires m.TeamValid() && m.EliBlank() && m.maxPlayer >= 4 && m.status == STATUS_ROUND_END
    requires forall k :: 0 <= k < |reports| ==> TwoPlayers(reports[k].eid1, reports[k].eid2)
    modifies m, m.players, m.ePlayers
    ensures m.TeamValid() && ReportStates(states, reports)
    ensures states[0] == old(m.teams) && states[|reports|] == m.teams
    ensures StageComplete(m.teams) ==>
              (m.EliValid() <==> B.PowerOfTwo(m.maxPlayer / 2) && LateTeams(m.teams, |m.teams|) == 0)
    ensures m.EliValid() ==> multiset(m.bracket.leaves) == multiset(AllQualified(m.teams))
    ensures m.EliValid() ==> m.bracket == B.NewBracket(m.bracket.leaves)
  {
    states := [m.teams];
    for i := 0 to |reports|
      invariant m.TeamValid() && m.EliBlank() && m.maxPlayer >= 4 && m.status == STATUS_ROUND_END
      invariant ReportStates(states, reports[..i]) && states[0] == old(m.teams) && states[i] == m.teams
    {
      SendReport(m, reports[i]);
      MoreReports(states, reports, i, m.teams);
      states := states + [m.teams];
    }
    assert reports[..|reports|] == reports;
    var _ := m.EliInit();
  }

  method SendReport(m: Match, r: Report)
    requires m.TeamValid() && TwoPlayers(r.eid1, r.eid2)
    modifies m`teams, m.players
    ensures m.TeamValid() && m.teams == After(old(m.teams), r)
  {
    var _ := m.TeamResult(r.eid1, r.eid2, r.game.winner, r.game.upper);
    assert Report(r.eid1, r.eid2, Game(r.game.winner, r.game.upper)) == r;
  }

  lemma MoreReports(states: seq<seq<Team>>, reports: seq<Report>, i: nat, teams: seq<Team>)
    requires i < |reports| && ReportStates(states, reports[..i]) && SoundStage(states[i])
    requires TwoPlayers(reports[i].eid1, reports[i].eid2) && teams == After(states[i], reports[i])
    ensures ReportStates(states + [teams], reports[..i + 1])
  {
    var states', reports' := states + [teams], reports[..i + 1];
    forall k | 0 <= k < |reports'| ensures ReportAt(states', reports', k) {
      if k < i { assert ReportAt(states, reports[..i], k); }
    }
  }

  /** Sends any reports of the elimination stage, as far as they name two finalists. The accepted ones
      are a run of the bracket. */
  method PlayElimination(m: Match, reports: seq<B.EliReport>) returns (ghost accepted: seq<B.EliReport>)
    requires m.EliValid()
    modifies m`bracket, m.ePlayers
    ensures m.EliValid() && B.AcceptedRun(old(m.bracket), accepted, m.bracket)
  {
    accepted := [];
    ghost var states := [m.bracket];
    for i := 0 to |reports|
      invariant m.EliValid() && B.AcceptedStates(states, accepted)
      invariant states[0] == old(m.bracket) && states[|accepted|] == m.bracket
    {
      var r := reports[i];
      if r.eid1 > 0 && r.eid2 > 0 {
        var ret1, _ := m.EliNext(r.eid1);
        var ret2, _ := m.EliNext(r.eid2);
        if ret1 == 0 && ret2 == 0 {
          ghost var br := m.bracket;
          var _ := m.EliResult(r.eid1, r.eid2, r.game.winner, r.game.upper);
          if B.BracketVerdict(br, r.eid1, r.eid2, r.game).Accept? {
            MoreAccepted(states, accepted, r, m.bracket);
            states, accepted := states + [m.bracket], accepted + [r];
          }
        }
      }
    }
  }

  lemma MoreAccepted(states: seq<B.Bracket>, accepted: seq<B.EliReport>, r: B.EliReport, br: B.Bracket)
    requires B.AcceptedStates(states, accepted) && B.SoundBracket(states[|accepted|])
    requires r.eid1 in states[|accepted|].leaves && r.eid2 in states[|accepted|].leaves
    requires B.BracketVerdict(states[|accepted|], r.eid1, r.eid2, r.game).Accept?
    requires br == B.AfterEli(states[|accepted|], r)
    ensures B.AcceptedStates(states + [br], accepted + [r])
  {
    var states', accepted' := states + [br], accepted + [r];
    forall k | 0 <= k < |accepted'| ensures B.AcceptedAt(states', accepted', k) {
      if k < |accepted| { assert B.AcceptedAt(states, accepted, k); }
    }
  }

  /** The end of a tournament whose team stage was finished without two winners in a round 3: whatever
      reports come, once there is a champion the tournament was correct for everybody who was drawn. */
  method FinishTournament(m: Match, reports: seq<B.EliReport>, ghost states: seq<seq<Team>>, ghost before: seq<Report>)
    requires m.EliValid() && m.bracket == B.NewBracket(m.bracket.leaves)
    requires ReportStates(states, before) && FreshStage(states[0]) && NoPointError(states, before)
    requires StageComplete(states[|before|])
    requires multiset(m.bracket.leaves) == multiset(AllQualified(states[|before|]))
    modifies m`bracket, m.ePlayers
    ensures m.EliValid() && m.bracket.leaves == old(m.bracket.leaves)
    ensures B.Holder(m.bracket, 1) > 0 ==>
              forall e :: Enrolled(states[0], e) ==>
                CorrectTournament(states[0], states[|before|], m.bracket.leaves, m.bracket, e)
  {
    ghost var start := m.bracket;
    ghost var accepted := PlayElimination(m, reports);
    B.RunKeepsBracket(start, accepted, m.bracket);
    if B.Holder(m.bracket, 1) > 0 {
      forall e | Enrolled(states[0], e)
        ensures CorrectTournament(states[0], states[|before|], m.bracket.leaves, m.bracket, e)
      {
        TournamentOutcome(states, before, m.bracket.leaves, accepted, m.bracket, e);
      }
    }
  }
}

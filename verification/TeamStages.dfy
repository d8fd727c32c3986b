/** The team stage of a whole match: all groups, their layout in one flat list, and runs of reports. */
module TeamStages {
  import opened Duels
  import opened Rosters
  import opened Groups

  /** Where seat `k` of team `t` lies: round by round, team by team, four slots each. */
  function Pos(n: nat, t: nat, k: nat): nat
    requires k < SEATS
  {
    if k < 4 then 4 * t + k else if k < 8 then n + 4 * t + k - 4 else 2 * n + 4 * t + k - 8
  }

  /** The flat record list holds exactly the seats of these groups. */
  ghost predicate Rendered(s: seq<Record>, n: nat, teams: seq<Team>) {
    && n == 4 * |teams| && 3 * n <= |s|
    && forall t, k :: 0 <= t < |teams| && 0 <= k < SEATS ==> s[Pos(n, t, k)] == Seat(teams[t], t, k)
  }

  ghost predicate Disjoint(teams: seq<Team>) {
    forall t, u, e :: 0 <= t < |teams| && 0 <= u < |teams| && e in teams[t].roster && e in teams[u].roster ==> t == u
  }

  ghost predicate SoundStage(teams: seq<Team>) {
    Disjoint(teams) && forall t :: 0 <= t < |teams| ==> Sound(teams[t])
  }

  ghost predicate FairStage(teams: seq<Team>) {
    Disjoint(teams) && forall t :: 0 <= t < |teams| ==> FairTeam(teams[t])
  }

  ghost predicate StageComplete(teams: seq<Team>) {
    forall t {:trigger Complete(teams[t])} :: 0 <= t < |teams| ==> Complete(teams[t])
  }

  ghost predicate Enrolled(teams: seq<Team>, e: int) {
    exists t :: 0 <= t < |teams| && e in teams[t].roster
  }

  ghost function TeamOf(teams: seq<Team>, e: int): (t: nat)
    requires Enrolled(teams, e)
    ensures t < |teams| && e in teams[t].roster
  {
    var t :| 0 <= t < |teams| && e in teams[t].roster; t
  }

  datatype Report = Report(eid1: int, eid2: int, game: Game)

  datatype Verdict = Reject(code: int) | Accept(team: nat, pairing: nat, first: bool)

  /** Which reports the guards of the result function let through, and for which pairing. */
  ghost function TeamVerdict(teams: seq<Team>, e1: int, e2: int): (v: Verdict)
    requires SoundStage(teams) && e1 != e2
    ensures v.Accept? ==>
              && v.team < |teams| && v.pairing < PAIRINGS
              && var tm := teams[v.team];
              && e1 in tm.roster && e2 in tm.roster
              && (if v.first then e1 == SeatEid(tm, SeatA(v.pairing)) && e2 == SeatEid(tm, SeatB(v.pairing))
                  else e1 == SeatEid(tm, SeatB(v.pairing)) && e2 == SeatEid(tm, SeatA(v.pairing)))
              && Staffed(tm, v.pairing)
              && (v.pairing < 4 ==> !Decided(tm.duels[v.pairing]))
  {
    if !Enrolled(teams, e1) then Reject(-3)
    else if !Enrolled(teams, e2) then Reject(-13)
    else
      var t := TeamOf(teams, e1);
      var tm := teams[t];
      if t != TeamOf(teams, e2) then Reject(-6)
      else
        var c1, c2 := CurrentSeat(tm, e1), CurrentSeat(tm, e2);
        GuardsMeanPairing(tm, e1, e2);
        if SeatRound(c1) != SeatRound(c2) then Reject(-16)
        else if SeatTid(c1) != SeatTid(c2) then Reject(-26)
        else
          CurrentIsLatest(tm, e1);
          CurrentIsLatest(tm, e2);
          SameRoundAndTid(c1, c2);
          Accept(t, SeatPair(c1), c1 == SeatA(SeatPair(c1)))
  }

  ghost function After(teams: seq<Team>, r: Report): seq<Team>
    requires SoundStage(teams) && r.eid1 != r.eid2
  {
    match TeamVerdict(teams, r.eid1, r.eid2)
    case Reject(_) => teams
    case Accept(t, p, first) => teams[t := Step(teams[t], p, first, r.game)]
  }

  ghost function ReturnCode(teams: seq<Team>, r: Report): int
    requires SoundStage(teams) && r.eid1 != r.eid2
  {
    match TeamVerdict(teams, r.eid1, r.eid2)
    case Reject(code) => code
    case Accept(t, p, first) => if BothWin(PlayAs(teams[t].duels[p], first, r.game)) then -7 else 0
  }

  /** A report the organiser may send: opponents of one open pairing, with a game code that counts. */
  ghost predicate Legal(teams: seq<Team>, r: Report)
    requires SoundStage(teams)
  {
    && r.eid1 != r.eid2 && Counts(r.game)
    && var v := TeamVerdict(teams, r.eid1, r.eid2);
       v.Accept? && !Decided(teams[v.team].duels[v.pairing])
  }

  lemma TeamOfIs(teams: seq<Team>, e: int, t: nat)
    requires Disjoint(teams) && t < |teams| && e in teams[t].roster
    ensures Enrolled(teams, e) && TeamOf(teams, e) == t
  {
  }

  // ----- one report

  ghost predicate SameRosters(teams: seq<Team>, teams': seq<Team>) {
    |teams'| == |teams| && forall t :: 0 <= t < |teams| ==> teams'[t].roster == teams[t].roster
  }

  lemma AfterKeepsSound(teams: seq<Team>, r: Report)
    requires SoundStage(teams) && r.eid1 != r.eid2
    ensures SoundStage(After(teams, r)) && SameRosters(teams, After(teams, r))
  {
    var v := TeamVerdict(teams, r.eid1, r.eid2);
    if v.Accept? { StepKeepsSound(teams[v.team], v.pairing, v.first, r.game); }
  }

  lemma AfterKeepsFair(teams: seq<Team>, r: Report)
    requires FairStage(teams) && Legal(teams, r)
    ensures FairStage(After(teams, r))
    ensures StageGames(After(teams, r)) == StageGames(teams) + 1
    ensures StageLeft(After(teams, r)) < StageLeft(teams)
    ensures ReturnCode(teams, r) == 0
  {
    var v := TeamVerdict(teams, r.eid1, r.eid2);
    var tm := teams[v.team];
    StepKeepsSound(tm, v.pairing, v.first, r.game);
    StepCounts(tm, v.pairing, v.first, r.game);
    SumsAfterUpdate(teams, v.team, Step(tm, v.pairing, v.first, r.game));
    assert PairSound(tm, v.pairing);
    FairStep(tm.duels[v.pairing], v.first, r.game);
  }

  /** "Every accepted report brings the stage closer to its end" holds exactly for the reports on an
      open pairing; the guards themselves let late reports on a decided round-3 pairing through. */
  lemma ProgressIffOpen(teams: seq<Team>, r: Report)
    requires FairStage(teams) && r.eid1 != r.eid2 && Counts(r.game) && TeamVerdict(teams, r.eid1, r.eid2).Accept?
    ensures var v := TeamVerdict(teams, r.eid1, r.eid2);
            StageLeft(After(teams, r)) < StageLeft(teams) <==> !Decided(teams[v.team].duels[v.pairing])
  {
    var v := TeamVerdict(teams, r.eid1, r.eid2);
    var tm := teams[v.team];
    if !Decided(tm.duels[v.pairing]) {
      AfterKeepsFair(teams, r);
    } else {
      var tm' := Step(tm, v.pairing, v.first, r.game);
      SumsAfterUpdate(teams, v.team, tm');
      assert forall q :: 0 <= q < PAIRINGS && q != v.pairing ==> tm'.duels[q] == tm.duels[q];
      assert Decided(tm'.duels[v.pairing]);
    }
  }

  /** A report on round 3 is accepted whether or not the pairing is decided, again and again. */
  lemma LateReportAccepted(teams: seq<Team>, t: nat, g: Game)
    requires SoundStage(teams) && t < |teams| && Staffed(teams[t], 4)
    ensures var e1, e2 := SeatEid(teams[t], SeatA(4)), SeatEid(teams[t], SeatB(4));
            var r := Report(e1, e2, g);
            && e1 != e2 && TeamVerdict(teams, e1, e2) == Accept(t, 4, true)
            && SoundStage(After(teams, r)) && After(teams, r) == teams[t := Step(teams[t], 4, true, g)]
            && SeatEid(After(teams, r)[t], SeatA(4)) == e1 && SeatEid(After(teams, r)[t], SeatB(4)) == e2
  {
    OpenPairing(teams, t, 4);
    AfterKeepsSound(teams, Report(SeatEid(teams[t], SeatA(4)), SeatEid(teams[t], SeatB(4)), g));
    StepMovesOnlyFed(teams[t], 4, true, g, SeatA(4));
    StepMovesOnlyFed(teams[t], 4, true, g, SeatB(4));
  }

  /** Two late wins of the beaten side of round 3, both accepted by the guards, let three members through. */
  lemma LateReportsLetThreeThrough(teams: seq<Team>, t: nat)
    requires FairStage(teams) && t < |teams| && Complete(teams[t])
    ensures var lateWin := Game(if AWins(teams[t].duels[4]) then 2 else 1, 1);
            var r := Report(SeatEid(teams[t], SeatA(4)), SeatEid(teams[t], SeatB(4)), lateWin);
            && r.eid1 != r.eid2 && SoundStage(After(teams, r))
            && TeamVerdict(teams, r.eid1, r.eid2).Accept? && TeamVerdict(After(teams, r), r.eid1, r.eid2).Accept?
            && var late := After(After(teams, r), r);
            |late| == |teams| && |Qualified(teams[t])| == 2 && |Qualified(late[t])| == 3
  {
    var tm := teams[t];
    var g := Game(if AWins(tm.duels[4]) then 2 else 1, 1);
    var r := Report(SeatEid(tm, SeatA(4)), SeatEid(tm, SeatB(4)), g);
    assert PairSound(tm, 4);
    LateReportAccepted(teams, t, g);
    LateReportAccepted(After(teams, r), t, g);
    TwoLateWins(tm, g);
  }

  lemma TwoLateWins(tm: Team, g: Game)
    requires FairTeam(tm) && Complete(tm) && g == Game(if AWins(tm.duels[4]) then 2 else 1, 1)
    ensures |Qualified(tm)| == 2 && |Qualified(Step(Step(tm, 4, true, g), 4, true, g))| == 3
  {
    QualifierCount(tm);
    QualifierCount(Step(Step(tm, 4, true, g), 4, true, g));
  }

  /** A finished group has two qualifiers exactly when round 3 was not won by both sides. */
  lemma QualifierCount(tm: Team)
    requires Complete(tm)
    ensures |Qualified(tm)| == if BothWin(tm.duels[4]) then 3 else 2
  {
    QualifiedUnrolled(tm);
  }

  ghost function StageGames(teams: seq<Team>): nat {
    if teams == [] then 0 else TeamGames(teams[0]) + StageGames(teams[1..])
  }

  ghost function StageLeft(teams: seq<Team>): int {
    if teams == [] then 0 else TeamGamesLeft(teams[0]) + StageLeft(teams[1..])
  }

  lemma {:induction false} SumsAfterUpdate(teams: seq<Team>, t: nat, tm: Team)
    requires t < |teams|
    ensures StageGames(teams[t := tm]) == StageGames(teams) + TeamGames(tm) - TeamGames(teams[t])
    ensures StageLeft(teams[t := tm]) == StageLeft(teams) + TeamGamesLeft(tm) - TeamGamesLeft(teams[t])
  {
    if t == 0 {
      assert teams[t := tm][1..] == teams[1..];
    } else {
      assert teams[t := tm][1..] == teams[1..][t - 1 := tm];
      SumsAfterUpdate(teams[1..], t - 1, tm);
    }
  }

  /** A fair stage has used at most fifteen games a team, and at least ten where it is finished. */
  lemma {:induction false} StageBounds(teams: seq<Team>)
    requires forall t :: 0 <= t < |teams| ==> FairTeam(teams[t])
    ensures 0 <= StageLeft(teams) <= 15 * |teams| && StageGames(teams) <= 15 * |teams|
    ensures StageComplete(teams) ==> 10 * |teams| <= StageGames(teams) && StageLeft(teams) == 0
  {
    if teams != [] {
      StageBounds(teams[1..]);
      TeamBounds(teams[0]);
    }
  }

  /** No deadlock: in an unfinished stage some report is legal, and both its players are
      each other's next opponent. */
  lemma SomeReportLegal(teams: seq<Team>) returns (r: Report)
    requires SoundStage(teams) && !StageComplete(teams)
    ensures Legal(teams, r)
    ensures NextOpponent(teams, r.eid1).Some? && NextOpponent(teams, r.eid1).record.eid == r.eid2
    ensures NextOpponent(teams, r.eid2).Some? && NextOpponent(teams, r.eid2).record.eid == r.eid1
  {
    var t: nat :| t < |teams| && !Complete(teams[t]);
    var tm := teams[t];
    var p := SomePairingPlayable(tm);
    OpenPairing(teams, t, p);
    r := Report(SeatEid(tm, SeatA(p)), SeatEid(tm, SeatB(p)), Game(1, 1));
    PairOfSeat(SeatA(p));
    PairOfSeat(SeatB(p));
    LatestOfPlayer(teams, r.eid1);
    LatestOfPlayer(teams, r.eid2);
  }

  lemma OpenPairing(teams: seq<Team>, t: nat, p: nat)
    requires SoundStage(teams) && t < |teams| && p < PAIRINGS
    requires Staffed(teams[t], p) && (p < 4 ==> !Decided(teams[t].duels[p]))
    ensures var e1, e2 := SeatEid(teams[t], SeatA(p)), SeatEid(teams[t], SeatB(p));
            && e1 != e2 && TeamVerdict(teams, e1, e2) == Accept(t, p, true)
            && Enrolled(teams, e1) && TeamOf(teams, e1) == t && CurrentSeat(teams[t], e1) == SeatA(p)
            && Enrolled(teams, e2) && TeamOf(teams, e2) == t && CurrentSeat(teams[t], e2) == SeatB(p)
  {
    var tm := teams[t];
    OpenSeatIsCurrent(tm, p, SeatA(p));
    OpenSeatIsCurrent(tm, p, SeatB(p));
    OneSeatPerRound(tm, SeatA(p), SeatB(p));
    TeamOfIs(teams, SeatEid(tm, SeatA(p)), t);
    TeamOfIs(teams, SeatEid(tm, SeatB(p)), t);
    PairOfSeat(SeatA(p));
    PairOfSeat(SeatB(p));
    SameRoundAndTid(SeatA(p), SeatB(p));
  }

  datatype Opponent = None | Some(record: Record)

  /** The seat facing `k`; seat 10 faces nobody. */
  function Facing(k: nat): nat
    requires k < 10
  { if k == SeatA(SeatPair(k)) then SeatB(SeatPair(k)) else SeatA(SeatPair(k)) }

  lemma FacingIsOther(tm: Team, c: nat)
    requires Sound(tm) && c < 10
    ensures Facing(c) != c && SeatRound(Facing(c)) == SeatRound(c) && SeatTid(Facing(c)) == SeatTid(c)
    ensures SeatEid(tm, Facing(c)) != SeatEid(tm, c)
  {
    PairOfSeat(c);
    if SeatEid(tm, c) > 0 {
      OneSeatPerRound(tm, c, Facing(c));
    } else if Decided(tm.duels[Source(c)]) {
      MovedOn(tm, Source(c));
      assert false;
    } else {
      FedFrom(Source(c), Won(c), c);
      Placeholders(tm, Source(c), Won(c), Facing(c));
    }
  }

  // ----- any eid, player or placeholder

  /** Of the seats of the largest round that `e` holds, the first in the list. */
  ghost predicate Latest(teams: seq<Team>, e: int, t: nat, k: nat) {
    && t < |teams| && k < SEATS && SeatEid(teams[t], k) == e
    && forall u: nat, l: nat :: u < |teams| && l < SEATS && SeatEid(teams[u], l) == e ==>
         SeatRound(l) < SeatRound(k) || (SeatRound(l) == SeatRound(k) && (t < u || (t == u && k <= l)))
  }

  ghost predicate Seated(teams: seq<Team>, e: int) {
    exists t: nat, k: nat :: Latest(teams, e, t, k)
  }

  ghost function LatestSeat(teams: seq<Team>, e: int): (at: (nat, nat))
    requires Seated(teams, e)
    ensures Latest(teams, e, at.0, at.1)
  {
    var t: nat, k: nat :| Latest(teams, e, t, k); (t, k)
  }

  lemma LatestIs(teams: seq<Team>, e: int, t: nat, k: nat)
    requires Latest(teams, e, t, k)
    ensures Seated(teams, e) && LatestSeat(teams, e) == (t, k)
  {
  }

  /** A player's latest seat is its current seat. */
  lemma LatestOfPlayer(teams: seq<Team>, e: int)
    requires SoundStage(teams) && e > 0
    ensures Seated(teams, e) <==> Enrolled(teams, e)
    ensures Enrolled(teams, e) ==>
              LatestSeat(teams, e) == (TeamOf(teams, e), CurrentSeat(teams[TeamOf(teams, e)], e))
  {
    if Seated(teams, e) {
      var at := LatestSeat(teams, e);
      SeatHolders(teams[at.0], at.1);
    }
    if Enrolled(teams, e) {
      var t := TeamOf(teams, e);
      var c := CurrentSeat(teams[t], e);
      CurrentIsLatest(teams[t], e);
      forall u: nat, l: nat | u < |teams| && l < SEATS && SeatEid(teams[u], l) == e
        ensures u == t && (SeatRound(l) < SeatRound(c) || l == c)
      {
        SeatHolders(teams[u], l);
        if l != c && SeatRound(l) == SeatRound(c) { OneSeatPerRound(teams[t], l, c); }
      }
      LatestIs(teams, e, t, c);
    }
  }

  /** What the guards of the result function answer for any two eids; 0 lets the report through. */
  ghost function GuardCode(teams: seq<Team>, e1: int, e2: int): int {
    if !Seated(teams, e1) then -3
    else if !Seated(teams, e2) then -13
    else
      var at1, at2 := LatestSeat(teams, e1), LatestSeat(teams, e2);
      if at1.0 != at2.0 then -6
      else if SeatRound(at1.1) != SeatRound(at2.1) then -16
      else if SeatTid(at1.1) != SeatTid(at2.1) then -26
      else 0
  }

  predicate TwoPlayers(e1: int, e2: int) { e1 > 0 && e2 > 0 && e1 != e2 }

  /** For two players it is the verdict above. */
  lemma GuardCodeOfPlayers(teams: seq<Team>, e1: int, e2: int)
    requires SoundStage(teams) && TwoPlayers(e1, e2)
    ensures match TeamVerdict(teams, e1, e2)
            case Reject(code) => GuardCode(teams, e1, e2) == code != 0
            case Accept(_, _, _) => GuardCode(teams, e1, e2) == 0
  {
    LatestOfPlayer(teams, e1);
    LatestOfPlayer(teams, e2);
  }

  /** The guards do not ask for two players: they let any placeholder or player be reported against
      itself, and in a fresh stage the two placeholders of the winners' pairing against each other,
      after which the first group is not sound any more. */
  lemma GuardsLetPlaceholdersThrough(teams: seq<Team>, e: int)
    requires FreshStage(teams) && teams != []
    ensures Seated(teams, e) ==> GuardCode(teams, e, e) == 0
    ensures GuardCode(teams, FakeEid(true, 0, 1), FakeEid(true, 1, 1)) == 0
    ensures !Sound(Step(teams[0], 2, true, Game(1, 1)))
  {
    FreshIsFair(teams);
    forall p: nat | p < 2 ensures Latest(teams, FakeEid(true, p, 1), 0, 4 + p) {
      forall u: nat, l: nat | u < |teams| && l < SEATS && SeatEid(teams[u], l) == FakeEid(true, p, 1)
        ensures l == 4 + p
      {
        Placeholders(teams[u], p, true, l);
      }
      Placeholders(teams[0], p, true, 4 + p);
    }
    LatestIs(teams, FakeEid(true, 0, 1), 0, 4);
    LatestIs(teams, FakeEid(true, 1, 1), 0, 5);
    SoundIffStaffed(teams[0], 2, true, Game(1, 1));
  }

  /** The pairing of a report that is let through and names two eids: open, or round 3. It is staffed
      exactly when they are two players. */
  lemma PairLetThrough(teams: seq<Team>, e1: int, e2: int) returns (t: nat, p: nat, first: bool)
    requires SoundStage(teams) && e1 != e2 && GuardCode(teams, e1, e2) == 0
    ensures Seated(teams, e1) && Seated(teams, e2) && t < |teams| && p < PAIRINGS
    ensures LatestSeat(teams, e1) == (t, if first then SeatA(p) else SeatB(p))
    ensures LatestSeat(teams, e2) == (t, if first then SeatB(p) else SeatA(p))
    ensures LatestSeat(teams, e1).1 < 10 && p == SeatPair(LatestSeat(teams, e1).1)
    ensures Staffed(teams[t], p) <==> TwoPlayers(e1, e2)
    ensures p < 4 ==> !Decided(teams[t].duels[p])
  {
    var k, l := LatestSeat(teams, e1).1, LatestSeat(teams, e2).1;
    SameRoundAndTid(k, l);
    t, p, first := LatestSeat(teams, e1).0, SeatPair(k), k == SeatA(SeatPair(k));
    PairOfSeat(k);
    PairOfSeat(l);
    assert PairSound(teams[t], p);
    if TwoPlayers(e1, e2) {
      LatestOfPlayer(teams, e1);
      LatestOfPlayer(teams, e2);
      GuardsMeanPairing(teams[t], e1, e2);
    }
  }

  /** The groups after a report that names two eids of any kind. */
  ghost function Played(teams: seq<Team>, r: Report): seq<Team> {
    if GuardCode(teams, r.eid1, r.eid2) != 0 then teams
    else
      var at := LatestSeat(teams, r.eid1);
      if at.1 >= 10 then teams
      else teams[at.0 := Step(teams[at.0], SeatPair(at.1), at.1 == SeatA(SeatPair(at.1)), r.game)]
  }

  ghost function PlayedCode(teams: seq<Team>, r: Report): int {
    var code := GuardCode(teams, r.eid1, r.eid2);
    if code != 0 then code
    else
      var at := LatestSeat(teams, r.eid1);
      if at.1 < 10 && BothWin(PlayAs(teams[at.0].duels[SeatPair(at.1)], at.1 == SeatA(SeatPair(at.1)), r.game)) then -7
      else 0
  }

  /** Played, in terms of the pairing. */
  lemma PlayedStep(teams: seq<Team>, r: Report, t: nat, p: nat, first: bool)
    requires GuardCode(teams, r.eid1, r.eid2) == 0 && Seated(teams, r.eid1) && t < |teams| && p < PAIRINGS
    requires LatestSeat(teams, r.eid1) == (t, if first then SeatA(p) else SeatB(p))
    ensures Played(teams, r) == teams[t := Step(teams[t], p, first, r.game)]
    ensures PlayedCode(teams, r) == if BothWin(PlayAs(teams[t].duels[p], first, r.game)) then -7 else 0
  {
    PairOfSeat(SeatA(p));
    PairOfSeat(SeatB(p));
  }

  /** For two players that is the report of the stage. */
  lemma PlayedByPlayers(teams: seq<Team>, r: Report)
    requires SoundStage(teams) && TwoPlayers(r.eid1, r.eid2)
    ensures Played(teams, r) == After(teams, r) && PlayedCode(teams, r) == ReturnCode(teams, r)
    ensures SoundStage(Played(teams, r))
  {
    RejectedReport(teams, r);
    AfterKeepsSound(teams, r);
    if GuardCode(teams, r.eid1, r.eid2) == 0 {
      var t, p, first := AcceptedReport(teams, r);
      PlayedStep(teams, r, t, p, first);
    }
  }

  /** A counted report that is let through keeps the groups sound exactly when it names two players;
      that is all the caller has to look at. */
  lemma SoundIffPlayers(teams: seq<Team>, r: Report)
    requires SoundStage(teams) && r.eid1 != r.eid2 && GuardCode(teams, r.eid1, r.eid2) == 0
    ensures Counts(r.game) ==> (SoundStage(Played(teams, r)) <==> TwoPlayers(r.eid1, r.eid2))
    ensures !Counts(r.game) ==> Played(teams, r) == teams
  {
    var t, p, first := PairLetThrough(teams, r.eid1, r.eid2);
    PlayedStep(teams, r, t, p, first);
    var teams' := Played(teams, r);
    PlayChanges(teams[t].duels[p], first, r.game);
    if Counts(r.game) {
      SoundIffStaffed(teams[t], p, first, r.game);
      if TwoPlayers(r.eid1, r.eid2) { PlayedByPlayers(teams, r); } else { assert !Sound(teams'[t]); }
    } else {
      assert Step(teams[t], p, first, r.game).duels == teams[t].duels;
    }
  }

  /** One game's counters written on the two records of a pairing. */
  function ScoredTwo(s: seq<Record>, i: nat, j: nat, g: Game): (s': seq<Record>)
    requires i < |s| && j < |s|
    ensures |s'| == |s|
  {
    var d := Play(Duel(s[i].score, s[j].score), g);
    s[i := s[i].(score := d.a)][j := s[j].(score := d.b)]
  }

  // ----- one eid named twice

  /** Both sides of a game written on record `i`. */
  function SelfWritten(s: seq<Record>, i: nat, g: Game): (s': seq<Record>)
    requires i < |s|
    ensures |s'| == |s|
  {
    s[i := s[i].(score := SelfScored(s[i].score, g))]
  }

  /** After a counted report that names one eid twice, whatever seat that has, the list shows no fair
      stage any more; nor a sound one, except where the seat is one of round 3's pairing. */
  lemma SelfReportShowsNothing(s: seq<Record>, n: nat, teams: seq<Team>, e: int, g: Game, teams': seq<Team>)
    requires Rendered(s, n, teams) && SoundStage(teams) && SoundStage(teams') && Seated(teams, e) && Counts(g)
    ensures var at := LatestSeat(teams, e);
            && Pos(n, at.0, at.1) < |s|
            && ((at.1 == 8 || at.1 == 9 ==> FairStage(teams) && FairStage(teams')) ==>
                  !Rendered(SelfWritten(s, Pos(n, at.0, at.1), g), n, teams'))
  {
    var t, k := LatestSeat(teams, e).0, LatestSeat(teams, e).1;
    var i := Pos(n, t, k);
    PosInjective(n, t, k, t, k);
    var s' := SelfWritten(s, i, g);
    if Rendered(s', n, teams') && (k == 8 || k == 9 ==> FairStage(teams) && FairStage(teams')) {
      assert s[i] == Seat(teams[t], t, k) && s'[i] == Seat(teams'[t], t, k);
      SelfScoredChanges(s[i].score, g);
      if k < 10 {
        FairAtSeat(teams[t], k);
        FairAtSeat(teams'[t], k);
        SelfReportUnfairPair(s, n, teams, t, k, g, teams');
      }
      assert false;
    }
  }

  /** A report of two eids that is let through, as a step of the pairing whose records it has found. */
  lemma PlayedOnPairing(n: nat, teams: seq<Team>, r: Report) returns (t: nat, p: nat, first: bool)
    requires SoundStage(teams) && r.eid1 != r.eid2 && GuardCode(teams, r.eid1, r.eid2) == 0 && n == 4 * |teams|
    ensures Seated(teams, r.eid1) && Seated(teams, r.eid2) && t < |teams| && p < PAIRINGS
    ensures p < 4 ==> !Decided(teams[t].duels[p])
    ensures var at1, at2 := LatestSeat(teams, r.eid1), LatestSeat(teams, r.eid2);
            && Pos(n, at1.0, at1.1) == Pos(n, t, if first then SeatA(p) else SeatB(p))
            && Pos(n, at2.0, at2.1) == Pos(n, t, if first then SeatB(p) else SeatA(p))
            && Pos(n, at1.0, at1.1) != Pos(n, at2.0, at2.1)
    ensures Played(teams, r) == teams[t := Step(teams[t], p, first, r.game)]
    ensures PlayedCode(teams, r) == if BothWin(PlayAs(teams[t].duels[p], first, r.game)) then -7 else 0
  {
    t, p, first := PairLetThrough(teams, r.eid1, r.eid2);
    PlayedStep(teams, r, t, p, first);
    PosInjective(n, t, SeatA(p), t, SeatB(p));
  }

  /** What is left of the stage by a report of any kind that was let through. */
  lemma ValidIffPlayers(s: seq<Record>, n: nat, teams: seq<Team>, r: Report, s': seq<Record>, teams': seq<Team>)
    requires Rendered(s, n, teams) && SoundStage(teams) && GuardCode(teams, r.eid1, r.eid2) == 0
    requires r.eid1 != r.eid2 ==> teams' == Played(teams, r) && Rendered(s', n, teams')
    requires r.eid1 == r.eid2 ==>
               var at := LatestSeat(teams, r.eid1);
               teams' == teams && Pos(n, at.0, at.1) < |s| && s' == SelfWritten(s, Pos(n, at.0, at.1), r.game)
    ensures Rendered(s', n, teams') && SoundStage(teams') <==> TwoPlayers(r.eid1, r.eid2) || !Counts(r.game)
  {
    if r.eid1 != r.eid2 { SoundIffPlayers(teams, r); } else { SelfReportBreaks(s, n, teams, r.eid1, r.game); }
  }

  lemma FairAtSeat(tm: Team, k: nat)
    requires Sound(tm) && k < 10 && (k == 8 || k == 9 ==> FairTeam(tm))
    ensures Fair(tm.duels[SeatPair(k)])
  {
    assert PairSound(tm, SeatPair(k));
  }

  /** At least the stage it was is not shown any more. */
  lemma SelfReportBreaks(s: seq<Record>, n: nat, teams: seq<Team>, e: int, g: Game)
    requires Rendered(s, n, teams) && Seated(teams, e)
    ensures var at := LatestSeat(teams, e);
            && Pos(n, at.0, at.1) < |s|
            && (Counts(g) ==> !Rendered(SelfWritten(s, Pos(n, at.0, at.1), g), n, teams))
            && (!Counts(g) ==> SelfWritten(s, Pos(n, at.0, at.1), g) == s)
  {
    var t, k := LatestSeat(teams, e).0, LatestSeat(teams, e).1;
    PosInjective(n, t, k, t, k);
    var i := Pos(n, t, k);
    assert s[i] == Seat(teams[t], t, k);
    SelfScoredChanges(s[i].score, g);
    if Rendered(SelfWritten(s, i, g), n, teams) {
      assert SelfWritten(s, i, g)[i] == Seat(teams[t], t, k);
    }
  }

  lemma SelfReportUnfairPair(s: seq<Record>, n: nat, teams: seq<Team>, t: nat, k: nat, g: Game, teams': seq<Team>)
    requires Rendered(s, n, teams) && t < |teams| && k < 10 && Counts(g)
    requires Rendered(SelfWritten(s, Pos(n, t, k), g), n, teams')
    ensures var p := SeatPair(k); !Fair(teams[t].duels[p]) || !Fair(teams'[t].duels[p])
  {
    var other := Facing(k);
    PairOfSeat(k);
    var s' := SelfWritten(s, Pos(n, t, k), g);
    PosInjective(n, t, k, t, other);
    SeatScore(s, n, teams, t, k);
    SeatScore(s, n, teams, t, other);
    SeatScore(s', n, teams', t, k);
    SeatScore(s', n, teams', t, other);
    if Fair(teams[t].duels[SeatPair(k)]) { SelfReportIsUnfair(teams[t].duels[SeatPair(k)], g); }
  }

  /** The score a list shows at a seat of a pairing. */
  lemma SeatScore(s: seq<Record>, n: nat, teams: seq<Team>, t: nat, k: nat)
    requires Rendered(s, n, teams) && t < |teams| && k < 10
    ensures Pos(n, t, k) < |s|
    ensures var d := teams[t].duels[SeatPair(k)];
            s[Pos(n, t, k)].score == if k == SeatA(SeatPair(k)) then d.a else d.b
  {
    assert s[Pos(n, t, k)] == Seat(teams[t], t, k);
  }

  /** Eid 0, no player's, is let through against itself in every stage: it is found on the last record
      of the first group's round 3. */
  lemma ZeroLetThrough(teams: seq<Team>)
    requires SoundStage(teams) && teams != []
    ensures Seated(teams, 0) && LatestSeat(teams, 0) == (0, 11) && GuardCode(teams, 0, 0) == 0
  {
    forall u: nat, l: nat | u < |teams| && l < SEATS && SeatEid(teams[u], l) == 0 ensures l == 11 {
      if 4 <= l < 11 && Decided(teams[u].duels[Source(l)]) { MovedOnTo(teams[u], l); }
    }
    LatestIs(teams, 0, 0, 11);
  }

  lemma MovedOnTo(tm: Team, l: nat)
    requires Sound(tm) && 4 <= l < 11 && Decided(tm.duels[Source(l)])
    ensures SeatEid(tm, l) > 0
  {
    MovedOn(tm, Source(l));
    FedFrom(Source(l), Won(l), l);
  }

  /** The record a player's next report will be played against. */
  ghost function NextOpponent(teams: seq<Team>, e: int): Opponent {
    if !Seated(teams, e) then None
    else
      var at := LatestSeat(teams, e);
      if at.1 < 10 then Some(Seat(teams[at.0], at.0, Facing(at.1))) else None
  }

  // ----- runs of reports

  ghost predicate FreshStage(teams: seq<Team>) {
    && Disjoint(teams)
    && forall t :: 0 <= t < |teams| ==> DistinctPlayers(teams[t].roster) && teams[t] == NewTeam(teams[t].roster)
  }

  lemma FreshIsFair(teams: seq<Team>)
    requires FreshStage(teams)
    ensures FairStage(teams) && StageGames(teams) == 0
  {
    if teams != [] {
      var rest := teams[1..];
      assert FreshStage(rest) by {
        assert forall t :: 0 <= t < |rest| ==> rest[t] == teams[t + 1];
      }
      FreshIsFair(rest);
    }
  }

  /** Report `k` leads from state `k` to the next, and is legal when it comes. */
  ghost predicate LegalAt(states: seq<seq<Team>>, reports: seq<Report>, k: nat)
    requires |states| == |reports| + 1 && k < |reports|
  {
    SoundStage(states[k]) && Legal(states[k], reports[k]) && states[k + 1] == After(states[k], reports[k])
  }

  ghost predicate LegalStates(states: seq<seq<Team>>, reports: seq<Report>) {
    |states| == |reports| + 1 && forall k :: 0 <= k < |reports| ==> LegalAt(states, reports, k)
  }

  /** `teams'` is reachable from `teams` by exactly these reports. */
  ghost predicate LegalRun(teams: seq<Team>, reports: seq<Report>, teams': seq<Team>) {
    exists states :: LegalStates(states, reports) && states[0] == teams && states[|reports|] == teams'
  }

  /** Where legal reports have led after `games` of them. */
  ghost predicate FairAfter(start: seq<Team>, games: nat, teams: seq<Team>) {
    FairStage(teams) && SameRosters(start, teams) && StageGames(teams) == StageGames(start) + games
  }

  lemma LegalStep(start: seq<Team>, games: nat, teams: seq<Team>, r: Report)
    requires FairAfter(start, games, teams) && Legal(teams, r)
    ensures FairAfter(start, games + 1, After(teams, r))
  {
    AfterKeepsFair(teams, r);
    AfterKeepsSound(teams, r);
  }

  /** Every state of a legal run is fair, and counts the reports so far. */
  lemma {:induction false} StatesAreFair(states: seq<seq<Team>>, reports: seq<Report>, k: nat)
    requires LegalStates(states, reports) && FairStage(states[0]) && k <= |reports|
    ensures FairAfter(states[0], k, states[k])
  {
    if k > 0 {
      StatesAreFair(states, reports, k - 1);
      assert LegalAt(states, reports, k - 1);
      LegalStep(states[0], k - 1, states[k - 1], reports[k - 1]);
    }
  }

  lemma RunKeepsFair(teams: seq<Team>, reports: seq<Report>, teams': seq<Team>)
    requires FairStage(teams) && LegalRun(teams, reports, teams')
    ensures FairStage(teams') && SameRosters(teams, teams')
    ensures StageGames(teams') == StageGames(teams) + |reports|
  {
    var states :| LegalStates(states, reports) && states[0] == teams && states[|reports|] == teams';
    StatesAreFair(states, reports, |reports|);
  }

  /** Any legal run that finishes the team stage takes ten to fifteen reports a team; no legal run is longer. */
  lemma TeamStageLength(teams: seq<Team>, reports: seq<Report>, teams': seq<Team>)
    requires FreshStage(teams) && LegalRun(teams, reports, teams')
    ensures FairStage(teams') && |teams'| == |teams|
    ensures |reports| <= 15 * |teams|
    ensures StageComplete(teams') ==> 10 * |teams| <= |reports|
  {
    FreshIsFair(teams);
    RunKeepsFair(teams, reports, teams');
    StageBounds(teams');
  }

  /** Whatever the order of legal reports, a team that gets finished is a correct double elimination. */
  lemma TeamStageOutcome(teams: seq<Team>, reports: seq<Report>, teams': seq<Team>, t: nat)
    requires FreshStage(teams) && LegalRun(teams, reports, teams')
    requires t < |teams| && t < |teams'| && Complete(teams'[t])
    ensures DoubleElimination(teams'[t]) && teams'[t].roster == teams[t].roster
  {
    FreshIsFair(teams);
    RunKeepsFair(teams, reports, teams');
    FairIsNotLate(teams'[t]);
    GroupOutcome(teams'[t]);
  }

  // ----- runs of any reports between players

  /** Report `k` names two players and leads from state `k` to the next. */
  ghost predicate ReportAt(states: seq<seq<Team>>, reports: seq<Report>, k: nat)
    requires |states| == |reports| + 1 && k < |reports|
  {
    && SoundStage(states[k]) && TwoPlayers(reports[k].eid1, reports[k].eid2)
    && states[k + 1] == After(states[k], reports[k])
  }

  ghost predicate ReportStates(states: seq<seq<Team>>, reports: seq<Report>) {
    |states| == |reports| + 1 && forall k :: 0 <= k < |reports| ==> ReportAt(states, reports, k)
  }

  /** Report `k` is on round 3 of team `t` and leaves both sides with five points. */
  ghost predicate PointErrorAt(states: seq<seq<Team>>, reports: seq<Report>, k: nat, t: nat)
    requires |states| == |reports| + 1 && k < |reports|
  {
    ReportAt(states, reports, k) && PointError(states[k], reports[k], t)
  }

  /** The report is on round 3 of team `t` and leaves both sides with five points. */
  ghost predicate PointError(teams: seq<Team>, r: Report, t: nat)
    requires SoundStage(teams) && TwoPlayers(r.eid1, r.eid2)
  {
    var v := TeamVerdict(teams, r.eid1, r.eid2);
    v.Accept? && v.team == t && v.pairing == 4 && BothWin(PlayAs(teams[t].duels[4], v.first, r.game))
  }

  /** These are the reports answered with -7. */
  lemma PointErrorCode(teams: seq<Team>, r: Report, t: nat)
    requires SoundStage(teams) && TwoPlayers(r.eid1, r.eid2)
    ensures var v := TeamVerdict(teams, r.eid1, r.eid2);
            PointError(teams, r, t) <==> v.Accept? && v.team == t && ReturnCode(teams, r) == -7
  {
    var v := TeamVerdict(teams, r.eid1, r.eid2);
    if v.Accept? && v.pairing < 4 { EarlyPairStaysFair(teams[v.team], v.pairing, v.first, r.game); }
  }

  ghost predicate SomePointError(states: seq<seq<Team>>, reports: seq<Report>, k: nat, t: nat)
    requires |states| == |reports| + 1 && k <= |reports|
  {
    exists j :: 0 <= j < k && PointErrorAt(states, reports, j, t)
  }

  /** Round 3 of a team is won by both sides after a report exactly when it was before, or the report does it. */
  lemma PointErrorMeansLate(teams: seq<Team>, r: Report, t: nat)
    requires SoundStage(teams) && TwoPlayers(r.eid1, r.eid2) && t < |teams|
    ensures BothWin(After(teams, r)[t].duels[4]) <==> BothWin(teams[t].duels[4]) || PointError(teams, r, t)
  {
    var v := TeamVerdict(teams, r.eid1, r.eid2);
    if v.Accept? && v.team == t && v.pairing < 4 { EarlyPairStaysFair(teams[t], v.pairing, v.first, r.game); }
  }

  lemma OneReportMore(states: seq<seq<Team>>, reports: seq<Report>, k: nat, t: nat)
    requires |states| == |reports| + 1 && 0 < k <= |reports|
    ensures SomePointError(states, reports, k, t) <==>
              SomePointError(states, reports, k - 1, t) || PointErrorAt(states, reports, k - 1, t)
  {
    if PointErrorAt(states, reports, k - 1, t) { assert SomePointError(states, reports, k, t); }
  }

  /** Every state of such a run is sound, over the original rosters. */
  lemma {:induction false} StatesStaySound(states: seq<seq<Team>>, reports: seq<Report>, k: nat)
    requires ReportStates(states, reports) && FreshStage(states[0]) && k <= |reports|
    ensures SoundStage(states[k]) && SameRosters(states[0], states[k])
  {
    if k == 0 {
      FreshIsFair(states[0]);
    } else {
      StatesStaySound(states, reports, k - 1);
      assert ReportAt(states, reports, k - 1);
      AfterKeepsSound(states[k - 1], reports[k - 1]);
    }
  }

  /** Round 3 of a team is won by both sides exactly when some report on it left it so. */
  lemma {:induction false} LateMeansPointError(states: seq<seq<Team>>, reports: seq<Report>, k: nat, t: nat)
    requires ReportStates(states, reports) && FreshStage(states[0]) && k <= |reports| && t < |states[0]|
    ensures SoundStage(states[k]) && |states[k]| == |states[0]| && states[k][t].roster == states[0][t].roster
    ensures BothWin(states[k][t].duels[4]) <==> SomePointError(states, reports, k, t)
  {
    if k == 0 {
      FreshIsFair(states[0]);
    } else {
      LateMeansPointError(states, reports, k - 1, t);
      assert ReportAt(states, reports, k - 1);
      AfterKeepsSound(states[k - 1], reports[k - 1]);
      PointErrorMeansLate(states[k - 1], reports[k - 1], t);
      OneReportMore(states, reports, k, t);
    }
  }

  ghost predicate NoPointError(states: seq<seq<Team>>, reports: seq<Report>)
    requires ReportStates(states, reports)
  {
    forall t :: 0 <= t < |states[0]| ==> !SomePointError(states, reports, |reports|, t)
  }

  /** Legal reports are reports between players, and leave no round 3 with two winners. */
  lemma LegalHasNoPointError(states: seq<seq<Team>>, reports: seq<Report>)
    requires LegalStates(states, reports) && FreshStage(states[0])
    ensures ReportStates(states, reports) && NoPointError(states, reports)
  {
    FreshIsFair(states[0]);
    forall k: nat | k < |reports|
      ensures ReportAt(states, reports, k) && forall t: nat :: !PointErrorAt(states, reports, k, t)
    {
      assert LegalAt(states, reports, k);
      StatesAreFair(states, reports, k);
      LegalIsProper(states[k], reports[k]);
    }
  }

  lemma LegalIsProper(teams: seq<Team>, r: Report)
    requires FairStage(teams) && Legal(teams, r)
    ensures TwoPlayers(r.eid1, r.eid2) && forall t: nat :: !PointError(teams, r, t)
  {
    var v := TeamVerdict(teams, r.eid1, r.eid2);
    assert DistinctPlayers(teams[v.team].roster);
    assert Staffed(teams[v.team], v.pairing);
    AfterKeepsFair(teams, r);
    forall t: nat ensures !PointError(teams, r, t) { PointErrorCode(teams, r, t); }
  }

  /** Whatever reports between players come, legal or not: a finished team is a correct double
      elimination of its original roster exactly when no report left both sides of its round 3 with
      five points. */
  lemma AnyRunOutcome(states: seq<seq<Team>>, reports: seq<Report>, t: nat)
    requires ReportStates(states, reports) && FreshStage(states[0]) && t < |states[0]|
    ensures var final := states[|reports|];
            && SoundStage(final) && |final| == |states[0]| && final[t].roster == states[0][t].roster
            && (Complete(final[t]) ==>
                  (DoubleElimination(final[t]) <==> !SomePointError(states, reports, |reports|, t)))
  {
    LateMeansPointError(states, reports, |reports|, t);
    if Complete(states[|reports|][t]) { GroupOutcome(states[|reports|][t]); }
  }

  // ----- the flat list

  /** Every index of the three rounds is some team's seat. */
  lemma SeatAt(n: nat, i: nat) returns (t: nat, k: nat)
    requires n % 4 == 0 && i < 3 * n
    ensures 4 * t + 4 <= n && k < SEATS && Pos(n, t, k) == i
  {
    var j := if i < n then i else if i < 2 * n then i - n else i - 2 * n;
    t := j / 4;
    k := j % 4 + (if i < n then 0 else if i < 2 * n then 4 else 8);
  }

  lemma PosInjective(n: nat, t: nat, k: nat, u: nat, l: nat)
    requires 4 * t + 4 <= n && 4 * u + 4 <= n && k < SEATS && l < SEATS
    ensures Pos(n, t, k) < 3 * n
    ensures Pos(n, t, k) == Pos(n, u, l) ==> t == u && k == l
  {
  }

  /** The scan for the largest round finds the latest seat. */
  lemma ScanFindsSeat(s: seq<Record>, n: nat, teams: seq<Team>, e: int, i: nat)
    requires Rendered(s, n, teams) && i < 3 * n && s[i].eid == e
    requires forall j :: 0 <= j < 3 * n && s[j].eid == e ==>
               s[j].round < s[i].round || (s[j].round == s[i].round && i <= j)
    ensures Seated(teams, e)
    ensures var at := LatestSeat(teams, e); i == Pos(n, at.0, at.1) && s[i] == Seat(teams[at.0], at.0, at.1)
  {
    var t, k := SeatAt(n, i);
    assert s[Pos(n, t, k)] == Seat(teams[t], t, k);
    forall u: nat, l: nat | u < |teams| && l < SEATS && SeatEid(teams[u], l) == e
      ensures SeatRound(l) < SeatRound(k) || (SeatRound(l) == SeatRound(k) && (t < u || (t == u && k <= l)))
    {
      assert s[Pos(n, u, l)] == Seat(teams[u], u, l);
    }
    LatestIs(teams, e, t, k);
  }

  lemma ScanFindsNobody(s: seq<Record>, n: nat, teams: seq<Team>, e: int)
    requires Rendered(s, n, teams)
    requires forall j :: 0 <= j < 3 * n ==> s[j].eid != e || s[j].round <= 0
    ensures !Seated(teams, e)
  {
    forall t: nat, k: nat | t < |teams| && k < SEATS ensures SeatEid(teams[t], k) != e {
      assert s[Pos(n, t, k)] == Seat(teams[t], t, k);
    }
  }

  lemma RejectedReport(teams: seq<Team>, r: Report)
    requires SoundStage(teams) && TwoPlayers(r.eid1, r.eid2)
    ensures GuardCode(teams, r.eid1, r.eid2) != 0 ==>
              After(teams, r) == teams && ReturnCode(teams, r) == GuardCode(teams, r.eid1, r.eid2)
  {
    GuardCodeOfPlayers(teams, r.eid1, r.eid2);
  }

  /** A report let through has found the two seats of its pairing. */
  lemma AcceptedReport(teams: seq<Team>, r: Report) returns (t: nat, p: nat, first: bool)
    requires SoundStage(teams) && TwoPlayers(r.eid1, r.eid2) && GuardCode(teams, r.eid1, r.eid2) == 0
    ensures Seated(teams, r.eid1) && Seated(teams, r.eid2) && t < |teams| && p < PAIRINGS
    ensures LatestSeat(teams, r.eid1) == (t, if first then SeatA(p) else SeatB(p))
    ensures LatestSeat(teams, r.eid2) == (t, if first then SeatB(p) else SeatA(p))
    ensures Staffed(teams[t], p) && (p < 4 ==> !Decided(teams[t].duels[p]))
    ensures SoundStage(After(teams, r)) && After(teams, r) == teams[t := Step(teams[t], p, first, r.game)]
    ensures ReturnCode(teams, r) == if BothWin(PlayAs(teams[t].duels[p], first, r.game)) then -7 else 0
  {
    GuardCodeOfPlayers(teams, r.eid1, r.eid2);
    var v := TeamVerdict(teams, r.eid1, r.eid2);
    t, p, first := v.team, v.pairing, v.first;
    AfterKeepsSound(teams, r);
    PairSeats(teams, r.eid1, r.eid2);
  }

  lemma PairSeats(teams: seq<Team>, e1: int, e2: int)
    requires SoundStage(teams) && TwoPlayers(e1, e2) && TeamVerdict(teams, e1, e2).Accept?
    ensures Seated(teams, e1) && Seated(teams, e2)
    ensures var v := TeamVerdict(teams, e1, e2);
            && LatestSeat(teams, e1) == (v.team, if v.first then SeatA(v.pairing) else SeatB(v.pairing))
            && LatestSeat(teams, e2) == (v.team, if v.first then SeatB(v.pairing) else SeatA(v.pairing))
  {
    LatestOfPlayer(teams, e1);
    LatestOfPlayer(teams, e2);
    var t := TeamOf(teams, e1);
    GuardsMeanPairing(teams[t], e1, e2);
    SameRoundAndTid(CurrentSeat(teams[t], e1), CurrentSeat(teams[t], e2));
  }

  /** What one report does to its team's seats. */
  lemma SeatsAfterStep(tm: Team, t: nat, p: nat, first: bool, g: Game, k: nat)
    requires Sound(tm) && p < PAIRINGS && (p < 4 ==> !Decided(tm.duels[p])) && k < SEATS
    ensures var tm' := Step(tm, p, first, g);
            var d := tm'.duels[p];
            Seat(tm', t, k) ==
              if k == SeatA(p) then Seat(tm, t, k).(score := d.a)
              else if k == SeatB(p) then Seat(tm, t, k).(score := d.b)
              else if p < 4 && Decided(d) && k == FeedSeat(p, true) then
                Seat(tm, t, k).(eid := PairWinner(tm', p),
                                score := if p == 2 then Tally(2, 0, 0, 6) else Seat(tm, t, k).score)
              else if p < 3 && Decided(d) && k == FeedSeat(p, false) then
                Seat(tm, t, k).(eid := PairLoser(tm', p))
              else Seat(tm, t, k)
    ensures k == SeatA(p) || k == SeatB(p) ==> SeatEid(Step(tm, p, first, g), k) == SeatEid(tm, k)
  {
    var tm' := Step(tm, p, first, g);
    FedFrom(p, true, k);
    FedFrom(p, false, k);
    TallyAfterStep(tm, p, first, g, k);
    if k < 11 && k != FeedSeat(p, true) && k != FeedSeat(p, false) {
      StepMovesOnlyFed(tm, p, first, g, k);
    }
  }

  lemma TallyAfterStep(tm: Team, p: nat, first: bool, g: Game, k: nat)
    requires p < PAIRINGS && k < SEATS
    ensures var tm' := Step(tm, p, first, g);
            SeatTally(tm', k) ==
              if k == SeatA(p) then tm'.duels[p].a
              else if k == SeatB(p) then tm'.duels[p].b
              else if k == 10 && p == 2 then (if Decided(tm'.duels[p]) then Tally(2, 0, 0, 6) else ZERO)
              else SeatTally(tm, k)
  {
    if k < 10 { PairOfSeat(k); }
  }

  lemma PairOfSeat(k: nat)
    requires k < 10
    ensures k == SeatA(SeatPair(k)) || k == SeatB(SeatPair(k))
    ensures forall p :: 0 <= p < PAIRINGS && (k == SeatA(p) || k == SeatB(p)) ==> p == SeatPair(k)
  {
  }

  /** The flat list with a pairing's two scores written. */
  function Scored(s: seq<Record>, n: nat, t: nat, p: nat, d: Duel): (s': seq<Record>)
    requires 4 * t + 4 <= n && 3 * n <= |s| && p < PAIRINGS
    ensures |s'| == |s|
  {
    var a, b := Pos(n, t, SeatA(p)), Pos(n, t, SeatB(p));
    s[a := s[a].(score := d.a)][b := s[b].(score := d.b)]
  }

  /** The flat list with a decided pairing's players written on the seats it feeds. */
  function SentOn(s: seq<Record>, n: nat, t: nat, p: nat, winner: int, loser: int): (s': seq<Record>)
    requires 4 * t + 4 <= n && 3 * n <= |s| && p < 4
    ensures |s'| == |s|
  {
    var w, l := Pos(n, t, FeedSeat(p, true)), Pos(n, t, FeedSeat(p, false));
    var s1 := s[w := s[w].(eid := winner, score := if p == 2 then Tally(2, 0, 0, 6) else s[w].score)];
    if p == 3 then s1 else s1[l := s1[l].(eid := loser)]
  }

  /** Everything one report writes, as one update of the flat list. */
  function Rewritten(s: seq<Record>, n: nat, t: nat, p: nat, tm': Team): (s': seq<Record>)
    requires 4 * t + 4 <= n && 3 * n <= |s| && p < PAIRINGS
    ensures |s'| == |s|
  {
    var s1 := Scored(s, n, t, p, tm'.duels[p]);
    if p < 4 && Decided(tm'.duels[p]) then SentOn(s1, n, t, p, PairWinner(tm', p), PairLoser(tm', p)) else s1
  }

  lemma ScoredAt(s: seq<Record>, n: nat, t: nat, p: nat, d: Duel, u: nat, k: nat)
    requires 4 * t + 4 <= n && 4 * u + 4 <= n && 3 * n <= |s| && p < PAIRINGS && k < SEATS
    ensures var r := s[Pos(n, u, k)];
            Scored(s, n, t, p, d)[Pos(n, u, k)] ==
              if u == t && k == SeatA(p) then r.(score := d.a)
              else if u == t && k == SeatB(p) then r.(score := d.b)
              else r
  {
    PosInjective(n, u, k, t, SeatA(p));
    PosInjective(n, u, k, t, SeatB(p));
  }

  /** After scoring a pairing its two records still carry its players, round, tid and team, the seat
      kept for the undefeated player is as it was, and nobody has moved. */
  lemma ScoredPair(s: seq<Record>, n: nat, teams: seq<Team>, t: nat, p: nat, d: Duel)
    requires Rendered(s, n, teams) && t < |teams| && p < PAIRINGS
    ensures var s' := Scored(s, n, t, p, d);
            && (forall k :: k == SeatA(p) || k == SeatB(p) ==>
                  var r := s'[Pos(n, t, k)];
                  r.eid == SeatEid(teams[t], k) && r.round == PairRound(p) && r.tid == PairTid(p) && r.teamId == t + 1)
            && s'[Pos(n, t, 10)] == Seat(teams[t], t, 10)
            && (forall i :: 0 <= i < |s| ==> s'[i] == s[i].(score := s'[i].score))
    ensures PairRound(p) < 3 <==> p < 4
  {
    PairOfSeat(SeatA(p));
    PairOfSeat(SeatB(p));
    assert s[Pos(n, t, SeatA(p))] == Seat(teams[t], t, SeatA(p));
    assert s[Pos(n, t, SeatB(p))] == Seat(teams[t], t, SeatB(p));
    assert s[Pos(n, t, 10)] == Seat(teams[t], t, 10);
    ScoredAt(s, n, t, p, d, t, 10);
    ScoredAt(s, n, t, p, d, t, SeatA(p));
    ScoredAt(s, n, t, p, d, t, SeatB(p));
  }

  lemma SentOnAt(s: seq<Record>, n: nat, t: nat, p: nat, winner: int, loser: int, u: nat, k: nat)
    requires 4 * t + 4 <= n && 4 * u + 4 <= n && 3 * n <= |s| && p < 4 && k < SEATS
    ensures var r := s[Pos(n, u, k)];
            SentOn(s, n, t, p, winner, loser)[Pos(n, u, k)] ==
              if u == t && k == FeedSeat(p, true) then
                r.(eid := winner, score := if p == 2 then Tally(2, 0, 0, 6) else r.score)
              else if u == t && p != 3 && k == FeedSeat(p, false) then r.(eid := loser)
              else r
  {
    PosInjective(n, u, k, t, FeedSeat(p, true));
    PosInjective(n, u, k, t, FeedSeat(p, false));
  }

  /** The update turns the picture of the old groups into that of the new ones. */
  lemma RenderedAfterReport(s: seq<Record>, n: nat, teams: seq<Team>, t: nat, p: nat, first: bool, g: Game)
    requires Rendered(s, n, teams) && SoundStage(teams) && t < |teams| && p < PAIRINGS
    requires p < 4 ==> !Decided(teams[t].duels[p])
    ensures var tm' := Step(teams[t], p, first, g); Rendered(Rewritten(s, n, t, p, tm'), n, teams[t := tm'])
  {
    var tm' := Step(teams[t], p, first, g);
    var s' := Rewritten(s, n, t, p, tm');
    forall u, k | 0 <= u < |teams| && 0 <= k < SEATS
      ensures s'[Pos(n, u, k)] == Seat(teams[t := tm'][u], u, k)
    {
      ScoredAt(s, n, t, p, tm'.duels[p], u, k);
      if p < 4 { SentOnAt(Scored(s, n, t, p, tm'.duels[p]), n, t, p, PairWinner(tm', p), PairLoser(tm', p), u, k); }
      assert s[Pos(n, u, k)] == Seat(teams[u], u, k);
      if u == t { SeatsAfterStep(teams[t], t, p, first, g, k); }
    }
  }

  /** Winner and loser of the new score, whichever seat was reported first. */
  lemma WinnerAndLoser(tm: Team, p: nat, first: bool, g: Game, d: Duel)
    requires Sound(tm) && p < 4 && !Decided(tm.duels[p])
    requires Step(tm, p, first, g).duels[p] == if first then d else Swap(d)
    ensures !BothWin(d)
    ensures Decided(d) ==>
              var tm' := Step(tm, p, first, g);
              var e1 := SeatEid(tm, if first then SeatA(p) else SeatB(p));
              var e2 := SeatEid(tm, if first then SeatB(p) else SeatA(p));
              && PairWinner(tm', p) == (if AWins(d) then e1 else e2)
              && PairLoser(tm', p) == (if AWins(d) then e2 else e1)
  {
    var tm' := Step(tm, p, first, g);
    SeatsAfterStep(tm, 0, p, first, g, SeatA(p));
    SeatsAfterStep(tm, 0, p, first, g, SeatB(p));
    assert PairSound(tm, p);
    assert Fair(tm'.duels[p]) by { if Counts(g) { FairStep(tm.duels[p], first, g); } }
  }

  predicate SameTail(s: seq<Record>, s': seq<Record>, from: nat) {
    |s'| == |s| && forall k :: from <= k < |s| ==> s'[k] == s[k]
  }

  /** Neither write goes beyond the three rounds. */
  lemma TailKept(s: seq<Record>, n: nat, t: nat, p: nat, d: Duel)
    requires 4 * t + 4 <= n && 3 * n <= |s| && p < PAIRINGS
    ensures SameTail(s, Scored(s, n, t, p, d), 3 * n)
    ensures p < 4 ==> forall winner, loser :: SameTail(s, SentOn(Scored(s, n, t, p, d), n, t, p, winner, loser), 3 * n)
  {
    PosInjective(n, t, SeatA(p), t, SeatB(p));
    PosInjective(n, t, SeatB(p), t, SeatA(p));
    if p < 4 {
      PosInjective(n, t, FeedSeat(p, true), t, FeedSeat(p, false));
      PosInjective(n, t, FeedSeat(p, false), t, FeedSeat(p, true));
    }
  }

  /** Writing the scores, and on a decision the seats the pairing feeds, shows the new groups. */
  lemma PairingRewritten(s: seq<Record>, n: nat, teams: seq<Team>, t: nat, p: nat, first: bool, g: Game, d: Duel)
    requires Rendered(s, n, teams) && SoundStage(teams) && t < |teams| && p < PAIRINGS
    requires p < 4 ==> !Decided(teams[t].duels[p])
    requires Step(teams[t], p, first, g).duels[p] == if first then d else Swap(d)
    ensures var tm' := Step(teams[t], p, first, g);
            var e1 := SeatEid(teams[t], if first then SeatA(p) else SeatB(p));
            var e2 := SeatEid(teams[t], if first then SeatB(p) else SeatA(p));
            var s1 := Scored(s, n, t, p, tm'.duels[p]);
            var winner, loser := if AWins(d) then e1 else e2, if AWins(d) then e2 else e1;
            var s2 := if p < 4 && Decided(d) then SentOn(s1, n, t, p, winner, loser)
                      else s1;
            Rendered(s2, n, teams[t := tm']) && SameTail(s, s2, 3 * n)
    ensures p < 4 ==> !BothWin(d)
    ensures BothWin(PlayAs(teams[t].duels[p], first, g)) == BothWin(d)
  {
    RenderedAfterReport(s, n, teams, t, p, first, g);
    TailKept(s, n, t, p, Step(teams[t], p, first, g).duels[p]);
    if p < 4 { WinnerAndLoser(teams[t], p, first, g, d); }
  }

  /** A report for one team changes no record of any other team. */
  lemma OtherTeamsUntouched(s: seq<Record>, s': seq<Record>, n: nat, teams: seq<Team>, r: Report, u: nat, k: nat)
    requires SoundStage(teams) && r.eid1 != r.eid2 && Rendered(s, n, teams) && Rendered(s', n, After(teams, r))
    requires u < |teams| && k < SEATS
    requires var v := TeamVerdict(teams, r.eid1, r.eid2); v.Accept? ==> v.team != u
    ensures s'[Pos(n, u, k)] == s[Pos(n, u, k)]
  {
    assert s[Pos(n, u, k)] == Seat(teams[u], u, k);
    assert s'[Pos(n, u, k)] == Seat(After(teams, r)[u], u, k);
  }
}

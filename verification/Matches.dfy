/** The match as the server keeps it: two flat record arrays updated in place. */
module Matches {
  import opened Duels
  import opened Groups
  import opened TeamStages
  import opened Rosters
  import opened EliStages
  import opened Layouts
  import opened Reports
  import opened Openings
  import B = Brackets

  const MAX_MATCH_PLAYER: nat := 1024
  const MAX_RECORD: nat := 3072

  const STATUS_READY := 0
  const STATUS_ROUND_END := 2

  class Match {
    var maxPlayer: int
    var status: int
    var round: int
    const players: array<Record>
    const ePlayers: array<Record>
    ghost var teams: seq<Team>
    ghost var bracket: B.Bracket

    ghost predicate Allocated() {
      players.Length == MAX_RECORD && ePlayers.Length == MAX_MATCH_PLAYER && players != ePlayers
    }

    ghost predicate Shape()
      reads this
    {
      Allocated() && 0 <= maxPlayer <= MAX_MATCH_PLAYER && maxPlayer % 4 == 0
    }

    ghost predicate Zeroed()
      reads this, players, ePlayers
    {
      && Allocated()
      && (forall i :: 0 <= i < MAX_RECORD ==> players[i] == NOBODY)
      && (forall i :: 0 <= i < MAX_MATCH_PLAYER ==> ePlayers[i] == NOBODY)
    }

    /** Open for applications: no scores, and nobody behind the roster. */
    ghost predicate Applying()
      reads this, players
    {
      && Shape()
      && (forall i :: 0 <= i < MAX_RECORD ==> players[i].score == ZERO)
      && (forall i :: maxPlayer <= i < MAX_RECORD ==> players[i].eid == 0)
    }

    /** The applicants in list order. */
    ghost function Roster(): seq<int>
      requires Shape()
      reads this, players
    {
      Eids(players[..], maxPlayer)
    }

    ghost predicate TeamValid()
      reads this, players
    {
      Shape() && Rendered(players[..], maxPlayer, teams) && SoundStage(teams)
    }

    /** Elimination records no report has been made on. */
    ghost predicate EliBlank()
      requires Shape()
      reads this, ePlayers
    {
      Blank(ePlayers[..], maxPlayer)
    }

    ghost predicate EliValid()
      reads this, ePlayers
    {
      Shape() && BracketRendered(ePlayers[..], maxPlayer, bracket) && B.SoundBracket(bracket)
    }

    /** A zeroed match. */
    constructor ()
      ensures Zeroed() && maxPlayer == 0 && status == STATUS_READY && round == 0
      ensures fresh(players) && fresh(ePlayers)
    {
      maxPlayer, status, round := 0, STATUS_READY, 0;
      players := new Record[MAX_RECORD](_ => NOBODY);
      ePlayers := new Record[MAX_MATCH_PLAYER](_ => NOBODY);
    }

    /** Any multiple of four is taken as the size, whether or not the arrays can hold it; it is set even
        when a negative round time is refused afterwards. */
    method Create(size: int, roundTimes: seq<int>) returns (ret: int)
      requires Allocated()
      modifies this`maxPlayer, this`status
      ensures ret == if size % 4 == 0 && (forall i :: 0 <= i < |roundTimes| ==> roundTimes[i] >= 0) then 0 else -5
      ensures maxPlayer == if size % 4 == 0 then size else old(maxPlayer)
      ensures status == if ret == 0 then 0 else old(status)
      ensures size % 4 == 0 ==> (Shape() <==> 0 <= size <= 1024)
      ensures Zeroed() <==> old(Zeroed())
      ensures Zeroed() && Shape() ==> Applying() && EliBlank() && forall i :: 0 <= i < maxPlayer ==> Roster()[i] == 0
    {
      if size % 4 != 0 { return -5; }
      maxPlayer := size;
      for i := 0 to |roundTimes|
        invariant forall j :: 0 <= j < i ==> roundTimes[j] >= 0
      {
        if roundTimes[i] < 0 { return -5; }
      }
      status := STATUS_READY;
      ret := 0;
    }

    // ----- applications

    method Apply(eid: int) returns (ret: int)
      requires Applying()
      modifies players
      ensures Applying()
      ensures var r := old(Roster());
              ret == if status != 0 then -6
                     else if Accepted(r, eid) then 0
                     else if Stop(r, eid) < |r| then -9 else -16
      ensures status == 0 ==> forall k ::
                && 0 <= k < maxPlayer && (old(Roster())[k] == eid || old(Roster())[k] == 0)
                && (forall j :: 0 <= j < k ==> old(Roster())[j] != eid && old(Roster())[j] != 0) ==>
                if old(Roster())[k] == eid then ret == -9
                else ret == 0 && players[..] == old(players[..])[k := old(players[k]).(eid := eid)]
      ensures status == 0 && (forall j :: 0 <= j < maxPlayer ==> old(Roster())[j] != eid && old(Roster())[j] != 0) ==>
                ret == -16
      ensures var r := old(Roster()); Roster() == if ret == 0 then r[Stop(r, eid) := eid] else r
      ensures ret != 0 ==> players[..] == old(players[..])
      ensures ret == 0 && old(NoDuplicates(Roster())) ==>
                (NoDuplicates(Roster()) <==> eid !in old(Roster()[Stop(Roster(), eid)..]))
    {
      if status != STATUS_READY { return -6; }
      ghost var r := Roster();
      var i := 0;
      while i < maxPlayer
        invariant 0 <= i <= maxPlayer && i <= Stop(r, eid)
        invariant players[..] == old(players[..])
      {
        if players[i].eid == eid { return -9; }
        if players[i].eid == 0 {
          players[i] := players[i].(eid := eid);
          assert Roster() == r[i := eid];
          if NoDuplicates(r) { ApplyKeepsNoDuplicates(r, eid); }
          return 0;
        }
        i := i + 1;
      }
      return -16;
    }

    /** Frees the player's first entry; its only one, on a list without duplicates. */
    method Cancel(eid: int) returns (ret: int)
      requires Applying()
      modifies players
      ensures Applying()
      ensures ret == if status != 0 then -6 else if eid in old(Roster()) then 0 else -5
      ensures ret == 0 ==> forall k :: 0 <= k < maxPlayer && old(Roster())[k] == eid && eid !in old(Roster())[..k] ==>
                players[..] == old(players[..])[k := Record(0, 0, 0, 0, Tally(0, 0, 0, 0))]
      ensures ret != 0 ==> players[..] == old(players[..])
      ensures ret == 0 ==> Roster() == old(Roster()[IndexOf(Roster(), eid) := 0])
      ensures ret == 0 && eid != 0 && old(NoDuplicates(Roster())) ==> NoDuplicates(Roster()) && eid !in Roster()
    {
      if status != STATUS_READY { return -6; }
      ghost var r := Roster();
      var i := 0;
      while i < maxPlayer
        invariant 0 <= i <= maxPlayer && players[..] == old(players[..])
        invariant forall j :: 0 <= j < i ==> r[j] != eid
      {
        if players[i].eid == eid {
          players[i] := NOBODY;
          assert Roster() == r[i := 0];
          if NoDuplicates(r) && eid != 0 { CancelRemoves(r, i); }
          return 0;
        }
        i := i + 1;
      }
      return -5;
    }

    // ----- team stage

    /** The random exchanges both stages use to shuffle the first `n` records. */
    static method Shuffle(a: array<Record>, n: nat)
      requires n <= a.Length
      modifies a
      ensures multiset(a[..n]) == old(multiset(a[..n]))
      ensures multiset(Eids(a[..], n)) == old(multiset(Eids(a[..], n)))
      ensures forall i :: n <= i < a.Length ==> a[i] == old(a[i])
    {
      var i := 0;
      ghost var s := a[..];
      assert a[..n] == s[..n];
      while i < n
        invariant 0 <= i <= n
        invariant multiset(a[..][..n]) == multiset(s[..n]) && multiset(Eids(a[..], n)) == multiset(Eids(s, n))
        invariant a[..][n..] == s[n..]
      {
        var pos :| i <= pos < n;
        ExchangeKeeps(a[..], n, i, pos);
        Exchange(a, i, pos);
        i := i + 1;
      }
      assert a[..n] == a[..][..n];
      assert forall i :: n <= i < a.Length ==> a[i] == a[..][n..][i - n] && s[i] == s[n..][i - n];
    }

    static method Exchange(a: array<Record>, i: nat, pos: nat)
      requires i < a.Length && pos < a.Length
      modifies a
      ensures a[..] == old(a[..][i := a[pos]][pos := a[i]])
    {
      var tmp := a[i];
      a[i] := a[pos];
      a[pos] := tmp;
    }

    /** Proper groups come out exactly when the roster lists different real players. */
    method TeamInit() returns (ret: int)
      requires Applying()
      modifies players, this`status, this`round, this`teams
      ensures multiset(Roster()) == old(multiset(Roster()))
      ensures ret == if 0 in old(Roster()) then -3 else 0
      ensures ret != 0 ==> Applying() && status == old(status) && round == old(round)
      ensures ret == 0 ==> Rendered(players[..], maxPlayer, teams) && teams == Draw(Roster())
      ensures ret == 0 ==> (TeamValid() <==> old(DistinctPlayers(Roster()))) && (TeamValid() ==> FreshStage(teams))
      ensures ret == 0 ==> status == 2 && round == 0
      ensures ret == 0 ==> AllOpened(players[..], maxPlayer, Roster())
      ensures forall k :: 3 * maxPlayer <= k < MAX_RECORD ==> players[k] == old(players[k]).(tid := -1)
    {
      ghost var before := Roster();
      ShuffleRoster();
      ghost var roster := Roster();
      ret := PlaceTeams();
      assert Roster() == roster;
      if ret != 0 { return; }
      round := 0;
      status := STATUS_ROUND_END;
      teams := Draw(roster);
      DrawIsProper(before, roster);
      DrawOpensAll(players[..], maxPlayer, roster);
    }

    method ShuffleRoster()
      requires Applying()
      modifies players
      ensures Applying()
      ensures multiset(Roster()) == old(multiset(Roster()))
      ensures 0 in Roster() <==> 0 in old(Roster())
      ensures forall i :: maxPlayer <= i < MAX_RECORD ==> players[i] == old(players[i]).(tid := -1)
    {
      ClearTids();
      ghost var before, s := Roster(), players[..];
      assert before == old(Roster());
      Shuffle(players, maxPlayer);
      ZeroScores(s, players[..], maxPlayer);
      assert 0 in Roster() <==> 0 in multiset(Roster());
      assert 0 in before <==> 0 in multiset(before);
    }

    /** Fills the three rounds from the roster in list order. */
    method PlaceTeams() returns (ret: int)
      requires Shape()
      requires forall i :: 0 <= i < MAX_RECORD ==> players[i].score == ZERO
      requires forall i :: maxPlayer <= i < MAX_RECORD ==> players[i].eid == 0 && players[i].tid == -1
      modifies players
      ensures forall i :: 0 <= i < maxPlayer ==>
                players[i].eid == old(players[i]).eid && players[i].score == old(players[i]).score
      ensures ret == if 0 in old(Eids(players[..], maxPlayer)) then -3 else 0
      ensures ret != 0 ==> forall i :: maxPlayer <= i < MAX_RECORD ==> players[i] == old(players[i])
      ensures forall i :: 3 * maxPlayer <= i < MAX_RECORD ==> players[i] == old(players[i])
      ensures ret == 0 ==> Rendered(players[..], maxPlayer, Draw(old(Eids(players[..], maxPlayer))))
    {
      ghost var roster := Eids(players[..], maxPlayer);
      ret := SeatFirstRound();
      if ret != 0 { return; }
      ghost var s := players[..];
      ReserveSecondRound();
      ghost var s2 := players[..];
      assert forall j :: 2 * maxPlayer <= j < 3 * maxPlayer ==> s2[j] == s[j];
      ReserveThirdRound();
      BothRoundsReserved(s, maxPlayer, roster);
    }

    method ClearTids()
      requires Shape()
      modifies players
      ensures forall i :: 0 <= i < MAX_RECORD ==> players[i] == old(players[i]).(tid := -1)
    {
      for i := 0 to MAX_RECORD
        invariant forall j :: 0 <= j < i ==> players[j] == old(players[j]).(tid := -1)
        invariant forall j :: i <= j < MAX_RECORD ==> players[j] == old(players[j])
      {
        players[i] := players[i].(tid := -1);
      }
    }

    /** Seats the roster in list order; stops at a free slot. */
    method SeatFirstRound() returns (ret: int)
      requires Shape()
      modifies players
      ensures ret == if exists i :: 0 <= i < maxPlayer && old(players[i]).eid == 0 then -3 else 0
      ensures forall i :: 0 <= i < MAX_RECORD ==>
                players[i].eid == old(players[i]).eid && players[i].score == old(players[i]).score
      ensures forall i :: maxPlayer <= i < MAX_RECORD ==> players[i] == old(players[i])
      ensures ret == 0 ==> forall i :: 0 <= i < maxPlayer ==>
                players[i] == Record(old(players[i]).eid, 1, i / 4 + 1, i % 2, old(players[i]).score)
    {
      for i := 0 to maxPlayer
        invariant forall j :: 0 <= j < i ==> old(players[j]).eid != 0
        invariant forall j :: 0 <= j < i ==>
                    players[j] == Record(old(players[j]).eid, 1, j / 4 + 1, j % 2, old(players[j]).score)
        invariant forall j :: i <= j < MAX_RECORD ==> players[j] == old(players[j])
      {
        if players[i].eid == 0 { return -3; }
        players[i] := players[i].(round := 1, teamId := i / 4 + 1, tid := i % 2);
      }
      return 0;
    }

    method ReserveSecond(i: nat)
      requires Shape() && 4 * i + 4 <= maxPlayer
      requires forall j :: maxPlayer + 4 * i <= j < maxPlayer + 4 * i + 4 ==> players[j].score == ZERO
      modifies players
      ensures players[..] == FourWritten(old(players[..]), maxPlayer + 4 * i, i, 4)
    {
      var p := maxPlayer + 4 * i;
      players[p] := players[p].(round := 2, tid := 1, eid := -201, teamId := i + 1);
      players[p + 1] := players[p + 1].(round := 2, tid := 1, eid := -211, teamId := i + 1);
      players[p + 2] := players[p + 2].(round := 2, tid := 0, eid := -101, teamId := i + 1);
      players[p + 3] := players[p + 3].(round := 2, tid := 0, eid := -111, teamId := i + 1);
    }

    /** The last slot of round 3 is nobody's: it keeps eid 0 and tid -1. */
    method ReserveThird(i: nat)
      requires Shape() && 4 * i + 4 <= maxPlayer
      requires forall j :: 2 * maxPlayer + 4 * i <= j < 2 * maxPlayer + 4 * i + 4 ==> players[j].score == ZERO
      requires players[2 * maxPlayer + 4 * i + 3].eid == 0 && players[2 * maxPlayer + 4 * i + 3].tid == -1
      modifies players
      ensures players[..] == FourWritten(old(players[..]), 2 * maxPlayer + 4 * i, i, 8)
    {
      var p := 2 * maxPlayer + 4 * i;
      players[p] := players[p].(round := 3, tid := 0, eid := -202, teamId := i + 1);
      players[p + 1] := players[p + 1].(round := 3, tid := 0, eid := -112, teamId := i + 1);
      players[p + 2] := players[p + 2].(round := 3, tid := 1, eid := -212, teamId := i + 1);
      players[p + 3] := players[p + 3].(round := 3, teamId := i + 1);
    }

    method ReserveSecondRound()
      requires Shape()
      requires forall i :: maxPlayer <= i < 2 * maxPlayer ==> players[i].score == ZERO
      modifies players
      ensures players[..] == RowsReserved(old(players[..]), maxPlayer, maxPlayer / 4, 4)
    {
      ghost var s := players[..];
      NoRowReserved(s, maxPlayer, 4);
      for i := 0 to maxPlayer / 4
        invariant players[..] == RowsReserved(s, maxPlayer, i, 4)
      {
        RowReserved(s, maxPlayer, i, 4);
        assert forall j :: maxPlayer + 4 * i <= j < maxPlayer + 4 * i + 4 ==> players[..][j] == s[j];
        ReserveSecond(i);
      }
    }

    method ReserveThirdRound()
      requires Shape()
      requires forall i :: 2 * maxPlayer <= i < 3 * maxPlayer ==>
                 players[i].score == ZERO && players[i].eid == 0 && players[i].tid == -1
      modifies players
      ensures players[..] == RowsReserved(old(players[..]), 2 * maxPlayer, maxPlayer / 4, 8)
    {
      ghost var s := players[..];
      NoRowReserved(s, 2 * maxPlayer, 8);
      for i := 0 to maxPlayer / 4
        invariant players[..] == RowsReserved(s, 2 * maxPlayer, i, 8)
      {
        RowReserved(s, 2 * maxPlayer, i, 8);
        assert forall j :: 2 * maxPlayer + 4 * i <= j < 2 * maxPlayer + 4 * i + 4 ==> players[..][j] == s[j];
        ReserveThird(i);
      }
    }

    /** The scan all result and next functions start with: of the records of `eid`, the first with the
        largest round. */
    static method FindLatest(a: array<Record>, limit: nat, eid: int) returns (at: int)
      requires limit <= a.Length
      ensures -1 <= at < limit
      ensures at == -1 ==> forall j :: 0 <= j < limit ==> a[j].eid != eid || a[j].round <= 0
      ensures at >= 0 ==> a[at].eid == eid && a[at].round > 0
      ensures at >= 0 ==> forall j :: 0 <= j < limit && a[j].eid == eid ==>
                a[j].round < a[at].round || (a[j].round == a[at].round && at <= j)
    {
      var maxRound := 0;
      at := -1;
      for i := 0 to limit
        invariant -1 <= at < i && maxRound >= 0
        invariant at == -1 ==> maxRound == 0
        invariant at >= 0 ==> a[at].eid == eid && a[at].round == maxRound > 0
        invariant forall j :: 0 <= j < i && a[j].eid == eid ==>
                    a[j].round < maxRound || (a[j].round == maxRound && at <= j)
      {
        if a[i].eid == eid && a[i].round > maxRound {
          maxRound := a[i].round;
          at := i;
        }
      }
    }

    /** One game's counters, written to the two records of a pairing. */
    static method ScoreTwo(a: array<Record>, at1: nat, at2: nat, g: Game) returns (d: Duel)
      requires at1 < a.Length && at2 < a.Length
      modifies a
      ensures d == Duel(a[at1].score, a[at2].score)
      ensures at1 != at2 ==>
                && d == Play(Duel(old(a[at1].score), old(a[at2].score)), g)
                && a[..] == ScoredTwo(old(a[..]), at1, at2, g)
      ensures at1 == at2 ==> a[..] == SelfWritten(old(a[..]), at1, g)
    {
      if g.winner == 1 {
        AddGame(a, at1, Tally(1, 0, 0, 3));
        AddGame(a, at2, Tally(0, 1, 0, 0));
      } else if g.winner == 2 {
        AddGame(a, at1, Tally(0, 1, 0, 0));
        AddGame(a, at2, Tally(1, 0, 0, 3));
      } else if g.winner == 9 && g.upper == 1 {
        AddGame(a, at1, Tally(0, 0, 1, 1));
        AddGame(a, at2, Tally(0, 0, 1, 2));
      } else if g.winner == 9 && g.upper == 2 {
        AddGame(a, at1, Tally(0, 0, 1, 2));
        AddGame(a, at2, Tally(0, 0, 1, 1));
      }
      d := Duel(a[at1].score, a[at2].score);
    }

    static method AddGame(a: array<Record>, at: nat, t: Tally)
      requires at < a.Length
      modifies a
      ensures a[..] == old(a[..][at := a[at].(score := Plus(a[at].score, t))])
    {
      a[at] := a[at].(score := Plus(a[at].score, t));
    }

    /** The four-slot search for a placeholder; -1 stands for the empty player. */
    method GetPlayer(eid: int, round: int, teamId: int) returns (at: int)
      requires Shape() && 1 <= round <= 3 && 1 <= teamId && 4 * teamId <= maxPlayer
      ensures var start := SlotStart(maxPlayer, round, teamId);
              && (at == -1 ==> forall j :: start <= j < start + 4 ==>
                    !(players[j].eid == eid && players[j].round == round && players[j].teamId == teamId))
              && (at != -1 ==> start <= at < start + 4 && players[at].eid == eid)
    {
      assert round == 1 || round == 2 || round == 3;
      var start := (round - 1) * maxPlayer + (teamId - 1) * 4;
      assert start == SlotStart(maxPlayer, round, teamId);
      for i := 0 to 4
        invariant forall j :: start <= j < start + i ==>
                    !(players[j].eid == eid && players[j].round == round && players[j].teamId == teamId)
      {
        var p := players[start + i];
        if p.eid == eid && p.round == round && p.teamId == teamId { return start + i; }
      }
      return -1;
    }

    /** One report of the team stage, whatever the eids. A rejected one changes nothing. One that names
        two eids is a step of their pairing, and one that names an eid twice goes to a single record.
        Of the counted reports let through, exactly those that name two players leave a valid stage. */
    method TeamResult(eid1: int, eid2: int, winner: int, upper: int) returns (ret: int)
      requires TeamValid()
      modifies players, this`teams
      ensures old(GuardCode(teams, eid1, eid2)) != 0 ==>
                ret == old(GuardCode(teams, eid1, eid2)) && teams == old(teams) && players[..] == old(players[..])
      ensures eid1 != eid2 ==>
                && teams == old(Played(teams, Report(eid1, eid2, Game(winner, upper))))
                && ret == old(PlayedCode(teams, Report(eid1, eid2, Game(winner, upper))))
                && Rendered(players[..], maxPlayer, teams)
      ensures old(GuardCode(teams, eid1, eid2)) == 0 && eid1 == eid2 ==>
                var at := old(SeatPos(eid1));
                && teams == old(teams) && players[..] == SelfWritten(old(players[..]), at, Game(winner, upper))
                && ret == if players[at].score.point >= WINNING_POINTS then -7 else 0
      ensures TwoPlayers(eid1, eid2) ==>
                && teams == old(After(teams, Report(eid1, eid2, Game(winner, upper))))
                && ret == old(ReturnCode(teams, Report(eid1, eid2, Game(winner, upper))))
      ensures TeamValid() <==>
                old(GuardCode(teams, eid1, eid2)) != 0 || TwoPlayers(eid1, eid2) || !Counts(Game(winner, upper))
      ensures TeamAnswer(old(players[..]), players[..], maxPlayer, eid1, eid2, winner, upper, ret)
    {
      ghost var r, s, before := Report(eid1, eid2, Game(winner, upper)), players[..], teams;
      if TwoPlayers(eid1, eid2) { PlayedByPlayers(teams, r); }
      var code, at1, at2 := CheckReport(eid1, eid2);
      if code != 0 {
        ret := code;
      } else {
        ret := PlayLetThrough(eid1, eid2, at1, at2, Game(winner, upper), r);
        ValidIffPlayers(s, maxPlayer, before, r, players[..], teams);
      }
      TeamAnswered(s, players[..], maxPlayer, before, r, ret);
    }

    /** The report behind the guards, on the records they have found. */
    method PlayLetThrough(eid1: int, eid2: int, at1: nat, at2: nat, g: Game, ghost r: Report) returns (ret: int)
      requires TeamValid() && GuardCode(teams, eid1, eid2) == 0 && at1 < 3 * maxPlayer && at2 < 3 * maxPlayer
      requires r == Report(eid1, eid2, g)
      requires at1 == Pos(maxPlayer, LatestSeat(teams, eid1).0, LatestSeat(teams, eid1).1)
      requires at2 == Pos(maxPlayer, LatestSeat(teams, eid2).0, LatestSeat(teams, eid2).1)
      modifies players, this`teams
      ensures eid1 != eid2 ==>
                && teams == Played(old(teams), r) && Rendered(players[..], maxPlayer, teams)
                && ret == PlayedCode(old(teams), r)
      ensures eid1 == eid2 ==>
                && teams == old(teams) && players[..] == SelfWritten(old(players[..]), at1, g)
                && ret == if players[at1].score.point >= WINNING_POINTS then -7 else 0
      ensures SameTail(old(players[..]), players[..], 3 * maxPlayer)
    {
      ghost var t, p, first, teams' := 0, 0, true, teams;
      if eid1 != eid2 {
        t, p, first := PlayedOnPairing(maxPlayer, teams, r);
        teams' := Played(teams, r);
      }
      ret := PlayPairing(at1, at2, g, t, p, first);
      teams := teams';
    }

    /** The record of the latest seat of `eid`. */
    ghost function SeatPos(eid: int): (at: nat)
      requires TeamValid() && Seated(teams, eid)
      reads this, players
      ensures at < MAX_RECORD
    {
      PosInjective(maxPlayer, LatestSeat(teams, eid).0, LatestSeat(teams, eid).1, 0, 0);
      Pos(maxPlayer, LatestSeat(teams, eid).0, LatestSeat(teams, eid).1)
    }

    /** The guards: find the latest records of both eids and compare team, round and tid. */
    method CheckReport(eid1: int, eid2: int) returns (code: int, at1: int, at2: int)
      requires TeamValid()
      ensures code == GuardCode(teams, eid1, eid2)
      ensures code == 0 ==> Seated(teams, eid1) && Seated(teams, eid2)
      ensures code == 0 ==> 0 <= at1 < 3 * maxPlayer && 0 <= at2 < 3 * maxPlayer
      ensures code == 0 ==> at1 == SeatPos(eid1) && at2 == SeatPos(eid2)
    {
      at1 := FindLatest(players, 3 * maxPlayer, eid1);
      at2 := FindLatest(players, 3 * maxPlayer, eid2);
      code := 0;
      if at1 == -1 {
        ScanFindsNobody(players[..], maxPlayer, teams, eid1);
        code := -3;
        return;
      }
      ScanFindsSeat(players[..], maxPlayer, teams, eid1, at1);
      if at2 == -1 {
        ScanFindsNobody(players[..], maxPlayer, teams, eid2);
        code := -13;
        return;
      }
      ScanFindsSeat(players[..], maxPlayer, teams, eid2, at2);
      if players[at1].teamId != players[at2].teamId { code := -6; }
      else if players[at1].round != players[at2].round { code := -16; }
      else if players[at1].tid != players[at2].tid { code := -26; }
    }

    /** The next opponent of the team stage, for any eid; None where there is nobody to face. */
    method TeamNext(eid: int) returns (ret: int, opponent: Opponent)
      requires TeamValid()
      ensures ret == if Seated(teams, eid) then 0 else -3
      ensures opponent == NextOpponent(teams, eid)
      ensures TeamNextAnswer(players[..], maxPlayer, eid, ret, opponent)
    {
      ret, opponent := FaceLatest(eid);
      TeamNextAnswered(players[..], maxPlayer, teams, eid);
    }

    method FaceLatest(eid: int) returns (ret: int, opponent: Opponent)
      requires TeamValid()
      ensures ret == if Seated(teams, eid) then 0 else -3
      ensures opponent == NextOpponent(teams, eid)
    {
      var at := FindLatest(players, 3 * maxPlayer, eid);
      opponent := None;
      if at == -1 {
        ScanFindsNobody(players[..], maxPlayer, teams, eid);
        return -3, None;
      }
      ScanFindsSeat(players[..], maxPlayer, teams, eid, at);
      ghost var seat := LatestSeat(teams, eid);
      var player := players[at];
      assert player.round == 1 || player.round == 2 || player.round == 3;
      var start := (player.round - 1) * maxPlayer + (player.teamId - 1) * 4;
      assert start == SlotStart(maxPlayer, player.round, seat.0 + 1);
      var facing := FindFacing(start, eid, player.round, player.tid);
      FacingFound(players[..], seat.0, seat.1, facing);
      if facing == -1 { return 0, None; }  // only in round 3: the "no such opponent" return is never taken
      return 0, Some(players[facing]);
    }

    /** The four-slot search for somebody else in the same round and tid. */
    method FindFacing(start: nat, eid: int, round: int, tid: int) returns (at: int)
      requires start + 4 <= players.Length
      ensures at == -1 ==> forall j :: start <= j < start + 4 ==>
                !(players[j].eid != eid && players[j].round == round && players[j].tid == tid)
      ensures at != -1 ==> start <= at < start + 4
      ensures at != -1 ==> players[at].eid != eid && players[at].round == round && players[at].tid == tid
    {
      for i := 0 to 4
        invariant forall j :: start <= j < start + i ==>
                    !(players[j].eid != eid && players[j].round == round && players[j].tid == tid)
      {
        var tmp := players[start + i];
        if tmp.eid != eid && tmp.round == round && tmp.tid == tid { return start + i; }
      }
      return -1;
    }

    /** That search finds the seat facing `c`, or nothing for seats 10 and 11. */
    lemma FacingFound(s: seq<Record>, t: nat, c: nat, at: int)
      requires Shape() && Rendered(s, maxPlayer, teams) && SoundStage(teams) && t < |teams| && c < SEATS
      requires var start := SlotStart(maxPlayer, SeatRound(c), t + 1);
               var e := SeatEid(teams[t], c);
               && (at == -1 ==> forall j :: start <= j < start + 4 ==>
                    !(s[j].eid != e && s[j].round == SeatRound(c) && s[j].tid == SeatTid(c)))
               && (at != -1 ==> start <= at < start + 4 && s[at].eid != e && s[at].tid == SeatTid(c))
      ensures at == -1 <==> c >= 10
      ensures at != -1 ==> s[at] == Seat(teams[t], t, Facing(c))
    {
      assert c < 10 ==> s[Pos(maxPlayer, t, Facing(c))] == Seat(teams[t], t, Facing(c));
      if at != -1 {
        var k := 4 * (SeatRound(c) - 1) + (at - SlotStart(maxPlayer, SeatRound(c), t + 1));
        assert Pos(maxPlayer, t, k) == at && s[at] == Seat(teams[t], t, k);
        SameRoundAndTid(c, k);
      } else if c < 10 {
        FacingIsOther(teams[t], c);
        assert false;
      }
    }

    /** Writing scores leaves every seat in place. */
    lemma StillInPlace(s: seq<Record>, t: nat, tm: Team)
      requires Shape() && Rendered(s, maxPlayer, teams) && t < |teams| && tm == teams[t] && |s| == MAX_RECORD
      requires var s' := players[..]; forall i :: 0 <= i < |s| ==> s'[i] == s[i].(score := s'[i].score)
      ensures InPlace(t, tm)
    {
      forall k | 0 <= k < SEATS ensures var r := players[Pos(maxPlayer, t, k)];
        r.eid == SeatEid(tm, k) && r.round == SeatRound(k) && r.teamId == t + 1
      {
        var i := Pos(maxPlayer, t, k);
        assert s[i] == Seat(tm, t, k) && players[..][i] == players[i];
      }
    }

    /** Both seats of a pairing carry its round, tid and scores. */
    lemma PairPlace(tm: Team, t: nat, p: nat)
      requires p < PAIRINGS
      ensures forall k :: k == SeatA(p) || k == SeatB(p) ==>
                var r := Seat(tm, t, k);
                r.tid == PairTid(p) && r.round == PairRound(p) && r.teamId == t + 1 && r.eid == SeatEid(tm, k)
      ensures Seat(tm, t, SeatA(p)).score == tm.duels[p].a && Seat(tm, t, SeatB(p)).score == tm.duels[p].b
      ensures PairRound(p) < 3 <==> p < 4
      ensures PairRound(p) == 2 && PairTid(p) == 0 <==> p == 3
      ensures PairRound(p) == 2 && PairTid(p) == 1 <==> p == 2
    {
      PairOfSeat(SeatA(p));
      PairOfSeat(SeatB(p));
    }

    /** Puts the decided pairing's players on the two reserved seats of the next round, found by
        their placeholders; the loser of the losers' pairing goes nowhere. */
    method SendOn(winner: int, loser: int, tid: int, round: int, teamId: int, ghost w: nat, ghost l: nat)
      requires Shape() && (round == 1 || round == 2) && 1 <= teamId && 4 * teamId <= maxPlayer
      requires IsReserved(w, FakeEid(true, tid, round), round + 1, teamId)
      requires (round == 2 && tid == 0) || IsReserved(l, FakeEid(false, tid, round), round + 1, teamId)
      modifies players
      ensures var r := old(players[w]);
              players[w] == r.(eid := winner,
                               score := if round == 2 && tid == 1 then r.score.(win := 2, point := 6) else r.score)
      ensures !(round == 2 && tid == 0) ==> players[l] == old(players[l]).(eid := loser)
      ensures forall j :: 0 <= j < MAX_RECORD && j != w && (j != l || (round == 2 && tid == 0)) ==>
                players[j] == old(players[j])
    {
      var at := GetPlayer(-(2 * 100 + tid * 10 + round), round + 1, teamId);
      assert at == w;  // so the "no such player" return is never taken
      if round == 2 && tid == 0 {
        players[at] := players[at].(eid := winner);
        return;
      }
      var at' := GetPlayer(-(1 * 100 + tid * 10 + round), round + 1, teamId);
      assert at' == l && at != at';
      players[at] := players[at].(eid := winner);
      if round == 2 && tid == 1 { players[at] := players[at].(score := players[at].score.(win := 2, point := 6)); }
      players[at'] := players[at'].(eid := loser);
    }

    /** `w` is the one record of the team's next round that carries this placeholder. */
    ghost predicate IsReserved(w: nat, fake: int, round: int, teamId: int)
      requires Shape() && 1 <= round <= 3 && 1 <= teamId && 4 * teamId <= maxPlayer
      reads this, players
    {
      var start := SlotStart(maxPlayer, round, teamId);
      && start <= w < start + 4 && w < MAX_RECORD && start + 4 <= MAX_RECORD
      && players[w].round == round && players[w].teamId == teamId && players[w].eid == fake
      && forall j :: start <= j < start + 4 && players[j].eid == fake ==> j == w
    }

    /** Eid, round and team of every seat of a team, whatever its scores. */
    ghost predicate InPlace(t: nat, tm: Team)
      requires Shape() && 4 * t + 4 <= maxPlayer
      reads this, players
    {
      forall k :: 0 <= k < SEATS ==>
        var r := players[Pos(maxPlayer, t, k)];
        r.eid == SeatEid(tm, k) && r.round == SeatRound(k) && r.teamId == t + 1
    }

    /** The seat a pairing feeds is the reserved one, as long as the pairing is open. */
    lemma FedSeatIsReserved(t: nat, tm: Team, p: nat, won: bool)
      requires Shape() && 4 * t + 4 <= maxPlayer && p < 4 && (p == 3 ==> won)
      requires Sound(tm) && !Decided(tm.duels[p]) && InPlace(t, tm)
      ensures IsReserved(Pos(maxPlayer, t, FeedSeat(p, won)), FakeEid(won, PairTid(p), PairRound(p)),
                         PairRound(p) + 1, t + 1)
    {
      var r := PairRound(p) + 1;
      var start := SlotStart(maxPlayer, r, t + 1);
      Placeholders(tm, p, won, FeedSeat(p, won));
      forall j | start <= j < start + 4 && players[j].eid == FakeEid(won, PairTid(p), PairRound(p))
        ensures j == Pos(maxPlayer, t, FeedSeat(p, won))
      {
        var k := 4 * (r - 1) + (j - start);
        assert Pos(maxPlayer, t, k) == j;
        Placeholders(tm, p, won, k);
      }
    }

    /** SendOn, for a pairing of known groups. */
    method SendOnPairing(winner: int, loser: int, tid: int, round: int, teamId: int,
                         ghost t: nat, ghost tm: Team, ghost p: nat)
      requires Shape() && 4 * t + 4 <= maxPlayer && p < 4
      requires Sound(tm) && !Decided(tm.duels[p]) && InPlace(t, tm)
      requires p == 2 ==> players[Pos(maxPlayer, t, 10)].score == ZERO
      requires tid == PairTid(p) && round == PairRound(p) && teamId == t + 1
      modifies players
      ensures players[..] == old(SentOn(players[..], maxPlayer, t, p, winner, loser))
    {
      FedSeatIsReserved(t, tm, p, true);
      if p < 3 { FedSeatIsReserved(t, tm, p, false); }
      SendOn(winner, loser, tid, round, teamId,
             Pos(maxPlayer, t, FeedSeat(p, true)), Pos(maxPlayer, t, FeedSeat(p, false)));
    }

    /** The part of the report after the guards: score, and on a decision send both players on. */
    method PlayPairing(at1: nat, at2: nat, g: Game, ghost t: nat, ghost p: nat, ghost first: bool) returns (ret: int)
      requires TeamValid() && at1 < 3 * maxPlayer && at2 < 3 * maxPlayer
      requires at1 != at2 ==> IsPairing(at1, at2, t, p, first)
      modifies players
      ensures at1 != at2 ==> Rendered(players[..], maxPlayer, teams[t := Step(teams[t], p, first, g)])
      ensures at1 != at2 ==> ret == if BothWin(PlayAs(teams[t].duels[p], first, g)) then -7 else 0
      ensures at1 == at2 ==> players[..] == SelfWritten(old(players[..]), at1, g)
      ensures at1 == at2 ==> ret == if players[at1].score.point >= WINNING_POINTS then -7 else 0
      ensures SameTail(old(players[..]), players[..], 3 * maxPlayer)
    {
      ghost var s := players[..];
      var d := ScorePairing(at1, at2, g, t, p, first);
      if at1 != at2 {
        PairingRewritten(s, maxPlayer, teams, t, p, first, g, d);
        ScoredPair(s, maxPlayer, teams, t, p, Step(teams[t], p, first, g).duels[p]);
        StillInPlace(s, t, teams[t]);
      }
      var player1, player2 := players[at1], players[at2];
      if BothWin(d) { return -7; }
      if Decided(d) && player1.round < 3 {
        SendOnPairing(if AWins(d) then player1.eid else player2.eid, if AWins(d) then player2.eid else player1.eid,
                      player1.tid, player1.round, player1.teamId, t, teams[t], p);
      }
      ret := 0;
    }

    /** The two records of pairing `p` of team `t`, open or in round 3. */
    ghost predicate IsPairing(at1: nat, at2: nat, t: nat, p: nat, first: bool)
      requires Shape()
      reads this
    {
      && t < |teams| && p < PAIRINGS && (p < 4 ==> !Decided(teams[t].duels[p]))
      && at1 == Pos(maxPlayer, t, if first then SeatA(p) else SeatB(p))
      && at2 == Pos(maxPlayer, t, if first then SeatB(p) else SeatA(p))
    }

    /** The same, for the two seats of a known group's pairing. */
    method ScorePairing(at1: nat, at2: nat, g: Game, ghost t: nat, ghost p: nat, ghost first: bool) returns (d: Duel)
      requires TeamValid() && at1 < 3 * maxPlayer && at2 < 3 * maxPlayer
      requires at1 != at2 ==> IsPairing(at1, at2, t, p, first)
      modifies players
      ensures at1 != at2 ==>
                var d' := Step(teams[t], p, first, g).duels[p];
                players[..] == Scored(old(players[..]), maxPlayer, t, p, d') && d' == if first then d else Swap(d)
      ensures at1 == at2 ==>
                && players[..] == SelfWritten(old(players[..]), at1, g)
                && d == Duel(players[at1].score, players[at1].score)
    {
      ghost var s := players[..];
      if at1 != at2 {
        PairPlace(teams[t], t, p);
        assert s[at1] == Seat(teams[t], t, if first then SeatA(p) else SeatB(p));
        assert s[at2] == Seat(teams[t], t, if first then SeatB(p) else SeatA(p));
      }
      d := ScoreTwo(players, at1, at2, g);
    }

    // ----- elimination stage

    /** Collects the qualifiers of the team stage, shuffles them and lays out the bracket. After a
        finished team stage this is a proper bracket exactly when the number of finalists is a power
        of two, no round 3 was won by both sides and the elimination records were still blank. */
    method EliInit() returns (ret: int)
      requires TeamValid() && maxPlayer >= 4
      modifies ePlayers, this`bracket
      ensures ret == if status != 2 then -6 else 0
      ensures ret != 0 ==> ePlayers[..] == old(ePlayers[..]) && bracket == old(bracket)
      ensures |AllQualified(teams)| <= maxPlayer
      ensures ret == 0 ==> HalfShuffled(Eids(ePlayers[..], maxPlayer), AllQualified(teams), maxPlayer)
      ensures ret == 0 ==> bracket == B.NewBracket(Eids(ePlayers[..], maxPlayer / 2))
      ensures ret == 0 && EliValid() ==> multiset(bracket.leaves) == multiset(AllQualified(teams))
      ensures ret == 0 ==> Handed(players[..], maxPlayer, Eids(ePlayers[..], maxPlayer))
      ensures ret == 0 && EliValid() ==> BracketOpened(ePlayers[..], maxPlayer)
      ensures SameTail(old(ePlayers[..]), ePlayers[..], maxPlayer)
      ensures ret == 0 && StageComplete(teams) ==>
                (EliValid() <==> B.PowerOfTwo(maxPlayer / 2) && LateTeams(teams, |teams|) == 0 && old(EliBlank()))
    {
      QualifiersCollected(players[..], maxPlayer, teams);
      if status != STATUS_ROUND_END { return -6; }
      SeatFinalists(AllQualified(teams));
      HandedOver(players[..], maxPlayer, Eids(ePlayers[..], maxPlayer));
      if EliValid() { FreshBracketOpens(ePlayers[..], maxPlayer, bracket); }
      ret := 0;
    }

    /** The same, told in terms of the five-pointers `q` of round 3. */
    method SeatFinalists(ghost q: seq<int>)
      requires Shape() && maxPlayer >= 4
      requires q == FivePointers(players[..], 2 * maxPlayer, maxPlayer) && DistinctPlayers(q)
      modifies ePlayers, this`bracket
      ensures HalfShuffled(Eids(ePlayers[..], maxPlayer), q, maxPlayer)
      ensures bracket == B.NewBracket(Eids(ePlayers[..], maxPlayer / 2))
      ensures EliValid() <==> |q| == maxPlayer / 2 && B.PowerOfTwo(maxPlayer / 2) && old(EliBlank())
      ensures EliValid() ==> multiset(bracket.leaves) == multiset(q)
      ensures SameTail(old(ePlayers[..]), ePlayers[..], maxPlayer)
    {
      CollectQualifiers(q);
      ShuffleFinalists(q);
      ghost var s := ePlayers[..];
      LayOut();
      LaidOutDecides(s, ePlayers[..], maxPlayer, q);
      bracket := B.NewBracket(Eids(ePlayers[..], maxPlayer / 2));
    }

    method ClearFinalists()
      requires Shape()
      modifies ePlayers
      ensures forall j :: 0 <= j < maxPlayer ==> ePlayers[j] == old(ePlayers[j]).(eid := -1)
      ensures forall j :: maxPlayer <= j < MAX_MATCH_PLAYER ==> ePlayers[j] == old(ePlayers[j])
    {
      for i := 0 to maxPlayer
        invariant forall j :: 0 <= j < i ==> ePlayers[j] == old(ePlayers[j]).(eid := -1)
        invariant forall j :: i <= j < MAX_MATCH_PLAYER ==> ePlayers[j] == old(ePlayers[j])
      {
        ePlayers[i] := ePlayers[i].(eid := -1);
      }
    }

    /** Round 3 is scanned record by record; who has five points goes to the front of the cleared list. */
    method CollectQualifiers(ghost q: seq<int>)
      requires Shape() && q == FivePointers(players[..], 2 * maxPlayer, maxPlayer)
      modifies ePlayers
      ensures Eids(ePlayers[..], maxPlayer) == Padded(q, maxPlayer)
      ensures EliBlank() <==> old(EliBlank())
      ensures SameTail(old(ePlayers[..]), ePlayers[..], maxPlayer)
    {
      ghost var s := ePlayers[..];
      ClearFinalists();
      Collect(players, ePlayers, maxPlayer);
      EidsKeepBlank(s, ePlayers[..], maxPlayer);
    }

    static method Collect(players: array<Record>, ePlayers: array<Record>, n: nat)
      requires 3 * n <= players.Length && n <= ePlayers.Length && players != ePlayers
      modifies ePlayers
      ensures var q := FivePointers(players[..], 2 * n, n);
              && (forall j :: 0 <= j < |q| ==> ePlayers[j] == old(ePlayers[j]).(eid := q[j]))
              && (forall j :: |q| <= j < ePlayers.Length ==> ePlayers[j] == old(ePlayers[j]))
    {
      ghost var s, got := players[..], [];
      var count := 0;
      for i := 0 to n
        invariant count == |got| <= i && got == FivePointers(s, 2 * n, i)
        invariant forall j :: 0 <= j < count ==> ePlayers[j] == old(ePlayers[j]).(eid := got[j])
        invariant forall j :: count <= j < ePlayers.Length ==> ePlayers[j] == old(ePlayers[j])
      {
        var player := players[2 * n + i];
        if player.score.point >= WINNING_POINTS {
          ePlayers[count] := ePlayers[count].(eid := player.eid);
          got := got + [player.eid];
          count := count + 1;
        }
      }
    }

    method ShuffleFinalists(ghost q: seq<int>)
      requires Shape() && maxPlayer >= 4 && |q| <= maxPlayer && Eids(ePlayers[..], maxPlayer) == Padded(q, maxPlayer)
      modifies ePlayers
      ensures HalfShuffled(Eids(ePlayers[..], maxPlayer), q, maxPlayer)
      ensures EliBlank() <==> old(EliBlank())
      ensures SameTail(old(ePlayers[..]), ePlayers[..], maxPlayer)
    {
      ghost var s, n := ePlayers[..], maxPlayer;
      assert ePlayers[..n / 2] == s[..n / 2];
      Shuffle(ePlayers, maxPlayer / 2);
      ghost var s' := ePlayers[..];
      assert ePlayers[..n / 2] == s'[..n / 2];
      assert forall i :: n / 2 <= i < MAX_MATCH_PLAYER ==> s'[i] == s[i];
      ShuffleKeepsBlank(s, s', n);
      HalfIsShuffled(s, s', n, q);
    }

    /** Rows of half the previous length get consecutive rounds and descending tids. The rows cover
        RowTotal(maxPlayer / 2) records: all nodes, exactly for powers of two. */
    method LayOut()
      requires Shape() && maxPlayer >= 4
      modifies ePlayers
      ensures RowsLaid(old(ePlayers[..]), ePlayers[..], maxPlayer, B.RowTotal(maxPlayer / 2))
    {
      ghost var s, row: nat := ePlayers[..], 0;
      LayoutStart(s, maxPlayer);
      var total, curRound, len, curTid := 0, FIRST_ELI_ROUND, maxPlayer / 2, maxPlayer - 1;
      while len > 0
        invariant 0 <= len && 0 <= total && curTid == maxPlayer - 1 - total && curRound == FIRST_ELI_ROUND + row
        invariant LayoutAt(s, ePlayers[..], maxPlayer, total, len, row)
      {
        LayoutStep(s, ePlayers[..], maxPlayer, total, len, row);
        curTid := LayRow(total, len, curRound, curTid);
        total := total + len;
        len := len / 2;
        curRound := curRound + 1;
        row := row + 1;
      }
      LayoutEnd(s, ePlayers[..], maxPlayer, total, row);
    }

    method LayRow(total: nat, len: nat, curRound: int, firstTid: int) returns (curTid: int)
      requires Shape() && total + len <= maxPlayer && firstTid == maxPlayer - 1 - total
      modifies ePlayers
      ensures curTid == firstTid - len
      ensures ePlayers[..] == RowWritten(old(ePlayers[..]), maxPlayer, total, len, curRound)
    {
      curTid := firstTid;
      for j := 0 to len
        invariant curTid == firstTid - j
        invariant forall i :: total <= i < total + j ==>
                    ePlayers[i] == old(ePlayers[i]).(round := curRound, tid := maxPlayer - 1 - i)
        invariant forall i :: 0 <= i < MAX_MATCH_PLAYER && !(total <= i < total + j) ==> ePlayers[i] == old(ePlayers[i])
      {
        ePlayers[total + j] := ePlayers[total + j].(round := curRound, tid := curTid);
        curTid := curTid - 1;
      }
    }

    /** One report of the elimination stage, on two finalists. */
    method EliResult(eid1: int, eid2: int, winner: int, upper: int) returns (ret: int)
      requires EliValid() && eid1 in bracket.leaves && eid2 in bracket.leaves
      modifies ePlayers, this`bracket
      ensures EliValid()
      ensures bracket == old(B.AfterEli(bracket, B.EliReport(eid1, eid2, Game(winner, upper))))
      ensures match old(B.BracketVerdict(bracket, eid1, eid2, Game(winner, upper)))
              case Reject(code) => ret == code && ePlayers[..] == old(ePlayers[..])
              case Accept(_, _) => ret == 0
      ensures EliAnswer(old(ePlayers[..]), ePlayers[..], maxPlayer, eid1, eid2, winner, upper, ret)
    {
      ghost var r := B.EliReport(eid1, eid2, Game(winner, upper));
      B.AfterEliKeepsSound(bracket, r);
      B.AcceptedMeansOpen(bracket, eid1, eid2, r.game);
      ghost var v, after := B.BracketVerdict(bracket, eid1, eid2, r.game), B.AfterEli(bracket, r);
      ghost var s, br := ePlayers[..], bracket;
      var code, at1, at2, nextTid := CheckEliReport(eid1, eid2, winner, upper);
      ret := code;
      if code == 0 {
        PlayNodes(at1, at2, Game(winner, upper), nextTid, v.first);
        bracket := after;
      }
      EliReportAnswered(s, ePlayers[..], maxPlayer, br, r, ret);
    }

    /** The guards: codes first, then round, points and tids of both players' furthest records. */
    method CheckEliReport(eid1: int, eid2: int, winner: int, upper: int)
      returns (code: int, at1: nat, at2: nat, nextTid: nat)
      requires EliValid() && eid1 in bracket.leaves && eid2 in bracket.leaves
      ensures Answers(bracket, maxPlayer, B.EliReport(eid1, eid2, Game(winner, upper)), code, at1, at2, nextTid)
    {
      ghost var r := B.EliReport(eid1, eid2, Game(winner, upper));
      code, at1, at2, nextTid := 0, 0, 0, 0;
      UnknownCodes(bracket, maxPlayer, r, at1, at2, nextTid);
      if winner != 1 && winner != 2 && winner != 9 { code := -5; return; }
      if upper != 1 && upper != 2 { code := -15; return; }
      code, at1, at2, nextTid := CompareFurthest(eid1, eid2, r);
    }

    /** The guards behind the codes. */
    method CompareFurthest(eid1: int, eid2: int, ghost r: B.EliReport)
      returns (code: int, at1: nat, at2: nat, nextTid: nat)
      requires EliValid() && eid1 == r.eid1 && eid2 == r.eid2 && eid1 in bracket.leaves && eid2 in bracket.leaves
      requires KnownCodes(r.game)
      ensures Answers(bracket, maxPlayer, r, code, at1, at2, nextTid)
    {
      at1 := FindFinalist(eid1);
      at2 := FindFinalist(eid2);
      NodesDecide(bracket, maxPlayer, r, at1, at2);
      var player1, player2 := ePlayers[at1], ePlayers[at2];
      assert player1.tid == maxPlayer - 1 - at1 && player2.tid == maxPlayer - 1 - at2;
      code, nextTid := CompareFinalists(player1, player2);
    }

    static method CompareFinalists(player1: Record, player2: Record) returns (code: int, nextTid: nat)
      requires player1.tid >= 1 && player2.tid >= 1
      ensures code == ComparedCode(player1, player2)
      ensures nextTid == (if player1.tid < player2.tid then player1.tid else player2.tid) / 2
    {
      code := 0;
      var maxTid := if player1.tid > player2.tid then player1.tid else player2.tid;
      var minTid := if player1.tid > player2.tid then player2.tid else player1.tid;
      nextTid := minTid / 2;
      if player1.round != player2.round { code := -6; return; }
      if player1.score.point >= WINNING_POINTS || player2.score.point >= WINNING_POINTS { code := -16; return; }
      if maxTid - minTid != 1 || minTid % 2 != 0 { code := -26; return; }
    }

    /** The record of a finalist's furthest node. */
    method FindFinalist(eid: int) returns (at: nat)
      requires EliValid() && eid in bracket.leaves
      ensures at < maxPlayer - 1 && B.CurrentNode(bracket, eid) == maxPlayer - 1 - at
      ensures ePlayers[at] == NodeRecord(bracket, maxPlayer - 1 - at) && ePlayers[at].eid == eid
    {
      var i := FindLatest(ePlayers, maxPlayer, eid);
      ghost var s := ePlayers[..];
      if i == -1 { ScanFindsNoFinalist(s, maxPlayer, bracket, eid); }
      at := i;
      ScanFindsNode(s, maxPlayer, bracket, eid, at);
    }

    /** The part of the report after the guards: score, and on a decision fill the parent node. */
    method PlayNodes(at1: nat, at2: nat, g: Game, nextTid: nat, ghost first: bool)
      requires EliValid() && B.Inner(bracket, nextTid) && !Decided(bracket.duels[nextTid]) && Counts(g)
      requires B.Filled(bracket, nextTid)
      requires at1 == maxPlayer - 1 - (if first then 2 * nextTid else 2 * nextTid + 1)
      requires at2 == maxPlayer - 1 - (if first then 2 * nextTid + 1 else 2 * nextTid)
      modifies ePlayers
      ensures BracketRendered(ePlayers[..], maxPlayer, B.StepBracket(bracket, nextTid, first, g))
      ensures ePlayers[..] == NodesWritten(old(ePlayers[..]), maxPlayer, bracket, nextTid, first, g)
    {
      ghost var s := ePlayers[..];
      NodesShow(s, maxPlayer, bracket, nextTid, first, g, at1, at2);
      PlayRecords(at1, at2, g, nextTid);
    }

    /** The same, on the records alone. */
    method PlayRecords(at1: nat, at2: nat, g: Game, nextTid: nat)
      requires Shape() && 1 <= nextTid < maxPlayer && at1 < maxPlayer && at2 < maxPlayer && at1 != at2
      requires TidsInOrder(ScoredTwo(ePlayers[..], at1, at2, g), maxPlayer)
      requires !BothWin(Play(Duel(ePlayers[at1].score, ePlayers[at2].score), g))
      modifies ePlayers
      ensures ePlayers[..] ==
                old(ReportedNodes(ePlayers[..], at1, at2, maxPlayer - 1 - nextTid, nextTid == 1, g))
    {
      var eid1, eid2 := ePlayers[at1].eid, ePlayers[at2].eid;
      var d := ScoreTwo(ePlayers, at1, at2, g);
      assert !BothWin(d);  // so the "point error" return is never taken
      if Decided(d) { FillParent(if AWins(d) then eid1 else eid2, nextTid); }
    }

    method FillParent(winner: int, nextTid: nat)
      requires Shape() && 1 <= nextTid < maxPlayer
      requires TidsInOrder(ePlayers[..], maxPlayer)
      modifies ePlayers
      ensures var w := maxPlayer - 1 - nextTid;
              ePlayers[..] == old(FilledNode(ePlayers[..], w, winner, nextTid == 1))
    {
      var at := FindTid(nextTid);
      ePlayers[at] := ePlayers[at].(eid := winner);
      if nextTid == 1 { ePlayers[at] := ePlayers[at].(score := ePlayers[at].score.(point := 6)); }
    }

    /** The linear search by tid; the closed form n-1-tid is where it ends up. */
    method FindTid(tid: nat) returns (at: nat)
      requires Shape() && 1 <= tid < maxPlayer
      requires TidsInOrder(ePlayers[..], maxPlayer)
      ensures at == maxPlayer - 1 - tid
    {
      for i := 0 to maxPlayer
        invariant i <= maxPlayer - 1 - tid
      {
        if ePlayers[i].tid == tid { return i; }
      }
      assert false;
    }

    /** The record facing the furthest node of `eid`; for the champion the unused last record. */
    method EliNext(eid: int) returns (ret: int, opponent: Opponent)
      requires EliValid()
      ensures ret == if EliOpponent(bracket, eid).Some? then 0 else -3
      ensures opponent == EliOpponent(bracket, eid)
      ensures EliNextAnswer(ePlayers[..], maxPlayer, eid, ret, opponent)
    {
      ret, opponent := FaceFurthest(eid);
      EliNextAnswered(ePlayers[..], maxPlayer, bracket, eid);
    }

    method FaceFurthest(eid: int) returns (ret: int, opponent: Opponent)
      requires EliValid()
      ensures ret == if EliOpponent(bracket, eid).Some? then 0 else -3
      ensures opponent == EliOpponent(bracket, eid)
    {
      var at := FindLatest(ePlayers, maxPlayer, eid);
      if at == -1 {
        ScanFindsNoNode(ePlayers[..], maxPlayer, bracket, eid);
        return -3, None;
      }
      FacingRecord(ePlayers[..], maxPlayer, bracket, eid, at);
      var player := ePlayers[at];
      var oppoTid := player.tid + (if player.tid % 2 == 0 then 1 else -1);
      var opponentRecord := ePlayers[maxPlayer - oppoTid - 1];
      assert opponentRecord.tid == 0 || opponentRecord.round == player.round;  // the round check never fails
      return 0, Some(opponentRecord);
    }

    /** The records shown around node `tid`. For any other `tid` the first index already leaves the bracket. */
    method EliData(tid: int) returns (shown: seq<Record>)
      requires EliValid() && -1 <= tid < 4 * maxPlayer
      ensures status == 0 ==> shown == []
      ensures status != 0 ==> Displayed(ePlayers[..], maxPlayer, tid, shown)
      ensures status != 0 ==>
                && |shown| == |Window(maxPlayer, tid)|
                && (forall t :: t in Window(maxPlayer, tid) ==> B.Node(bracket, t))
                && (forall i :: 0 <= i < |shown| ==> shown[i] == NodeRecord(bracket, Window(maxPlayer, tid)[i]))
    {
      shown := [];
      if status == STATUS_READY { return; }
      var tids := WindowTids(maxPlayer, tid);
      WindowInTree(maxPlayer, tid);
      shown := RecordsOf(ePlayers, maxPlayer, tids);
      NodesShown(ePlayers[..], maxPlayer, bracket, tids, shown);
      WindowDisplayed(ePlayers[..], maxPlayer, tid, shown);
    }

    static method RecordsOf(a: array<Record>, n: nat, tids: seq<nat>) returns (shown: seq<Record>)
      requires n <= a.Length && forall i :: 0 <= i < |tids| ==> tids[i] < n
      ensures |shown| == |tids| && forall i :: 0 <= i < |tids| ==> shown[i] == a[n - tids[i] - 1]
    {
      shown := [];
      for j := 0 to |tids|
        invariant |shown| == j && forall i :: 0 <= i < j ==> shown[i] == a[n - tids[i] - 1]
      {
        shown := shown + [a[n - tids[j] - 1]];
      }
    }

    static method WindowTids(n: nat, tid: int) returns (tids: seq<nat>)
      requires n >= 4 && n % 4 == 0 && -1 <= tid < 4 * n
      ensures tids == Window(n, tid)
    {
      WindowInTree(n, tid);
      var at := if tid >= n / 2 then tid / 2 else tid;
      var parent := if at < 2 then 1 else at / 2;
      tids := [parent];
      var i := 1;
      while i < 6
        invariant i == 1 || i == 3 || i == 5 || i == 7
        invariant tids == Family(parent, i) && (i >= 3 ==> 2 * parent < n) && (i >= 5 ==> 4 * parent < n)
      {
        FamilyGrows(parent, i, n);
        var child := tids[i / 2] * 2;
        if child <= 0 || child >= n { break; }
        if child + 1 >= n { assert false; }
        tids := tids + [child, child + 1];
        i := i + 2;
      }
    }
  }
}

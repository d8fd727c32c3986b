/** What a report of either stage does, told in the fields of the records alone: numbers, eids and
    counters, without groups, brackets or seats. */
module Reports {
  import opened Duels
  import opened Groups
  import opened TeamStages
  import opened EliStages
  import B = Brackets

  /** Of the first `limit` records, `i` is the first with the largest round that `e` has. */
  predicate IsLatest(s: seq<Record>, limit: int, e: int, i: int) {
    && 0 <= i < limit <= |s| && s[i].eid == e && s[i].round > 0
    && forall j :: 0 <= j < limit && s[j].eid == e ==> s[j].round < s[i].round || (s[j].round == s[i].round && i <= j)
  }

  /** One game's counters: `a` and `b` before it, `a'` and `b'` after it. */
  predicate GameWritten(a: Record, b: Record, a': Record, b': Record, winner: int, upper: int) {
    var x, y := a.score, b.score;
    && a' == a.(score := a'.score) && b' == b.(score := b'.score)
    && (winner == 1 ==>
          && a'.score == Tally(x.win + 1, x.lose, x.draw, x.point + 3)
          && b'.score == Tally(y.win, y.lose + 1, y.draw, y.point))
    && (winner == 2 ==>
          && a'.score == Tally(x.win, x.lose + 1, x.draw, x.point)
          && b'.score == Tally(y.win + 1, y.lose, y.draw, y.point + 3))
    && (winner == 9 && upper == 1 ==>
          && a'.score == Tally(x.win, x.lose, x.draw + 1, x.point + 1)
          && b'.score == Tally(y.win, y.lose, y.draw + 1, y.point + 2))
    && (winner == 9 && upper == 2 ==>
          && a'.score == Tally(x.win, x.lose, x.draw + 1, x.point + 2)
          && b'.score == Tally(y.win, y.lose, y.draw + 1, y.point + 1))
    && (winner != 1 && winner != 2 && !(winner == 9 && (upper == 1 || upper == 2)) ==> a' == a && b' == b)
  }

  /** Counters of one record on which both sides of a game are written. */
  predicate GameWrittenOnOne(a: Record, a': Record, winner: int, upper: int) {
    var x := a.score;
    && a' == a.(score := a'.score)
    && (winner == 1 || winner == 2 ==> a'.score == Tally(x.win + 1, x.lose + 1, x.draw, x.point + 3))
    && (winner == 9 && (upper == 1 || upper == 2) ==> a'.score == Tally(x.win, x.lose, x.draw + 2, x.point + 3))
    && (winner != 1 && winner != 2 && !(winner == 9 && (upper == 1 || upper == 2)) ==> a' == a)
  }

  /** What becomes of any other record of the team stage: where the report has decided a pairing of
      round 1 or 2, the records of its team that carry the placeholders of its winner and loser. */
  function SentTo(r: Record, a: Record, decided: bool, up: int, down: int): Record {
    if decided && r.teamId == a.teamId && r.eid == -(200 + 10 * a.tid + a.round) then
      r.(eid := up, score := if a.round == 2 && a.tid == 1 then r.score.(win := 2, point := 6) else r.score)
    else if decided && r.teamId == a.teamId && r.eid == -(100 + 10 * a.tid + a.round) then
      r.(eid := down)
    else r
  }

  /** The code of the guards, from the fields of the two records found. */
  function TeamCode(a: Record, b: Record): int {
    if a.teamId != b.teamId then -6 else if a.round != b.round then -16 else if a.tid != b.tid then -26 else 0
  }

  ghost predicate TeamReported(s: seq<Record>, s': seq<Record>, n: nat, i: nat, j: nat, winner: int, upper: int)
    requires i < 3 * n && j < 3 * n <= |s| == |s'|
  {
    var a, b, a', b' := s[i], s[j], s'[i], s'[j];
    var decided := a.round < 3 && (a'.score.point >= 5 || b'.score.point >= 5);
    var up, down := if a'.score.point >= 5 then a.eid else b.eid, if a'.score.point >= 5 then b.eid else a.eid;
    && GameWritten(a, b, a', b', winner, upper)
    && (decided ==> !(a'.score.point >= 5 && b'.score.point >= 5))
    && (forall k :: 0 <= k < 3 * n && k != i && k != j ==> s'[k] == SentTo(s[k], a, decided, up, down))
    && (forall k :: 3 * n <= k < |s| ==> s'[k] == s[k])
    && (decided ==> exists k :: 0 <= k < 3 * n && k != i && k != j && s[k].teamId == a.teamId
                                && s[k].round == a.round + 1 && s'[k].eid == up)
    && (decided && !(a.round == 2 && a.tid == 0) ==>
          exists k :: 0 <= k < 3 * n && k != i && k != j && s[k].teamId == a.teamId
                      && s[k].round == a.round + 1 && s'[k].eid == down)
  }

  // ----- team stage

  lemma LatestIsSeat(s: seq<Record>, n: nat, teams: seq<Team>, e: int, i: int)
    requires Rendered(s, n, teams) && IsLatest(s, 3 * n, e, i)
    ensures Seated(teams, e) && i == Pos(n, LatestSeat(teams, e).0, LatestSeat(teams, e).1)
    ensures s[i] == Seat(teams[LatestSeat(teams, e).0], LatestSeat(teams, e).0, LatestSeat(teams, e).1)
  {
    ScanFindsSeat(s, n, teams, e, i);
  }

  lemma GuardCodeInFields(s: seq<Record>, n: nat, teams: seq<Team>, e1: int, e2: int, i: int, j: int)
    requires Rendered(s, n, teams) && IsLatest(s, 3 * n, e1, i) && IsLatest(s, 3 * n, e2, j)
    ensures GuardCode(teams, e1, e2) == TeamCode(s[i], s[j])
  {
    LatestIsSeat(s, n, teams, e1, i);
    LatestIsSeat(s, n, teams, e2, j);
  }

  lemma NobodyInFields(s: seq<Record>, n: nat, teams: seq<Team>, e: int)
    requires Rendered(s, n, teams) && forall k :: 0 <= k < 3 * n ==> s[k].eid != e
    ensures !Seated(teams, e)
  {
    ScanFindsNobody(s, n, teams, e);
  }

  /** One step of a pairing, on its two seats. */
  lemma StepInFields(tm: Team, t: nat, p: nat, first: bool, winner: int, upper: int)
    requires Sound(tm) && p < PAIRINGS && (p < 4 ==> !Decided(tm.duels[p]))
    ensures var tm' := Step(tm, p, first, Game(winner, upper));
            var k, l := if first then SeatA(p) else SeatB(p), if first then SeatB(p) else SeatA(p);
            GameWritten(Seat(tm, t, k), Seat(tm, t, l), Seat(tm', t, k), Seat(tm', t, l), winner, upper)
  {
    SeatsAfterStep(tm, t, p, first, Game(winner, upper), SeatA(p));
    SeatsAfterStep(tm, t, p, first, Game(winner, upper), SeatB(p));
    PairOfSeat(SeatA(p));
    PairOfSeat(SeatB(p));
  }

  /** And on every other seat of the group. */
  lemma OtherSeatInFields(tm: Team, t: nat, p: nat, first: bool, g: Game, l: nat)
    requires Sound(tm) && p < PAIRINGS && (p < 4 ==> !Decided(tm.duels[p])) && l < SEATS
    requires l != SeatA(p) && l != SeatB(p)
    ensures var tm' := Step(tm, p, first, g);
            var a := Seat(tm, t, if first then SeatA(p) else SeatB(p));
            var decided := p < 4 && Decided(tm'.duels[p]);
            Seat(tm', t, l) == SentTo(Seat(tm, t, l), a, decided, PairWinner(tm', p), PairLoser(tm', p))
  {
    SeatsAfterStep(tm, t, p, first, g, l);
    PairOfSeat(SeatA(p));
    PairOfSeat(SeatB(p));
    if p < 4 {
      Placeholders(tm, p, true, l);
      if p < 3 { Placeholders(tm, p, false, l); } else { NobodyWaitsForLastLoser(tm, l); }
      PlaceholdersDiffer(tm, p, l);
    }
  }

  lemma NobodyWaitsForLastLoser(tm: Team, l: nat)
    requires Sound(tm) && l < SEATS
    ensures SeatEid(tm, l) != -102
  {
    if 4 <= l < 11 && Decided(tm.duels[Source(l)]) { MovedOnTo(tm, l); }
  }

  lemma PlaceholdersDiffer(tm: Team, p: nat, l: nat)
    requires p < 4 && l < SEATS
    ensures -(200 + 10 * PairTid(p) + PairRound(p)) != -(100 + 10 * PairTid(p) + PairRound(p))
    ensures -(200 + 10 * PairTid(p) + PairRound(p)) == FakeEid(true, PairTid(p), PairRound(p))
    ensures -(100 + 10 * PairTid(p) + PairRound(p)) == FakeEid(false, PairTid(p), PairRound(p))
  {
  }

  /** The winner's side has the five points. */
  lemma WinnerInFields(tm: Team, t: nat, p: nat, first: bool, g: Game)
    requires Sound(tm) && p < 4 && !Decided(tm.duels[p])
    ensures var tm' := Step(tm, p, first, g);
            var k, l := if first then SeatA(p) else SeatB(p), if first then SeatB(p) else SeatA(p);
            var won := Seat(tm', t, k).score.point >= 5;
            && (Decided(tm'.duels[p]) <==> won || Seat(tm', t, l).score.point >= 5)
            && !(won && Seat(tm', t, l).score.point >= 5)
            && (Decided(tm'.duels[p]) ==>
                  && PairWinner(tm', p) == (if won then SeatEid(tm, k) else SeatEid(tm, l))
                  && PairLoser(tm', p) == (if won then SeatEid(tm, l) else SeatEid(tm, k)))
  {
    SeatsAfterStep(tm, t, p, first, g, SeatA(p));
    SeatsAfterStep(tm, t, p, first, g, SeatB(p));
    EarlyPairStaysFair(tm, p, first, g);
    PairOfSeat(SeatA(p));
    PairOfSeat(SeatB(p));
  }

  /** The seats a decided pairing feeds are there. */
  lemma FedInFields(tm: Team, t: nat, p: nat, first: bool, g: Game)
    requires Sound(tm) && p < 4 && !Decided(tm.duels[p]) && Decided(Step(tm, p, first, g).duels[p])
    ensures var tm' := Step(tm, p, first, g);
            && FeedSeat(p, true) < SEATS && Seat(tm', t, FeedSeat(p, true)).eid == PairWinner(tm', p)
            && SeatRound(FeedSeat(p, true)) == PairRound(p) + 1
            && FeedSeat(p, true) != SeatA(p) && FeedSeat(p, true) != SeatB(p)
            && (p < 3 ==>
                  && Seat(tm', t, FeedSeat(p, false)).eid == PairLoser(tm', p)
                  && SeatRound(FeedSeat(p, false)) == PairRound(p) + 1
                  && FeedSeat(p, false) != SeatA(p) && FeedSeat(p, false) != SeatB(p))
  {
    SeatsAfterStep(tm, t, p, first, g, FeedSeat(p, true));
    if p < 3 { SeatsAfterStep(tm, t, p, first, g, FeedSeat(p, false)); }
  }

  /** A report on the pictures of the groups before and after it. */
  lemma PairReported(s: seq<Record>, s': seq<Record>, n: nat, teams: seq<Team>, t: nat, p: nat, first: bool,
                     winner: int, upper: int)
    requires Rendered(s, n, teams) && SoundStage(teams) && t < |teams| && p < PAIRINGS && |s'| == |s|
    requires p < 4 ==> !Decided(teams[t].duels[p])
    requires Rendered(s', n, teams[t := Step(teams[t], p, first, Game(winner, upper))])
    requires SameTail(s, s', 3 * n)
    ensures var i := Pos(n, t, if first then SeatA(p) else SeatB(p));
            var j := Pos(n, t, if first then SeatB(p) else SeatA(p));
            && i < 3 * n && j < 3 * n && TeamReported(s, s', n, i, j, winner, upper)
            && (BothWin(PlayAs(teams[t].duels[p], first, Game(winner, upper))) <==>
                  s'[i].score.point >= 5 && s'[j].score.point >= 5)
  {
    var tm, g := teams[t], Game(winner, upper);
    var tm' := Step(tm, p, first, g);
    var x, y := if first then SeatA(p) else SeatB(p), if first then SeatB(p) else SeatA(p);
    var i, j := Pos(n, t, x), Pos(n, t, y);
    PosInjective(n, t, x, t, y);
    SeatPicture(s, n, teams, t, x);
    SeatPicture(s, n, teams, t, y);
    SeatPicture(s', n, teams[t := tm'], t, x);
    SeatPicture(s', n, teams[t := tm'], t, y);
    StepInFields(tm, t, p, first, winner, upper);
    PairOfSeat(SeatA(p));
    PairOfSeat(SeatB(p));
    if p < 4 { WinnerInFields(tm, t, p, first, g); }
    OtherRecords(s, s', n, teams, t, p, first, g);
    if p < 4 && Decided(tm'.duels[p]) { FedRecords(s, s', n, teams, t, p, first, g); }
  }

  lemma OtherRecords(s: seq<Record>, s': seq<Record>, n: nat, teams: seq<Team>, t: nat, p: nat, first: bool, g: Game)
    requires Rendered(s, n, teams) && SoundStage(teams) && t < |teams| && p < PAIRINGS
    requires p < 4 ==> !Decided(teams[t].duels[p])
    requires Rendered(s', n, teams[t := Step(teams[t], p, first, g)])
    ensures var tm' := Step(teams[t], p, first, g);
            var a := Seat(teams[t], t, if first then SeatA(p) else SeatB(p));
            forall k :: 0 <= k < 3 * n && k != Pos(n, t, SeatA(p)) && k != Pos(n, t, SeatB(p)) ==>
              s'[k] == SentTo(s[k], a, p < 4 && Decided(tm'.duels[p]), PairWinner(tm', p), PairLoser(tm', p))
  {
    var tm' := Step(teams[t], p, first, g);
    var a := Seat(teams[t], t, if first then SeatA(p) else SeatB(p));
    forall k | 0 <= k < 3 * n && k != Pos(n, t, SeatA(p)) && k != Pos(n, t, SeatB(p))
      ensures s'[k] == SentTo(s[k], a, p < 4 && Decided(tm'.duels[p]), PairWinner(tm', p), PairLoser(tm', p))
    {
      OtherRecord(s, s', n, teams, t, p, first, g, k);
    }
  }

  lemma OtherRecord(s: seq<Record>, s': seq<Record>, n: nat, teams: seq<Team>, t: nat, p: nat, first: bool, g: Game,
                    k: nat)
    requires Rendered(s, n, teams) && SoundStage(teams) && t < |teams| && p < PAIRINGS && k < 3 * n
    requires p < 4 ==> !Decided(teams[t].duels[p])
    requires Rendered(s', n, teams[t := Step(teams[t], p, first, g)])
    requires k != Pos(n, t, SeatA(p)) && k != Pos(n, t, SeatB(p))
    ensures var tm' := Step(teams[t], p, first, g);
            var a := Seat(teams[t], t, if first then SeatA(p) else SeatB(p));
            s'[k] == SentTo(s[k], a, p < 4 && Decided(tm'.duels[p]), PairWinner(tm', p), PairLoser(tm', p))
  {
    var u, l := SeatAt(n, k);
    var tm' := Step(teams[t], p, first, g);
    SeatPicture(s, n, teams, u, l);
    SeatPicture(s', n, teams[t := tm'], u, l);
    if u == t { OtherSeatInFields(teams[t], t, p, first, g, l); }
  }

  lemma FedRecords(s: seq<Record>, s': seq<Record>, n: nat, teams: seq<Team>, t: nat, p: nat, first: bool, g: Game)
    requires Rendered(s, n, teams) && SoundStage(teams) && t < |teams| && p < 4 && !Decided(teams[t].duels[p])
    requires Rendered(s', n, teams[t := Step(teams[t], p, first, g)]) && Decided(Step(teams[t], p, first, g).duels[p])
    ensures var tm' := Step(teams[t], p, first, g);
            exists k :: 0 <= k < 3 * n && k != Pos(n, t, SeatA(p)) && k != Pos(n, t, SeatB(p))
                        && s[k].teamId == t + 1 && s[k].round == PairRound(p) + 1 && s'[k].eid == PairWinner(tm', p)
    ensures var tm' := Step(teams[t], p, first, g);
            p < 3 ==> exists k :: 0 <= k < 3 * n && k != Pos(n, t, SeatA(p)) && k != Pos(n, t, SeatB(p))
                        && s[k].teamId == t + 1 && s[k].round == PairRound(p) + 1 && s'[k].eid == PairLoser(tm', p)
  {
    var tm' := Step(teams[t], p, first, g);
    FedInFields(teams[t], t, p, first, g);
    FedRecord(s, s', n, teams, t, p, tm', FeedSeat(p, true));
    if p < 3 { FedRecord(s, s', n, teams, t, p, tm', FeedSeat(p, false)); }
  }

  lemma FedRecord(s: seq<Record>, s': seq<Record>, n: nat, teams: seq<Team>, t: nat, p: nat, tm': Team, l: nat)
    requires Rendered(s, n, teams) && t < |teams| && p < 4 && l < SEATS && l != SeatA(p) && l != SeatB(p)
    requires Rendered(s', n, teams[t := tm'])
    ensures var k := Pos(n, t, l);
            && k < 3 * n && k != Pos(n, t, SeatA(p)) && k != Pos(n, t, SeatB(p))
            && s[k].teamId == t + 1 && s[k].round == SeatRound(l) && s'[k].eid == SeatEid(tm', l)
  {
    SeatPicture(s, n, teams, t, l);
    SeatPicture(s', n, teams[t := tm'], t, l);
    PosInjective(n, t, l, t, SeatA(p));
    PosInjective(n, t, l, t, SeatB(p));
  }

  lemma SeatPicture(s: seq<Record>, n: nat, teams: seq<Team>, t: nat, k: nat)
    requires Rendered(s, n, teams) && t < |teams| && k < SEATS
    ensures Pos(n, t, k) < 3 * n && s[Pos(n, t, k)] == Seat(teams[t], t, k)
  {
    PosInjective(n, t, k, t, k);
  }

  /** Of the first `limit` records, `i` is one with the largest round that `e` has. */
  predicate IsMax(s: seq<Record>, limit: int, e: int, i: int) {
    && 0 <= i < limit <= |s| && s[i].eid == e
    && forall k :: 0 <= k < limit && s[k].eid == e ==> s[k].round <= s[i].round
  }

  /** A player has only one such record. */
  lemma MaxIsLatest(s: seq<Record>, n: nat, teams: seq<Team>, e: int, i: int)
    requires Rendered(s, n, teams) && SoundStage(teams) && e > 0 && IsMax(s, 3 * n, e, i)
    ensures IsLatest(s, 3 * n, e, i)
  {
    var t, k := SeatAt(n, i);
    SeatPicture(s, n, teams, t, k);
    forall j | 0 <= j < 3 * n && s[j].eid == e ensures s[j].round < s[i].round || j == i {
      var u, l := SeatAt(n, j);
      SeatPicture(s, n, teams, u, l);
      SeatHolders(teams[t], k);
      SeatHolders(teams[u], l);
      if s[j].round == s[i].round && l != k { OneSeatPerRound(teams[t], l, k); }
    }
  }

  /** A report of two players, from the guards to the last record written. */
  lemma TeamReportInFields(s: seq<Record>, s': seq<Record>, n: nat, teams: seq<Team>, r: Report, ret: int,
                           i: int, j: int)
    requires Rendered(s, n, teams) && SoundStage(teams) && TwoPlayers(r.eid1, r.eid2) && |s'| == |s|
    requires Rendered(s', n, Played(teams, r)) && ret == PlayedCode(teams, r)
    requires GuardCode(teams, r.eid1, r.eid2) != 0 ==> s' == s
    requires SameTail(s, s', 3 * n)
    requires IsMax(s, 3 * n, r.eid1, i) && IsMax(s, 3 * n, r.eid2, j)
    ensures TeamCode(s[i], s[j]) != 0 ==> ret == TeamCode(s[i], s[j]) && s' == s
    ensures TeamCode(s[i], s[j]) == 0 ==>
              && i != j && TeamReported(s, s', n, i, j, r.game.winner, r.game.upper)
              && ret == if s'[i].score.point >= 5 && s'[j].score.point >= 5 then -7 else 0
  {
    MaxIsLatest(s, n, teams, r.eid1, i);
    MaxIsLatest(s, n, teams, r.eid2, j);
    LatestIsSeat(s, n, teams, r.eid1, i);
    LatestIsSeat(s, n, teams, r.eid2, j);
    GuardCodeInFields(s, n, teams, r.eid1, r.eid2, i, j);
    if TeamCode(s[i], s[j]) == 0 {
      var t, p, first := PlayedOnPairing(n, teams, r);
      assert Game(r.game.winner, r.game.upper) == r.game;
      PairReported(s, s', n, teams, t, p, first, r.game.winner, r.game.upper);
    }
  }

  /** A report that names one player twice. */
  lemma SelfReportInFields(s: seq<Record>, s': seq<Record>, n: nat, teams: seq<Team>, e: int, g: Game, i: int)
    requires Rendered(s, n, teams) && SoundStage(teams) && e > 0 && IsMax(s, 3 * n, e, i)
    requires Seated(teams, e) ==>
               var at := LatestSeat(teams, e); Pos(n, at.0, at.1) < |s| && s' == SelfWritten(s, Pos(n, at.0, at.1), g)
    ensures GuardCode(teams, e, e) == 0 && |s'| == |s|
    ensures GameWrittenOnOne(s[i], s'[i], g.winner, g.upper)
    ensures forall k :: 0 <= k < |s| && k != i ==> s'[k] == s[k]
  {
    MaxIsLatest(s, n, teams, e, i);
    LatestIsSeat(s, n, teams, e, i);
  }

  /** The next opponent: somebody else's record of the same team, round and tid, if there is one. */
  predicate FacesRecord(a: Record, b: Record, e: int) {
    b.eid != e && b.teamId == a.teamId && b.round == a.round && b.tid == a.tid
  }

  lemma NextInFields(s: seq<Record>, n: nat, teams: seq<Team>, e: int, i: int)
    requires Rendered(s, n, teams) && SoundStage(teams) && e > 0 && IsMax(s, 3 * n, e, i)
    ensures Seated(teams, e)
    ensures forall k :: 0 <= k < 3 * n && FacesRecord(s[i], s[k], e) ==> NextOpponent(teams, e) == Some(s[k])
    ensures NextOpponent(teams, e).Some? ==>
              exists k :: 0 <= k < 3 * n && FacesRecord(s[i], s[k], e) && NextOpponent(teams, e) == Some(s[k])
  {
    MaxIsLatest(s, n, teams, e, i);
    LatestIsSeat(s, n, teams, e, i);
    var t, c := LatestSeat(teams, e).0, LatestSeat(teams, e).1;
    forall k | 0 <= k < 3 * n && FacesRecord(s[i], s[k], e) ensures NextOpponent(teams, e) == Some(s[k]) {
      var u, l := SeatAt(n, k);
      SeatPicture(s, n, teams, u, l);
      SameRoundAndTid(c, l);
    }
    if c < 10 {
      FacingIsOther(teams[t], c);
      SeatPicture(s, n, teams, t, Facing(c));
      assert FacesRecord(s[i], s[Pos(n, t, Facing(c))], e);
    }
  }

  // ----- elimination stage

  /** The code of the guards, from the report's codes and the fields of the two records found. */
  function EliCode(a: Record, b: Record, winner: int, upper: int): int {
    var lo, hi := if a.tid < b.tid then a.tid else b.tid, if a.tid < b.tid then b.tid else a.tid;
    if winner != 1 && winner != 2 && winner != 9 then -5
    else if upper != 1 && upper != 2 then -15
    else if a.round != b.round then -6
    else if a.score.point >= 5 || b.score.point >= 5 then -16
    else if hi != lo + 1 || lo % 2 != 0 then -26
    else 0
  }

  /** What an accepted report writes: the two counters and, once a side has five points, its eid on
      the record with half the tid; the final's winner gets six points there. */
  ghost predicate EliReported(s: seq<Record>, s': seq<Record>, n: nat, i: nat, j: nat, winner: int, upper: int)
    requires i < n && j < n <= |s| == |s'|
  {
    var a, b, a', b' := s[i], s[j], s'[i], s'[j];
    var t := (if a.tid < b.tid then a.tid else b.tid) / 2;
    var decided := a'.score.point >= 5 || b'.score.point >= 5;
    var up := if a'.score.point >= 5 then a.eid else b.eid;
    && GameWritten(a, b, a', b', winner, upper)
    && !(a'.score.point >= 5 && b'.score.point >= 5)
    && (decided ==> exists k :: 0 <= k < n && k != i && k != j && s[k].tid == t)
    && forall k :: 0 <= k < |s| && k != i && k != j ==>
         s'[k] == if decided && k < n && s[k].tid == t then
                    s[k].(eid := up, score := if t == 1 then s[k].score.(point := 6) else s[k].score)
                  else s[k]
  }

  lemma NodesInFields(s: seq<Record>, n: nat, i: nat, j: nat, t: nat, winner: int, upper: int)
    requires TidsInOrder(s, n) && i != j && i < n && j < n && 1 <= t < n && n - 1 - t != i && n - 1 - t != j
    requires t == (if s[i].tid < s[j].tid then s[i].tid else s[j].tid) / 2
    requires !BothWin(Play(Duel(s[i].score, s[j].score), Game(winner, upper)))
    ensures EliReported(s, ReportedNodes(s, i, j, n - 1 - t, t == 1, Game(winner, upper)), n, i, j, winner, upper)
  {
    var g := Game(winner, upper);
    var d := Play(Duel(s[i].score, s[j].score), g);
    var s' := ReportedNodes(s, i, j, n - 1 - t, t == 1, g);
    assert s'[i] == s[i].(score := d.a) && s'[j] == s[j].(score := d.b);
    assert s[n - 1 - t].tid == t;
  }

  lemma MaxIsNode(s: seq<Record>, n: nat, br: B.Bracket, e: int, i: int)
    requires BracketRendered(s, n, br) && B.SoundBracket(br) && e in br.leaves && IsMax(s, n, e, i)
    ensures i == n - 1 - B.CurrentNode(br, e) && s[i].round > 0 && s[i].tid == n - 1 - i
  {
    FoundFinalist(s, n, br, e, i);
    RecordOf(s, n, br, i);
  }

  /** The opponent is on the record of the sibling's tid. */
  lemma EliNextInFields(s: seq<Record>, n: nat, br: B.Bracket, e: int, i: int)
    requires BracketRendered(s, n, br) && B.SoundBracket(br) && e in br.leaves && IsMax(s, n, e, i)
    ensures s[i].tid >= 1
    ensures var k := if s[i].tid % 2 == 0 then n - 2 - s[i].tid else n - s[i].tid;
            0 <= k < n && EliOpponent(br, e) == Some(s[k])
  {
    MaxIsNode(s, n, br, e, i);
    SiblingRecord(s, n, br, n - 1 - i);
  }

  /** A report of two finalists, from the codes to the last record written. */
  lemma EliReportInFields(s: seq<Record>, s': seq<Record>, n: nat, br: B.Bracket, r: B.EliReport, ret: int,
                          i: int, j: int)
    requires BracketRendered(s, n, br) && B.SoundBracket(br) && r.eid1 in br.leaves && r.eid2 in br.leaves
    requires IsMax(s, n, r.eid1, i) && IsMax(s, n, r.eid2, j)
    requires match B.BracketVerdict(br, r.eid1, r.eid2, r.game)
             case Reject(code) => ret == code && s' == s
             case Accept(t, first) => ret == 0 && B.Inner(br, t) && s' == NodesWritten(s, n, br, t, first, r.game)
    ensures ret == EliCode(s[i], s[j], r.game.winner, r.game.upper) && |s'| == |s|
    ensures if ret != 0 then s' == s else EliReported(s, s', n, i, j, r.game.winner, r.game.upper)
  {
    MaxIsNode(s, n, br, r.eid1, i);
    MaxIsNode(s, n, br, r.eid2, j);
    RecordOf(s, n, br, i);
    RecordOf(s, n, br, j);
    var v := B.BracketVerdict(br, r.eid1, r.eid2, r.game);
    if KnownCodes(r.game) { NodesDecide(br, n, r, i, j); }
    if v.Accept? {
      B.AcceptedMeansOpen(br, r.eid1, r.eid2, r.game);
      NodesReported(s, n, br, v.node, v.first, r.game.winner, r.game.upper, i, j);
      assert Game(r.game.winner, r.game.upper) == r.game;
    }
  }

  lemma NodesReported(s: seq<Record>, n: nat, br: B.Bracket, t: nat, first: bool, winner: int, upper: int,
                      i: nat, j: nat)
    requires BracketRendered(s, n, br) && B.SoundBracket(br) && B.Inner(br, t) && !Decided(br.duels[t])
    requires Counts(Game(winner, upper))
    requires i == n - 1 - (if first then 2 * t else 2 * t + 1) && j == n - 1 - (if first then 2 * t + 1 else 2 * t)
    ensures i < n && j < n
    ensures EliReported(s, NodesWritten(s, n, br, t, first, Game(winner, upper)), n, i, j, winner, upper)
  {
    TidsDescend(s, n, br);
    NodesRewritten(s, n, br, t, first, Game(winner, upper), i, j);
    NodesInFields(s, n, i, j, t, winner, upper);
  }

  /** The list after an accepted report, as the elimination stage writes it. */
  function NodesWritten(s: seq<Record>, n: nat, br: B.Bracket, t: nat, first: bool, g: Game): seq<Record>
    requires B.Inner(br, t) && n == 2 * B.Size(br) && n <= |s|
  {
    ReportedNodes(s, n - 1 - (if first then 2 * t else 2 * t + 1), n - 1 - (if first then 2 * t + 1 else 2 * t),
                  n - 1 - t, t == 1, g)
  }

  lemma NodesWrittenAt(s: seq<Record>, n: nat, br: B.Bracket, t: nat, first: bool, g: Game, i: nat, j: nat)
    requires B.Inner(br, t) && n == 2 * B.Size(br) && n <= |s|
    requires i == n - 1 - (if first then 2 * t else 2 * t + 1) && j == n - 1 - (if first then 2 * t + 1 else 2 * t)
    ensures NodesWritten(s, n, br, t, first, g) == ReportedNodes(s, i, j, n - 1 - t, t == 1, g)
  {
  }

  /** What there is to know of the two records before, and of the list after an accepted report. */
  lemma NodesShow(s: seq<Record>, n: nat, br: B.Bracket, t: nat, first: bool, g: Game, i: nat, j: nat)
    requires BracketRendered(s, n, br) && B.SoundBracket(br) && B.Inner(br, t) && !Decided(br.duels[t]) && Counts(g)
    requires i == n - 1 - (if first then 2 * t else 2 * t + 1) && j == n - 1 - (if first then 2 * t + 1 else 2 * t)
    ensures 1 <= t < n && i != j && i < n && j < n && TidsInOrder(ScoredTwo(s, i, j, g), n)
    ensures !BothWin(Play(Duel(s[i].score, s[j].score), g))
    ensures NodesWritten(s, n, br, t, first, g) == ReportedNodes(s, i, j, n - 1 - t, t == 1, g)
    ensures BracketRendered(NodesWritten(s, n, br, t, first, g), n, B.StepBracket(br, t, first, g))
  {
    NodesRewritten(s, n, br, t, first, g, i, j);
    NodesWrittenAt(s, n, br, t, first, g, i, j);
  }

  // ----- the whole answers

  /** What a report of the team stage does and answers: `s` before it, `s'` after it. */
  ghost predicate TeamAnswer(s: seq<Record>, s': seq<Record>, n: nat, e1: int, e2: int, winner: int, upper: int,
                             ret: int)
  {
    && |s'| == |s| >= 3 * n
    && ((forall k :: 0 <= k < 3 * n ==> s[k].eid != e1) ==> ret == -3)
    && ((exists k :: 0 <= k < 3 * n && s[k].eid == e1) ==>
          (forall k :: 0 <= k < 3 * n ==> s[k].eid != e2) ==> ret == -13)
    && (ret != 0 && ret != -7 ==> s' == s)
    && (e1 > 0 && e2 > 0 && e1 != e2 ==>
          forall i, j :: IsMax(s, 3 * n, e1, i) && IsMax(s, 3 * n, e2, j) ==>
            TwoAnswered(s, s', n, i, j, winner, upper, ret))
    && (e1 == e2 > 0 ==> forall i :: IsMax(s, 3 * n, e1, i) ==> OneAnswered(s, s', i, winner, upper, ret))
  }

  ghost predicate TwoAnswered(s: seq<Record>, s': seq<Record>, n: nat, i: int, j: int, winner: int, upper: int,
                              ret: int)
    requires 0 <= i < 3 * n && 0 <= j < 3 * n <= |s| == |s'|
  {
    && i != j
    && if TeamCode(s[i], s[j]) != 0 then ret == TeamCode(s[i], s[j])
       else
         && TeamReported(s, s', n, i, j, winner, upper)
         && ret == if s'[i].score.point >= 5 && s'[j].score.point >= 5 then -7 else 0
  }

  ghost predicate OneAnswered(s: seq<Record>, s': seq<Record>, i: int, winner: int, upper: int, ret: int)
    requires 0 <= i < |s| == |s'|
  {
    && GameWrittenOnOne(s[i], s'[i], winner, upper) && s' == s[i := s'[i]]
    && ret == if s'[i].score.point >= 5 then -7 else 0
  }

  lemma TwoAnsweredSo(s: seq<Record>, s': seq<Record>, n: nat, teams: seq<Team>, r: Report, ret: int, i: int, j: int)
    requires Rendered(s, n, teams) && SoundStage(teams) && TwoPlayers(r.eid1, r.eid2) && |s'| == |s|
    requires GuardCode(teams, r.eid1, r.eid2) != 0 ==> s' == s
    requires Rendered(s', n, Played(teams, r)) && ret == PlayedCode(teams, r)
    requires SameTail(s, s', 3 * n)
    requires IsMax(s, 3 * n, r.eid1, i) && IsMax(s, 3 * n, r.eid2, j)
    ensures TwoAnswered(s, s', n, i, j, r.game.winner, r.game.upper, ret)
  {
    TeamReportInFields(s, s', n, teams, r, ret, i, j);
  }

  lemma OneAnsweredSo(s: seq<Record>, s': seq<Record>, n: nat, teams: seq<Team>, e: int, g: Game, ret: int, i: int)
    requires Rendered(s, n, teams) && SoundStage(teams) && e > 0 && IsMax(s, 3 * n, e, i)
    requires Seated(teams, e) && GuardCode(teams, e, e) == 0 ==>
               var at := LatestSeat(teams, e);
               && Pos(n, at.0, at.1) < |s| && s' == SelfWritten(s, Pos(n, at.0, at.1), g)
               && ret == if s'[Pos(n, at.0, at.1)].score.point >= 5 then -7 else 0
    ensures |s'| == |s| && OneAnswered(s, s', i, g.winner, g.upper, ret)
  {
    MaxIsLatest(s, n, teams, e, i);
    LatestIsSeat(s, n, teams, e, i);
    SelfReportInFields(s, s', n, teams, e, g, i);
  }

  /** Every report of the team stage is answered so. */
  lemma TeamAnswered(s: seq<Record>, s': seq<Record>, n: nat, teams: seq<Team>, r: Report, ret: int)
    requires Rendered(s, n, teams) && SoundStage(teams) && |s'| == |s|
    requires GuardCode(teams, r.eid1, r.eid2) != 0 ==> s' == s && ret == GuardCode(teams, r.eid1, r.eid2)
    requires r.eid1 != r.eid2 ==> Rendered(s', n, Played(teams, r)) && ret == PlayedCode(teams, r)
    requires r.eid1 == r.eid2 && GuardCode(teams, r.eid1, r.eid2) == 0 ==>
               var at := LatestSeat(teams, r.eid1);
               && Pos(n, at.0, at.1) < |s| && s' == SelfWritten(s, Pos(n, at.0, at.1), r.game)
               && ret == if s'[Pos(n, at.0, at.1)].score.point >= 5 then -7 else 0
    requires SameTail(s, s', 3 * n)
    ensures TeamAnswer(s, s', n, r.eid1, r.eid2, r.game.winner, r.game.upper, ret)
  {
    Strangers(s, n, teams, r.eid1, r.eid2);
    if TwoPlayers(r.eid1, r.eid2) {
      forall i, j | IsMax(s, 3 * n, r.eid1, i) && IsMax(s, 3 * n, r.eid2, j)
        ensures TwoAnswered(s, s', n, i, j, r.game.winner, r.game.upper, ret)
      {
        TwoAnsweredSo(s, s', n, teams, r, ret, i, j);
      }
    }
    if r.eid1 == r.eid2 > 0 {
      forall i | IsMax(s, 3 * n, r.eid1, i) ensures OneAnswered(s, s', i, r.game.winner, r.game.upper, ret) {
        OneAnsweredSo(s, s', n, teams, r.eid1, r.game, ret, i);
      }
    }
  }

  lemma Strangers(s: seq<Record>, n: nat, teams: seq<Team>, e1: int, e2: int)
    requires Rendered(s, n, teams)
    ensures (forall k :: 0 <= k < 3 * n ==> s[k].eid != e1) ==> GuardCode(teams, e1, e2) == -3
    ensures (exists k :: 0 <= k < 3 * n && s[k].eid == e1) && (forall k :: 0 <= k < 3 * n ==> s[k].eid != e2) ==>
              GuardCode(teams, e1, e2) == -13
  {
    if forall k :: 0 <= k < 3 * n ==> s[k].eid != e1 { NobodyInFields(s, n, teams, e1); }
    if forall k :: 0 <= k < 3 * n ==> s[k].eid != e2 { NobodyInFields(s, n, teams, e2); }
    if k: nat :| k < 3 * n && s[k].eid == e1 { SomebodyInFields(s, n, teams, e1, k); }
  }

  /** Whoever is on a record has a latest seat. */
  lemma SomebodyInFields(s: seq<Record>, n: nat, teams: seq<Team>, e: int, k: nat)
    requires Rendered(s, n, teams) && k < 3 * n && s[k].eid == e
    ensures Seated(teams, e)
  {
    var i := FirstOfLargest(s, n, teams, e, 3 * n, k);
    LatestIsSeat(s, n, teams, e, i);
  }

  lemma {:induction false} FirstOfLargest(s: seq<Record>, n: nat, teams: seq<Team>, e: int, limit: nat, k: nat)
    returns (i: nat)
    requires Rendered(s, n, teams) && k < limit <= 3 * n && s[k].eid == e
    ensures IsLatest(s, limit, e, i)
  {
    var t, l := SeatAt(n, limit - 1);
    SeatPicture(s, n, teams, t, l);
    if k == limit - 1 && forall j :: 0 <= j < limit - 1 ==> s[j].eid != e {
      i := k;
    } else {
      var k': nat :| k' < limit - 1 && s[k'].eid == e;
      i := FirstOfLargest(s, n, teams, e, limit - 1, k');
      if s[limit - 1].eid == e && s[limit - 1].round > s[i].round { i := limit - 1; }
    }
  }

  /** What a question for the next opponent in the team stage answers. */
  ghost predicate TeamNextAnswer(s: seq<Record>, n: nat, e: int, ret: int, opponent: Opponent) {
    && |s| >= 3 * n
    && ((forall k :: 0 <= k < 3 * n ==> s[k].eid != e) ==> ret == -3 && opponent == Opponent.None)
    && (e > 0 ==> forall i :: IsMax(s, 3 * n, e, i) ==> ret == 0 && FacedBy(s, n, e, i, opponent))
  }

  /** Somebody else's record of the same team, round and tid, if there is one. */
  ghost predicate FacedBy(s: seq<Record>, n: nat, e: int, i: int, opponent: Opponent)
    requires 0 <= i < 3 * n <= |s|
  {
    && (forall k :: 0 <= k < 3 * n && FacesRecord(s[i], s[k], e) ==> opponent == Some(s[k]))
    && (opponent.Some? ==> exists k :: 0 <= k < 3 * n && FacesRecord(s[i], s[k], e) && opponent == Some(s[k]))
  }

  lemma TeamNextAnswered(s: seq<Record>, n: nat, teams: seq<Team>, e: int)
    requires Rendered(s, n, teams) && SoundStage(teams)
    ensures TeamNextAnswer(s, n, e, if Seated(teams, e) then 0 else -3, NextOpponent(teams, e))
  {
    if forall k :: 0 <= k < 3 * n ==> s[k].eid != e { NobodyInFields(s, n, teams, e); }
    if e > 0 {
      forall i | IsMax(s, 3 * n, e, i) ensures Seated(teams, e) && FacedBy(s, n, e, i, NextOpponent(teams, e)) {
        NextInFields(s, n, teams, e, i);
      }
    }
  }

  /** What a report of the elimination stage between finalists does and answers. */
  ghost predicate EliAnswer(s: seq<Record>, s': seq<Record>, n: nat, e1: int, e2: int, winner: int, upper: int,
                            ret: int)
  {
    && |s'| == |s| >= n
    && forall i, j :: IsMax(s, n, e1, i) && IsMax(s, n, e2, j) ==> EliAnswered(s, s', n, i, j, winner, upper, ret)
  }

  ghost predicate EliAnswered(s: seq<Record>, s': seq<Record>, n: nat, i: int, j: int, winner: int, upper: int,
                              ret: int)
    requires 0 <= i < n && 0 <= j < n <= |s| == |s'|
  {
    && ret == EliCode(s[i], s[j], winner, upper)
    && if ret != 0 then s' == s else EliReported(s, s', n, i, j, winner, upper)
  }

  lemma EliReportAnswered(s: seq<Record>, s': seq<Record>, n: nat, br: B.Bracket, r: B.EliReport, ret: int)
    requires BracketRendered(s, n, br) && B.SoundBracket(br) && r.eid1 in br.leaves && r.eid2 in br.leaves
    requires match B.BracketVerdict(br, r.eid1, r.eid2, r.game)
             case Reject(code) => ret == code && s' == s
             case Accept(t, first) => ret == 0 && B.Inner(br, t) && s' == NodesWritten(s, n, br, t, first, r.game)
    ensures EliAnswer(s, s', n, r.eid1, r.eid2, r.game.winner, r.game.upper, ret)
  {
    assert |s'| == |s|;
    forall i, j | IsMax(s, n, r.eid1, i) && IsMax(s, n, r.eid2, j)
      ensures EliAnswered(s, s', n, i, j, r.game.winner, r.game.upper, ret)
    {
      EliReportInFields(s, s', n, br, r, ret, i, j);
    }
  }

  /** What a question for the next opponent in the elimination stage answers: for a finalist, the record
      of the tid beside its own. */
  ghost predicate EliNextAnswer(s: seq<Record>, n: nat, e: int, ret: int, opponent: Opponent) {
    && |s| >= n
    && ((forall k :: 0 <= k < n ==> s[k].eid != e) ==> ret == -3 && opponent == Opponent.None)
    && (e > 0 ==> forall i :: IsMax(s, n, e, i) ==> ret == 0 && BesideRecord(s, n, s[i].tid, opponent))
  }

  predicate BesideRecord(s: seq<Record>, n: nat, tid: int, opponent: Opponent) {
    var k := n - 1 - (if tid % 2 == 0 then tid + 1 else tid - 1);
    0 <= k < n <= |s| && opponent == Some(s[k])
  }

  lemma EliNextAnswered(s: seq<Record>, n: nat, br: B.Bracket, e: int)
    requires BracketRendered(s, n, br) && B.SoundBracket(br)
    ensures EliNextAnswer(s, n, e, if EliOpponent(br, e).Some? then 0 else -3, EliOpponent(br, e))
  {
    if forall k :: 0 <= k < n ==> s[k].eid != e { ScanFindsNoNode(s, n, br, e); }
    if e > 0 {
      forall i | IsMax(s, n, e, i)
        ensures EliOpponent(br, e).Some? && BesideRecord(s, n, s[i].tid, EliOpponent(br, e))
      {
        ScanFindsNode(s, n, br, e, i);
        EliNextInFields(s, n, br, e, i);
      }
    }
  }
}

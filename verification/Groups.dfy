/**
 A four-player double-elimination group, stated without records: a roster of four and five
 pairings. `Seat` says what each of the group's twelve match records then holds.
 Pairings: 0 and 1 are round 1 (tid 0, tid 1), 2 is round 2 among winners (tid 1),
 3 is round 2 among losers (tid 0), 4 is round 3 (tid 0).
 Seats 0..3 are round 1, 4..7 round 2, 8..11 round 3.
 */
module Groups {
  import opened Duels
  import opened Rosters

  const TEAM_PLAYERS: nat := 4
  const SEATS: nat := 12
  const PAIRINGS: nat := 5

  datatype Record = Record(eid: int, round: int, teamId: int, tid: int, score: Tally)

  datatype RawTeam = Team(roster: seq<int>, duels: seq<Duel>)

  type Team = t: RawTeam | |t.roster| == TEAM_PLAYERS && |t.duels| == PAIRINGS
    witness Team([1, 2, 3, 4], [FRESH, FRESH, FRESH, FRESH, FRESH])

  function NewTeam(roster: seq<int>): Team
    requires |roster| == TEAM_PLAYERS
  {
    Team(roster, [FRESH, FRESH, FRESH, FRESH, FRESH])
  }

  /** The placeholder that reserves a seat for the winner or loser of (round, tid). */
  function FakeEid(won: bool, tid: int, round: int): int {
    -((if won then 2 else 1) * 100 + tid * 10 + round)
  }

  function SeatA(p: nat): nat
    requires p < PAIRINGS
  { if p == 0 then 0 else if p == 1 then 1 else if p == 2 then 4 else if p == 3 then 6 else 8 }

  function SeatB(p: nat): nat
    requires p < PAIRINGS
  { if p == 0 then 2 else if p == 1 then 3 else if p == 2 then 5 else if p == 3 then 7 else 9 }

  function PairTid(p: nat): int
    requires p < PAIRINGS
  { if p == 1 || p == 2 then 1 else 0 }

  function PairRound(p: nat): int
    requires p < PAIRINGS
  { if p < 2 then 1 else if p < 4 then 2 else 3 }

  /** Where the winner and the loser of a pairing go on to; 11 (never used) when nowhere. */
  function FeedSeat(p: nat, won: bool): nat
    requires p < PAIRINGS
  {
    if p < 2 then (if won then 4 + p else 6 + p)
    else if p == 2 then (if won then 10 else 9)
    else if p == 3 && won then 8
    else 11
  }

  function SeatRound(k: nat): int { if k < 4 then 1 else if k < 8 then 2 else 3 }

  function SeatTid(k: nat): int
    requires k < SEATS
  { if k < 4 then k % 2 else if k < 6 || k == 10 then 1 else if k == 11 then -1 else 0 }

  /** The pairing whose winner or loser (`Won`) seat `k` is kept for. */
  function Source(k: nat): nat
    requires 4 <= k < 11
  { if k < 8 then k % 2 else if k == 8 then 3 else 2 }

  function Won(k: nat): bool
    requires 4 <= k < 11
  { k != 6 && k != 7 && k != 9 }

  /** The seat its holder comes from, once the source pairing is decided. */
  function Origin(tm: Team, k: nat): nat
    requires 4 <= k < 11
  { if AWins(tm.duels[Source(k)]) == Won(k) then SeatA(Source(k)) else SeatB(Source(k)) }

  /** Who holds a seat: its first-round player, the placeholder of an open pairing, or whoever
      that pairing sent on. */
  function SeatEid(tm: Team, k: nat): int
    requires k < SEATS
  {
    if k < 4 then tm.roster[k]
    else if k == 11 then 0
    else if Decided(tm.duels[Source(k)]) then SeatEid(tm, Origin(tm, k))
    else FakeEid(Won(k), PairTid(Source(k)), PairRound(Source(k)))
  }

  /** Seat 10 (undefeated after round 2) is given two wins and six points without playing. */
  function SeatTally(tm: Team, k: nat): Tally
    requires k < SEATS
  {
    if k == 10 then (if Decided(tm.duels[2]) then Tally(2, 0, 0, 6) else ZERO)
    else if k == 11 then ZERO
    else var d := tm.duels[SeatPair(k)]; if k == SeatA(SeatPair(k)) then d.a else d.b
  }

  function SeatPair(k: nat): nat
    requires k < 10
  { if k < 4 then k % 2 else if k < 6 then 2 else if k < 8 then 3 else 4 }

  /** The record at seat `k` of team `t` (numbered from 0). */
  function Seat(tm: Team, t: nat, k: nat): Record
    requires k < SEATS
  {
    Record(SeatEid(tm, k), SeatRound(k), t + 1, SeatTid(k), SeatTally(tm, k))
  }

  function Step(tm: Team, p: nat, first: bool, g: Game): Team
    requires p < PAIRINGS
  {
    tm.(duels := tm.duels[p := PlayAs(tm.duels[p], first, g)])
  }

  predicate Staffed(tm: Team, p: nat)
    requires p < PAIRINGS
  {
    SeatEid(tm, SeatA(p)) > 0 && SeatEid(tm, SeatB(p)) > 0
  }

  /** A pairing of rounds 1 and 2 is a fair race, and no pairing starts before it is staffed. */
  predicate PairSound(tm: Team, p: nat)
    requires p < PAIRINGS
  {
    (p < 4 ==> Fair(tm.duels[p])) && (tm.duels[p] != FRESH ==> Staffed(tm, p))
  }

  /** Kept by every report. */
  predicate Sound(tm: Team) {
    DistinctPlayers(tm.roster) && forall p: nat :: p < PAIRINGS ==> PairSound(tm, p)
  }

  /** Sound, and round 3 was not reported on after its decision either. */
  predicate FairTeam(tm: Team) { Sound(tm) && Fair(tm.duels[4]) }

  predicate Complete(tm: Team) {
    forall p :: 0 <= p < PAIRINGS ==> Decided(tm.duels[p])
  }

  function TeamGames(tm: Team): nat {
    Games(tm.duels[0]) + Games(tm.duels[1]) + Games(tm.duels[2]) + Games(tm.duels[3]) + Games(tm.duels[4])
  }

  function TeamGamesLeft(tm: Team): int {
    GamesLeft(tm.duels[0]) + GamesLeft(tm.duels[1]) + GamesLeft(tm.duels[2]) + GamesLeft(tm.duels[3])
    + GamesLeft(tm.duels[4])
  }

  function PairWinner(tm: Team, p: nat): int
    requires p < PAIRINGS
  { SeatEid(tm, if AWins(tm.duels[p]) then SeatA(p) else SeatB(p)) }

  function PairLoser(tm: Team, p: nat): int
    requires p < PAIRINGS
  { SeatEid(tm, if AWins(tm.duels[p]) then SeatB(p) else SeatA(p)) }

  function Point(b: bool): nat { if b then 1 else 0 }

  function WonBy(tm: Team, p: nat, e: int): nat
    requires p < PAIRINGS
  { Point(Decided(tm.duels[p]) && PairWinner(tm, p) == e) }

  function LostBy(tm: Team, p: nat, e: int): nat
    requires p < PAIRINGS
  { Point(Decided(tm.duels[p]) && PairLoser(tm, p) == e) }

  /** Decided pairings `e` has won, and lost. */
  function WinCount(tm: Team, e: int): nat {
    WonBy(tm, 0, e) + WonBy(tm, 1, e) + WonBy(tm, 2, e) + WonBy(tm, 3, e) + WonBy(tm, 4, e)
  }

  function LossCount(tm: Team, e: int): nat {
    LostBy(tm, 0, e) + LostBy(tm, 1, e) + LostBy(tm, 2, e) + LostBy(tm, 3, e) + LostBy(tm, 4, e)
  }

  /** Round-3 seat `k`'s player, if it has reached five points. */
  function QualifiedAt(tm: Team, k: nat): seq<int>
    requires 8 <= k < SEATS
  {
    if SeatTally(tm, k).point >= WINNING_POINTS then [SeatEid(tm, k)] else []
  }

  /** The qualifiers among the first `j` seats of round 3, in seat order. */
  function QualifiedUpTo(tm: Team, j: nat): seq<int>
    requires j <= 4
  {
    if j == 0 then [] else QualifiedUpTo(tm, j - 1) + QualifiedAt(tm, 7 + j)
  }

  function Qualified(tm: Team): seq<int> { QualifiedUpTo(tm, 4) }

  /** The latest seat `e` has reached. */
  function CurrentSeat(tm: Team, e: int): (k: nat)
    ensures k < 11
  {
    if SeatEid(tm, 8) == e then 8 else if SeatEid(tm, 9) == e then 9 else if SeatEid(tm, 10) == e then 10
    else if SeatEid(tm, 4) == e then 4 else if SeatEid(tm, 5) == e then 5
    else if SeatEid(tm, 6) == e then 6 else if SeatEid(tm, 7) == e then 7
    else if tm.roster[0] == e then 0 else if tm.roster[1] == e then 1
    else if tm.roster[2] == e then 2 else 3
  }

  // ----- facts about one group

  lemma FedFrom(p: nat, won: bool, k: nat)
    requires p < PAIRINGS && k < SEATS
    ensures 4 <= k < 11 && Source(k) == p && Won(k) == won ==> k == FeedSeat(p, won)
    ensures k < 11 && k == FeedSeat(p, won) ==> 4 <= k && Source(k) == p && Won(k) == won
  {
  }

  lemma FakesDiffer(p: nat, won: bool, q: nat, won': bool)
    requires p < 4 && q < 4
    ensures FakeEid(won, PairTid(p), PairRound(p)) == FakeEid(won', PairTid(q), PairRound(q)) ==> p == q && won == won'
    ensures FakeEid(won, PairTid(p), PairRound(p)) < 0
  {
  }

  /** A placeholder is in the group exactly while its pairing is open, and only at its own seat. */
  lemma Placeholders(tm: Team, p: nat, won: bool, k: nat)
    requires Sound(tm) && p < 4 && k < SEATS && (p == 3 ==> won)
    ensures SeatEid(tm, k) == FakeEid(won, PairTid(p), PairRound(p))
            <==> !Decided(tm.duels[p]) && k == FeedSeat(p, won)
  {
    FakesDiffer(p, won, p, won);
    FedFrom(p, won, k);
    if 4 <= k < 11 {
      FakesDiffer(p, won, Source(k), Won(k));
      if Decided(tm.duels[Source(k)]) { assert PairSound(tm, Source(k)); }
    }
  }

  /** Every seat holds a member of the group, a placeholder or (seat 11) nobody. */
  lemma {:induction false} SeatHolders(tm: Team, k: nat)
    requires k < SEATS
    ensures SeatEid(tm, k) in tm.roster || SeatEid(tm, k) <= 0
    decreases k
  {
    if 4 <= k < 11 && Decided(tm.duels[Source(k)]) {
      SeatHolders(tm, Origin(tm, k));
    }
  }

  /** No player holds two seats of one round. */
  lemma {:induction false} OneSeatPerRound(tm: Team, k: nat, l: nat)
    requires Sound(tm) && k < SEATS && l < SEATS && k != l && SeatRound(k) == SeatRound(l)
    requires SeatEid(tm, k) > 0
    ensures SeatEid(tm, k) != SeatEid(tm, l)
    decreases k
  {
    if 4 <= k && l < 11 && Decided(tm.duels[Source(k)]) && Decided(tm.duels[Source(l)]) {
      OneSeatPerRound(tm, Origin(tm, k), Origin(tm, l));
    }
  }

  /** Whoever sits in a later round also sat in the round before. */
  predicate SitsInRound(tm: Team, e: int, r: int) {
    exists k :: 0 <= k < SEATS && SeatRound(k) == r && SeatEid(tm, k) == e
  }

  lemma SatBefore(tm: Team, k: nat)
    requires k < SEATS && SeatRound(k) > 1 && SeatEid(tm, k) > 0
    ensures SitsInRound(tm, SeatEid(tm, k), SeatRound(k) - 1)
  {
    var o := Origin(tm, k);
    assert SeatRound(o) == SeatRound(k) - 1 && SeatEid(tm, o) == SeatEid(tm, k);
  }

  /** A member's seats fill rounds 1 up to the current one without a gap. */
  lemma SeatChain(tm: Team, e: int)
    requires Sound(tm) && e in tm.roster
    ensures var c := CurrentSeat(tm, e);
            && c < 11 && SeatEid(tm, c) == e
            && (forall k :: 0 <= k < SEATS && SeatEid(tm, k) == e ==> SeatRound(k) <= SeatRound(c))
            && (forall r :: 1 <= r <= SeatRound(c) ==> SitsInRound(tm, e, r))
  {
    var c := CurrentSeat(tm, e);
    var i :| 0 <= i < 4 && tm.roster[i] == e;
    assert SeatRound(i) == 1 && SeatEid(tm, i) == e;
    assert SitsInRound(tm, e, 1);
    CurrentIsLatest(tm, e);
    assert SitsInRound(tm, e, SeatRound(c));
    if SeatRound(c) == 3 { SatBefore(tm, c); }
  }

  lemma CurrentIsLatest(tm: Team, e: int)
    requires DistinctPlayers(tm.roster) && e in tm.roster
    ensures var c := CurrentSeat(tm, e);
            && c < 11 && SeatEid(tm, c) == e
            && (forall k :: 0 <= k < SEATS && SeatEid(tm, k) == e ==> SeatRound(k) <= SeatRound(c))
  {
  }

  /** In its round, the current seat is the only one of its holder. */
  lemma CurrentIs(tm: Team, k: nat)
    requires Sound(tm) && k < SEATS && SeatEid(tm, k) > 0
    requires forall l :: 0 <= l < SEATS && SeatEid(tm, l) == SeatEid(tm, k) ==> SeatRound(l) <= SeatRound(k)
    ensures SeatEid(tm, k) in tm.roster && CurrentSeat(tm, SeatEid(tm, k)) == k
  {
    var e := SeatEid(tm, k);
    SeatHolders(tm, k);
    SeatChain(tm, e);
    if CurrentSeat(tm, e) != k { OneSeatPerRound(tm, k, CurrentSeat(tm, e)); }
  }

  /** e1 and e2 hold the two seats of pairing p. */
  predicate Opposed(tm: Team, e1: int, e2: int, p: nat)
    requires p < PAIRINGS
  {
    || (e1 == SeatEid(tm, SeatA(p)) && e2 == SeatEid(tm, SeatB(p)))
    || (e1 == SeatEid(tm, SeatB(p)) && e2 == SeatEid(tm, SeatA(p)))
  }

  /** Two different seats agree in round and tid exactly when they form a pairing. */
  lemma SameRoundAndTid(k: nat, l: nat)
    requires k < SEATS && l < SEATS && k != l
    ensures SeatRound(k) == SeatRound(l) && SeatTid(k) == SeatTid(l)
            <==> k < 10 && l < 10 && SeatPair(k) == SeatPair(l)
    ensures k < 10 && l < 10 && SeatPair(k) == SeatPair(l) ==>
              || (k == SeatA(SeatPair(k)) && l == SeatB(SeatPair(k)))
              || (l == SeatA(SeatPair(k)) && k == SeatB(SeatPair(k)))
  {
  }

  /** The report guards let two members through exactly when they hold one pairing's two seats;
      in rounds 1 and 2 that pairing is still open. */
  lemma GuardsMeanPairing(tm: Team, e1: int, e2: int)
    requires Sound(tm) && e1 in tm.roster && e2 in tm.roster && e1 != e2
    ensures var c1, c2 := CurrentSeat(tm, e1), CurrentSeat(tm, e2);
            && c1 < 11 && c2 < 11
            && (SeatRound(c1) == SeatRound(c2) && SeatTid(c1) == SeatTid(c2)
                <==> c1 < 10 && c2 < 10 && SeatPair(c1) == SeatPair(c2))
            && (c1 < 10 && c2 < 10 && SeatPair(c1) == SeatPair(c2) ==>
                  && Opposed(tm, e1, e2, SeatPair(c1))
                  && (SeatPair(c1) < 4 ==> !Decided(tm.duels[SeatPair(c1)])))
  {
    var c1, c2 := CurrentSeat(tm, e1), CurrentSeat(tm, e2);
    SeatChain(tm, e1);
    SeatChain(tm, e2);
    SameRoundAndTid(c1, c2);
    if c1 < 10 && c2 < 10 && SeatPair(c1) == SeatPair(c2) && SeatPair(c1) < 4 && Decided(tm.duels[SeatPair(c1)]) {
      MovedOn(tm, SeatPair(c1));
      assert false;
    }
  }

  /** A decided pairing of rounds 1 and 2 sends its players on. */
  lemma MovedOn(tm: Team, p: nat)
    requires Sound(tm) && p < 4 && Decided(tm.duels[p])
    ensures SeatEid(tm, FeedSeat(p, true)) == PairWinner(tm, p) > 0
    ensures p < 3 ==> SeatEid(tm, FeedSeat(p, false)) == PairLoser(tm, p) > 0
  {
    assert PairSound(tm, p);
    var w := FeedSeat(p, true);
    assert Source(w) == p && Won(w);
    if p < 3 {
      var l := FeedSeat(p, false);
      assert Source(l) == p && !Won(l);
    }
  }

  /** The players of an open, staffed pairing are sitting in it now. */
  lemma OpenSeatIsCurrent(tm: Team, p: nat, k: nat)
    requires Sound(tm) && p < PAIRINGS && Staffed(tm, p) && (p < 4 ==> !Decided(tm.duels[p]))
    requires k == SeatA(p) || k == SeatB(p)
    ensures SeatEid(tm, k) in tm.roster && CurrentSeat(tm, SeatEid(tm, k)) == k
  {
    forall l | 0 <= l < SEATS && SeatEid(tm, l) == SeatEid(tm, k) ensures SeatRound(l) <= SeatRound(k) {
      if SeatRound(l) > SeatRound(k) { NotYetBeyond(tm, p, k, l); }
    }
    CurrentIs(tm, k);
  }

  /** The next round is fed by other pairings than the open one. */
  lemma SameSource(p: nat, k: nat, l: nat, o: nat)
    requires p < 4 && (k == SeatA(p) || k == SeatB(p)) && 4 <= l < 11 && Source(l) != p
    requires o == SeatA(Source(l)) || o == SeatB(Source(l))
    ensures k != o
  {
  }

  /** Nobody is past a pairing that is still open. */
  lemma {:induction false} NotYetBeyond(tm: Team, p: nat, k: nat, l: nat)
    requires Sound(tm) && p < 4 && Staffed(tm, p) && !Decided(tm.duels[p])
    requires (k == SeatA(p) || k == SeatB(p)) && l < SEATS && SeatRound(l) > SeatRound(k)
    ensures SeatEid(tm, l) != SeatEid(tm, k)
    decreases l
  {
    if l < 11 && Decided(tm.duels[Source(l)]) {
      var o := Origin(tm, l);
      assert SeatRound(o) == SeatRound(l) - 1 && SeatEid(tm, l) == SeatEid(tm, o);
      if SeatRound(o) > SeatRound(k) {
        NotYetBeyond(tm, p, k, o);
      } else {
        SameSource(p, k, l, o);
        OneSeatPerRound(tm, k, o);
      }
    }
  }

  /** No deadlock: an unfinished group has an open pairing whose two players are known. */
  lemma SomePairingPlayable(tm: Team) returns (p: nat)
    requires Sound(tm) && !Complete(tm)
    ensures p < PAIRINGS && !Decided(tm.duels[p]) && Staffed(tm, p)
  {
    p := if !Decided(tm.duels[0]) then 0 else if !Decided(tm.duels[1]) then 1
         else if !Decided(tm.duels[2]) then 2 else if !Decided(tm.duels[3]) then 3 else 4;
    if p == 2 || p == 3 {
      MovedOn(tm, 0);
      MovedOn(tm, 1);
    } else if p == 4 {
      MovedOn(tm, 2);
      MovedOn(tm, 3);
    }
  }

  lemma NotFedYet(tm: Team, p: nat, k: nat)
    requires Sound(tm) && p < PAIRINGS && (p < 4 ==> !Decided(tm.duels[p])) && k < 11 && SeatEid(tm, k) > 0
    ensures k != FeedSeat(p, true) && k != FeedSeat(p, false)
  {
    FedFrom(p, true, k);
    FedFrom(p, false, k);
  }

  /** A report changes who sits where only at the seats its pairing feeds. */
  lemma {:induction false} StepMovesOnlyFed(tm: Team, p: nat, first: bool, g: Game, k: nat)
    requires Sound(tm) && p < PAIRINGS && (p < 4 ==> !Decided(tm.duels[p])) && k < SEATS
    requires k != FeedSeat(p, true) && k != FeedSeat(p, false)
    ensures SeatEid(Step(tm, p, first, g), k) == SeatEid(tm, k)
    decreases k
  {
    if 4 <= k < 11 {
      var q := Source(k);
      FedFrom(p, Won(k), k);
      assert Step(tm, p, first, g).duels[q] == tm.duels[q];
      if Decided(tm.duels[q]) {
        var o := Origin(tm, k);
        assert PairSound(tm, q);
        NotFedYet(tm, p, o);
        StepMovesOnlyFed(tm, p, first, g, o);
      }
    }
  }

  /** One report between two members sitting opposite each other. */
  lemma StepKeepsSound(tm: Team, p: nat, first: bool, g: Game)
    requires Sound(tm) && p < PAIRINGS && Staffed(tm, p) && (p < 4 ==> !Decided(tm.duels[p]))
    ensures Sound(Step(tm, p, first, g))
    ensures FairTeam(tm) && !Decided(tm.duels[p]) ==> FairTeam(Step(tm, p, first, g))
  {
    var tm' := Step(tm, p, first, g);
    assert PairSound(tm, p);
    assert Fair(tm.duels[p]) && !Decided(tm.duels[p]) ==> Fair(tm'.duels[p]) by {
      if Fair(tm.duels[p]) && !Decided(tm.duels[p]) && Counts(g) { FairStep(tm.duels[p], first, g); }
    }
    forall q: nat | q < PAIRINGS ensures PairSound(tm', q) {
      assert q != p ==> tm'.duels[q] == tm.duels[q];
      assert PairSound(tm, q);
      if tm'.duels[q] != FRESH {
        StepKeepsHolder(tm, p, first, g, SeatA(q));
        StepKeepsHolder(tm, p, first, g, SeatB(q));
      }
    }
  }

  /** A report on the two seats of an open pairing keeps the group sound exactly when both seats are
      held by players; placeholders would have to be refused. */
  lemma SoundIffStaffed(tm: Team, p: nat, first: bool, g: Game)
    requires Sound(tm) && p < PAIRINGS && (p < 4 ==> !Decided(tm.duels[p])) && Counts(g)
    ensures Sound(Step(tm, p, first, g)) <==> Staffed(tm, p)
  {
    var tm' := Step(tm, p, first, g);
    if Staffed(tm, p) {
      StepKeepsSound(tm, p, first, g);
    } else {
      StepMovesOnlyFed(tm, p, first, g, SeatA(p));
      StepMovesOnlyFed(tm, p, first, g, SeatB(p));
      assert !PairSound(tm', p);
    }
  }

  /** A pairing of rounds 1 and 2 never gets two winners. */
  lemma EarlyPairStaysFair(tm: Team, p: nat, first: bool, g: Game)
    requires Sound(tm) && p < 4 && !Decided(tm.duels[p])
    ensures Fair(PlayAs(tm.duels[p], first, g)) && !BothWin(PlayAs(tm.duels[p], first, g))
  {
    assert PairSound(tm, p);
    if Counts(g) { FairStep(tm.duels[p], first, g); }
  }

  lemma StepKeepsHolder(tm: Team, p: nat, first: bool, g: Game, k: nat)
    requires Sound(tm) && p < PAIRINGS && (p < 4 ==> !Decided(tm.duels[p])) && k < 11 && SeatEid(tm, k) > 0
    ensures SeatEid(Step(tm, p, first, g), k) == SeatEid(tm, k)
  {
    NotFedYet(tm, p, k);
    StepMovesOnlyFed(tm, p, first, g, k);
  }

  /** Every legal report is one more game and brings the group closer to its end. */
  lemma StepCounts(tm: Team, p: nat, first: bool, g: Game)
    requires FairTeam(tm) && p < PAIRINGS && !Decided(tm.duels[p]) && Counts(g)
    ensures TeamGames(Step(tm, p, first, g)) == TeamGames(tm) + 1
    ensures TeamGamesLeft(Step(tm, p, first, g)) < TeamGamesLeft(tm)
  {
    assert PairSound(tm, p);
    FairStep(tm.duels[p], first, g);
    var d, d' := tm.duels, Step(tm, p, first, g).duels;
    assert forall q :: 0 <= q < PAIRINGS && q != p ==>
             Games(d'[q]) == Games(d[q]) && GamesLeft(d'[q]) == GamesLeft(d[q]);
    if p == 0 {} else if p == 1 {} else if p == 2 {} else if p == 3 {} else {}
  }

  /** Five fair races of at most three games, two or three where they are decided. */
  lemma TeamBounds(tm: Team)
    requires FairTeam(tm)
    ensures 0 <= TeamGamesLeft(tm) <= 15 && TeamGames(tm) <= 15
    ensures Complete(tm) ==> 10 <= TeamGames(tm) && TeamGamesLeft(tm) == 0
  {
    forall p: nat | p < PAIRINGS
      ensures Games(tm.duels[p]) <= 3 && 0 <= GamesLeft(tm.duels[p]) <= 3
      ensures Decided(tm.duels[p]) ==> 2 <= Games(tm.duels[p]) && GamesLeft(tm.duels[p]) == 0
    {
      assert PairSound(tm, p);
      DuelBounds(tm.duels[p]);
    }
  }

  /** Who plays whom in a finished group. */
  lemma Pairing(tm: Team, p: nat)
    requires Sound(tm) && Complete(tm) && p < PAIRINGS
    ensures (PairWinner(tm, p) == SeatEid(tm, SeatA(p)) && PairLoser(tm, p) == SeatEid(tm, SeatB(p)))
         || (PairWinner(tm, p) == SeatEid(tm, SeatB(p)) && PairLoser(tm, p) == SeatEid(tm, SeatA(p)))
    ensures p == 2 ==> SeatEid(tm, SeatA(p)) == PairWinner(tm, 0) && SeatEid(tm, SeatB(p)) == PairWinner(tm, 1)
    ensures p == 3 ==> SeatEid(tm, SeatA(p)) == PairLoser(tm, 0) && SeatEid(tm, SeatB(p)) == PairLoser(tm, 1)
    ensures p == 4 ==> SeatEid(tm, SeatA(p)) == PairWinner(tm, 3) && SeatEid(tm, SeatB(p)) == PairLoser(tm, 2)
  {
    if p == 2 || p == 3 { MovedOn(tm, 0); MovedOn(tm, 1); }
    if p == 4 { MovedOn(tm, 2); MovedOn(tm, 3); }
  }

  /** Round 3 lets two through, the undefeated player of seat 10 and the winner of pairing 4; or
      three, when both sides of pairing 4 have won. */
  lemma QualifiedAre(tm: Team)
    requires Complete(tm)
    ensures BothWin(tm.duels[4]) ==> |Qualified(tm)| == 3
    ensures Sound(tm) && !BothWin(tm.duels[4]) ==> Qualified(tm) == [PairWinner(tm, 4), PairWinner(tm, 2)]
  {
    if Sound(tm) { MovedOn(tm, 2); }
    QualifiedUnrolled(tm);
  }

  lemma QualifiedUnrolled(tm: Team)
    ensures Qualified(tm) == QualifiedAt(tm, 8) + QualifiedAt(tm, 9) + QualifiedAt(tm, 10) + QualifiedAt(tm, 11)
  {
    assert QualifiedUpTo(tm, 1) == [] + QualifiedAt(tm, 8);
    assert QualifiedUpTo(tm, 2) == QualifiedUpTo(tm, 1) + QualifiedAt(tm, 9);
    assert QualifiedUpTo(tm, 3) == QualifiedUpTo(tm, 2) + QualifiedAt(tm, 10);
  }

  /** The double elimination, player by player. */
  lemma MemberOutcome(tm: Team, e: int)
    requires Sound(tm) && Complete(tm) && e in tm.roster
    ensures var wins, losses := WinCount(tm, e), LossCount(tm, e);
            var through := e == PairWinner(tm, 4) || e == PairWinner(tm, 2);
            (wins == 2 <==> through) && (losses == 2 <==> !through)
    ensures PairWinner(tm, 4) != PairWinner(tm, 2)
    ensures PairWinner(tm, 4) in tm.roster && PairWinner(tm, 2) in tm.roster
  {
    Pairing(tm, 0);
    Pairing(tm, 1);
    Pairing(tm, 2);
    Pairing(tm, 3);
    Pairing(tm, 4);
    assert tm.roster[0] in tm.roster && tm.roster[1] in tm.roster;
    assert tm.roster[2] in tm.roster && tm.roster[3] in tm.roster;
  }

  /** A correct double elimination: two different members go on, with two wins each, and the other
      two are out, with two losses each. */
  predicate DoubleElimination(tm: Team) {
    var q := Qualified(tm);
    && |q| == 2 && q[0] != q[1] && q[0] in tm.roster && q[1] in tm.roster
    && (forall e :: e in tm.roster ==> (WinCount(tm, e) == 2 <==> e in q))
    && (forall e :: e in tm.roster ==> (LossCount(tm, e) == 2 <==> e !in q))
  }

  /** A finished group is one exactly when its round 3 was not won by both sides. */
  lemma GroupOutcome(tm: Team)
    requires Sound(tm) && Complete(tm)
    ensures DoubleElimination(tm) <==> !BothWin(tm.duels[4])
  {
    QualifiedAre(tm);
    if !BothWin(tm.duels[4]) {
      assert tm.roster[0] in tm.roster;
      MemberOutcome(tm, tm.roster[0]);
      forall e | e in tm.roster
        ensures WinCount(tm, e) == 2 <==> e in Qualified(tm)
        ensures LossCount(tm, e) == 2 <==> e !in Qualified(tm)
      {
        MemberOutcome(tm, e);
      }
    }
  }

  lemma FairIsNotLate(tm: Team)
    requires FairTeam(tm)
    ensures !BothWin(tm.duels[4])
  {
  }
}

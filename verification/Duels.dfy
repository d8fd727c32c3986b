/** One pairing: a small points race between two seats, first to five points. */
module Duels {

  const WINNING_POINTS: nat := 5

  /** The four counters a match record keeps for its seat. */
  datatype Tally = Tally(win: nat, lose: nat, draw: nat, point: nat)

  const ZERO := Tally(0, 0, 0, 0)

  /** The counters of the two seats of a pairing. */
  datatype Duel = Duel(a: Tally, b: Tally)

  const FRESH := Duel(ZERO, ZERO)

  /** One reported game: `winner` is 1, 2 or 9 (draw), `upper` names the drawn game's weaker side. */
  datatype Game = Game(winner: int, upper: int)

  function Plus(t: Tally, u: Tally): Tally {
    Tally(t.win + u.win, t.lose + u.lose, t.draw + u.draw, t.point + u.point)
  }

  predicate Counts(g: Game) {
    g.winner == 1 || g.winner == 2 || (g.winner == 9 && (g.upper == 1 || g.upper == 2))
  }

  /** The counter updates of one report; any other code changes nothing. */
  function Play(d: Duel, g: Game): Duel {
    if g.winner == 1 then
      Duel(d.a.(win := d.a.win + 1, point := d.a.point + 3), d.b.(lose := d.b.lose + 1))
    else if g.winner == 2 then
      Duel(d.a.(lose := d.a.lose + 1), d.b.(win := d.b.win + 1, point := d.b.point + 3))
    else if g.winner == 9 && (g.upper == 1 || g.upper == 2) then
      Duel(d.a.(draw := d.a.draw + 1, point := d.a.point + (if g.upper == 1 then 1 else 2)),
           d.b.(draw := d.b.draw + 1, point := d.b.point + (if g.upper == 1 then 2 else 1)))
    else d
  }

  function Swap(d: Duel): Duel { Duel(d.b, d.a) }

  /** The same update when the reporting player's seat is `a` (first) or `b`. */
  function PlayAs(d: Duel, first: bool, g: Game): Duel {
    if first then Play(d, g) else Swap(Play(Swap(d), g))
  }

  predicate Decided(d: Duel) {
    d.a.point >= WINNING_POINTS || d.b.point >= WINNING_POINTS
  }

  predicate BothWin(d: Duel) {
    d.a.point >= WINNING_POINTS && d.b.point >= WINNING_POINTS
  }

  predicate AWins(d: Duel) { d.a.point >= WINNING_POINTS }

  function Games(d: Duel): nat { d.a.win + d.a.lose + d.a.draw }

  /** What every pairing keeps as long as nobody reports on it after its decision. */
  predicate Fair(d: Duel) {
    && d.a.win == d.b.lose && d.b.win == d.a.lose && d.a.draw == d.b.draw
    && d.a.point + d.b.point == 3 * Games(d)
    && d.a.draw <= d.a.point - 3 * d.a.win <= 2 * d.a.draw
    && (Decided(d) ==> 2 <= Games(d) <= 3 && !BothWin(d) && d.a.point <= 7 && d.b.point <= 7)
  }

  /** Games still to come, at most: the measure every accepted report decreases. */
  function GamesLeft(d: Duel): int {
    if Decided(d) then 0 else 3 - Games(d)
  }

  lemma FairStep(d: Duel, first: bool, g: Game)
    requires Fair(d) && !Decided(d) && Counts(g)
    ensures Fair(PlayAs(d, first, g))
    ensures Games(PlayAs(d, first, g)) == Games(d) + 1
    ensures 0 <= GamesLeft(PlayAs(d, first, g)) < GamesLeft(d)
  {
  }

  /** What a report that names one player twice would write: both sides of the game on one record. */
  function SelfScored(t: Tally, g: Game): Tally {
    if g.winner == 1 || g.winner == 2 then t.(win := t.win + 1, lose := t.lose + 1, point := t.point + 3)
    else if g.winner == 9 && (g.upper == 1 || g.upper == 2) then t.(draw := t.draw + 2, point := t.point + 3)
    else t
  }

  lemma PlayChanges(d: Duel, first: bool, g: Game)
    ensures PlayAs(d, first, g) == d <==> !Counts(g)
    ensures d == FRESH ==> !Decided(PlayAs(d, first, g))
  {
  }

  lemma SelfScoredChanges(t: Tally, g: Game)
    ensures SelfScored(t, g) == t <==> !Counts(g)
    ensures Counts(g) ==> SelfScored(t, g).point == t.point + 3
  {
  }

  /** It always spoils the race. */
  lemma SelfReportIsUnfair(d: Duel, g: Game)
    requires Fair(d) && Counts(g)
    ensures !Fair(Duel(SelfScored(d.a, g), d.b)) && !Fair(Duel(d.a, SelfScored(d.b, g)))
  {
  }

  lemma DuelBounds(d: Duel)
    requires Fair(d)
    ensures Games(d) <= 3 && 0 <= GamesLeft(d) <= 3 && (Decided(d) ==> 2 <= Games(d) && GamesLeft(d) == 0)
  {
  }

  function PlayAll(gs: seq<Game>): Duel {
    if gs == [] then FRESH else Play(PlayAll(Init(gs)), gs[|gs| - 1])
  }

  /** A game list is orderly when every report counts and comes while the race is open. */
  predicate Orderly(gs: seq<Game>) {
    gs == [] || (Orderly(Init(gs)) && Counts(gs[|gs| - 1]) && !Decided(PlayAll(Init(gs))))
  }

  function Init(gs: seq<Game>): seq<Game>
    requires gs != []
  { gs[..|gs| - 1] }

  /** The points race: decided after two or three games, by exactly one side, and never later. */
  lemma {:induction false} PointsRace(gs: seq<Game>)
    requires Orderly(gs)
    ensures var d := PlayAll(gs);
            && Fair(d) && Games(d) == |gs| <= 3
            && d.a.point + d.b.point == 3 * |gs|
            && (Decided(d) ==> 2 <= |gs| && (d.a.point >= WINNING_POINTS <==> d.b.point < WINNING_POINTS))
            && (|gs| == 3 ==> Decided(d))
  {
    if gs != [] {
      PointsRace(Init(gs));
      FairStep(PlayAll(Init(gs)), true, gs[|gs| - 1]);
    }
  }

  /** Without the open-race guard the promise fails: four wins, two each, make two "winners". */
  lemma LateReportsBreakTheRace()
    ensures var gs := [Game(1, 1), Game(1, 1), Game(2, 1), Game(2, 1)];
            !Orderly(gs) && BothWin(PlayAll(gs))
  {
    var g1, g2 := Game(1, 1), Game(2, 1);
    var gs := [g1, g1, g2, g2];
    assert gs[..3] == [g1, g1, g2] && gs[..3][..2] == [g1, g1] && [g1, g1][..1] == [g1] && [g1][..0] == [];
    assert PlayAll([g1]) == Play(FRESH, g1);
    assert PlayAll([g1, g1]) == Play(PlayAll([g1]), g1);
    assert PlayAll([g1, g1, g2]) == Play(PlayAll([g1, g1]), g2);
    assert PlayAll(gs) == Play(PlayAll(gs[..3]), g2);
    assert Decided(PlayAll(gs[..3]));
  }
}

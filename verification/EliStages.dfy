/** The elimination stage's records: the bracket as one flat list, last row first. */
module EliStages {
  import opened Duels
  import opened Rosters
  import opened Groups
  import opened TeamStages
  import opened Brackets

  const FIRST_ELI_ROUND: nat := 4

  /** The record of node `t`. */
  function NodeRecord(br: Bracket, t: nat): Record
    requires Node(br, t)
  {
    Record(Holder(br, t), FIRST_ELI_ROUND + Height(t, Size(br)), 0, t, NodeTally(br, t))
  }

  const LAST_RECORD := Record(-1, 0, 0, 0, ZERO)

  /** Record n-1-t holds node t; the last record belongs to no node. */
  ghost predicate BracketRendered(s: seq<Record>, n: nat, br: Bracket) {
    && n == 2 * Size(br) && n <= |s| && s[n - 1] == LAST_RECORD
    && forall t {:trigger NodeRecord(br, t)} :: Node(br, t) ==> s[n - 1 - t] == NodeRecord(br, t)
  }

  lemma RecordOf(s: seq<Record>, n: nat, br: Bracket, i: nat)
    requires BracketRendered(s, n, br) && i < n
    ensures i == n - 1 ==> s[i] == LAST_RECORD
    ensures i < n - 1 ==> Node(br, n - 1 - i) && s[i] == NodeRecord(br, n - 1 - i)
  {
    if i < n - 1 {
      assert Node(br, n - 1 - i);
      assert s[n - 1 - (n - 1 - i)] == NodeRecord(br, n - 1 - i);
    }
  }

  /** The scan for the largest round finds a finalist's current node. */
  lemma ScanFindsNode(s: seq<Record>, n: nat, br: Bracket, e: int, i: nat)
    requires BracketRendered(s, n, br) && SoundBracket(br) && e > 0 && i < n && s[i].eid == e
    requires forall j :: 0 <= j < n && s[j].eid == e ==> s[j].round <= s[i].round
    ensures i < n - 1 && e in br.leaves && CurrentNode(br, e) == n - 1 - i
    ensures s[i] == NodeRecord(br, n - 1 - i)
  {
    RecordOf(s, n, br, i);
    var c := n - 1 - i;
    HolderIsAbove(br, c);
    if c > 1 && Holder(br, c / 2) == e {
      assert s[n - 1 - c / 2] == NodeRecord(br, c / 2);
      ParentIsHigher(c, Size(br));
    }
    CurrentIsUnique(br, e, c);
  }

  lemma ParentIsHigher(c: nat, f: nat)
    requires PowerOfTwo(f) && 2 <= c < 2 * f
    ensures Height(c / 2, f) == Height(c, f) + 1
  {
    ChildHeight(c / 2, f);
  }

  lemma ScanFindsNoFinalist(s: seq<Record>, n: nat, br: Bracket, e: int)
    requires BracketRendered(s, n, br)
    requires forall j :: 0 <= j < n ==> s[j].eid != e || s[j].round <= 0
    ensures e !in br.leaves
  {
    if e in br.leaves {
      var j := LeafRecord(s, n, br, e);
      assert false;
    }
  }

  lemma LeafRecord(s: seq<Record>, n: nat, br: Bracket, e: int) returns (j: nat)
    requires BracketRendered(s, n, br) && e in br.leaves
    ensures j < n && s[j].eid == e && s[j].round > 0
  {
    j := n - 1 - LeafOf(br, e);
    assert s[j] == NodeRecord(br, LeafOf(br, e));
  }

  predicate TidsInOrder(s: seq<Record>, n: nat) {
    n <= |s| && forall i :: 0 <= i < n ==> s[i].tid == n - 1 - i
  }

  lemma TidsDescend(s: seq<Record>, n: nat, br: Bracket)
    requires BracketRendered(s, n, br)
    ensures TidsInOrder(s, n)
  {
    forall i: nat | i < n ensures s[i].tid == n - 1 - i { RecordOf(s, n, br, i); }
  }

  /** Writing scores moves no tid. */
  lemma TidsAfterScoring(s: seq<Record>, n: nat, br: Bracket, i: nat, j: nat, g: Game)
    requires BracketRendered(s, n, br) && i < |s| && j < |s|
    ensures TidsInOrder(ScoredTwo(s, i, j, g), n)
  {
    TidsDescend(s, n, br);
  }

  /** The guards on the two found records: same round, nobody at five points, tids of siblings. */
  function ComparedCode(player1: Record, player2: Record): int {
    var lo := if player1.tid < player2.tid then player1.tid else player2.tid;
    var hi := if player1.tid < player2.tid then player2.tid else player1.tid;
    if player1.round != player2.round then -6
    else if player1.score.point >= WINNING_POINTS || player2.score.point >= WINNING_POINTS then -16
    else if hi - lo != 1 || lo % 2 != 0 then -26
    else 0
  }

  /** What the guards have to answer: the code of the verdict and, for an accepted report, the two
      records of the pairing and its node. */
  ghost predicate Answers(br: Bracket, n: nat, r: EliReport, code: int, i: nat, j: nat, t: nat)
    requires r.eid1 in br.leaves && r.eid2 in br.leaves
  {
    match BracketVerdict(br, r.eid1, r.eid2, r.game)
    case Reject(c) => code == c != 0
    case Accept(node, first) =>
      && code == 0 && t == node
      && i == n - 1 - (if first then 2 * t else 2 * t + 1) && j == n - 1 - (if first then 2 * t + 1 else 2 * t)
  }

  /** Comparing the two found records is the verdict on the bracket. */
  lemma NodesDecide(br: Bracket, n: nat, r: EliReport, i: nat, j: nat)
    requires SoundBracket(br) && r.eid1 in br.leaves && r.eid2 in br.leaves && i < n - 1 && j < n - 1
    requires CurrentNode(br, r.eid1) == n - 1 - i && CurrentNode(br, r.eid2) == n - 1 - j
    requires KnownCodes(r.game)
    ensures var tid1, tid2 := n - 1 - i, n - 1 - j;
            Answers(br, n, r, ComparedCode(NodeRecord(br, tid1), NodeRecord(br, tid2)), i, j,
                    (if tid1 < tid2 then tid1 else tid2) / 2)
  {
  }

  predicate KnownCodes(g: Game) {
    (g.winner == 1 || g.winner == 2 || g.winner == 9) && (g.upper == 1 || g.upper == 2)
  }

  lemma UnknownCodes(br: Bracket, n: nat, r: EliReport, i: nat, j: nat, t: nat)
    requires r.eid1 in br.leaves && r.eid2 in br.leaves
    ensures r.game.winner != 1 && r.game.winner != 2 && r.game.winner != 9 ==> Answers(br, n, r, -5, i, j, t)
    ensures !KnownCodes(r.game) && (r.game.winner == 1 || r.game.winner == 2 || r.game.winner == 9) ==>
              Answers(br, n, r, -15, i, j, t)
  {
  }

  /** Everything one accepted report writes, as one update of the flat list. */
  function RewrittenNodes(s: seq<Record>, n: nat, t: nat, br': Bracket): (s': seq<Record>)
    requires 1 <= t && 2 * t + 2 <= n <= |s| && t < Size(br')
    ensures |s'| == |s|
  {
    var a, b, w := n - 1 - 2 * t, n - 2 - 2 * t, n - 1 - t;
    var d := br'.duels[t];
    var s1 := s[a := s[a].(score := d.a)][b := s[b].(score := d.b)];
    if !Decided(d) then s1
    else FilledNode(s1, w, Holder(br', t), t == 1)
  }

  lemma RewrittenNodeAt(s: seq<Record>, n: nat, t: nat, br': Bracket, u: nat)
    requires 1 <= t && 2 * t + 2 <= n <= |s| && t < Size(br') && u < n
    ensures var d := br'.duels[t];
            var r := s[n - 1 - u];
            RewrittenNodes(s, n, t, br')[n - 1 - u] ==
              if u == 2 * t then r.(score := d.a)
              else if u == 2 * t + 1 then r.(score := d.b)
              else if u == t && Decided(d) then
                r.(eid := Holder(br', t), score := if t == 1 then r.score.(point := 6) else r.score)
              else r
  {
  }

  lemma RenderedAfterEliReport(s: seq<Record>, n: nat, br: Bracket, t: nat, first: bool, g: Game)
    requires BracketRendered(s, n, br) && SoundBracket(br) && Inner(br, t) && !Decided(br.duels[t])
    ensures var br' := StepBracket(br, t, first, g); BracketRendered(RewrittenNodes(s, n, t, br'), n, br')
  {
    var br' := StepBracket(br, t, first, g);
    var s' := RewrittenNodes(s, n, t, br');
    RewrittenNodeAt(s, n, t, br', 0);
    forall u | Node(br', u) ensures s'[n - 1 - u] == NodeRecord(br', u) {
      assert s[n - 1 - u] == NodeRecord(br, u);
      RewrittenNodeAt(s, n, t, br', u);
      TallyAfterEliStep(br, t, first, g, u);
      HolderAfterEliStep(br, t, first, g, u);
    }
  }

  lemma HolderAfterEliStep(br: Bracket, t: nat, first: bool, g: Game, u: nat)
    requires SoundBracket(br) && Inner(br, t) && !Decided(br.duels[t]) && Node(br, u)
    ensures u != t || !Decided(StepBracket(br, t, first, g).duels[t]) ==>
              Holder(StepBracket(br, t, first, g), u) == Holder(br, u)
  {
    if u != t { StepMovesOnlyOne(br, t, first, g, u); }
  }

  lemma TallyAfterEliStep(br: Bracket, t: nat, first: bool, g: Game, u: nat)
    requires Inner(br, t) && !Decided(br.duels[t]) && Node(br, u)
    ensures var br' := StepBracket(br, t, first, g);
            NodeTally(br', u) ==
              if u == 2 * t then br'.duels[t].a
              else if u == 2 * t + 1 then br'.duels[t].b
              else if u == t == 1 && Decided(br'.duels[t]) then ZERO.(point := 6)
              else NodeTally(br, u)
  {
  }

  /** The two records of a node's pairing. */
  lemma NodePair(s: seq<Record>, n: nat, br: Bracket, t: nat)
    requires BracketRendered(s, n, br) && Inner(br, t)
    ensures var r := s[n - 1 - 2 * t]; r.eid == Holder(br, 2 * t) && r.score == br.duels[t].a
    ensures var r := s[n - 2 - 2 * t]; r.eid == Holder(br, 2 * t + 1) && r.score == br.duels[t].b
  {
    RecordOf(s, n, br, n - 1 - 2 * t);
    RecordOf(s, n, br, n - 2 - 2 * t);
    assert 2 * t / 2 == t && (2 * t + 1) / 2 == t;
  }

  /** The new score of a node's pairing is decided for at most one side, which moves up. */
  lemma NodeWinner(br: Bracket, t: nat, first: bool, g: Game)
    requires SoundBracket(br) && Inner(br, t) && !Decided(br.duels[t]) && Counts(g)
    ensures var br' := StepBracket(br, t, first, g);
            && br'.duels[t] == PlayAs(br.duels[t], first, g) && !BothWin(br'.duels[t])
            && (Decided(br'.duels[t]) ==> Holder(br', t) == Holder(br, WinningChild(br', t)))
  {
    var br' := StepBracket(br, t, first, g);
    assert NodeSound(br, t);
    FairStep(br.duels[t], first, g);
    StepMovesOnlyOne(br, t, first, g, WinningChild(br', t));
  }

  /** The list with a winner written on record `w`; the final's is given six points. */
  function FilledNode(s: seq<Record>, w: nat, winner: int, final: bool): (s': seq<Record>)
    requires w < |s|
    ensures |s'| == |s|
  {
    s[w := s[w].(eid := winner, score := if final then s[w].score.(point := 6) else s[w].score)]
  }

  /** The list after a report whose players sit on records `i` and `j`, and whose pairing fills `w`. */
  function ReportedNodes(s: seq<Record>, i: nat, j: nat, w: nat, final: bool, g: Game): (s': seq<Record>)
    requires i < |s| && j < |s| && w < |s|
    ensures |s'| == |s|
  {
    var d := Play(Duel(s[i].score, s[j].score), g);
    var s1 := ScoredTwo(s, i, j, g);
    if !Decided(d) then s1 else FilledNode(s1, w, if AWins(d) then s[i].eid else s[j].eid, final)
  }

  lemma ReportedFirst(s: seq<Record>, n: nat, br: Bracket, t: nat, g: Game)
    requires BracketRendered(s, n, br) && SoundBracket(br) && Inner(br, t) && !Decided(br.duels[t]) && Counts(g)
    ensures ReportedNodes(s, n - 1 - 2 * t, n - 2 - 2 * t, n - 1 - t, t == 1, g)
         == RewrittenNodes(s, n, t, StepBracket(br, t, true, g))
  {
    NodePair(s, n, br, t);
    NodeWinner(br, t, true, g);
  }

  lemma ReportedSecond(s: seq<Record>, n: nat, br: Bracket, t: nat, g: Game)
    requires BracketRendered(s, n, br) && SoundBracket(br) && Inner(br, t) && !Decided(br.duels[t]) && Counts(g)
    ensures ReportedNodes(s, n - 2 - 2 * t, n - 1 - 2 * t, n - 1 - t, t == 1, g)
         == RewrittenNodes(s, n, t, StepBracket(br, t, false, g))
  {
    NodePair(s, n, br, t);
    NodeWinner(br, t, false, g);
    var d := PlayAs(br.duels[t], false, g);
    var a, b := n - 1 - 2 * t, n - 2 - 2 * t;
    UpdatesCommute(s, a, s[a].(score := d.a), b, s[b].(score := d.b));
  }

  /** Writing the reported scores, in the reported order, and on a decision the parent node, shows
      the new bracket. */
  lemma NodesRewritten(s: seq<Record>, n: nat, br: Bracket, t: nat, first: bool, g: Game, i: nat, j: nat)
    requires BracketRendered(s, n, br) && SoundBracket(br) && Inner(br, t) && !Decided(br.duels[t]) && Counts(g)
    requires i == n - 1 - (if first then 2 * t else 2 * t + 1) && j == n - 1 - (if first then 2 * t + 1 else 2 * t)
    ensures i != j && i < n && j < n && TidsInOrder(ScoredTwo(s, i, j, g), n)
    ensures !BothWin(Play(Duel(s[i].score, s[j].score), g))
    ensures BracketRendered(ReportedNodes(s, i, j, n - 1 - t, t == 1, g), n, StepBracket(br, t, first, g))
  {
    NodePair(s, n, br, t);
    NodeWinner(br, t, first, g);
    RenderedAfterEliReport(s, n, br, t, first, g);
    TidsAfterScoring(s, n, br, i, j, g);
    if first { ReportedFirst(s, n, br, t, g); } else { ReportedSecond(s, n, br, t, g); }
  }

  lemma UpdatesCommute(s: seq<Record>, a: nat, x: Record, b: nat, y: Record)
    requires a < |s| && b < |s| && a != b
    ensures s[b := y][a := x] == s[a := x][b := y]
  {
  }

  function Sibling(c: nat): nat { if c % 2 == 0 then c + 1 else c - (if c == 0 then 0 else 1) }

  /** The record `e`'s next report will be played against; the champion is shown the last record, and
      so is whoever asks with the placeholder -1 while there is no champion. */
  ghost function EliOpponent(br: Bracket, e: int): Opponent
    requires SoundBracket(br)
  {
    if e in br.leaves then
      var c := CurrentNode(br, e);
      if c == 1 then Some(LAST_RECORD) else Some(NodeRecord(br, Sibling(c)))
    else if e == -1 && Holder(br, 1) == -1 then Some(LAST_RECORD)
    else Opponent.None
  }

  lemma {:induction false} HolderOrNobody(br: Bracket, t: nat)
    requires Node(br, t)
    ensures Holder(br, t) == -1 || Holder(br, t) in br.leaves
    decreases 2 * Size(br) - t
  {
    if t < Size(br) && Decided(br.duels[t]) { HolderOrNobody(br, WinningChild(br, t)); }
  }

  lemma FinalIsHighest(c: nat, f: nat)
    requires PowerOfTwo(f) && 2 <= c < 2 * f
    ensures Height(c, f) < Height(1, f)
  {
    ParentIsHigher(c, f);
    HeightFalls(1, c / 2, f);
  }

  /** With an eid that is no finalist's, the scan for the largest round finds nothing but the open
      final, for -1. */
  lemma ScanFindsOpenFinal(s: seq<Record>, n: nat, br: Bracket, e: int, i: nat)
    requires BracketRendered(s, n, br) && SoundBracket(br) && e !in br.leaves
    requires i < n && s[i].eid == e && s[i].round > 0
    requires forall j :: 0 <= j < n && s[j].eid == e ==> s[j].round <= s[i].round
    ensures i == n - 2 && e == -1 && Holder(br, 1) == -1
  {
    RecordOf(s, n, br, i);
    var c := n - 1 - i;
    HolderOrNobody(br, c);
    if Decided(br.duels[1]) {
      if c < Size(br) {
        FinalComesLast(br, c);
        FilledMeansDecided(br, c);
      }
      assert false;
    }
    RecordOf(s, n, br, n - 2);
    if c > 1 {
      FinalIsHighest(c, Size(br));
      assert false;
    }
  }

  lemma ScanFindsNoNode(s: seq<Record>, n: nat, br: Bracket, e: int)
    requires BracketRendered(s, n, br) && SoundBracket(br)
    requires forall j :: 0 <= j < n ==> s[j].eid != e || s[j].round <= 0
    ensures EliOpponent(br, e) == Opponent.None
  {
    ScanFindsNoFinalist(s, n, br, e);
    RecordOf(s, n, br, n - 2);
  }

  lemma SiblingRecord(s: seq<Record>, n: nat, br: Bracket, c: nat)
    requires BracketRendered(s, n, br) && SoundBracket(br) && Node(br, c)
    ensures Sibling(c) < n
    ensures c == 1 ==> s[n - 1 - Sibling(c)] == LAST_RECORD
    ensures c > 1 ==> Node(br, Sibling(c)) && s[n - 1 - Sibling(c)] == NodeRecord(br, Sibling(c))
    ensures c > 1 ==> Height(Sibling(c), Size(br)) == Height(c, Size(br))
  {
    if c > 1 {
      ChildHeight(c / 2, Size(br));
      assert Node(br, Sibling(c));
    }
  }

  /** The record by the closed-form index for the sibling of the found node is the opponent. */
  lemma FacingRecord(s: seq<Record>, n: nat, br: Bracket, e: int, i: nat)
    requires BracketRendered(s, n, br) && SoundBracket(br) && i < n && s[i].eid == e && s[i].round > 0
    requires forall j :: 0 <= j < n && s[j].eid == e ==> s[j].round <= s[i].round
    ensures s[i].tid == n - 1 - i && Sibling(n - 1 - i) < n
    ensures var j := n - 1 - Sibling(n - 1 - i);
            EliOpponent(br, e) == Some(s[j]) && (s[j].tid == 0 || s[j].round == s[i].round)
  {
    RecordOf(s, n, br, i);
    SiblingRecord(s, n, br, n - 1 - i);
    if e in br.leaves { FoundFinalist(s, n, br, e, i); } else { ScanFindsOpenFinal(s, n, br, e, i); }
  }

  lemma FoundFinalist(s: seq<Record>, n: nat, br: Bracket, e: int, i: nat)
    requires BracketRendered(s, n, br) && SoundBracket(br) && e in br.leaves && i < n && s[i].eid == e
    requires forall j :: 0 <= j < n && s[j].eid == e ==> s[j].round <= s[i].round
    ensures CurrentNode(br, e) == n - 1 - i
  {
    var k: nat :| k < |br.leaves| && br.leaves[k] == e;
    ScanFindsNode(s, n, br, e, i);
  }

  /** `e` is told to play against `f`. */
  ghost predicate Faces(br: Bracket, e: int, f: int)
    requires SoundBracket(br)
  {
    EliOpponent(br, e).Some? && EliOpponent(br, e).record.eid == f
  }

  /** No deadlock: without a champion some report is accepted, and both its players are each
      other's next opponent. */
  lemma SomeEliReportAccepted(br: Bracket) returns (r: EliReport)
    requires SoundBracket(br) && Holder(br, 1) <= 0
    ensures r.eid1 in br.leaves && r.eid2 in br.leaves
    ensures BracketVerdict(br, r.eid1, r.eid2, r.game).Accept?
    ensures Faces(br, r.eid1, r.eid2) && Faces(br, r.eid2, r.eid1)
  {
    FilledMeansDecided(br, 1);
    var t := SomeNodePlayable(br, 1);
    r := EliReport(Holder(br, 2 * t), Holder(br, 2 * t + 1), Game(1, 1));
    OpenPairingAccepted(br, t, r.game);
    FacesSibling(br, t, 2 * t, 2 * t + 1, r.eid1, r.eid2);
    FacesSibling(br, t, 2 * t + 1, 2 * t, r.eid2, r.eid1);
  }

  lemma FacesSibling(br: Bracket, t: nat, c: nat, other: nat, e: int, f: int)
    requires SoundBracket(br) && Inner(br, t) && Filled(br, t) && !Decided(br.duels[t])
    requires (c == 2 * t && other == 2 * t + 1) || (c == 2 * t + 1 && other == 2 * t)
    requires Holder(br, c) == e && Holder(br, other) == f
    ensures Faces(br, e, f)
  {
    OpenSeatsAreCurrent(br, t, c);
    assert Sibling(c) == other;
    assert EliOpponent(br, e) == Some(NodeRecord(br, other));
  }

  /** The node at the top of what is shown for `tid`. */
  function Top(n: nat, tid: int): int {
    var at := if tid >= n / 2 then tid / 2 else tid;
    if at < 0 then (if at == -1 then 1 else -(-at / 2)) else if at < 2 then 1 else at / 2
  }

  /** The tids shown for `tid`: a node, its children and its grandchildren, as far as there are any. */
  function Window(n: nat, tid: int): seq<nat>
    requires n >= 4 && -1 <= tid < 4 * n
  {
    var p := Top(n, tid);
    Family(p, if 2 * p >= n then 1 else if 4 * p >= n then 3 else 7)
  }

  /** The first of them; there are never exactly five. */
  function Family(p: nat, i: nat): seq<nat> {
    if i < 3 then [p]
    else if i < 5 then [p, 2 * p, 2 * p + 1]
    else if i < 7 then [p, 2 * p, 2 * p + 1, 4 * p, 4 * p + 1]
    else [p, 2 * p, 2 * p + 1, 4 * p, 4 * p + 1, 4 * p + 2, 4 * p + 3]
  }

  lemma FamilyGrows(p: nat, i: nat, n: nat)
    requires (i == 1 || i == 3 || i == 5) && n % 4 == 0
    ensures |Family(p, i)| == i
    ensures Family(p, i)[i / 2] * 2 == (if i == 1 then 2 * p else if i == 3 then 4 * p else 4 * p + 2)
    ensures var child := Family(p, i)[i / 2] * 2;
            Family(p, i) + [child, child + 1] == Family(p, i + 2) && (child < n ==> child + 1 < n)
    ensures 4 * p < n ==> 4 * p + 2 < n
  {
  }

  /** The closed-form index n-1-tid stays inside the list for every tid shown. For other `tid` it
      leaves it at once, with the first one. */
  lemma WindowInTree(n: nat, tid: int)
    requires n >= 4 && n % 4 == 0
    ensures 1 <= Top(n, tid) < n <==> -1 <= tid < 4 * n
    ensures -1 <= tid < 4 * n ==> forall t :: t in Window(n, tid) ==> 1 <= t < n
  {
  }

  /** Records taken from the list by the closed-form index are those of the nodes asked for. */
  lemma NodesShown(s: seq<Record>, n: nat, br: Bracket, tids: seq<nat>, shown: seq<Record>)
    requires BracketRendered(s, n, br) && |shown| == |tids| && forall t :: t in tids ==> 1 <= t < n
    requires forall i :: 0 <= i < |tids| ==> tids[i] in tids && shown[i] == s[n - tids[i] - 1]
    ensures forall t :: t in tids ==> Node(br, t)
    ensures forall i :: 0 <= i < |shown| ==> tids[i] in tids && shown[i] == NodeRecord(br, tids[i])
  {
    forall i | 0 <= i < |shown| ensures tids[i] in tids && shown[i] == NodeRecord(br, tids[i]) {
      assert tids[i] in tids;
      RecordOf(s, n, br, n - tids[i] - 1);
    }
  }

  // ----- hand-over from the team stage

  /** All teams' qualifiers, team by team. */
  ghost function AllQualified(teams: seq<Team>): seq<int> {
    if teams == [] then [] else AllQualified(teams[..|teams| - 1]) + Qualified(teams[|teams| - 1])
  }

  /** The eids of the first `i` records from `from` on that have five points: what the scan collects. */
  function FivePointers(s: seq<Record>, from: nat, i: nat): (r: seq<int>)
    requires from + i <= |s|
    ensures |r| <= i
  {
    if i == 0 then []
    else
      var r := s[from + i - 1];
      FivePointers(s, from, i - 1) + (if r.score.point >= WINNING_POINTS then [r.eid] else [])
  }

  /** Two reports that name eid 0 twice bring it among the finalists: the first leaves it where the scan
      finds it, and after the second its record has six points. */
  lemma ZeroGetsThrough(s: seq<Record>, n: nat, teams: seq<Team>, g1: Game, g2: Game)
    requires Rendered(s, n, teams) && SoundStage(teams) && teams != [] && Counts(g1) && Counts(g2)
    ensures Seated(teams, 0) && LatestSeat(teams, 0) == (0, 11)
    ensures var i := Pos(n, 0, 11);
            var s1 := SelfWritten(s, i, g1);
            && s1[i].eid == 0 && s1[i].round > 0
            && (forall j :: 0 <= j < 3 * n && s1[j].eid == 0 ==>
                  s1[j].round < s1[i].round || (s1[j].round == s1[i].round && i <= j))
            && 0 in FivePointers(SelfWritten(s1, i, g2), 2 * n, 4)
  {
    ZeroLetThrough(teams);
    var i := Pos(n, 0, 11);
    var s1 := SelfWritten(s, i, g1);
    var s2 := SelfWritten(s1, i, g2);
    assert s[i] == Seat(teams[0], 0, 11);
    SelfScoredChanges(s[i].score, g1);
    SelfScoredChanges(s1[i].score, g2);
    forall j | 0 <= j < 3 * n && s1[j].eid == 0 ensures s1[j].round == s1[i].round && i <= j {
      ZeroIsLast(s, n, teams, j);
    }
    assert i == 2 * n + 3;
    assert FivePointers(s2, 2 * n, 4) == FivePointers(s2, 2 * n, 3) + [0];
  }

  lemma ZeroIsLast(s: seq<Record>, n: nat, teams: seq<Team>, j: nat)
    requires Rendered(s, n, teams) && SoundStage(teams) && teams != [] && j < 3 * n && s[j].eid == 0
    ensures s[j].round == 3 && Pos(n, 0, 11) <= j
  {
    ZeroLetThrough(teams);
    var t, k := SeatAt(n, j);
    assert s[Pos(n, t, k)] == Seat(teams[t], t, k);
    assert Latest(teams, 0, 0, 11);
    if 4 <= k < 11 && Decided(teams[t].duels[Source(k)]) { MovedOnTo(teams[t], k); }
  }

  lemma FivePointersStep(s: seq<Record>, n: nat, teams: seq<Team>, t: nat, j: nat)
    requires Rendered(s, n, teams) && t < |teams| && j < 4
    ensures FivePointers(s, 2 * n, 4 * t + j + 1) == FivePointers(s, 2 * n, 4 * t + j) + QualifiedAt(teams[t], 8 + j)
  {
    assert 2 * n + 4 * t + j == Pos(n, t, 8 + j);
    assert s[Pos(n, t, 8 + j)] == Seat(teams[t], t, 8 + j);
  }

  lemma FivePointersOfTeam(s: seq<Record>, n: nat, teams: seq<Team>, t: nat)
    requires Rendered(s, n, teams) && t < |teams|
    ensures FivePointers(s, 2 * n, 4 * t + 4) == FivePointers(s, 2 * n, 4 * t) + Qualified(teams[t])
  {
    FivePointersStep(s, n, teams, t, 0);
    FivePointersStep(s, n, teams, t, 1);
    FivePointersStep(s, n, teams, t, 2);
    FivePointersStep(s, n, teams, t, 3);
    QualifiedUnrolled(teams[t]);
  }

  /** The scan over round 3 collects exactly the qualifiers of all teams. */
  lemma {:induction false} CollectedAreQualified(s: seq<Record>, n: nat, teams: seq<Team>, t: nat)
    requires Rendered(s, n, teams) && t <= |teams|
    ensures FivePointers(s, 2 * n, 4 * t) == AllQualified(teams[..t])
  {
    if t > 0 {
      CollectedAreQualified(s, n, teams, t - 1);
      FivePointersOfTeam(s, n, teams, t - 1);
      assert teams[..t][..t - 1] == teams[..t - 1];
    }
  }

  /** At most three of a team get through. Of a finished team it is two, or three where both sides
      have won round 3. */
  lemma QualifiersPerTeam(tm: Team)
    requires Sound(tm)
    ensures |Qualified(tm)| <= 3 && (FairTeam(tm) ==> |Qualified(tm)| <= 2)
    ensures Complete(tm) ==> |Qualified(tm)| == if BothWin(tm.duels[4]) then 3 else 2
    ensures forall e :: e in Qualified(tm) ==> e in tm.roster
    ensures NoDuplicates(Qualified(tm))
  {
    QualifiedUnrolled(tm);
    if Complete(tm) { QualifierCount(tm); }
    QualifierSeats(tm);
    var x, y, z := QualifiedAt(tm, 8), QualifiedAt(tm, 9), QualifiedAt(tm, 10);
    JoinNoDuplicates(x, y);
    JoinNoDuplicates(x + y, z);
    assert Qualified(tm) == x + y + z;
  }

  lemma QualifierSeats(tm: Team)
    requires Sound(tm)
    ensures QualifiedAt(tm, 11) == []
    ensures FairTeam(tm) ==> QualifiedAt(tm, 8) == [] || QualifiedAt(tm, 9) == []
    ensures forall k, e :: 8 <= k < 11 && e in QualifiedAt(tm, k) ==> e in tm.roster
    ensures forall k, l, e :: 8 <= k < l < 11 && e in QualifiedAt(tm, k) ==> e !in QualifiedAt(tm, l)
  {
    assert PairSound(tm, 4);
    forall k, e | 8 <= k < 11 && e in QualifiedAt(tm, k) ensures e == SeatEid(tm, k) > 0 && e in tm.roster {
      SeatHolders(tm, k);
      if k == 10 { MovedOn(tm, 2); }
    }
    forall k, l, e | 8 <= k < l < 11 && e in QualifiedAt(tm, k) ensures e !in QualifiedAt(tm, l) {
      OneSeatPerRound(tm, k, l);
    }
  }

  lemma JoinNoDuplicates(r: seq<int>, r': seq<int>)
    requires NoDuplicates(r) && NoDuplicates(r') && forall e :: e in r ==> e !in r'
    ensures NoDuplicates(r + r')
  {
    forall i, j | 0 <= i < j < |r + r'| && (r + r')[i] != 0 ensures (r + r')[i] != (r + r')[j] {
      if i < |r| <= j { assert (r + r')[i] in r && (r + r')[j] in r'; }
    }
  }

  /** Teams with both sides of round 3 won, among the first `t`. */
  ghost function LateTeams(teams: seq<Team>, t: nat): (c: nat)
    requires t <= |teams|
    ensures c == 0 <==> forall u :: 0 <= u < t ==> !BothWin(teams[u].duels[4])
  {
    if t == 0 then 0 else LateTeams(teams, t - 1) + (if BothWin(teams[t - 1].duels[4]) then 1 else 0)
  }

  /** Teams hand over different members of theirs: two each when they are finished, and one more for
      every late-won round 3; fair teams never more than two. */
  lemma {:induction false} HandOver(teams: seq<Team>, t: nat)
    requires SoundStage(teams) && t <= |teams|
    ensures var q := AllQualified(teams[..t]);
            && |q| <= 3 * t && (FairStage(teams) ==> |q| <= 2 * t)
            && (StageComplete(teams) ==> |q| == 2 * t + LateTeams(teams, t))
            && NoDuplicates(q) && forall e :: e in q ==> Enrolled(teams[..t], e)
  {
    if t > 0 {
      HandOver(teams, t - 1);
      assert teams[..t][..t - 1] == teams[..t - 1];
      var q1, q2 := AllQualified(teams[..t - 1]), Qualified(teams[t - 1]);
      QualifiersPerTeam(teams[t - 1]);
      assert AllQualified(teams[..t]) == q1 + q2;
      forall e | e in q1 ensures Enrolled(teams[..t], e) && e !in q2 {
        var u: nat :| u < |teams[..t - 1]| && e in teams[..t - 1][u].roster;
        assert e in teams[..t][u].roster;
      }
      forall e | e in q2 ensures Enrolled(teams[..t], e) {
        assert e in teams[..t][t - 1].roster;
      }
      JoinNoDuplicates(q1, q2);
    }
  }

  /** Fair teams have no late wins. */
  lemma FairMeansNoLateTeam(teams: seq<Team>)
    requires FairStage(teams)
    ensures SoundStage(teams) && LateTeams(teams, |teams|) == 0
  {
    forall u | 0 <= u < |teams| ensures !BothWin(teams[u].duels[4]) {
      assert FairTeam(teams[u]);
    }
  }

  /** The whole tournament: with T teams and F = 2T finalists, any legal course of play takes between
      10T + 2(F-1) and 15T + 3(F-1) reports. */
  lemma TournamentLength(teams: seq<Team>, reports: seq<Report>, teams': seq<Team>,
                         leaves: seq<int>, eliReports: seq<EliReport>, br: Bracket)
    requires FreshStage(teams) && LegalRun(teams, reports, teams') && StageComplete(teams')
    requires |leaves| == |AllQualified(teams')| && DistinctPlayers(leaves)
    requires PowerOfTwo(|leaves|) && |leaves| >= 2
    requires AcceptedRun(NewBracket(leaves), eliReports, br) && Holder(br, 1) > 0
    ensures |leaves| == 2 * |teams|
    ensures 10 * |teams| + 2 * (2 * |teams| - 1) <= |reports| + |eliReports| <= 15 * |teams| + 3 * (2 * |teams| - 1)
  {
    TeamStageLength(teams, reports, teams');
    FairMeansNoLateTeam(teams');
    HandOver(teams', |teams'|);
    assert teams'[..|teams'|] == teams';
    EliminationLength(leaves, eliReports, br);
  }

  /** The finalists are the qualifiers in some order: different enrolled players, two of each team. */
  lemma FinalistsAreQualified(teams: seq<Team>, leaves: seq<int>)
    requires SoundStage(teams) && StageComplete(teams) && LateTeams(teams, |teams|) == 0
    requires multiset(leaves) == multiset(AllQualified(teams))
    ensures |leaves| == 2 * |teams| == |AllQualified(teams)| && DistinctPlayers(leaves)
    ensures forall e :: e in leaves <==> e in AllQualified(teams)
    ensures forall e :: e in leaves ==> Enrolled(teams, e)
  {
    HandOver(teams, |teams|);
    assert teams[..|teams|] == teams;
    PermutationKeepsNoDuplicates(AllQualified(teams), leaves);
    EnrolledPositive(teams, leaves);
  }

  lemma EnrolledPositive(teams: seq<Team>, r: seq<int>)
    requires SoundStage(teams) && forall e :: e in r ==> Enrolled(teams, e)
    ensures AllPositive(r)
  {
    forall i | 0 <= i < |r| ensures r[i] > 0 {
      assert r[i] in r && Enrolled(teams, r[i]);
      var t: nat :| t < |teams| && r[i] in teams[t].roster;
      assert DistinctPlayers(teams[t].roster);
    }
  }

  /** A player is among all qualifiers exactly when it is one of its own team's. */
  lemma {:induction false} QualifiedOfTeam(teams: seq<Team>, n: nat, t: nat, e: int)
    requires SoundStage(teams) && n <= |teams| && t < |teams| && e in teams[t].roster
    ensures e in AllQualified(teams[..n]) <==> t < n && e in Qualified(teams[t])
  {
    if n > 0 {
      QualifiedOfTeam(teams, n - 1, t, e);
      assert teams[..n][..n - 1] == teams[..n - 1];
      QualifiersPerTeam(teams[n - 1]);
    }
  }

  /** After any run of reports between players, none of which left both sides of a round 3 with five
      points, no team is late; so it is after legal reports (`LegalHasNoPointError`). */
  lemma NoPointErrorNoLateTeam(states: seq<seq<Team>>, reports: seq<Report>)
    requires ReportStates(states, reports) && FreshStage(states[0]) && NoPointError(states, reports)
    ensures var final := states[|reports|];
            SoundStage(final) && SameRosters(states[0], final) && LateTeams(final, |final|) == 0
  {
    StatesStaySound(states, reports, |reports|);
    var final := states[|reports|];
    forall t | 0 <= t < |final| ensures !BothWin(final[t].duels[4]) {
      LateMeansPointError(states, reports, |reports|, t);
    }
  }

  /** The whole tournament. After any reports of the team stage that left no round 3 with two winners,
      and any accepted elimination over its qualifiers that ends with a champion: who has won two
      pairings of its team is a finalist, who has lost two is not, the champion lost no elimination
      pairing and every other finalist exactly one. */
  lemma TournamentOutcome(states: seq<seq<Team>>, reports: seq<Report>,
                          leaves: seq<int>, eliReports: seq<EliReport>, br: Bracket, e: int)
    requires ReportStates(states, reports) && FreshStage(states[0]) && NoPointError(states, reports)
    requires StageComplete(states[|reports|]) && multiset(leaves) == multiset(AllQualified(states[|reports|]))
    requires PowerOfTwo(|leaves|) && |leaves| >= 2
    requires AcceptedRun(NewBracket(leaves), eliReports, br) && Holder(br, 1) > 0
    requires Enrolled(states[0], e)
    ensures CorrectTournament(states[0], states[|reports|], leaves, br, e)
  {
    var teams, teams' := states[0], states[|reports|];
    NoPointErrorNoLateTeam(states, reports);
    FinalistsAreQualified(teams', leaves);
    forall f | f in leaves ensures Enrolled(teams, f) { EnrolledBefore(teams, teams', f); }
    var t := TeamOf(teams, e);
    QualifiedOfTeam(teams', |teams'|, t, e);
    assert teams'[..|teams'|] == teams';
    assert !BothWin(teams'[t].duels[4]);
    GroupOutcome(teams'[t]);
    EliminationOutcome(leaves, eliReports, br, if e in leaves then e else leaves[0]);
  }

  /** What a tournament has to bring out, for the drawn player `e`. */
  ghost predicate CorrectTournament(teams: seq<Team>, teams': seq<Team>, leaves: seq<int>, br: Bracket, e: int)
    requires Enrolled(teams, e)
  {
    var t := TeamOf(teams, e);
    && |leaves| == 2 * |teams| && DistinctPlayers(leaves)
    && Holder(br, 1) in leaves && (forall f :: f in leaves ==> Enrolled(teams, f))
    && t < |teams'| && e in teams'[t].roster
    && (e in leaves <==> WinCount(teams'[t], e) == 2)
    && (e !in leaves <==> LossCount(teams'[t], e) == 2)
    && (e in leaves ==> |LostAt(br, e)| <= 1 && (e == Holder(br, 1) <==> |LostAt(br, e)| == 0))
  }

  lemma EnrolledBefore(teams: seq<Team>, teams': seq<Team>, e: int)
    requires SameRosters(teams, teams') && Enrolled(teams', e)
    ensures Enrolled(teams, e)
  {
    var t: nat :| t < |teams'| && e in teams'[t].roster;
    assert e in teams[t].roster;
  }
}

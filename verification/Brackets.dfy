/**
 A single-elimination bracket over F = 2^k finalists, stated without records. Nodes are numbered
 like a binary heap: node 1 is the final, the parent of node t is t/2, and the finalists sit at
 nodes F .. 2F-1, the first of the list at node 2F-1.
 */
module Brackets {
  import opened Duels
  import opened Rosters

  predicate PowerOfTwo(n: nat) {
    n == 1 || (n > 1 && n % 2 == 0 && PowerOfTwo(n / 2))
  }

  /** How many wins lead from a leaf up to node `t`. */
  function Height(t: nat, f: nat): nat
    requires t >= 1
  {
    if t >= f then 0 else 1 + Height(t, f / 2)
  }

  /** Records laid out by rows of f, f/2, f/4, ... */
  function RowTotal(f: nat): (total: nat)
    ensures f >= 1 ==> total < 2 * f
  {
    if f == 0 then 0 else f + RowTotal(f / 2)
  }

  /** The rows name every node but the unused node 0 exactly for powers of two. */
  lemma {:induction false} LayoutFitsPowersOfTwo(f: nat)
    requires f >= 1
    ensures RowTotal(f) <= 2 * f - 1
    ensures RowTotal(f) == 2 * f - 1 <==> PowerOfTwo(f)
  {
    if f > 1 { LayoutFitsPowersOfTwo(f / 2); }
  }

  /** Both children of a node lie exactly one level below it. */
  lemma {:induction false} ChildHeight(t: nat, f: nat)
    requires PowerOfTwo(f) && 1 <= t < f
    ensures Height(2 * t, f) == Height(2 * t + 1, f) == Height(t, f) - 1
  {
    if t < f / 2 { ChildHeight(t, f / 2); }
  }

  /** The row of record `i` when rows of f, f/2, f/4, ... records follow each other. */
  function RowIndex(f: nat, i: nat): nat
    requires i < RowTotal(f)
  {
    if i < f then 0 else 1 + RowIndex(f / 2, i - f)
  }

  /** What is left of the layout when `total` records are laid out and the next row has `len`. */
  ghost predicate RowsFrom(f: nat, len: nat, total: nat, h: nat) {
    && total + RowTotal(len) == RowTotal(f)
    && forall i {:trigger RowAt(f, len, total, h, i)} :: total <= i < RowTotal(f) ==> RowAt(f, len, total, h, i)
  }

  predicate RowAt(f: nat, len: nat, total: nat, h: nat, i: nat)
    requires total + RowTotal(len) == RowTotal(f) && total <= i < RowTotal(f)
  {
    RowIndex(f, i) == h + RowIndex(len, i - total)
  }

  lemma NextRow(f: nat, len: nat, total: nat, h: nat)
    requires RowsFrom(f, len, total, h) && len > 0
    ensures RowsFrom(f, len / 2, total + len, h + 1)
    ensures forall i :: total <= i < total + len ==> RowIndex(f, i) == h
  {
    forall i | total <= i < total + len ensures RowIndex(f, i) == h {
      assert RowAt(f, len, total, h, i);
    }
    var len', total', h' := len / 2, total + len, h + 1;
    forall i {:trigger RowAt(f, len', total', h', i)} | total' <= i < RowTotal(f)
      ensures RowAt(f, len', total', h', i)
    {
      assert RowAt(f, len, total, h, i);
    }
  }

  lemma FirstRow(f: nat)
    ensures RowsFrom(f, f, 0, 0)
  {
  }

  /** In a power-of-two layout the row of a record is the height of its node. */
  lemma {:induction false} RowIsHeight(f: nat, t: nat)
    requires PowerOfTwo(f) && 1 <= t < 2 * f
    ensures RowTotal(f) == 2 * f - 1 && RowIndex(f, 2 * f - 1 - t) == Height(t, f)
  {
    LayoutFitsPowersOfTwo(f);
    if t < f { RowIsHeight(f / 2, t); }
  }

  /** All records of a power-of-two layout. */
  lemma RowsAreHeights(n: nat)
    requires n >= 2 && n % 2 == 0 && PowerOfTwo(n / 2)
    ensures RowTotal(n / 2) == n - 1
    ensures forall i :: 0 <= i < n - 1 ==> RowIndex(n / 2, i) == Height(n - 1 - i, n / 2)
  {
    LayoutFitsPowersOfTwo(n / 2);
    forall i | 0 <= i < n - 1 ensures RowIndex(n / 2, i) == Height(n - 1 - i, n / 2) {
      RowIsHeight(n / 2, n - 1 - i);
    }
  }

  /** `x` moved up `k` levels. */
  function Up(x: nat, k: nat): nat {
    if k == 0 then x else Up(x, k - 1) / 2
  }

  datatype RawBracket = Bracket(leaves: seq<int>, duels: seq<Duel>)

  type Bracket = b: RawBracket | |b.leaves| >= 1 && |b.duels| == |b.leaves|
    witness Bracket([1], [FRESH])

  function NewBracket(leaves: seq<int>): Bracket
    requires |leaves| >= 1
  {
    RawBracket.Bracket(leaves, seq(|leaves|, _ => FRESH))
  }

  function Size(br: Bracket): nat { |br.leaves| }

  predicate Node(br: Bracket, t: int) { 1 <= t < 2 * Size(br) }

  predicate Inner(br: Bracket, t: int) { 1 <= t < Size(br) }

  /** Who has reached node `t`: a finalist, or -1 while its pairing is open. */
  function Holder(br: Bracket, t: nat): int
    requires Node(br, t)
    decreases 2 * Size(br) - t
  {
    if t >= Size(br) then br.leaves[2 * Size(br) - 1 - t]
    else if Decided(br.duels[t]) then Holder(br, WinningChild(br, t))
    else -1
  }

  function WinningChild(br: Bracket, t: nat): nat
    requires Inner(br, t)
  { if AWins(br.duels[t]) then 2 * t else 2 * t + 1 }

  function LosingChild(br: Bracket, t: nat): nat
    requires Inner(br, t)
  { if AWins(br.duels[t]) then 2 * t + 1 else 2 * t }

  /** The counters shown at node `t`: its side of its parent's pairing; the final's winner gets 6 points. */
  function NodeTally(br: Bracket, t: nat): Tally
    requires Node(br, t)
  {
    if t == 1 then (if Inner(br, 1) && Decided(br.duels[1]) then ZERO.(point := 6) else ZERO)
    else if t % 2 == 0 then br.duels[t / 2].a
    else br.duels[t / 2].b
  }

  predicate Filled(br: Bracket, t: nat)
    requires Inner(br, t)
  { Holder(br, 2 * t) > 0 && Holder(br, 2 * t + 1) > 0 }

  /** Kept by every report: fair races, and a pairing starts only when both players are known. */
  ghost predicate SoundBracket(br: Bracket) {
    && PowerOfTwo(Size(br)) && Size(br) >= 2 && DistinctPlayers(br.leaves)
    && (forall t {:trigger NodeSound(br, t)} :: Inner(br, t) ==> NodeSound(br, t))
  }

  predicate NodeSound(br: Bracket, t: int)
    requires Inner(br, t)
  {
    Fair(br.duels[t]) && (br.duels[t] != FRESH ==> Filled(br, t))
  }

  ghost predicate Finished(br: Bracket) {
    forall t :: Inner(br, t) ==> Decided(br.duels[t])
  }

  /** The leaf node of a finalist. */
  ghost function LeafOf(br: Bracket, e: int): (l: nat)
    requires e in br.leaves
    ensures Size(br) <= l < 2 * Size(br) && br.leaves[2 * Size(br) - 1 - l] == e
  {
    var i :| 0 <= i < |br.leaves| && br.leaves[i] == e; 2 * Size(br) - 1 - i
  }

  // ----- who sits where

  /** A node is filled exactly when its pairing is decided, by the winning child's player. */
  lemma FilledMeansDecided(br: Bracket, t: nat)
    requires SoundBracket(br) && Inner(br, t)
    ensures Holder(br, t) > 0 <==> Decided(br.duels[t])
    ensures Decided(br.duels[t]) ==>
              Holder(br, t) == Holder(br, WinningChild(br, t)) && Holder(br, LosingChild(br, t)) > 0
  {
    assert NodeSound(br, t);
  }

  /** A finalist's nodes lie on the way up from its leaf, one on each level. */
  lemma {:induction false} HolderIsAbove(br: Bracket, t: nat)
    requires SoundBracket(br) && Node(br, t) && Holder(br, t) > 0
    ensures Holder(br, t) in br.leaves && t == Up(LeafOf(br, Holder(br, t)), Height(t, Size(br)))
    decreases 2 * Size(br) - t
  {
    if t < Size(br) {
      ChildHeight(t, Size(br));
      HolderIsAbove(br, WinningChild(br, t));
    }
  }

  lemma OneNodePerLevel(br: Bracket, t: nat, u: nat)
    requires SoundBracket(br) && Node(br, t) && Node(br, u)
    requires Height(t, Size(br)) == Height(u, Size(br)) && Holder(br, t) == Holder(br, u) > 0
    ensures t == u
  {
    HolderIsAbove(br, t);
    HolderIsAbove(br, u);
  }

  /** The chain of a finalist's nodes has no gap. */
  lemma {:induction false} ChainHasNoGap(br: Bracket, t: nat, h: nat)
    requires SoundBracket(br) && Node(br, t) && Holder(br, t) > 0 && h <= Height(t, Size(br))
    ensures var e := Holder(br, t); e in br.leaves
    ensures var e := Holder(br, t); Node(br, Up(LeafOf(br, e), h)) && Holder(br, Up(LeafOf(br, e), h)) == e
    decreases 2 * Size(br) - t
  {
    HolderIsAbove(br, t);
    if h < Height(t, Size(br)) {
      ChildHeight(t, Size(br));
      ChainHasNoGap(br, WinningChild(br, t), h);
    }
  }

  /** `c` is the furthest node `e` has reached. */
  predicate IsCurrent(br: Bracket, e: int, c: nat) {
    Node(br, c) && Holder(br, c) == e && (c == 1 || Holder(br, c / 2) != e)
  }

  function Climb(br: Bracket, t: nat): (c: nat)
    requires Node(br, t)
    ensures IsCurrent(br, Holder(br, t), c)
  {
    if t > 1 && Holder(br, t / 2) == Holder(br, t) then Climb(br, t / 2) else t
  }

  ghost function CurrentNode(br: Bracket, e: int): (c: nat)
    requires e in br.leaves
    ensures IsCurrent(br, e, c)
  {
    assert IsCurrent(br, e, Climb(br, LeafOf(br, e)));
    var c: nat :| IsCurrent(br, e, c); c
  }

  lemma CurrentIsHighest(br: Bracket, e: int, c: nat, t: nat)
    requires SoundBracket(br) && e > 0 && IsCurrent(br, e, c) && Node(br, t) && Holder(br, t) == e
    ensures Height(t, Size(br)) <= Height(c, Size(br))
  {
    if Height(t, Size(br)) > Height(c, Size(br)) {
      ChainHasNoGap(br, t, Height(c, Size(br)) + 1);
      HolderIsAbove(br, c);
      OnlyFinalAtTop(br, c, t);
    }
  }

  lemma {:induction false} OnlyFinalAtTop(br: Bracket, c: nat, t: nat)
    requires SoundBracket(br) && Node(br, c) && Node(br, t) && Height(t, Size(br)) > Height(c, Size(br))
    ensures c > 1
  {
    HeightFalls(1, t, Size(br));
  }

  lemma {:induction false} HeightFalls(t: nat, u: nat, f: nat)
    requires 1 <= t <= u
    ensures Height(u, f) <= Height(t, f)
    decreases f
  {
    if u < f { HeightFalls(t, u, f / 2); }
  }

  lemma CurrentIsUnique(br: Bracket, e: int, c: nat)
    requires SoundBracket(br) && e in br.leaves && IsCurrent(br, e, c)
    ensures c == CurrentNode(br, e)
  {
    var c' := CurrentNode(br, e);
    CurrentIsHighest(br, e, c, c');
    CurrentIsHighest(br, e, c', c);
    OneNodePerLevel(br, c, c');
  }

  /** Exactly the nodes on the way from its leaf to its furthest node are held by a finalist. */
  lemma SeatsFormChain(br: Bracket, e: int, t: nat)
    requires SoundBracket(br) && e in br.leaves && Node(br, t)
    ensures Holder(br, t) == e <==>
              Height(t, Size(br)) <= Height(CurrentNode(br, e), Size(br)) && t == Up(LeafOf(br, e), Height(t, Size(br)))
  {
    var c := CurrentNode(br, e);
    if Holder(br, t) == e {
      HolderIsAbove(br, t);
      CurrentIsHighest(br, e, c, t);
    } else if Height(t, Size(br)) <= Height(c, Size(br)) {
      ChainHasNoGap(br, c, Height(t, Size(br)));
    }
  }

  // ----- one report

  function StepBracket(br: Bracket, t: nat, first: bool, g: Game): Bracket
    requires Inner(br, t)
  {
    br.(duels := br.duels[t := PlayAs(br.duels[t], first, g)])
  }

  /** A report moves somebody only into its own node. */
  lemma {:induction false} StepMovesOnlyOne(br: Bracket, t: nat, first: bool, g: Game, u: nat)
    requires SoundBracket(br) && Inner(br, t) && !Decided(br.duels[t]) && Node(br, u) && u != t
    ensures Holder(StepBracket(br, t, first, g), u) == Holder(br, u)
    decreases 2 * Size(br) - u
  {
    if u < Size(br) && Decided(br.duels[u]) {
      FilledMeansDecided(br, u);
      StepMovesOnlyOne(br, t, first, g, WinningChild(br, u));
    }
  }

  lemma StepKeepsBracket(br: Bracket, t: nat, first: bool, g: Game)
    requires SoundBracket(br) && Inner(br, t) && !Decided(br.duels[t]) && Filled(br, t) && Counts(g)
    ensures SoundBracket(StepBracket(br, t, first, g))
  {
    var br' := StepBracket(br, t, first, g);
    assert NodeSound(br, t);
    FairStep(br.duels[t], first, g);
    forall u | Inner(br', u) ensures NodeSound(br', u) {
      assert NodeSound(br, u);
      if br'.duels[u] != FRESH {
        assert Filled(br, u);
        forall c | c == 2 * u || c == 2 * u + 1 ensures Holder(br', c) == Holder(br, c) {
          if c == t { FilledMeansDecided(br, t); } else { StepMovesOnlyOne(br, t, first, g, c); }
        }
      }
    }
  }

  datatype EliReport = EliReport(eid1: int, eid2: int, game: Game)

  datatype EliVerdict = Reject(code: int) | Accept(node: nat, first: bool)

  /** The guards of the elimination report, on two finalists. */
  ghost function BracketVerdict(br: Bracket, e1: int, e2: int, g: Game): EliVerdict
    requires e1 in br.leaves && e2 in br.leaves
  {
    var c1, c2 := CurrentNode(br, e1), CurrentNode(br, e2);
    if g.winner != 1 && g.winner != 2 && g.winner != 9 then Reject(-5)
    else if g.upper != 1 && g.upper != 2 then Reject(-15)
    else if Height(c1, Size(br)) != Height(c2, Size(br)) then Reject(-6)
    else if NodeTally(br, c1).point >= WINNING_POINTS || NodeTally(br, c2).point >= WINNING_POINTS then Reject(-16)
    else if c1 / 2 != c2 / 2 || c1 == c2 then Reject(-26)
    else Accept(c1 / 2, c1 % 2 == 0)
  }

  /** Accepted means: the two known players of an open pairing, and a code that counts. */
  lemma AcceptedMeansOpen(br: Bracket, e1: int, e2: int, g: Game)
    requires SoundBracket(br) && e1 in br.leaves && e2 in br.leaves
    ensures var v := BracketVerdict(br, e1, e2, g);
            v.Accept? ==> Inner(br, v.node) && Filled(br, v.node) && !Decided(br.duels[v.node]) && Counts(g)
  {
    var c1, c2 := CurrentNode(br, e1), CurrentNode(br, e2);
    var v := BracketVerdict(br, e1, e2, g);
    if v.Accept? {
      assert {c1, c2} == {2 * v.node, 2 * v.node + 1};
      FilledMeansDecided(br, v.node);
    }
  }

  /** The bracket after one report on two finalists. */
  ghost function AfterEli(br: Bracket, r: EliReport): Bracket
    requires SoundBracket(br) && r.eid1 in br.leaves && r.eid2 in br.leaves
  {
    AcceptedMeansOpen(br, r.eid1, r.eid2, r.game);
    match BracketVerdict(br, r.eid1, r.eid2, r.game)
    case Reject(_) => br
    case Accept(t, first) => StepBracket(br, t, first, r.game)
  }

  lemma AfterEliKeepsSound(br: Bracket, r: EliReport)
    requires SoundBracket(br) && r.eid1 in br.leaves && r.eid2 in br.leaves
    ensures SoundBracket(AfterEli(br, r)) && AfterEli(br, r).leaves == br.leaves
  {
    AcceptedMeansOpen(br, r.eid1, r.eid2, r.game);
    var v := BracketVerdict(br, r.eid1, r.eid2, r.game);
    if v.Accept? { StepKeepsBracket(br, v.node, v.first, r.game); }
  }

  lemma OpenSeatsAreCurrent(br: Bracket, t: nat, c: nat)
    requires SoundBracket(br) && Inner(br, t) && Filled(br, t) && !Decided(br.duels[t])
    requires c == 2 * t || c == 2 * t + 1
    ensures Holder(br, c) in br.leaves && CurrentNode(br, Holder(br, c)) == c
    ensures NodeTally(br, c).point < WINNING_POINTS && Height(c, Size(br)) == Height(t, Size(br)) - 1
  {
    HolderIsAbove(br, c);
    FilledMeansDecided(br, t);
    CurrentIsUnique(br, Holder(br, c), c);
    ChildHeight(t, Size(br));
  }

  /** And every open pairing with two known players is accepted, in either order. */
  lemma OpenPairingAccepted(br: Bracket, t: nat, g: Game)
    requires SoundBracket(br) && Inner(br, t) && Filled(br, t) && !Decided(br.duels[t])
    requires Counts(g) && (g.upper == 1 || g.upper == 2)
    ensures var e1, e2 := Holder(br, 2 * t), Holder(br, 2 * t + 1);
            && e1 in br.leaves && e2 in br.leaves
            && BracketVerdict(br, e1, e2, g) == Accept(t, true)
            && BracketVerdict(br, e2, e1, g) == Accept(t, false)
  {
    OpenSeatsAreCurrent(br, t, 2 * t);
    OpenSeatsAreCurrent(br, t, 2 * t + 1);
  }

  /** No deadlock: below every open pairing there is one that can be played. */
  lemma {:induction false} SomeNodePlayable(br: Bracket, t: nat) returns (u: nat)
    requires SoundBracket(br) && Inner(br, t) && !Decided(br.duels[t])
    ensures Inner(br, u) && !Decided(br.duels[u]) && Filled(br, u)
    decreases 2 * Size(br) - t
  {
    if Inner(br, 2 * t) && !Decided(br.duels[2 * t]) {
      u := SomeNodePlayable(br, 2 * t);
    } else if Inner(br, 2 * t + 1) && !Decided(br.duels[2 * t + 1]) {
      u := SomeNodePlayable(br, 2 * t + 1);
    } else {
      u := t;
      if Inner(br, 2 * t) { FilledMeansDecided(br, 2 * t); }
      if Inner(br, 2 * t + 1) { FilledMeansDecided(br, 2 * t + 1); }
    }
  }

  // ----- the result

  /** The final is the last pairing to be decided. */
  lemma {:induction false} FinalComesLast(br: Bracket, t: nat)
    requires SoundBracket(br) && Decided(br.duels[1]) && Inner(br, t)
    ensures Decided(br.duels[t])
  {
    if t > 1 {
      FinalComesLast(br, t / 2);
      FilledMeansDecided(br, t / 2);
      assert t == WinningChild(br, t / 2) || t == LosingChild(br, t / 2);
      FilledMeansDecided(br, t);
    }
  }

  /** The pairings `e` has lost so far. */
  ghost function LostAt(br: Bracket, e: int): set<nat> {
    set t: nat | 1 <= t < Size(br) && Decided(br.duels[t]) && Holder(br, LosingChild(br, t)) == e
  }

  lemma LossOnlyAtTheEnd(br: Bracket, e: int, t: nat)
    requires SoundBracket(br) && e in br.leaves && t in LostAt(br, e)
    ensures CurrentNode(br, e) > 1 && t == CurrentNode(br, e) / 2
  {
    var x := LosingChild(br, t);
    FilledMeansDecided(br, t);
    ChildHeight(t, Size(br));
    if Holder(br, t) == e { OneNodePerLevel(br, 2 * t, 2 * t + 1); }
    CurrentIsUnique(br, e, x);
  }

  lemma LossAtTheEnd(br: Bracket, e: int)
    requires SoundBracket(br) && e in br.leaves
    ensures var c := CurrentNode(br, e); c > 1 && Decided(br.duels[c / 2]) ==> c / 2 in LostAt(br, e)
  {
    var c := CurrentNode(br, e);
    if c > 1 && Decided(br.duels[c / 2]) {
      FilledMeansDecided(br, c / 2);
      assert c == WinningChild(br, c / 2) || c == LosingChild(br, c / 2);
    }
  }

  /** Nobody loses twice: the only loss is the one just above the furthest node reached. */
  lemma LossIsWhereTheChainEnds(br: Bracket, e: int)
    requires SoundBracket(br) && e in br.leaves
    ensures var c := CurrentNode(br, e);
            LostAt(br, e) == if c > 1 && Decided(br.duels[c / 2]) then {c / 2} else {}
  {
    forall t: nat | t in LostAt(br, e) ensures CurrentNode(br, e) > 1 && t == CurrentNode(br, e) / 2 {
      LossOnlyAtTheEnd(br, e, t);
    }
    LossAtTheEnd(br, e);
  }

  /** When node 1 is filled, its holder won every pairing on its way up and lost none, and every
      other finalist lost exactly one. */
  lemma ChampionAndLosers(br: Bracket, e: int)
    requires SoundBracket(br) && Holder(br, 1) > 0 && e in br.leaves
    ensures Finished(br)
    ensures e != Holder(br, 1) ==> |LostAt(br, e)| == 1
    ensures e == Holder(br, 1) ==> LostAt(br, e) == {}
    ensures e == Holder(br, 1) ==> forall h :: 1 <= h <= Height(1, Size(br)) ==> WonAbove(br, e, h)
  {
    FilledMeansDecided(br, 1);
    forall t | Inner(br, t) ensures Decided(br.duels[t]) { FinalComesLast(br, t); }
    LossIsWhereTheChainEnds(br, e);
    if e == Holder(br, 1) {
      CurrentIsUnique(br, e, 1);
      forall h | 1 <= h <= Height(1, Size(br)) ensures WonAbove(br, e, h) {
        ChainHasNoGap(br, 1, h);
        InnerAbove(br, e, h);
      }
    }
  }

  /** `e` won the pairing `h` levels above its leaf. */
  ghost predicate WonAbove(br: Bracket, e: int, h: nat)
    requires e in br.leaves
  {
    var t := Up(LeafOf(br, e), h);
    Inner(br, t) && Decided(br.duels[t]) && Holder(br, WinningChild(br, t)) == e
  }

  lemma InnerAbove(br: Bracket, e: int, h: nat)
    requires e in br.leaves && h >= 1 && e > 0
    requires Node(br, Up(LeafOf(br, e), h)) && Holder(br, Up(LeafOf(br, e), h)) == e
    ensures WonAbove(br, e, h)
  {
    UpShrinks(LeafOf(br, e), h);
  }

  lemma UpShrinks(x: nat, h: nat)
    requires h >= 1
    ensures 2 * Up(x, h) <= x
  {
  }

  // ----- counting reports

  /** Games played in nodes `t` and above in number. */
  function BracketGames(br: Bracket, t: nat): nat
    requires t <= Size(br)
    decreases Size(br) - t
  {
    if t == Size(br) then 0 else Games(br.duels[t]) + BracketGames(br, t + 1)
  }

  function BracketLeft(br: Bracket, t: nat): int
    requires t <= Size(br)
    decreases Size(br) - t
  {
    if t == Size(br) then 0 else GamesLeft(br.duels[t]) + BracketLeft(br, t + 1)
  }

  lemma {:induction false} BracketBounds(br: Bracket, t: nat)
    requires SoundBracket(br) && 1 <= t <= Size(br)
    ensures BracketGames(br, t) <= 3 * (Size(br) - t) && 0 <= BracketLeft(br, t) <= 3 * (Size(br) - t)
    ensures Finished(br) ==> 2 * (Size(br) - t) <= BracketGames(br, t)
    decreases Size(br) - t
  {
    if t < Size(br) {
      BracketBounds(br, t + 1);
      assert NodeSound(br, t);
    }
  }

  lemma {:induction false} SumsAfterUpdate(br: Bracket, t: nat, d: Duel, u: nat)
    requires t < Size(br) && u <= Size(br)
    ensures var br' := br.(duels := br.duels[t := d]);
            && BracketGames(br', u) == BracketGames(br, u) + (if u <= t then Games(d) - Games(br.duels[t]) else 0)
            && BracketLeft(br', u) == BracketLeft(br, u) + (if u <= t then GamesLeft(d) - GamesLeft(br.duels[t]) else 0)
    decreases Size(br) - u
  {
    if u < Size(br) { SumsAfterUpdate(br, t, d, u + 1); }
  }

  /** Every accepted report is one more game and brings the final closer. */
  lemma StepCountsBracket(br: Bracket, t: nat, first: bool, g: Game)
    requires SoundBracket(br) && Inner(br, t) && !Decided(br.duels[t]) && Counts(g)
    ensures BracketGames(StepBracket(br, t, first, g), 1) == BracketGames(br, 1) + 1
    ensures BracketLeft(StepBracket(br, t, first, g), 1) < BracketLeft(br, 1)
  {
    assert NodeSound(br, t);
    FairStep(br.duels[t], first, g);
    SumsAfterUpdate(br, t, PlayAs(br.duels[t], first, g), 1);
  }

  // ----- runs

  /** Report `k` leads from state `k` to the next, and is accepted. */
  ghost predicate AcceptedAt(states: seq<Bracket>, reports: seq<EliReport>, k: nat)
    requires |states| == |reports| + 1 && k < |reports|
  {
    var br, r := states[k], reports[k];
    && SoundBracket(br) && r.eid1 in br.leaves && r.eid2 in br.leaves
    && BracketVerdict(br, r.eid1, r.eid2, r.game).Accept? && states[k + 1] == AfterEli(br, r)
  }

  ghost predicate AcceptedStates(states: seq<Bracket>, reports: seq<EliReport>) {
    |states| == |reports| + 1 && forall k :: 0 <= k < |reports| ==> AcceptedAt(states, reports, k)
  }

  /** `br'` is reachable from `br` by exactly these reports, each accepted when it came. */
  ghost predicate AcceptedRun(br: Bracket, reports: seq<EliReport>, br': Bracket) {
    exists states :: AcceptedStates(states, reports) && states[0] == br && states[|reports|] == br'
  }

  lemma FreshBracketIsSound(leaves: seq<int>)
    requires PowerOfTwo(|leaves|) && |leaves| >= 2 && DistinctPlayers(leaves)
    ensures SoundBracket(NewBracket(leaves))
    ensures BracketGames(NewBracket(leaves), 1) == 0
  {
    NoGames(NewBracket(leaves), 1);
  }

  lemma {:induction false} NoGames(br: Bracket, t: nat)
    requires t <= Size(br) && forall u :: 0 <= u < Size(br) ==> br.duels[u] == FRESH
    ensures BracketGames(br, t) == 0
    decreases Size(br) - t
  {
    if t < Size(br) { NoGames(br, t + 1); }
  }

  /** Every state of a run is sound, and counts the reports so far. */
  lemma {:induction false} StatesAreSound(states: seq<Bracket>, reports: seq<EliReport>, k: nat)
    requires AcceptedStates(states, reports) && SoundBracket(states[0]) && k <= |reports|
    ensures SoundBracket(states[k]) && states[k].leaves == states[0].leaves
    ensures BracketGames(states[k], 1) == BracketGames(states[0], 1) + k
  {
    if k > 0 {
      StatesAreSound(states, reports, k - 1);
      assert AcceptedAt(states, reports, k - 1);
      var br, r := states[k - 1], reports[k - 1];
      AcceptedMeansOpen(br, r.eid1, r.eid2, r.game);
      AfterEliKeepsSound(br, r);
      var v := BracketVerdict(br, r.eid1, r.eid2, r.game);
      StepCountsBracket(br, v.node, v.first, r.game);
    }
  }

  lemma RunKeepsBracket(br: Bracket, reports: seq<EliReport>, br': Bracket)
    requires SoundBracket(br) && AcceptedRun(br, reports, br')
    ensures SoundBracket(br') && br'.leaves == br.leaves
    ensures BracketGames(br', 1) == BracketGames(br, 1) + |reports|
  {
    var states :| AcceptedStates(states, reports) && states[0] == br && states[|reports|] == br';
    StatesAreSound(states, reports, |reports|);
  }

  /** With F finalists a champion needs between 2(F-1) and 3(F-1) accepted reports, in any order. */
  lemma EliminationLength(leaves: seq<int>, reports: seq<EliReport>, br': Bracket)
    requires PowerOfTwo(|leaves|) && |leaves| >= 2 && DistinctPlayers(leaves)
    requires AcceptedRun(NewBracket(leaves), reports, br')
    ensures |reports| <= 3 * (|leaves| - 1)
    ensures Holder(br', 1) > 0 ==> 2 * (|leaves| - 1) <= |reports|
  {
    FreshBracketIsSound(leaves);
    RunKeepsBracket(NewBracket(leaves), reports, br');
    BracketBounds(br', 1);
    if Holder(br', 1) > 0 { ChampionAndLosers(br', leaves[0]); }
  }

  /** Whatever the order of accepted reports: nobody loses twice, and once there is a champion it has
      won all its pairings while every other finalist has lost exactly one. */
  lemma EliminationOutcome(leaves: seq<int>, reports: seq<EliReport>, br': Bracket, e: int)
    requires PowerOfTwo(|leaves|) && |leaves| >= 2 && DistinctPlayers(leaves) && e in leaves
    requires AcceptedRun(NewBracket(leaves), reports, br')
    ensures br'.leaves == leaves && |LostAt(br', e)| <= 1
    ensures Holder(br', 1) > 0 ==> Holder(br', 1) in leaves && (|LostAt(br', e)| == 0 <==> e == Holder(br', 1))
    ensures Holder(br', 1) == e ==> forall h :: 1 <= h <= Height(1, |leaves|) ==> WonAbove(br', e, h)
  {
    FreshBracketIsSound(leaves);
    RunKeepsBracket(NewBracket(leaves), reports, br');
    LossIsWhereTheChainEnds(br', e);
    if Holder(br', 1) > 0 {
      HolderIsAbove(br', 1);
      ChampionAndLosers(br', e);
    }
  }
}

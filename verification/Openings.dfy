/** What both initialisations and the bracket display leave in the records, told in their own fields:
    rounds, tids, eids and counters as numbers. */
module Openings {
  import opened Duels
  import opened Groups
  import opened TeamStages
  import opened Rosters
  import opened EliStages
  import opened Layouts
  import opened Reports
  import B = Brackets

  // ----- team stage

  /** The twelve records of team `t` (numbered from 0) before its first game. */
  predicate TeamOpened(s: seq<Record>, n: nat, t: nat, roster: seq<int>)
    requires 4 * t + 4 <= n == |roster| && 3 * n <= |s|
  {
    var none := Tally(0, 0, 0, 0);
    && s[4 * t] == Record(roster[4 * t], 1, t + 1, 0, none)
    && s[4 * t + 1] == Record(roster[4 * t + 1], 1, t + 1, 1, none)
    && s[4 * t + 2] == Record(roster[4 * t + 2], 1, t + 1, 0, none)
    && s[4 * t + 3] == Record(roster[4 * t + 3], 1, t + 1, 1, none)
    && s[n + 4 * t] == Record(-201, 2, t + 1, 1, none)
    && s[n + 4 * t + 1] == Record(-211, 2, t + 1, 1, none)
    && s[n + 4 * t + 2] == Record(-101, 2, t + 1, 0, none)
    && s[n + 4 * t + 3] == Record(-111, 2, t + 1, 0, none)
    && s[2 * n + 4 * t] == Record(-202, 3, t + 1, 0, none)
    && s[2 * n + 4 * t + 1] == Record(-112, 3, t + 1, 0, none)
    && s[2 * n + 4 * t + 2] == Record(-212, 3, t + 1, 1, none)
    && s[2 * n + 4 * t + 3] == Record(0, 3, t + 1, -1, none)
  }

  lemma DrawOpens(s: seq<Record>, n: nat, roster: seq<int>, t: nat)
    requires |roster| == n && n % 4 == 0 && Rendered(s, n, Draw(roster)) && 4 * t + 4 <= n
    ensures TeamOpened(s, n, t, roster)
  {
    var teams := Draw(roster);
    FirstRoundOpens(s, n, roster, t, 0);
    FirstRoundOpens(s, n, roster, t, 1);
    FirstRoundOpens(s, n, roster, t, 2);
    FirstRoundOpens(s, n, roster, t, 3);
    forall k | 4 <= k < SEATS ensures s[Pos(n, t, k)] == ReservedSeat(t, k) {
      SeatPicture(s, n, teams, t, k);
      if k < 10 { PairOfSeat(k); }
    }
    ReservedInFields(t);
    assert Pos(n, t, 4) == n + 4 * t && Pos(n, t, 5) == n + 4 * t + 1;
    assert Pos(n, t, 6) == n + 4 * t + 2 && Pos(n, t, 7) == n + 4 * t + 3;
    assert Pos(n, t, 8) == 2 * n + 4 * t && Pos(n, t, 9) == 2 * n + 4 * t + 1;
    assert Pos(n, t, 10) == 2 * n + 4 * t + 2 && Pos(n, t, 11) == 2 * n + 4 * t + 3;
  }

  /** Of all teams. */
  ghost predicate AllOpened(s: seq<Record>, n: nat, roster: seq<int>) {
    n == |roster| && 3 * n <= |s| && forall t: nat :: 4 * t + 4 <= n ==> TeamOpened(s, n, t, roster)
  }

  lemma DrawOpensAll(s: seq<Record>, n: nat, roster: seq<int>)
    requires |roster| == n && n % 4 == 0 && Rendered(s, n, Draw(roster))
    ensures AllOpened(s, n, roster)
  {
    forall t: nat | 4 * t + 4 <= n ensures TeamOpened(s, n, t, roster) { DrawOpens(s, n, roster, t); }
  }

  lemma FirstRoundOpens(s: seq<Record>, n: nat, roster: seq<int>, t: nat, k: nat)
    requires |roster| == n && n % 4 == 0 && Rendered(s, n, Draw(roster)) && 4 * t + 4 <= n && k < 4
    ensures s[4 * t + k] == Record(roster[4 * t + k], 1, t + 1, k % 2, Tally(0, 0, 0, 0))
  {
    SeatPicture(s, n, Draw(roster), t, k);
    assert Pos(n, t, k) == 4 * t + k && Draw(roster)[t].roster[k] == roster[4 * t + k];
    PairOfSeat(k);
  }

  lemma ReservedInFields(t: nat)
    ensures ReservedSeat(t, 4) == Record(-201, 2, t + 1, 1, Tally(0, 0, 0, 0))
    ensures ReservedSeat(t, 5) == Record(-211, 2, t + 1, 1, Tally(0, 0, 0, 0))
    ensures ReservedSeat(t, 6) == Record(-101, 2, t + 1, 0, Tally(0, 0, 0, 0))
    ensures ReservedSeat(t, 7) == Record(-111, 2, t + 1, 0, Tally(0, 0, 0, 0))
    ensures ReservedSeat(t, 8) == Record(-202, 3, t + 1, 0, Tally(0, 0, 0, 0))
    ensures ReservedSeat(t, 9) == Record(-112, 3, t + 1, 0, Tally(0, 0, 0, 0))
    ensures ReservedSeat(t, 10) == Record(-212, 3, t + 1, 1, Tally(0, 0, 0, 0))
    ensures ReservedSeat(t, 11) == Record(0, 3, t + 1, -1, Tally(0, 0, 0, 0))
  {
  }

  // ----- elimination stage

  /** The eids on a list are, besides -1, those of the records of round 3 with five points or more. */
  ghost predicate Handed(s: seq<Record>, n: nat, eids: seq<int>)
    requires 3 * n <= |s|
  {
    forall e :: e != -1 ==> (e in eids <==> exists k :: 2 * n <= k < 3 * n && s[k].score.point >= 5 && s[k].eid == e)
  }

  lemma {:induction false} FivePointersAre(s: seq<Record>, from: nat, i: nat, e: int)
    requires from + i <= |s|
    ensures e in FivePointers(s, from, i) <==>
              exists k :: from <= k < from + i && s[k].score.point >= 5 && s[k].eid == e
  {
    if i > 0 { FivePointersAre(s, from, i - 1, e); }
  }

  lemma HandedOver(s: seq<Record>, n: nat, r: seq<int>)
    requires 3 * n <= |s| && |r| == n && HalfShuffled(r, FivePointers(s, 2 * n, n), n)
    ensures Handed(s, n, r)
  {
    var q := FivePointers(s, 2 * n, n);
    forall e | e != -1
      ensures e in r <==> exists k :: 2 * n <= k < 3 * n && s[k].score.point >= 5 && s[k].eid == e
    {
      FivePointersAre(s, 2 * n, n, e);
      ShuffledHolds(r, q, n, e);
    }
  }

  lemma ShuffledHolds(r: seq<int>, q: seq<int>, n: nat, e: int)
    requires |r| == n && |q| <= n && HalfShuffled(r, q, n) && e != -1
    ensures e in r <==> e in q
  {
    var p, h := Padded(q, n), n / 2;
    assert r == r[..h] + r[h..] && p == p[..h] + p[h..];
    assert e in r[..h] <==> e in multiset(r[..h]);
    assert e in p[..h] <==> e in multiset(p[..h]);
    assert e in p <==> e in q by {
      if e in q { var i :| 0 <= i < |q| && q[i] == e; assert p[i] == e; }
    }
  }

  /** The records of a fresh bracket: round 4 for the finalists, one more with every halving, tids
      descending from n - 1, nobody above the finalists and the last record unused. */
  predicate BracketOpened(s: seq<Record>, n: nat) {
    && n <= |s| && n >= 4
    && s[n - 1] == Record(-1, 0, 0, 0, Tally(0, 0, 0, 0))
    && (forall i :: 0 <= i < n - 1 ==> s[i].tid == n - 1 - i && s[i].round >= 4 && s[i].score == Tally(0, 0, 0, 0))
    && (forall i :: 0 <= i < n / 2 ==> s[i].round == 4 && s[i].eid > 0)
    && (forall t :: 1 <= t < n / 2 ==> InnerOpened(s, n, t))
  }

  predicate InnerOpened(s: seq<Record>, n: nat, t: int)
    requires 1 <= t && 2 * t < n - 1 && n <= |s|
  {
    && s[n - 1 - t].eid == -1
    && s[n - 1 - t].round == s[n - 1 - 2 * t].round + 1 == s[n - 2 - 2 * t].round + 1
  }

  lemma FreshBracketOpens(s: seq<Record>, n: nat, br: B.Bracket)
    requires BracketRendered(s, n, br) && B.SoundBracket(br) && br == B.NewBracket(br.leaves)
    ensures BracketOpened(s, n)
  {
    forall i | 0 <= i < n - 1
      ensures s[i].tid == n - 1 - i && s[i].round >= 4 && s[i].score == Tally(0, 0, 0, 0)
    {
      FreshRecord(s, n, br, i);
    }
    forall i | 0 <= i < n / 2 ensures s[i].round == 4 && s[i].eid > 0 { FreshRecord(s, n, br, i); }
    forall t | 1 <= t < n / 2 ensures InnerOpened(s, n, t) {
      FreshRecord(s, n, br, n - 1 - t);
      FreshRounds(s, n, br, t);
    }
  }

  lemma FreshRecord(s: seq<Record>, n: nat, br: B.Bracket, i: nat)
    requires BracketRendered(s, n, br) && B.SoundBracket(br) && br == B.NewBracket(br.leaves) && i < n - 1
    ensures s[i].tid == n - 1 - i && s[i].round >= 4 && s[i].score == Tally(0, 0, 0, 0)
    ensures i < n / 2 ==> s[i].round == 4 && s[i].eid > 0
    ensures i >= n / 2 ==> s[i].eid == -1
  {
    RecordOf(s, n, br, i);
    FreshNode(br, n - 1 - i);
  }

  lemma FreshNode(br: B.Bracket, t: nat)
    requires br == B.NewBracket(br.leaves) && B.Node(br, t) && AllPositive(br.leaves)
    ensures B.NodeTally(br, t) == ZERO
    ensures if t < B.Size(br) then B.Holder(br, t) == -1 else B.Holder(br, t) > 0 && B.Height(t, B.Size(br)) == 0
  {
    assert br.duels[t / 2] == FRESH;
    if t < B.Size(br) { assert br.duels[t] == FRESH && !Decided(br.duels[t]); }
  }

  lemma FreshRounds(s: seq<Record>, n: nat, br: B.Bracket, t: nat)
    requires BracketRendered(s, n, br) && B.SoundBracket(br) && B.Inner(br, t)
    ensures s[n - 1 - t].round == s[n - 1 - 2 * t].round + 1 == s[n - 2 - 2 * t].round + 1
  {
    RecordOf(s, n, br, n - 1 - t);
    RecordOf(s, n, br, n - 1 - 2 * t);
    RecordOf(s, n, br, n - 2 - 2 * t);
    B.ChildHeight(t, B.Size(br));
  }

  /** The records shown around node `tid`, and nothing else: a node, its two children, its four grandchildren. */
  predicate Displayed(s: seq<Record>, n: nat, tid: int, shown: seq<Record>)
    requires -1 <= tid < 4 * n && n % 4 == 0 && 4 <= n <= |s|
  {
    var a := if tid >= n / 2 then tid / 2 else tid;
    var p := if a < 2 then 1 else a / 2;
    if 2 * p >= n then shown == [s[n - 1 - p]]
    else if 4 * p >= n then shown == [s[n - 1 - p], s[n - 1 - 2 * p], s[n - 2 - 2 * p]]
    else shown == [s[n - 1 - p], s[n - 1 - 2 * p], s[n - 2 - 2 * p],
                   s[n - 1 - 4 * p], s[n - 2 - 4 * p], s[n - 3 - 4 * p], s[n - 4 - 4 * p]]
  }

  lemma WindowDisplayed(s: seq<Record>, n: nat, tid: int, shown: seq<Record>)
    requires -1 <= tid < 4 * n && n % 4 == 0 && 4 <= n <= |s| && |shown| == |Window(n, tid)|
    requires forall i :: 0 <= i < |shown| ==>
               0 <= n - Window(n, tid)[i] - 1 < n && shown[i] == s[n - Window(n, tid)[i] - 1]
    ensures Displayed(s, n, tid, shown)
  {
    WindowInTree(n, tid);
  }
}

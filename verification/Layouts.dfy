/** What initialisation writes into the two record lists: drawn groups, and the rows of a bracket. */
module Layouts {
  import opened Duels
  import opened Groups
  import opened TeamStages
  import opened Rosters
  import opened EliStages
  import B = Brackets

  const NOBODY := Record(0, 0, 0, 0, ZERO)

  function Eids(s: seq<Record>, n: nat): (r: seq<int>)
    requires n <= |s|
    ensures |r| == n && forall i :: 0 <= i < n ==> r[i] == s[i].eid
  {
    seq(n, i requires 0 <= i < n => s[i].eid)
  }

  /** What team initialisation leaves in seat `k` of rounds 2 and 3. */
  function ReservedSeat(t: nat, k: nat): Record
    requires 4 <= k < SEATS
  {
    Record(if k == 11 then 0 else FakeEid(Won(k), PairTid(Source(k)), PairRound(Source(k))),
           SeatRound(k), t + 1, SeatTid(k), ZERO)
  }

  /** The groups drawn from a roster in list order. */
  function Draw(roster: seq<int>): (teams: seq<Team>)
    requires |roster| % 4 == 0
    ensures |teams| == |roster| / 4
    ensures forall t :: 0 <= t < |teams| ==> teams[t] == NewTeam(roster[4 * t..4 * t + 4])
  {
    seq(|roster| / 4, t requires 0 <= t < |roster| / 4 => NewTeam(roster[4 * t..4 * t + 4]))
  }

  lemma DrawnAt(roster: seq<int>, i: nat)
    requires |roster| % 4 == 0 && i < |roster|
    ensures i / 4 < |roster| / 4 && Draw(roster)[i / 4].roster[i % 4] == roster[i]
  {
    assert 4 * (i / 4) + i % 4 == i;
  }

  lemma DrawnDiffer(roster: seq<int>, i: nat, j: nat)
    requires |roster| % 4 == 0 && i < j < |roster| && SoundStage(Draw(roster))
    ensures roster[i] > 0 && roster[i] != roster[j]
  {
    DrawnAt(roster, i);
    DrawnAt(roster, j);
    var teams := Draw(roster);
    var t, u := i / 4, j / 4;
    assert DistinctPlayers(teams[t].roster);
    if t != u {
      assert roster[i] in teams[t].roster && roster[j] in teams[u].roster;
    } else {
      assert i % 4 < j % 4;
    }
  }

  lemma DrawnPlayer(roster: seq<int>, t: nat, e: int) returns (i: nat)
    requires |roster| % 4 == 0 && t < |roster| / 4 && e in Draw(roster)[t].roster
    ensures 4 * t <= i < 4 * t + 4 && i < |roster| && roster[i] == e
  {
    var k :| 0 <= k < 4 && Draw(roster)[t].roster[k] == e;
    i := 4 * t + k;
  }

  /** Freshly drawn groups are proper when the roster lists different real players, */
  lemma DrawIsFresh(roster: seq<int>)
    requires |roster| % 4 == 0 && DistinctPlayers(roster)
    ensures FreshStage(Draw(roster))
  {
    var teams := Draw(roster);
    forall t | 0 <= t < |teams| ensures DistinctPlayers(teams[t].roster) {
      assert forall i :: 0 <= i < 4 ==> teams[t].roster[i] == roster[4 * t + i];
    }
    forall t, u, e | 0 <= t < |teams| && 0 <= u < |teams| && e in teams[t].roster && e in teams[u].roster
      ensures t == u
    {
      var i := DrawnPlayer(roster, t, e);
      var j := DrawnPlayer(roster, u, e);
      assert i == j;
    }
  }

  /** and only then. */
  lemma SoundDrawIsDistinct(roster: seq<int>)
    requires |roster| % 4 == 0 && SoundStage(Draw(roster))
    ensures DistinctPlayers(roster)
  {
    forall i | 0 <= i < |roster| ensures roster[i] > 0 {
      if i + 1 < |roster| { DrawnDiffer(roster, i, i + 1); } else { LastDrawn(roster); }
    }
    forall i, j | 0 <= i < j < |roster| ensures roster[i] != roster[j] {
      DrawnDiffer(roster, i, j);
    }
  }

  lemma LastDrawn(roster: seq<int>)
    requires |roster| % 4 == 0 && roster != [] && SoundStage(Draw(roster))
    ensures roster[|roster| - 1] > 0
  {
    DrawnAt(roster, |roster| - 1);
    assert DistinctPlayers(Draw(roster)[(|roster| - 1) / 4].roster);
  }

  /** The same, of the roster before it was shuffled. */
  lemma DrawIsProper(before: seq<int>, roster: seq<int>)
    requires |roster| % 4 == 0 && multiset(before) == multiset(roster)
    ensures SoundStage(Draw(roster)) <==> DistinctPlayers(before)
    ensures SoundStage(Draw(roster)) ==> FreshStage(Draw(roster))
  {
    if DistinctPlayers(before) {
      PermutationKeepsNoDuplicates(before, roster);
      DrawIsFresh(roster);
      FreshIsFair(Draw(roster));
    }
    if SoundStage(Draw(roster)) {
      SoundDrawIsDistinct(roster);
      PermutationKeepsNoDuplicates(roster, before);
      DrawIsFresh(roster);
    }
  }

  lemma DrawIsRendered(s: seq<Record>, n: nat, roster: seq<int>)
    requires n % 4 == 0 && 3 * n <= |s| && |roster| == n
    requires forall i :: 0 <= i < n ==> s[i] == Record(roster[i], 1, i / 4 + 1, i % 2, ZERO)
    requires forall t, k :: 0 <= t < n / 4 && 4 <= k < SEATS ==> s[Pos(n, t, k)] == ReservedSeat(t, k)
    ensures Rendered(s, n, Draw(roster))
  {
    var teams := Draw(roster);
    forall t, k | 0 <= t < |teams| && 0 <= k < SEATS ensures s[Pos(n, t, k)] == Seat(teams[t], t, k) {
      if k < 4 {
        assert Pos(n, t, k) == 4 * t + k;
        assert s[4 * t + k] == Record(roster[4 * t + k], 1, (4 * t + k) / 4 + 1, (4 * t + k) % 2, ZERO);
        assert teams[t].roster[k] == roster[4 * t + k];
      }
    }
  }

  /** One team's four records of round 2 (seats from `k` = 4 on) or 3 (from 8 on). */
  function FourWritten(s: seq<Record>, p: nat, t: nat, k: nat): (s': seq<Record>)
    requires p + 4 <= |s| && (k == 4 || k == 8)
    ensures |s'| == |s|
  {
    s[p := ReservedSeat(t, k)][p + 1 := ReservedSeat(t, k + 1)]
     [p + 2 := ReservedSeat(t, k + 2)][p + 3 := ReservedSeat(t, k + 3)]
  }

  /** Those of the first `i` teams, from `base` on. */
  function RowsReserved(s: seq<Record>, base: nat, i: nat, k: nat): (s': seq<Record>)
    requires base + 4 * i <= |s| && (k == 4 || k == 8)
    ensures |s'| == |s|
  {
    seq(|s|, j requires 0 <= j < |s| =>
      if base <= j < base + 4 * i then ReservedSeat((j - base) / 4, k + (j - base) % 4) else s[j])
  }

  lemma NoRowReserved(s: seq<Record>, base: nat, k: nat)
    requires base <= |s| && (k == 4 || k == 8)
    ensures RowsReserved(s, base, 0, k) == s
  {
  }

  lemma RowReserved(s: seq<Record>, base: nat, i: nat, k: nat)
    requires base + 4 * i + 4 <= |s| && (k == 4 || k == 8)
    ensures RowsReserved(s, base, i + 1, k) == FourWritten(RowsReserved(s, base, i, k), base + 4 * i, i, k)
  {
    var s1, s2 := RowsReserved(s, base, i + 1, k), FourWritten(RowsReserved(s, base, i, k), base + 4 * i, i, k);
    forall j | 0 <= j < |s| ensures s1[j] == s2[j] {
      if base + 4 * i <= j < base + 4 * i + 4 {
        assert (j - base) / 4 == i && (j - base) % 4 == j - base - 4 * i;
      }
    }
  }

  lemma RowsReservedAt(s: seq<Record>, base: nat, i: nat, k: nat, t: nat, r: nat)
    requires base + 4 * i <= |s| && (k == 4 || k == 8) && t < i && r < 4
    ensures RowsReserved(s, base, i, k)[base + 4 * t + r] == ReservedSeat(t, k + r)
  {
    assert (4 * t + r) / 4 == t && (4 * t + r) % 4 == r;
  }

  /** With both rounds reserved behind it, a seated roster shows its draw. */
  lemma BothRoundsReserved(s: seq<Record>, n: nat, roster: seq<int>)
    requires n % 4 == 0 && 3 * n <= |s| && |roster| == n
    requires forall i :: 0 <= i < n ==> s[i] == Record(roster[i], 1, i / 4 + 1, i % 2, ZERO)
    ensures Rendered(RowsReserved(RowsReserved(s, n, n / 4, 4), 2 * n, n / 4, 8), n, Draw(roster))
  {
    var s2 := RowsReserved(s, n, n / 4, 4);
    var s3 := RowsReserved(s2, 2 * n, n / 4, 8);
    forall t: nat, k | t < n / 4 && 4 <= k < SEATS ensures s3[Pos(n, t, k)] == ReservedSeat(t, k) {
      if k < 8 { RowsReservedAt(s, n, n / 4, 4, t, k - 4); } else { RowsReservedAt(s2, 2 * n, n / 4, 8, t, k - 8); }
    }
    DrawIsRendered(s3, n, roster);
  }

  /** First of a team's four slots of a round. */
  function SlotStart(n: nat, round: int, teamId: int): int {
    (if round == 1 then 0 else if round == 2 then n else 2 * n) + (teamId - 1) * 4
  }

  /** A list brought to length `n` with the placeholder -1. */
  function Padded(q: seq<int>, n: nat): seq<int> {
    q + seq(if n > |q| then n - |q| else 0, _ => -1)
  }

  /** What the scan of round 3 collects. */
  lemma QualifiersCollected(s: seq<Record>, n: nat, teams: seq<Team>)
    requires Rendered(s, n, teams) && SoundStage(teams)
    ensures var q := FivePointers(s, 2 * n, n);
            && q == AllQualified(teams) && DistinctPlayers(q)
            && (StageComplete(teams) ==> |q| == n / 2 + LateTeams(teams, |teams|))
  {
    assert teams[..|teams|] == teams;
    CollectedAreQualified(s, n, teams, |teams|);
    HandOver(teams, |teams|);
    EnrolledPositive(teams, AllQualified(teams));
  }

  /** Rounds and tids in place, nobody above the leaves, nothing played. */
  predicate LaidOut(s: seq<Record>, n: nat)
    requires 4 <= n <= |s|
  {
    && s[n - 1] == LAST_RECORD
    && (forall i :: 0 <= i < n - 1 ==>
          && s[i].round == FIRST_ELI_ROUND + B.Height(n - 1 - i, n / 2) && s[i].tid == n - 1 - i
          && s[i].teamId == 0 && s[i].score == ZERO)
    && (forall i :: n / 2 <= i < n - 1 ==> s[i].eid == -1)
  }

  /** The first `total` records have got the round of their row and descending tids; nothing else changed. */
  predicate RowsLaid(s: seq<Record>, s': seq<Record>, n: nat, total: nat) {
    && |s'| == |s| && total <= B.RowTotal(n / 2) <= |s|
    && (forall i :: 0 <= i < total ==>
          s'[i] == s[i].(round := FIRST_ELI_ROUND + B.RowIndex(n / 2, i), tid := n - 1 - i))
    && (forall i :: total <= i < |s| ==> s'[i] == s[i])
  }

  /** One row written: `len` records from `total` on, all of one round, with descending tids. */
  function RowWritten(s: seq<Record>, n: nat, total: nat, len: nat, round: int): (s': seq<Record>)
    requires total + len <= n <= |s|
    ensures |s'| == |s|
  {
    seq(|s|, i requires 0 <= i < |s| =>
      if total <= i < total + len then s[i].(round := round, tid := n - 1 - i) else s[i])
  }

  /** The layout of `s` has reached `cur`: `total` records are done and the next row has `len`. */
  ghost predicate LayoutAt(s: seq<Record>, cur: seq<Record>, n: nat, total: nat, len: nat, row: nat) {
    2 <= n <= |s| && B.RowsFrom(n / 2, len, total, row) && RowsLaid(s, cur, n, total)
  }

  lemma LayoutStart(s: seq<Record>, n: nat)
    requires 2 <= n <= |s|
    ensures LayoutAt(s, s, n, 0, n / 2, 0)
  {
    B.FirstRow(n / 2);
    B.LayoutFitsPowersOfTwo(n / 2);
  }

  lemma LayoutStep(s: seq<Record>, cur: seq<Record>, n: nat, total: nat, len: nat, row: nat)
    requires LayoutAt(s, cur, n, total, len, row) && len > 0
    ensures total + len <= n <= |cur|
    ensures LayoutAt(s, RowWritten(cur, n, total, len, FIRST_ELI_ROUND + row), n, total + len, len / 2, row + 1)
  {
    B.LayoutFitsPowersOfTwo(n / 2);
    B.NextRow(n / 2, len, total, row);
  }

  lemma LayoutEnd(s: seq<Record>, cur: seq<Record>, n: nat, total: nat, row: nat)
    requires LayoutAt(s, cur, n, total, 0, row)
    ensures RowsLaid(s, cur, n, B.RowTotal(n / 2))
  {
  }

  lemma RowsLaidOut(s: seq<Record>, s': seq<Record>, n: nat)
    requires 4 <= n <= |s| && n % 2 == 0 && B.PowerOfTwo(n / 2) && RowsLaid(s, s', n, B.RowTotal(n / 2))
    requires Blank(s, n) && forall i :: n / 2 <= i < n ==> s[i].eid == -1
    ensures LaidOut(s', n)
  {
    B.RowsAreHeights(n);
  }

  lemma RowsKeepEids(s: seq<Record>, s': seq<Record>, n: nat, total: nat)
    requires n <= |s| && RowsLaid(s, s', n, total)
    ensures Eids(s', n) == Eids(s, n)
  {
    forall i | 0 <= i < n ensures s'[i].eid == s[i].eid {
      assert i >= total ==> s'[i] == s[i];
    }
  }

  /** Layout over a shuffled list: eids stay, and without a qualifier too many the bracket is in place. */
  lemma LaidOutOver(s: seq<Record>, s': seq<Record>, n: nat, q: seq<int>)
    requires 4 <= n <= |s| && n % 2 == 0 && |q| <= n && HalfShuffled(Eids(s, n), q, n)
    requires RowsLaid(s, s', n, B.RowTotal(n / 2))
    ensures HalfShuffled(Eids(s', n), q, n)
    ensures B.PowerOfTwo(n / 2) && |q| <= n / 2 && Blank(s, n) ==> LaidOut(s', n)
  {
    RowsKeepEids(s, s', n, B.RowTotal(n / 2));
    if B.PowerOfTwo(n / 2) && |q| <= n / 2 && Blank(s, n) {
      RestIsEmpty(s, n, q);
      RowsLaidOut(s, s', n);
    }
  }

  /** All that is needed of the prepared list `s` and its layout `s'`: it is a proper bracket exactly
      for a power of two, as many qualifiers as leaves, and a blank list to start with. */
  lemma LaidOutDecides(s: seq<Record>, s': seq<Record>, n: nat, q: seq<int>)
    requires 4 <= n <= |s| && n % 4 == 0 && |q| <= n && DistinctPlayers(q) && HalfShuffled(Eids(s, n), q, n)
    requires RowsLaid(s, s', n, B.RowTotal(n / 2))
    ensures HalfShuffled(Eids(s', n), q, n)
    ensures var br := B.NewBracket(Eids(s', n / 2));
            && (BracketRendered(s', n, br) && B.SoundBracket(br) <==>
                  |q| == n / 2 && B.PowerOfTwo(n / 2) && Blank(s, n))
            && (|q| == n / 2 ==> multiset(br.leaves) == multiset(q))
  {
    LaidOutOver(s, s', n, q);
    assert Eids(s', n)[..n / 2] == Eids(s', n / 2);
    if |q| != n / 2 {
      BracketSpoilt(s', n, q);
    } else {
      FullyLaidOut(s, s', n, q);
    }
  }

  lemma FullyLaidOut(s: seq<Record>, s': seq<Record>, n: nat, q: seq<int>)
    requires 4 <= n <= |s| && n % 4 == 0 && |q| == n / 2 && DistinctPlayers(q)
    requires RowsLaid(s, s', n, B.RowTotal(n / 2)) && HalfShuffled(Eids(s, n), q, n)
    ensures var br := B.NewBracket(Eids(s', n / 2));
            && (BracketRendered(s', n, br) && B.SoundBracket(br) <==> B.PowerOfTwo(n / 2) && Blank(s, n))
            && multiset(br.leaves) == multiset(q)
  {
    LaidOutOver(s, s', n, q);
    var br := B.NewBracket(Eids(s', n / 2));
    assert Eids(s', n)[..n / 2] == Eids(s', n / 2);
    assert Padded(q, n)[..n / 2] == q;
    if B.PowerOfTwo(n / 2) && Blank(s, n) { BracketReady(s', n, q); }
    if BracketRendered(s', n, br) { RenderedOnlyIfBlank(s, s', n, br); }
  }

  /** Nothing has been played on the first `n` records, and the last of them is unused. */
  predicate Blank(s: seq<Record>, n: nat) {
    && n <= |s|
    && (forall i :: 0 <= i < n ==> s[i].score == ZERO && s[i].teamId == 0)
    && (n > 0 ==> s[n - 1].round == 0 && s[n - 1].tid == 0)
  }

  /** Writing eids leaves a blank list blank, and no other one becomes blank by it. */
  lemma EidsKeepBlank(s: seq<Record>, s': seq<Record>, n: nat)
    requires n <= |s| && |s'| == |s| && forall i :: 0 <= i < n ==> s'[i] == s[i].(eid := s'[i].eid)
    ensures Blank(s', n) <==> Blank(s, n)
  {
    if Blank(s', n) {
      forall i | 0 <= i < n ensures s[i].score == ZERO && s[i].teamId == 0 { assert s'[i].score == ZERO; }
    }
  }

  /** Nor does shuffling the first half. */
  lemma ShuffleKeepsBlank(s: seq<Record>, s': seq<Record>, n: nat)
    requires n <= |s| == |s'| && multiset(s'[..n / 2]) == multiset(s[..n / 2])
    requires n >= 2 && forall i :: n / 2 <= i < |s| ==> s'[i] == s[i]
    ensures Blank(s', n) <==> Blank(s, n)
  {
    ShuffledIsBlank(s, s', n);
    ShuffledIsBlank(s', s, n);
  }

  lemma ShuffledIsBlank(s: seq<Record>, s': seq<Record>, n: nat)
    requires 2 <= n <= |s| == |s'| && multiset(s'[..n / 2]) == multiset(s[..n / 2])
    requires forall i :: n / 2 <= i < |s| ==> s'[i] == s[i]
    ensures Blank(s, n) ==> Blank(s', n)
  {
    if Blank(s, n) {
      forall i | 0 <= i < n / 2 ensures s'[i].score == ZERO && s'[i].teamId == 0 {
        assert s'[i] == s'[..n / 2][i];
        assert s'[i] in multiset(s'[..n / 2]);
        assert s'[i] in s[..n / 2];
      }
    }
  }

  /** The layout of a list that was not blank is no fresh bracket. */
  lemma RenderedOnlyIfBlank(s: seq<Record>, s': seq<Record>, n: nat, br: B.Bracket)
    requires 4 <= n <= |s| && RowsLaid(s, s', n, B.RowTotal(n / 2)) && n == 2 * B.Size(br)
    requires br.duels == B.NewBracket(br.leaves).duels && BracketRendered(s', n, br)
    ensures Blank(s, n)
  {
    B.LayoutFitsPowersOfTwo(n / 2);
    forall i: nat | i < n ensures s[i].score == ZERO && s[i].teamId == 0 {
      RecordOf(s', n, br, i);
      assert s'[i].score == s[i].score && s'[i].teamId == s[i].teamId;
    }
    RecordOf(s', n, br, n - 1);
  }

  lemma NewBracketRendered(s: seq<Record>, n: nat)
    requires n >= 4 && B.PowerOfTwo(n / 2) && n <= |s| && n == 2 * (n / 2) && LaidOut(s, n)
    ensures BracketRendered(s, n, B.NewBracket(Eids(s, n / 2)))
  {
    var br := B.NewBracket(Eids(s, n / 2));
    forall t | B.Node(br, t) ensures s[n - 1 - t] == NodeRecord(br, t) {
      var i := n - 1 - t;
      assert s[i].tid == t;
      if t < n / 2 { assert !Decided(br.duels[t]); }
    }
  }

  /** Of the collected list, the shuffled first half and the rest as it was. */
  predicate HalfShuffled(r: seq<int>, q: seq<int>, n: nat)
    requires |r| == n && |q| <= n
  {
    && multiset(r[..n / 2]) == multiset(Padded(q, n)[..n / 2])
    && r[n / 2..] == Padded(q, n)[n / 2..]
  }

  /** The laid-out list is a fresh bracket over the qualifiers. */
  lemma BracketReady(s: seq<Record>, n: nat, q: seq<int>)
    requires n >= 4 && B.PowerOfTwo(n / 2) && n <= |s| && n == 2 * (n / 2) && LaidOut(s, n)
    requires |q| == n / 2 && DistinctPlayers(q) && HalfShuffled(Eids(s, n), q, n)
    ensures BracketRendered(s, n, B.NewBracket(Eids(s, n / 2))) && B.SoundBracket(B.NewBracket(Eids(s, n / 2)))
    ensures multiset(Eids(s, n / 2)) == multiset(q)
  {
    assert Padded(q, n)[..n / 2] == q;
    assert Eids(s, n)[..n / 2] == Eids(s, n / 2);
    PermutationKeepsNoDuplicates(q, Eids(s, n / 2));
    B.FreshBracketIsSound(Eids(s, n / 2));
    NewBracketRendered(s, n);
  }

  /** With any other number of qualifiers it is none: a leaf is empty, or an inner node is taken. */
  lemma BracketSpoilt(s: seq<Record>, n: nat, q: seq<int>)
    requires 4 <= n <= |s| && |q| <= n && |q| != n / 2 && DistinctPlayers(q) && HalfShuffled(Eids(s, n), q, n)
    ensures var br := B.NewBracket(Eids(s, n / 2)); !BracketRendered(s, n, br) || !B.SoundBracket(br)
  {
    var h := n / 2;
    var br := B.NewBracket(Eids(s, h));
    assert Eids(s, n)[..h] == Eids(s, h);
    if |q| < h {
      assert Padded(q, n)[..h][h - 1] == -1;
      assert -1 in multiset(Eids(s, h));
      assert -1 in Eids(s, h);
    } else {
      assert Eids(s, n)[h..][0] == Padded(q, n)[h..][0];
      assert s[h].eid == q[h] > 0;
      if BracketRendered(s, n, br) {
        RecordOf(s, n, br, h);
        assert false;
      }
    }
  }

  /** Behind the first half there was nobody to begin with. */
  lemma RestIsEmpty(s: seq<Record>, n: nat, q: seq<int>)
    requires n <= |s| && |q| <= n / 2 && HalfShuffled(Eids(s, n), q, n)
    ensures forall i :: n / 2 <= i < n ==> s[i].eid == -1
  {
    forall i | n / 2 <= i < n ensures s[i].eid == -1 {
      assert Eids(s, n)[n / 2..][i - n / 2] == Padded(q, n)[n / 2..][i - n / 2];
    }
  }

  lemma HalfIsShuffled(s: seq<Record>, s': seq<Record>, n: nat, q: seq<int>)
    requires |q| <= n <= |s| == |s'| && Eids(s, n) == Padded(q, n)
    requires multiset(Eids(s', n / 2)) == multiset(Eids(s, n / 2))
    requires forall i :: n / 2 <= i < n ==> s'[i] == s[i]
    ensures HalfShuffled(Eids(s', n), q, n)
  {
    assert Eids(s, n / 2) == Padded(q, n)[..n / 2];
    assert Eids(s', n)[..n / 2] == Eids(s', n / 2);
  }

  /** One exchange permutes the first `n` records and their eids, and leaves the rest alone. */
  lemma ExchangeKeeps(s: seq<Record>, n: nat, i: nat, pos: nat)
    requires i <= pos < n <= |s|
    ensures var s' := s[i := s[pos]][pos := s[i]];
            && multiset(s'[..n]) == multiset(s[..n]) && multiset(Eids(s', n)) == multiset(Eids(s, n))
            && s'[n..] == s[n..]
  {
    var s' := s[i := s[pos]][pos := s[i]];
    var front, eids := s[..n], Eids(s, n);
    SwapKeepsMultiset(front, i, pos);
    SwapKeepsMultiset(eids, i, pos);
    assert s'[..n] == front[i := front[pos]][pos := front[i]];
    assert Eids(s', n) == eids[i := eids[pos]][pos := eids[i]];
  }

  /** Shuffling records without scores. */
  lemma ZeroScores(s: seq<Record>, s': seq<Record>, n: nat)
    requires n <= |s| == |s'| && multiset(s'[..n]) == multiset(s[..n])
    requires forall i :: n <= i < |s| ==> s'[i] == s[i]
    requires forall i :: 0 <= i < |s| ==> s[i].score == ZERO
    ensures forall i :: 0 <= i < |s| ==> s'[i].score == ZERO
  {
    forall i | 0 <= i < n ensures s'[i].score == ZERO {
      assert s'[i] == s'[..n][i];
      assert s'[i] in multiset(s'[..n]);
      assert s'[i] in s[..n];
    }
  }
}

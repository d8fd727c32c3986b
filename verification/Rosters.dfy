/** The list of applicants: seq<int> of eids in which 0 marks a free slot. */
module Rosters {

  /** No player is listed twice (free slots may repeat). */
  predicate NoDuplicates(r: seq<int>) {
    forall i, j :: 0 <= i < j < |r| && r[i] != 0 ==> r[i] != r[j]
  }

  predicate AllPositive(r: seq<int>) {
    forall i :: 0 <= i < |r| ==> r[i] > 0
  }

  /** Real eids, each listed once. */
  predicate DistinctPlayers(r: seq<int>) { AllPositive(r) && NoDuplicates(r) }

  /** Where the application scan stops: at the player or at the first free slot. */
  function Stop(r: seq<int>, e: int): (k: nat)
    ensures k <= |r|
    ensures k < |r| ==> r[k] == e || r[k] == 0
    ensures forall i :: 0 <= i < k ==> r[i] != e && r[i] != 0
  {
    if r == [] || r[0] == e || r[0] == 0 then 0 else Stop(r[1..], e) + 1
  }

  predicate Accepted(r: seq<int>, e: int) {
    var k := Stop(r, e); k < |r| && r[k] != e
  }

  /** The duplicate check works exactly when the player is not listed behind the first free slot. */
  lemma ApplyKeepsNoDuplicates(r: seq<int>, e: int)
    requires NoDuplicates(r) && e != 0 && Accepted(r, e)
    ensures NoDuplicates(r[Stop(r, e) := e]) <==> e !in r[Stop(r, e)..]
  {
    var k := Stop(r, e);
    var r' := r[k := e];
    if e in r[k..] {
      var i :| k <= i < |r| && r[i] == e;
      assert r'[k] == r'[i] && k < i;
    }
  }

  /** Without holes (nobody cancelled) the check is complete. */
  lemma NoHolesNoDuplicates(r: seq<int>, e: int)
    requires NoDuplicates(r) && e != 0 && Accepted(r, e)
    requires forall i, j :: 0 <= i < j < |r| && r[i] == 0 ==> r[j] == 0
    ensures NoDuplicates(r[Stop(r, e) := e])
  {
    ApplyKeepsNoDuplicates(r, e);
  }

  /** After a cancellation it is not: player 7 can apply a second time. */
  lemma HoleLetsDuplicateIn()
    ensures NoDuplicates([0, 7]) && Accepted([0, 7], 7) && !NoDuplicates([0, 7][Stop([0, 7], 7) := 7])
  {
    assert [0, 7][0 := 7] == [7, 7];
    assert [7, 7][0] == [7, 7][1];
  }

  // ----- cancellations

  /** The first entry of `e`. */
  function IndexOf(r: seq<int>, e: int): (k: nat)
    requires e in r
    ensures k < |r| && r[k] == e && forall i :: 0 <= i < k ==> r[i] != e
  {
    if r[0] == e then 0 else IndexOf(r[1..], e) + 1
  }

  /** A cancellation of `e` at its first entry `i`. */
  lemma CancelRemoves(r: seq<int>, i: nat)
    requires NoDuplicates(r) && i < |r| && r[i] != 0
    ensures NoDuplicates(r[i := 0]) && r[i] !in r[i := 0]
  {
  }

  // ----- permutations

  lemma SwapKeepsMultiset<T>(r: seq<T>, i: nat, j: nat)
    requires i < |r| && j < |r|
    ensures multiset(r[i := r[j]][j := r[i]]) == multiset(r)
  {
  }

  lemma DuplicateCount(r: seq<int>, i: nat, j: nat)
    requires i < j < |r| && r[i] == r[j]
    ensures multiset(r)[r[i]] >= 2
  {
    assert r == r[..j] + r[j..];
    assert r[i] in r[..j] && r[j] in r[j..];
  }

  lemma {:induction false} SingleCount(r: seq<int>, x: int)
    requires NoDuplicates(r) && x != 0
    ensures multiset(r)[x] <= 1
  {
    if r != [] {
      var init := r[..|r| - 1];
      assert r == init + [r[|r| - 1]];
      SingleCount(init, x);
    }
  }

  /** A reshuffled duplicate-free list is duplicate-free and lists the same players. */
  lemma PermutationKeepsNoDuplicates(r: seq<int>, r': seq<int>)
    requires multiset(r) == multiset(r') && NoDuplicates(r)
    ensures NoDuplicates(r') && |r'| == |r| && (AllPositive(r) ==> AllPositive(r'))
    ensures forall e :: e in r <==> e in r'
  {
    assert |multiset(r)| == |r| && |multiset(r')| == |r'|;
    forall e ensures e in r <==> e in r' {
      assert e in r <==> e in multiset(r);
      assert e in r' <==> e in multiset(r');
    }
    forall i, j | 0 <= i < j < |r'| && r'[i] != 0 ensures r'[i] != r'[j] {
      SingleCount(r, r'[i]);
      if r'[i] == r'[j] { DuplicateCount(r', i, j); }
    }
    assert forall i :: 0 <= i < |r'| ==> r'[i] in r' && r'[i] in r;
  }
}

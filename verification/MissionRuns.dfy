/** Whole runs of the mission engine: any mix of updates, refreshes and finishes over a fixed design. */
module MissionRuns {
  import opened Missions

  datatype Op = DoUpdate(ev: Event) | DoRefresh(env: Env) | DoFinish(mid: nat)

  predicate ValidOp(op: Op) {
    match op
    case DoUpdate(_) => true
    case DoRefresh(env) => ValidEnv(env)
    case DoFinish(mid) => mid < MAX_MISSION
  }

  predicate ValidRun(dlist: seq<Design>, ops: seq<Op>) {
    ValidDesigns(dlist) && forall k :: 0 <= k < |ops| ==> ValidOp(ops[k])
  }

  function Step(list: seq<Mission>, dlist: seq<Design>, op: Op): (r: seq<Mission>)
    requires |list| == MAX_MISSION && ValidDesigns(dlist) && ValidOp(op)
    ensures |r| == MAX_MISSION
  {
    match op
    case DoUpdate(ev) => Updated(list, dlist, ev)
    case DoRefresh(env) => Refreshed(list, dlist, env)
    case DoFinish(mid) => Finished(list, dlist, mid)
  }

  function Init<T>(s: seq<T>): seq<T>
    requires s != []
  { s[..|s| - 1] }

  function Last<T>(s: seq<T>): T
    requires s != []
  { s[|s| - 1] }

  /** The list after a run that starts with nothing. */
  function After(dlist: seq<Design>, ops: seq<Op>): (list: seq<Mission>)
    requires ValidRun(dlist, ops)
    ensures |list| == MAX_MISSION
  {
    if ops == [] then seq(MAX_MISSION, _ => ABSENT) else Step(After(dlist, Init(ops)), dlist, Last(ops))
  }

  /** Mission `i` after a run. */
  function At(dlist: seq<Design>, ops: seq<Op>, i: nat): Mission
    requires ValidRun(dlist, ops) && i < MAX_MISSION
  {
    After(dlist, ops)[i]
  }

  lemma {:induction false} AfterIsValid(dlist: seq<Design>, ops: seq<Op>)
    requires ValidRun(dlist, ops)
    ensures ValidList(After(dlist, ops))
  {
    if ops != [] {
      AfterIsValid(dlist, Init(ops));
      var list := After(dlist, Init(ops));
      match Last(ops)
      case DoUpdate(ev) => UpdateKeepsValid(list, dlist, ev);
      case DoRefresh(env) => RefreshKeepsValid(list, dlist, env);
      case DoFinish(mid) => FinishKeepsValid(list, dlist, mid);
    }
  }

  /** How one operation changes one entry. */
  lemma OneStep(dlist: seq<Design>, ops: seq<Op>, i: nat)
    requires ValidRun(dlist, ops) && ops != [] && i < MAX_MISSION
    ensures var m, m', d := At(dlist, Init(ops), i), At(dlist, ops, i), dlist[i];
            && ValidMission(m, i) && ValidMission(m', i) && ValidDesign(d, i)
            && match Last(ops)
               case DoUpdate(ev) => m' == UpdateOne(m, d, ev)
               case DoFinish(mid) =>
                 m' == if mid == i && d.mid != 0 && m.mid != 0 && m.status == Ok then m.(status := Finish) else m
               case DoRefresh(env) =>
                 m' == if m.mid != 0 then RefreshOne(m, d, env.now)
                       else if i != 0 && Eligible(Refreshed1(After(dlist, Init(ops)), dlist, env.now), d, env) then
                         NewMission(d, env)
                       else m
  {
    AfterIsValid(dlist, Init(ops));
    AfterIsValid(dlist, ops);
    var list := After(dlist, Init(ops));
    assert ValidMission(list[i], i) && ValidMission(After(dlist, ops)[i], i) && ValidDesign(dlist[i], i);
    if Last(ops).DoRefresh? { RefreshedAt(list, dlist, Last(ops).env, i); }
  }

  predicate Present(dlist: seq<Design>, ops: seq<Op>, i: nat)
    requires ValidRun(dlist, ops) && i < MAX_MISSION
  {
    At(dlist, ops, i).mid != 0
  }

  /** The index of the operation that first took mission `i` into the list. */
  function Birth(dlist: seq<Design>, ops: seq<Op>, i: nat): (k: nat)
    requires ValidRun(dlist, ops) && i < MAX_MISSION
  {
    if ops == [] then 0
    else if Present(dlist, Init(ops), i) then Birth(dlist, Init(ops), i)
    else |ops| - 1
  }

  /** What is in the list belongs to a design mission and came in by a refresh, once. */
  lemma {:induction false} BirthIsRefresh(dlist: seq<Design>, ops: seq<Op>, i: nat)
    requires ValidRun(dlist, ops) && i < MAX_MISSION && Present(dlist, ops, i)
    ensures i != 0 && dlist[i].mid == i
    ensures var k := Birth(dlist, ops, i);
            k < |ops| && ops[k].DoRefresh? && !Present(dlist, ops[..k], i) && Present(dlist, ops[..k + 1], i)
  {
    OneStep(dlist, ops, i);
    if Present(dlist, Init(ops), i) {
      BirthIsRefresh(dlist, Init(ops), i);
      var k := Birth(dlist, Init(ops), i);
      assert ops[..k] == Init(ops)[..k] && ops[..k + 1] == Init(ops)[..k + 1];
    } else {
      assert ops[..|ops| - 1] == Init(ops) && ops[..|ops|] == ops;
    }
  }

  lemma {:induction false} PresentStays(dlist: seq<Design>, ops: seq<Op>, k: nat, i: nat)
    requires ValidRun(dlist, ops) && i < MAX_MISSION && k <= |ops| && Present(dlist, ops[..k], i)
    ensures Present(dlist, ops, i)
  {
    if k == |ops| {
      assert ops[..k] == ops;
    } else {
      assert Init(ops)[..k] == ops[..k];
      PresentStays(dlist, Init(ops), k, i);
      BirthIsRefresh(dlist, Init(ops), i);
      OneStep(dlist, ops, i);
    }
  }

  /** Operation `f` is a successful finish of mission `i`. */
  predicate FinishedBy(dlist: seq<Design>, ops: seq<Op>, f: nat, i: nat)
    requires ValidRun(dlist, ops) && i < MAX_MISSION && f < |ops|
  {
    && ops[f] == DoFinish(i) && dlist[i].mid != 0
    && At(dlist, ops[..f], i).mid != 0 && At(dlist, ops[..f], i).status == Ok
  }

  /** A finished mission was finished by some earlier operation, after its birth. */
  lemma {:induction false} FinishedBefore(dlist: seq<Design>, ops: seq<Op>, i: nat) returns (f: nat)
    requires ValidRun(dlist, ops) && i < MAX_MISSION && Present(dlist, ops, i) && At(dlist, ops, i).status == Finish
    ensures f < |ops| && FinishedBy(dlist, ops, f, i) && Birth(dlist, ops, i) < f
  {
    OneStep(dlist, ops, i);
    if Present(dlist, Init(ops), i) && At(dlist, Init(ops), i).status == Finish {
      f := FinishedBefore(dlist, Init(ops), i);
      assert ops[..f] == Init(ops)[..f];
    } else {
      f := |ops| - 1;
      assert ops[..f] == Init(ops);
      BirthIsRefresh(dlist, Init(ops), i);
    }
  }

  /** Every accepted mission's prerequisite was accepted in an earlier refresh and finished in between. */
  lemma PrerequisiteCameFirst(dlist: seq<Design>, ops: seq<Op>, i: nat) returns (f: nat)
    requires ValidRun(dlist, ops) && i < MAX_MISSION && Present(dlist, ops, i) && dlist[i].pre != 0
    ensures var p, b := dlist[i].pre, Birth(dlist, ops, i);
            && p < MAX_MISSION && Present(dlist, ops, p)
            && Birth(dlist, ops, p) < f < b < |ops| && FinishedBy(dlist, ops, f, p)
            && ops[Birth(dlist, ops, p)].DoRefresh? && ops[b].DoRefresh?
  {
    var b := Birth(dlist, ops, i);
    BirthIsRefresh(dlist, ops, i);
    assert ValidDesign(dlist[i], i);
    var p := dlist[i].pre;
    var before, upto := ops[..b], ops[..b + 1];
    assert Init(upto) == before && Last(upto) == ops[b];
    OneStep(dlist, upto, i);
    OneStep(dlist, upto, p);
    FirstPassFinishesNone(After(dlist, before), dlist, ops[b].env, p);
    f := FinishedBefore(dlist, before, p);
    assert ops[..f] == before[..f];
    PresentStays(dlist, ops, b, p);
    BirthOfPrefix(dlist, ops, b, p);
    BirthIsRefresh(dlist, ops, p);
  }

  lemma FirstPassFinishesNone(list: seq<Mission>, dlist: seq<Design>, env: Env, p: nat)
    requires ValidDesigns(dlist) && |list| == MAX_MISSION && p < MAX_MISSION
    ensures var m := Refreshed1(list, dlist, env.now)[p];
            m.mid != 0 && m.status == Finish ==> list[p].mid != 0 && list[p].status == Finish
  {
  }

  lemma {:induction false} BirthOfPrefix(dlist: seq<Design>, ops: seq<Op>, k: nat, i: nat)
    requires ValidRun(dlist, ops) && i < MAX_MISSION && k <= |ops| && Present(dlist, ops[..k], i)
    ensures Birth(dlist, ops, i) == Birth(dlist, ops[..k], i)
  {
    if k == |ops| {
      assert ops[..k] == ops;
    } else {
      assert Init(ops)[..k] == ops[..k];
      PresentStays(dlist, Init(ops), k, i);
      BirthOfPrefix(dlist, Init(ops), k, i);
    }
  }

  /** The mission `k` prerequisite links away from `i`. */
  function Ancestor(dlist: seq<Design>, i: nat, k: nat): (a: nat)
    requires ValidDesigns(dlist) && i < MAX_MISSION
    ensures a < MAX_MISSION
  {
    if k == 0 then i
    else
      var a := Ancestor(dlist, i, k - 1);
      assert ValidDesign(dlist[a], a);
      if dlist[a].mid == 0 then 0 else dlist[a].pre
  }

  /** Accepted missions are closed under prerequisites, and each link goes back at least one operation. */
  lemma {:induction false} AncestorsCameFirst(dlist: seq<Design>, ops: seq<Op>, i: nat, k: nat)
    requires ValidRun(dlist, ops) && i < MAX_MISSION && Present(dlist, ops, i) && Ancestor(dlist, i, k) != 0
    ensures Present(dlist, ops, Ancestor(dlist, i, k))
    ensures Birth(dlist, ops, Ancestor(dlist, i, k)) + k <= Birth(dlist, ops, i)
  {
    if k > 0 {
      var a := Ancestor(dlist, i, k - 1);
      assert ValidDesign(dlist[a], a) && ValidDesign(dlist[0], 0);
      AncestorsCameFirst(dlist, ops, i, k - 1);
      var _ := PrerequisiteCameFirst(dlist, ops, a);
    }
  }

  /** A mission on a cycle of prerequisite links is never accepted. */
  lemma CyclesNeverStart(dlist: seq<Design>, ops: seq<Op>, i: nat, k: nat)
    requires ValidRun(dlist, ops) && 0 < i < MAX_MISSION && k > 0 && Ancestor(dlist, i, k) == i
    ensures !Present(dlist, ops, i)
  {
    if Present(dlist, ops, i) { AncestorsCameFirst(dlist, ops, i, k); }
  }

  // ----- finishing

  /** How often mission `i` was finished successfully. */
  function FinishCount(dlist: seq<Design>, ops: seq<Op>, i: nat): nat
    requires ValidRun(dlist, ops) && i < MAX_MISSION
  {
    if ops == [] then 0
    else
      var success := Last(ops) == DoFinish(i) && FinishCode(After(dlist, Init(ops)), dlist, i) == 0;
      FinishCount(dlist, Init(ops), i) + (if success then 1 else 0)
  }

  /** A mission that is not daily can be finished at most once. */
  lemma {:induction false} NonDailyFinishesOnce(dlist: seq<Design>, ops: seq<Op>, i: nat)
    requires ValidRun(dlist, ops) && i < MAX_MISSION && dlist[i].daily == 0
    ensures FinishCount(dlist, ops, i) <= 1
    ensures FinishCount(dlist, ops, i) == 1 <==> Present(dlist, ops, i) && At(dlist, ops, i).status == Finish
  {
    if ops != [] {
      NonDailyFinishesOnce(dlist, Init(ops), i);
      OneStep(dlist, ops, i);
      if Present(dlist, Init(ops), i) { BirthIsRefresh(dlist, Init(ops), i); }
    }
  }

  // ----- the daily cycle

  /** The refreshes' clock never runs backwards. */
  predicate Monotone(ops: seq<Op>) {
    forall j, k :: 0 <= j < k < |ops| && ops[j].DoRefresh? && ops[k].DoRefresh? ==> ops[j].env.now <= ops[k].env.now
  }

  /** The times at which mission `i` reached its target (became OK). */
  function OkTimes(dlist: seq<Design>, ops: seq<Op>, i: nat): seq<int>
    requires ValidRun(dlist, ops) && i < MAX_MISSION
  {
    if ops == [] then []
    else
      var reached := Last(ops).DoRefresh? && BecameOk(At(dlist, Init(ops), i), At(dlist, ops, i));
      OkTimes(dlist, Init(ops), i) + (if reached then [Last(ops).env.now] else [])
  }

  /** `t` is not after any later refresh of a run that continues `ops`. */
  ghost predicate NotAhead(ops: seq<Op>, t: int) {
    exists k :: 0 <= k < |ops| && ops[k].DoRefresh? && t <= ops[k].env.now
  }

  /** A reset instant has come since `from`, not after the clock. */
  ghost predicate ResetSince(ops: seq<Op>, from: int, r: nat) {
    exists t :: from <= t && IsReset(t, r) && NotAhead(ops, t)
  }

  /** Where a mission stands in its daily cycle. */
  ghost predicate CycleState(m: Mission, d: Design, times: seq<int>, ops: seq<Op>) {
    && (m.mid == 0 ==> times == [])
    && (m.mid != 0 && (m.status == Ok || m.status == Finish) ==>
          times != [] && m.lastUpdate == Last(times) && NotAhead(ops, Last(times)))
    && (m.mid != 0 && m.status == Ready && times != [] ==> ResetSince(ops, Last(times), d.resetTime))
  }

  /** Consecutive times are separated by reset instants. */
  ghost predicate Separated(times: seq<int>, r: nat) {
    forall k :: 0 <= k < |times| - 1 ==> ResetBetween(times[k], times[k + 1], r)
  }

  lemma NotAheadStays(ops: seq<Op>, t: int)
    requires ops != [] && NotAhead(Init(ops), t)
    ensures NotAhead(ops, t)
  {
    var k :| 0 <= k < |Init(ops)| && Init(ops)[k].DoRefresh? && t <= Init(ops)[k].env.now;
    assert ops[k] == Init(ops)[k];
  }

  lemma NotAheadMeans(ops: seq<Op>, t: int)
    requires ops != [] && Monotone(ops) && Last(ops).DoRefresh? && NotAhead(Init(ops), t)
    ensures t <= Last(ops).env.now
  {
    var k :| 0 <= k < |Init(ops)| && Init(ops)[k].DoRefresh? && t <= Init(ops)[k].env.now;
    assert ops[k] == Init(ops)[k];
  }

  lemma ResetSinceStays(ops: seq<Op>, from: int, r: nat)
    requires ops != [] && ResetSince(Init(ops), from, r)
    ensures ResetSince(ops, from, r)
    ensures Monotone(ops) && Last(ops).DoRefresh? ==> ResetBetween(from, Last(ops).env.now, r)
  {
    var t :| from <= t && IsReset(t, r) && NotAhead(Init(ops), t);
    NotAheadStays(ops, t);
    if Monotone(ops) && Last(ops).DoRefresh? { NotAheadMeans(ops, t); }
  }

  lemma NowIsNotAhead(ops: seq<Op>, t: int)
    requires ops != [] && Last(ops).DoRefresh? && t <= Last(ops).env.now
    ensures NotAhead(ops, t)
  {
    assert ops[|ops| - 1].DoRefresh?;
  }

  lemma DueMeansReset(ops: seq<Op>, last: int, r: nat)
    requires ops != [] && Last(ops).DoRefresh? && r < DAY && DailyTest(Last(ops).env.now, last, r)
    ensures ResetSince(ops, last, r)
  {
    var now := Last(ops).env.now;
    DailyTestIsReset(now, last, r);
    var t :| last <= t <= now && IsReset(t, r);
    NowIsNotAhead(ops, t);
  }

  lemma {:induction false} CycleKept(dlist: seq<Design>, ops: seq<Op>, i: nat)
    requires ValidRun(dlist, ops) && Monotone(ops) && i < MAX_MISSION
    ensures CycleState(At(dlist, ops, i), dlist[i], OkTimes(dlist, ops, i), ops)
    ensures Separated(OkTimes(dlist, ops, i), dlist[i].resetTime)
  {
    if ops != [] {
      CycleKept(dlist, Init(ops), i);
      OneStep(dlist, ops, i);
      var m, m', d := At(dlist, Init(ops), i), At(dlist, ops, i), dlist[i];
      if m.mid != 0 { BirthIsRefresh(dlist, Init(ops), i); }
      CycleStep(m, m', d, OkTimes(dlist, Init(ops), i), OkTimes(dlist, ops, i), ops);
    }
  }

  /** One operation on one mission keeps its place in the cycle. */
  lemma CycleStep(m: Mission, m': Mission, d: Design, times: seq<int>, times': seq<int>, ops: seq<Op>)
    requires ops != [] && Monotone(ops) && CycleState(m, d, times, Init(ops)) && Separated(times, d.resetTime)
    requires m.mid != 0 ==> d.mid != 0
    requires d.resetTime < DAY || d.mid == 0
    requires match Last(ops)
             case DoUpdate(ev) => m' == UpdateOne(m, d, ev) && times' == times
             case DoFinish(_) =>
               times' == times && (m' == m || (m.mid != 0 && m.status == Ok && m' == m.(status := Finish)))
             case DoRefresh(env) =>
               && (if m.mid != 0 then m' == RefreshOne(m, d, env.now)
                   else m' == m || (d.mid != 0 && ValidEnv(env) && m' == NewMission(d, env)))
               && times' == times + (if BecameOk(m, m') then [env.now] else [])
    requires m.mid == 0 ==> m == ABSENT
    ensures CycleState(m', d, times', ops) && Separated(times', d.resetTime)
  {
    if m.mid != 0 && m.status == Ready && times != [] { ResetSinceStays(ops, Last(times), d.resetTime); }
    if m.mid != 0 && (m.status == Ok || m.status == Finish) { NotAheadStays(ops, Last(times)); }
    if Last(ops).DoRefresh? {
      NowIsNotAhead(ops, Last(ops).env.now);
      if m.mid != 0 && m.status == Finish && m'.status == Ready { DueMeansReset(ops, m.lastUpdate, d.resetTime); }
    }
  }

  /** Between two times a mission reaches its target lies a reset instant. */
  lemma ResetBetweenTargets(dlist: seq<Design>, ops: seq<Op>, i: nat, k: nat)
    requires ValidRun(dlist, ops) && Monotone(ops) && i < MAX_MISSION && k + 1 < |OkTimes(dlist, ops, i)|
    ensures ResetBetween(OkTimes(dlist, ops, i)[k], OkTimes(dlist, ops, i)[k + 1], dlist[i].resetTime)
  {
    CycleKept(dlist, ops, i);
  }

  /** A reset instant after the first time and not after the second. */
  ghost predicate ResetAfter(from: int, to: int, r: nat) {
    exists t :: from < t <= to && IsReset(t, r)
  }

  lemma StrictlyBetween(from: int, to: int, r: nat)
    requires r < DAY && ResetBetween(from, to, r)
    ensures ResetAfter(from, to, r) <==> !IsReset(from, r) || from + DAY <= to
  {
    if IsReset(from, r) {
      NextReset(from, r);
      if ResetAfter(from, to, r) {
        var t :| from < t <= to && IsReset(t, r);
        NoResetWithinDay(from, t, r);
      }
    } else {
      var t :| from <= t <= to && IsReset(t, r);
    }
  }

  lemma NextReset(t: int, r: nat)
    requires IsReset(t, r)
    ensures IsReset(t + DAY, r)
  {
  }

  lemma NoResetWithinDay(from: int, t: int, r: nat)
    requires IsReset(from, r) && IsReset(t, r) && from < t
    ensures from + DAY <= t
  {
    var a, b := from / DAY, t / DAY;
    assert from == a * DAY + r && t == b * DAY + r;
    assert a < b;
  }

  /** It lies after the earlier time exactly when that is no reset instant itself or a day has passed. */
  lemma ResetStrictlyBetweenTargets(dlist: seq<Design>, ops: seq<Op>, i: nat, k: nat)
    requires ValidRun(dlist, ops) && Monotone(ops) && i < MAX_MISSION && k + 1 < |OkTimes(dlist, ops, i)|
    ensures var from, to, r := OkTimes(dlist, ops, i)[k], OkTimes(dlist, ops, i)[k + 1], dlist[i].resetTime;
            ResetAfter(from, to, r) <==> !IsReset(from, r) || from + DAY <= to
  {
    ResetBetweenTargets(dlist, ops, i, k);
    CycleKept(dlist, ops, i);
    BirthIsRefresh(dlist, ops, i);
    assert ValidDesign(dlist[i], i);
    StrictlyBetween(OkTimes(dlist, ops, i)[k], OkTimes(dlist, ops, i)[k + 1], dlist[i].resetTime);
  }

  /** One event to go, every day from midnight on. */
  const DAILY := Design(1, 0, 0, 0, 1, 0, 2, 1, 0, 0, 0)

  /** Runs with a free choice of the daily mission 1 and every clock at 0. */
  predicate DailyRun(dlist: seq<Design>, ops: seq<Op>) {
    ValidRun(dlist, ops) && dlist[1] == DAILY && forall k :: 0 <= k < |ops| && ops[k].DoRefresh? ==> ops[k].env.now == 0
  }

  lemma OneMoreOp(dlist: seq<Design>, ops: seq<Op>, op: Op)
    requires DailyRun(dlist, ops) && ValidOp(op) && (op.DoRefresh? ==> op.env.now == 0)
    ensures DailyRun(dlist, ops + [op]) && Init(ops + [op]) == ops && Last(ops + [op]) == op
  {
    assert Init(ops + [op]) == ops;
  }

  /** A refresh takes mission 1 in, resets it once it is finished, or finds its target met. */
  lemma RefreshDaily(dlist: seq<Design>, ops: seq<Op>, env: Env)
    requires DailyRun(dlist, ops) && ValidEnv(env) && env.now == env.lv == env.guildLv == 0
    ensures DailyRun(dlist, ops + [DoRefresh(env)])
    ensures var m, m' := At(dlist, ops, 1), At(dlist, ops + [DoRefresh(env)], 1);
            && (m == ABSENT || m == Mission(1, Finish, 1, 0) ==> m' == Mission(1, Ready, 0, 0))
            && (m == Mission(1, Ready, 1, 0) ==> m' == Mission(1, Ok, 1, 0))
            && OkTimes(dlist, ops + [DoRefresh(env)], 1) ==
                 OkTimes(dlist, ops, 1) + (if BecameOk(m, m') then [0] else [])
  {
    OneMoreOp(dlist, ops, DoRefresh(env));
    OneStep(dlist, ops + [DoRefresh(env)], 1);
  }

  lemma OtherOpDaily(dlist: seq<Design>, ops: seq<Op>, op: Op)
    requires DailyRun(dlist, ops) && (op == DoFinish(1) || op == DoUpdate(Event(2, 1, 0, 0, 0)))
    ensures DailyRun(dlist, ops + [op])
    ensures var m, m' := At(dlist, ops, 1), At(dlist, ops + [op], 1);
            && (op.DoUpdate? && m == Mission(1, Ready, 0, 0) ==> m' == Mission(1, Ready, 1, 0))
            && (op.DoFinish? && m == Mission(1, Ok, 1, 0) ==> m' == Mission(1, Finish, 1, 0))
            && OkTimes(dlist, ops + [op], 1) == OkTimes(dlist, ops, 1)
  {
    OneMoreOp(dlist, ops, op);
    OneStep(dlist, ops + [op], 1);
  }

  /** A daily mission finished at the reset instant comes back at that very instant: one event and a
      refresh later it has reached its target a second time, at the same time. */
  lemma TwiceAtTheResetInstant()
    ensures exists dlist, ops :: TwiceAtMidnight(dlist, ops)
  {
    var dlist := seq(MAX_MISSION, i => if i == 1 then DAILY else DAILY.(mid := 0));
    var env := Env(0, 0, 0, seq(EVIL_CARD_MAX, _ => '0'));
    var ops := ReachTarget(dlist, [], env);
    OtherOpDaily(dlist, ops, DoFinish(1));
    ops := ReachTarget(dlist, ops + [DoFinish(1)], env);
    assert TwiceAtMidnight(dlist, ops);
  }

  predicate TwiceAtMidnight(dlist: seq<Design>, ops: seq<Op>) {
    ValidRun(dlist, ops) && Monotone(ops) && OkTimes(dlist, ops, 1) == [0, 0] && IsReset(0, dlist[1].resetTime)
  }

  lemma ReachTarget(dlist: seq<Design>, ops: seq<Op>, env: Env) returns (ops': seq<Op>)
    requires DailyRun(dlist, ops) && ValidEnv(env) && env.now == env.lv == env.guildLv == 0
    requires At(dlist, ops, 1) == ABSENT || At(dlist, ops, 1) == Mission(1, Finish, 1, 0)
    ensures DailyRun(dlist, ops') && At(dlist, ops', 1) == Mission(1, Ok, 1, 0)
    ensures OkTimes(dlist, ops', 1) == OkTimes(dlist, ops, 1) + [0]
  {
    RefreshDaily(dlist, ops, env);
    ops' := ops + [DoRefresh(env)];
    OtherOpDaily(dlist, ops', DoUpdate(Event(2, 1, 0, 0, 0)));
    ops' := ops' + [DoUpdate(Event(2, 1, 0, 0, 0))];
    RefreshDaily(dlist, ops', env);
    ops' := ops' + [DoRefresh(env)];
  }

  // ----- progress

  /** What one operation adds to a counting mission. */
  function Offset(d: Design, op: Op): int {
    if op.DoUpdate? && Concerns(d, op.ev) then op.ev.p1 else 0
  }

  /** All of it, from operation `from` on. */
  function Total(d: Design, ops: seq<Op>, from: nat): int {
    if |ops| <= from then 0 else Total(d, Init(ops), from) + Offset(d, Last(ops))
  }

  /** The number of operations up to the last one that accepted or reset mission `i`. */
  function Since(dlist: seq<Design>, ops: seq<Op>, i: nat): (k: nat)
    requires ValidRun(dlist, ops) && i < MAX_MISSION
    ensures k <= |ops|
  {
    if ops == [] then 0
    else if BecameNew(At(dlist, Init(ops), i), At(dlist, ops, i)) then |ops|
    else Since(dlist, Init(ops), i)
  }

  /** A ready counting mission's progress is the sum of all matching events since then. */
  lemma {:induction false} ProgressIsTotal(dlist: seq<Design>, ops: seq<Op>, i: nat)
    requires ValidRun(dlist, ops) && i < MAX_MISSION && !SetsValue(dlist[i].mtype)
    requires Present(dlist, ops, i) && At(dlist, ops, i).status == Ready
    ensures At(dlist, ops, i).n1 == Total(dlist[i], ops, Since(dlist, ops, i))
  {
    OneStep(dlist, ops, i);
    if Present(dlist, Init(ops), i) && At(dlist, Init(ops), i).status == Ready {
      ProgressIsTotal(dlist, Init(ops), i);
      BirthIsRefresh(dlist, Init(ops), i);
    }
  }

  /** The value of the last event from operation `from` on that concerns the mission, else `start`. */
  function LastValue(d: Design, ops: seq<Op>, from: nat, start: int): int {
    if |ops| <= from then start
    else if Last(ops).DoUpdate? && Concerns(d, Last(ops).ev) then Last(ops).ev.p1
    else LastValue(d, Init(ops), from, start)
  }

  /** What mission `i` came in with, or was reset to, after `k` operations. */
  predicate StartsWith(dlist: seq<Design>, ops: seq<Op>, i: nat, k: nat, start: int)
    requires ValidRun(dlist, ops) && i < MAX_MISSION && k <= |ops|
  {
    && 0 < k && ops[k - 1].DoRefresh? && start == At(dlist, ops[..k], i).n1
    && start == if Present(dlist, ops[..k - 1], i) then 0 else InitialProgress(dlist[i], ops[k - 1].env)
  }

  lemma StartKept(dlist: seq<Design>, ops: seq<Op>, i: nat, k: nat, start: int)
    requires ValidRun(dlist, ops) && ops != [] && i < MAX_MISSION && 0 < k <= |ops| - 1
    ensures StartsWith(dlist, Init(ops), i, k, start) <==> StartsWith(dlist, ops, i, k, start)
  {
    assert ops[..k] == Init(ops)[..k] && ops[..k - 1] == Init(ops)[..k - 1];
  }

  lemma StartNow(dlist: seq<Design>, ops: seq<Op>, i: nat)
    requires ValidRun(dlist, ops) && ops != [] && i < MAX_MISSION
    requires Present(dlist, ops, i) && At(dlist, ops, i).status == Ready
    requires !Present(dlist, Init(ops), i) || At(dlist, Init(ops), i).status != Ready
    ensures StartsWith(dlist, ops, i, |ops|, At(dlist, ops, i).n1)
    ensures BecameNew(At(dlist, Init(ops), i), At(dlist, ops, i))
  {
    OneStep(dlist, ops, i);
    assert ops[..|ops|] == ops && ops[..|ops| - 1] == Init(ops);
  }

  /** A ready mission of a kind that sets values has the value of the last matching event since it was
      accepted or reset, and before the first the one it started with. */
  lemma {:induction false} ProgressIsLastValue(dlist: seq<Design>, ops: seq<Op>, i: nat) returns (start: int)
    requires ValidRun(dlist, ops) && i < MAX_MISSION && SetsValue(dlist[i].mtype)
    requires Present(dlist, ops, i) && At(dlist, ops, i).status == Ready
    ensures StartsWith(dlist, ops, i, Since(dlist, ops, i), start)
    ensures At(dlist, ops, i).n1 == LastValue(dlist[i], ops, Since(dlist, ops, i), start)
  {
    if Present(dlist, Init(ops), i) && At(dlist, Init(ops), i).status == Ready {
      start := ProgressIsLastValue(dlist, Init(ops), i);
      StillReady(dlist, ops, i);
      StartKept(dlist, ops, i, Since(dlist, Init(ops), i), start);
    } else {
      start := At(dlist, ops, i).n1;
      StartNow(dlist, ops, i);
    }
  }

  lemma StillReady(dlist: seq<Design>, ops: seq<Op>, i: nat)
    requires ValidRun(dlist, ops) && ops != [] && i < MAX_MISSION && SetsValue(dlist[i].mtype)
    requires Present(dlist, Init(ops), i) && At(dlist, Init(ops), i).status == Ready
    requires At(dlist, ops, i).status == Ready
    ensures Since(dlist, ops, i) == Since(dlist, Init(ops), i)
    ensures At(dlist, ops, i).n1 ==
              if Last(ops).DoUpdate? && Concerns(dlist[i], Last(ops).ev) then Last(ops).ev.p1
              else At(dlist, Init(ops), i).n1
  {
    OneStep(dlist, ops, i);
    BirthIsRefresh(dlist, Init(ops), i);
  }

  /** Updates move only ready missions; what is OK or finished waits. */
  lemma OnlyReadyMoves(dlist: seq<Design>, ops: seq<Op>, i: nat)
    requires ValidRun(dlist, ops) && ops != [] && i < MAX_MISSION && Last(ops).DoUpdate?
    requires At(dlist, Init(ops), i).status != Ready
    ensures At(dlist, ops, i) == At(dlist, Init(ops), i)
  {
    OneStep(dlist, ops, i);
  }
}

/** The mission engine: one user's mission list against the design list. */
module Missions {

  const MAX_MISSION: nat := 501
  const EVIL_CARD_MAX: nat := 400
  const HERO_MAX := 20
  const DAY: int := 86400

  const MISSION_LEVEL := 1
  const MISSION_REPLAY := 6
  const MISSION_CARD := 10
  const MISSION_COLLECTION := 11
  const MISSION_VIEW := 13
  const MISSION_DECK := 15
  const MISSION_CHAPTER_STAGE := 22
  const MISSION_CHAPTER := 23
  const MISSION_HERO_HP := 26

  datatype Status = Null | Ready | Ok | Finish

  datatype Mission = Mission(mid: nat, status: Status, n1: int, lastUpdate: int)

  const ABSENT := Mission(0, Null, 0, 0)

  /** `resetTime` is the daily reset, in seconds after midnight. */
  datatype Design = Design(mid: nat, pre: nat, lv: int, hero: int, daily: int, guildLv: int,
                           mtype: int, p1: int, p2: int, p3: int, resetTime: nat)

  /** Change flags; the source or-s them into one word. */
  datatype Flag = UpNew | UpOk | UpNum

  /** A progress event. */
  datatype Event = Event(mtype: int, p1: int, p2: int, p3: int, guildLv: int)

  /** What a refresh looks at besides the two lists. */
  datatype Env = Env(now: int, lv: int, guildLv: int, cards: seq<char>)

  predicate ValidDesigns(dlist: seq<Design>) {
    && |dlist| == MAX_MISSION
    && forall i :: 0 <= i < MAX_MISSION ==> ValidDesign(dlist[i], i)
  }

  predicate ValidDesign(d: Design, i: nat) {
    d.mid == 0 || (d.mid == i && d.pre < MAX_MISSION && d.p1 > 0 && d.resetTime < DAY)
  }

  /** Slot i holds mission i or is zeroed. */
  predicate ValidList(list: seq<Mission>) {
    && |list| == MAX_MISSION
    && forall i :: 0 <= i < MAX_MISSION ==> ValidMission(list[i], i)
  }

  predicate ValidMission(m: Mission, i: nat) {
    m == ABSENT || (m.mid == i && m.mid != 0)
  }

  predicate ValidEnv(env: Env) { |env.cards| == EVIL_CARD_MAX }

  // ----- progress events

  /** Event types that set a value instead of counting. */
  predicate SetsValue(mtype: int) {
    mtype == MISSION_LEVEL || mtype == MISSION_CARD || mtype == MISSION_COLLECTION || mtype == MISSION_DECK
    || mtype == MISSION_CHAPTER || mtype == MISSION_CHAPTER_STAGE || mtype == MISSION_HERO_HP
  }

  /** Wildcards: a design parameter 0 matches anything; replays and views match either hero. */
  predicate Concerns(d: Design, ev: Event) {
    && d.mtype == ev.mtype && d.guildLv <= ev.guildLv
    && if ev.mtype == MISSION_REPLAY || ev.mtype == MISSION_VIEW then d.p2 == 0 || d.p2 == ev.p2 || d.p2 == ev.p3
       else (d.p2 == ev.p2 || d.p2 == 0) && (d.p3 == ev.p3 || d.p3 == 0)
  }

  function UpdateOne(m: Mission, d: Design, ev: Event): Mission {
    if m.mid == 0 || d.mid == 0 || m.status != Ready || !Concerns(d, ev) then m
    else if SetsValue(ev.mtype) then m.(n1 := ev.p1)
    else m.(n1 := m.n1 + ev.p1)
  }

  function Updated(list: seq<Mission>, dlist: seq<Design>, ev: Event): (r: seq<Mission>)
    requires |list| == |dlist|
    ensures |r| == |list|
  {
    seq(|list|, i requires 0 <= i < |list| => UpdateOne(list[i], dlist[i], ev))
  }

  /** What an event makes of one mission, told in its own fields: replays (type 6) and views (13) name
      two heroes of which the design's has to be one; a design parameter 0 takes anything. */
  predicate EventTold(m: Mission, m': Mission, d: Design, ev: Event) {
    var matches :=
      && m.mid != 0 && d.mid != 0 && m.status == Ready && d.mtype == ev.mtype && d.guildLv <= ev.guildLv
      && if ev.mtype == 6 || ev.mtype == 13 then d.p2 == 0 || d.p2 == ev.p2 || d.p2 == ev.p3
         else (d.p2 == 0 || d.p2 == ev.p2) && (d.p3 == 0 || d.p3 == ev.p3);
    var sets := ev.mtype == 1 || ev.mtype == 10 || ev.mtype == 11 || ev.mtype == 15 || ev.mtype == 22
                || ev.mtype == 23 || ev.mtype == 26;
    m' == if !matches then m else if sets then m.(n1 := ev.p1) else m.(n1 := m.n1 + ev.p1)
  }

  lemma EventIsTold(m: Mission, d: Design, ev: Event)
    ensures EventTold(m, UpdateOne(m, d, ev), d, ev)
  {
  }

  /** The heroes of a replay or view may be named in either order. */
  lemma EitherHero(m: Mission, d: Design, ev: Event)
    requires ev.mtype == 6 || ev.mtype == 13
    ensures UpdateOne(m, d, ev) == UpdateOne(m, d, ev.(p2 := ev.p3, p3 := ev.p2))
    ensures (d.p2 == ev.p2 || d.p2 == ev.p3) && d.mtype == ev.mtype && d.guildLv <= ev.guildLv ==>
              m.mid != 0 && d.mid != 0 && m.status == Ready ==> UpdateOne(m, d, ev).n1 == m.n1 + ev.p1
  {
  }

  /** A design parameter 0 takes any event of the type, and a guild level too low none. */
  lemma WildcardsAndGuild(m: Mission, d: Design, ev: Event)
    requires m.mid != 0 && d.mid != 0 && m.status == Ready && d.mtype == ev.mtype
    ensures d.guildLv > ev.guildLv ==> UpdateOne(m, d, ev) == m
    ensures d.guildLv <= ev.guildLv && d.p2 == 0 && d.p3 == 0 ==>
              UpdateOne(m, d, ev).n1 == if ev.mtype in [1, 10, 11, 15, 22, 23, 26] then ev.p1 else m.n1 + ev.p1
  {
  }

  method MissionUpdate(mlist: array<Mission>, dlist: seq<Design>, ev: Event) returns (change: set<Flag>)
    requires ValidDesigns(dlist) && ValidList(mlist[..])
    modifies mlist
    ensures forall i :: 0 <= i < 501 ==> EventTold(old(mlist[i]), mlist[i], dlist[i], ev)
    ensures mlist[..] == Updated(old(mlist[..]), dlist, ev)
    ensures change == if mlist[..] == old(mlist[..]) then {} else {UpNum}
  {
    change := {};
    ghost var s := mlist[..];
    var i := 0;
    while i < MAX_MISSION
      invariant 0 <= i <= MAX_MISSION && mlist.Length == MAX_MISSION
      invariant forall j :: 0 <= j < i ==> mlist[j] == UpdateOne(s[j], dlist[j], ev)
      invariant forall j :: i <= j < MAX_MISSION ==> mlist[j] == s[j]
      invariant change == {} ==> forall j :: 0 <= j < i ==> mlist[j] == s[j]
      invariant change != {} ==> change == {UpNum} && exists j :: 0 <= j < i && mlist[j] != s[j]
    {
      var mis := mlist[i];
      assert ValidMission(s[i], i);
      i := i + 1;
      if mis.mid == 0 { continue; }
      var dmis := dlist[mis.mid];
      if dmis.mid == 0 { continue; }
      if dmis.mtype != ev.mtype { continue; }
      if dmis.guildLv > ev.guildLv { continue; }
      if mis.status != Ready { continue; }
      if ev.mtype == MISSION_REPLAY || ev.mtype == MISSION_VIEW {
        if dmis.p2 != 0 && dmis.p2 != ev.p2 && dmis.p2 != ev.p3 { continue; }
      } else if (dmis.p2 != ev.p2 && dmis.p2 != 0) || (dmis.p3 != ev.p3 && dmis.p3 != 0) {
        continue;
      }
      if SetsValue(ev.mtype) {
        if mis.n1 != ev.p1 {
          mlist[i - 1] := mis.(n1 := ev.p1);
          change := change + {UpNum};
          assert mlist[i - 1] != s[i - 1];
        }
        continue;
      }
      if ev.p1 == 0 { continue; }
      mlist[i - 1] := mis.(n1 := mis.n1 + ev.p1);
      change := change + {UpNum};
      assert mlist[i - 1] != s[i - 1];
    }
    forall j | 0 <= j < MAX_MISSION ensures EventTold(s[j], mlist[j], dlist[j], ev) { EventIsTold(s[j], dlist[j], ev); }
  }

  // ----- the daily reset

  /** Today's reset instant. */
  function ResetTime(now: int, r: nat): int { now - now % DAY + r }

  /** The two-case test. */
  predicate DailyTest(now: int, last: int, r: nat) {
    var today := ResetTime(now, r);
    (now >= today && last <= today) || (now <= today && last <= today - DAY)
  }

  predicate IsReset(t: int, r: nat) { t % DAY == r }

  /** A reset instant lies between the two times. */
  ghost predicate ResetBetween(from: int, to: int, r: nat) {
    exists t :: from <= t <= to && IsReset(t, r)
  }

  /** The two-case test asks exactly that a reset instant has come since the last update. */
  lemma DailyTestIsReset(now: int, last: int, r: nat)
    requires r < 86400
    ensures DailyTest(now, last, r) <==> ResetBetween(last, now, r)
    ensures ResetBetween(last, now, r) <==> exists t :: last <= t <= now && t % 86400 == r
  {
    var today := ResetTime(now, r);
    ShiftedMidnight(now - now % DAY, r);
    assert IsReset(today, r) && IsReset(today - DAY, r);
    if ResetBetween(last, now, r) {
      var t :| last <= t <= now && IsReset(t, r);
      LatestReset(now, r, t);
      assert t % 86400 == r;
    }
    if t :| last <= t <= now && t % 86400 == r { assert IsReset(t, r); }
  }

  lemma ShiftedMidnight(midnight: int, r: nat)
    requires midnight % DAY == 0 && r < DAY
    ensures (midnight + r) % DAY == r && (midnight + r - DAY) % DAY == r
  {
  }

  lemma LatestReset(now: int, r: nat, t: int)
    requires r < DAY && t <= now && IsReset(t, r)
    ensures t <= (if ResetTime(now, r) <= now then ResetTime(now, r) else ResetTime(now, r) - DAY)
  {
    var a, b := now / DAY, t / DAY;
    assert now == a * DAY + now % DAY && t == b * DAY + r;
    assert b <= a;
  }

  // ----- refresh

  /** First pass, one entry: erase the unknown, promote what has met its target, reset the daily. */
  function RefreshOne(m: Mission, d: Design, now: int): Mission {
    if m.mid == 0 then m
    else if d.mid == 0 then ABSENT
    else if m.status == Ready && m.n1 >= d.p1 then m.(status := Ok, lastUpdate := now)
    else if m.status == Finish && d.daily != 0 && DailyTest(now, m.lastUpdate, d.resetTime) then
      m.(n1 := 0, status := Ready)
    else m
  }

  function Refreshed1(list: seq<Mission>, dlist: seq<Design>, now: int): (r: seq<Mission>)
    requires |list| == |dlist|
    ensures |r| == |list|
  {
    seq(|list|, i requires 0 <= i < |list| => RefreshOne(list[i], dlist[i], now))
  }

  function Collection(cards: seq<char>): nat {
    if cards == [] then 0 else Collection(cards[..|cards| - 1]) + (if cards[|cards| - 1] > '0' then 1 else 0)
  }

  /** The progress a new mission starts with; a card number out of range leaves it at 0. */
  function InitialProgress(d: Design, env: Env): int
    requires ValidEnv(env)
  {
    if d.mtype == MISSION_LEVEL then env.lv
    else if d.mtype == MISSION_CARD then
      if d.p2 <= 0 || d.p2 > EVIL_CARD_MAX then 0 else env.cards[d.p2 - 1] as int - '0' as int
    else if d.mtype == MISSION_COLLECTION then Collection(env.cards)
    else 0
  }

  function NewMission(d: Design, env: Env): Mission
    requires ValidEnv(env)
  {
    var n1 := InitialProgress(d, env);
    if n1 >= d.p1 then Mission(d.mid, Ok, n1, env.now) else Mission(d.mid, Ready, n1, 0)
  }

  predicate PreFinished(list: seq<Mission>, d: Design)
    requires d.pre < |list|
  {
    d.pre == 0 || (list[d.pre].mid != 0 && list[d.pre].status == Finish)
  }

  /** Heroes of one job are neighbours: 1,2 -> 0; 3,4 -> 2; ... */
  predicate HeroOwned(d: Design, env: Env)
    requires ValidEnv(env)
  {
    d.hero == 0 ||
    var index := (d.hero - 1) / 2 * 2;
    0 <= index < HERO_MAX && (env.cards[index] > '0' || env.cards[index + 1] > '0')
  }

  predicate Eligible(list: seq<Mission>, d: Design, env: Env)
    requires d.mid != 0 ==> d.pre < |list|
    requires ValidEnv(env)
  {
    && d.mid != 0 && d.mtype != 0 && env.lv >= d.lv && env.guildLv >= d.guildLv
    && PreFinished(list, d) && HeroOwned(d, env)
  }

  /** Second pass, one entry. */
  function AcceptOne(m: Mission, list: seq<Mission>, d: Design, env: Env): Mission
    requires d.mid != 0 ==> d.pre < |list|
    requires ValidEnv(env)
  {
    if m.mid == 0 && Eligible(list, d, env) then NewMission(d, env) else m
  }

  function Accepted2(list: seq<Mission>, dlist: seq<Design>, env: Env): (r: seq<Mission>)
    requires |list| == MAX_MISSION && ValidDesigns(dlist) && ValidEnv(env)
    ensures |r| == |list|
  {
    seq(|list|, i requires 0 <= i < |list| =>
      assert ValidDesign(dlist[i], i); if i == 0 then list[i] else AcceptOne(list[i], list, dlist[i], env))
  }

  function Refreshed(list: seq<Mission>, dlist: seq<Design>, env: Env): (r: seq<Mission>)
    requires |list| == MAX_MISSION && ValidDesigns(dlist) && ValidEnv(env)
    ensures |r| == |list|
  {
    Accepted2(Refreshed1(list, dlist, env.now), dlist, env)
  }

  predicate BecameOk(m: Mission, m': Mission) { m.status != Ok && m'.status == Ok }

  predicate BecameNew(m: Mission, m': Mission) {
    m'.mid != 0 && (m.mid == 0 || (m.status == Finish && m'.status == Ready))
  }

  predicate Erased(m: Mission, m': Mission) { m.mid != 0 && m'.mid == 0 }

  lemma RefreshKeepsValid(list: seq<Mission>, dlist: seq<Design>, env: Env)
    requires ValidList(list) && ValidDesigns(dlist) && ValidEnv(env)
    ensures ValidList(Refreshed1(list, dlist, env.now)) && ValidList(Refreshed(list, dlist, env))
  {
    var l1 := Refreshed1(list, dlist, env.now);
    forall i | 0 <= i < MAX_MISSION ensures ValidMission(l1[i], i) {
      assert ValidMission(list[i], i);
    }
    forall i | 0 <= i < MAX_MISSION ensures ValidMission(Refreshed(list, dlist, env)[i], i) {
      assert ValidMission(l1[i], i) && ValidDesign(dlist[i], i);
    }
  }

  /** What one entry of a refreshed list is. */
  lemma RefreshedAt(list: seq<Mission>, dlist: seq<Design>, env: Env, i: nat)
    requires ValidList(list) && ValidDesigns(dlist) && ValidEnv(env) && i < MAX_MISSION
    ensures var m, d := list[i], dlist[i];
            && ValidMission(m, i) && ValidDesign(d, i)
            && Refreshed(list, dlist, env)[i] ==
                 if m.mid != 0 then RefreshOne(m, d, env.now)
                 else if i != 0 && Eligible(Refreshed1(list, dlist, env.now), d, env) then NewMission(d, env)
                 else m
  {
    assert ValidMission(list[i], i) && ValidDesign(dlist[i], i);
  }

  /** A refresh changes an entry in exactly the three ways its flags report. */
  lemma ChangeIsFlagged(list: seq<Mission>, dlist: seq<Design>, env: Env, i: nat)
    requires ValidList(list) && ValidDesigns(dlist) && ValidEnv(env) && i < MAX_MISSION
    ensures var m, m' := list[i], Refreshed(list, dlist, env)[i];
            m != m' <==> BecameOk(m, m') || BecameNew(m, m') || Erased(m, m')
  {
    RefreshedAt(list, dlist, env, i);
  }

  /** Acceptance only looks at finished missions, and the second pass finishes none. */
  lemma AcceptanceKeepsEligibility(list: seq<Mission>, dlist: seq<Design>, env: Env, d: Design)
    requires ValidList(list) && ValidDesigns(dlist) && ValidEnv(env) && d.pre < MAX_MISSION
    ensures PreFinished(Refreshed(list, dlist, env), d) <==> PreFinished(Refreshed1(list, dlist, env.now), d)
  {
    RefreshedAt(list, dlist, env, d.pre);
  }

  /** After a refresh nothing is left to do: every eligible mission is present, none is unknown,
      no ready mission has met its target, and no finished daily mission is due. */
  lemma RefreshReachesFixedPoint(list: seq<Mission>, dlist: seq<Design>, env: Env, i: nat)
    requires ValidList(list) && ValidDesigns(dlist) && ValidEnv(env) && i < MAX_MISSION
    ensures var list' := Refreshed(list, dlist, env);
            var m, d := list'[i], dlist[i];
            && ValidDesign(d, i)
            && (i != 0 && Eligible(list', d, env) ==> m.mid == i)
            && (m.mid != 0 ==> d.mid != 0)
            && (m.mid != 0 && m.status == Ready ==> m.n1 < d.p1)
            && (m.mid != 0 && m.status == Finish && d.daily != 0 ==> !DailyTest(env.now, m.lastUpdate, d.resetTime))
  {
    RefreshedAt(list, dlist, env, i);
    if dlist[i].mid != 0 { AcceptanceKeepsEligibility(list, dlist, env, dlist[i]); }
  }

  /** Refreshing again at the same time changes nothing. */
  lemma RefreshIsIdempotent(list: seq<Mission>, dlist: seq<Design>, env: Env)
    requires ValidList(list) && ValidDesigns(dlist) && ValidEnv(env)
    ensures ValidList(Refreshed(list, dlist, env))
    ensures Refreshed(Refreshed(list, dlist, env), dlist, env) == Refreshed(list, dlist, env)
  {
    RefreshKeepsValid(list, dlist, env);
    var list' := Refreshed(list, dlist, env);
    var l1 := Refreshed1(list', dlist, env.now);
    forall i | 0 <= i < MAX_MISSION ensures l1[i] == list'[i] {
      RefreshReachesFixedPoint(list, dlist, env, i);
    }
    assert l1 == list';
    forall i | 0 <= i < MAX_MISSION ensures Refreshed(list', dlist, env)[i] == list'[i] {
      RefreshReachesFixedPoint(list, dlist, env, i);
      RefreshedAt(list', dlist, env, i);
    }
  }

  // ----- a refresh, told in the fields of missions, designs and cards

  /** The progress a new mission starts with: the level (type 1), the digit of one card (10), the number
      of cards owned (11). */
  function StartTold(d: Design, env: Env): int
    requires |env.cards| == 400
  {
    if d.mtype == 1 then env.lv
    else if d.mtype == 10 then (if 1 <= d.p2 <= 400 then env.cards[d.p2 - 1] as int - 48 else 0)
    else if d.mtype == 11 then |set c: nat | c < 400 && env.cards[c] > '0'|
    else 0
  }

  /** A new mission has reached its target at once, or starts with it to come. */
  predicate NewTold(m: Mission, d: Design, env: Env)
    requires |env.cards| == 400
  {
    var n1 := StartTold(d, env);
    m == if n1 >= d.p1 then Mission(d.mid, Ok, n1, env.now) else Mission(d.mid, Ready, n1, 0)
  }

  /** Heroes 2k+1 and 2k+2 share a job; one of the two cards is enough. */
  predicate HeroTold(d: Design, env: Env)
    requires |env.cards| == 400
  {
    d.hero == 0 ||
    exists k ::
      && 0 <= k < 10 && (d.hero == 2 * k + 1 || d.hero == 2 * k + 2)
      && (env.cards[2 * k] > '0' || env.cards[2 * k + 1] > '0')
  }

  /** One entry before (`m`) and after (`m'`) a refresh that leaves `list'`. */
  ghost predicate RefreshTold(m: Mission, m': Mission, i: nat, d: Design, list': seq<Mission>, env: Env)
    requires |env.cards| == 400 && (d.mid != 0 ==> d.pre < |list'|)
  {
    if m.mid != 0 then
      m' == if d.mid == 0 then Mission(0, Null, 0, 0)
            else if m.status == Ready && m.n1 >= d.p1 then m.(status := Ok, lastUpdate := env.now)
            else if m.status == Finish && d.daily != 0 && ResetTold(m.lastUpdate, env.now, d.resetTime) then
              m.(n1 := 0, status := Ready)
            else m
    else if i >= 1 && d.mid != 0 && d.mtype != 0 && env.lv >= d.lv && env.guildLv >= d.guildLv
            && (d.pre == 0 || (list'[d.pre].mid != 0 && list'[d.pre].status == Finish)) && HeroTold(d, env) then
      NewTold(m', d, env)
    else m' == Mission(0, Null, 0, 0)
  }

  /** A daily reset, `r` seconds after some midnight, lies between the two times. */
  ghost predicate ResetTold(from: int, to: int, r: nat) {
    exists t :: from <= t <= to && t % 86400 == r
  }

  lemma {:induction false} CollectionIs(cards: seq<char>)
    ensures Collection(cards) == |set c: nat | c < |cards| && cards[c] > '0'|
  {
    if cards != [] {
      var init, last := cards[..|cards| - 1], |cards| - 1;
      CollectionIs(init);
      var owned := set c: nat | c < |cards| && cards[c] > '0';
      var before := set c: nat | c < |init| && init[c] > '0';
      assert owned == if cards[last] > '0' then before + {last} else before;
    }
  }

  lemma NewIsTold(d: Design, env: Env)
    requires ValidEnv(env)
    ensures NewTold(NewMission(d, env), d, env)
  {
    if d.mtype == 11 {
      CollectionIs(env.cards);
      assert (set c: nat | c < |env.cards| && env.cards[c] > '0') == set c: nat | c < 400 && env.cards[c] > '0';
    }
  }

  lemma HeroIsTold(d: Design, env: Env)
    requires ValidEnv(env)
    ensures HeroOwned(d, env) <==> HeroTold(d, env)
  {
    if d.hero != 0 {
      var k := (d.hero - 1) / 2;
      assert d.hero == 2 * k + 1 || d.hero == 2 * k + 2;
      if HeroOwned(d, env) { assert 0 <= k < 10; }
    }
  }

  lemma RefreshIsTold(list: seq<Mission>, dlist: seq<Design>, env: Env, i: nat)
    requires ValidList(list) && ValidDesigns(dlist) && ValidEnv(env) && i < MAX_MISSION
    ensures ValidDesign(dlist[i], i)
    ensures RefreshTold(list[i], Refreshed(list, dlist, env)[i], i, dlist[i], Refreshed(list, dlist, env), env)
  {
    var m, d, list' := list[i], dlist[i], Refreshed(list, dlist, env);
    RefreshedAt(list, dlist, env, i);
    if m.mid != 0 {
      if d.mid != 0 { DailyTestIsReset(env.now, m.lastUpdate, d.resetTime); }
    } else if d.mid != 0 {
      AcceptanceKeepsEligibility(list, dlist, env, d);
      HeroIsTold(d, env);
      NewIsTold(d, env);
    }
  }

  /** All 501 entries after a refresh, and the flags: OK when some mission has become OK, NUM when some
      has been erased, NEW when some has come in or become ready again. */
  ghost predicate RefreshAnswer(s: seq<Mission>, s': seq<Mission>, dlist: seq<Design>, env: Env, change: set<Flag>) {
    && |s| == |s'| == |dlist| == 501 && |env.cards| == 400
    && (forall i :: 0 <= i < 501 ==>
          (dlist[i].mid != 0 ==> dlist[i].pre < 501) && RefreshTold(s[i], s'[i], i, dlist[i], s', env))
    && (UpOk in change <==> exists i :: 0 <= i < 501 && s[i].status != Ok && s'[i].status == Ok)
    && (UpNum in change <==> exists i :: 0 <= i < 501 && s[i].mid != 0 && s'[i].mid == 0)
    && (UpNew in change <==>
          exists i ::
            0 <= i < 501 && s'[i].mid != 0 && (s[i].mid == 0 || (s[i].status == Finish && s'[i].status == Ready)))
  }

  lemma RefreshAnswered(s: seq<Mission>, dlist: seq<Design>, env: Env, change: set<Flag>)
    requires ValidList(s) && ValidDesigns(dlist) && ValidEnv(env) && FlagsTell(change, s, Refreshed(s, dlist, env))
    ensures RefreshAnswer(s, Refreshed(s, dlist, env), dlist, env, change)
  {
    var s' := Refreshed(s, dlist, env);
    forall i | 0 <= i < 501
      ensures dlist[i].mid != 0 ==> dlist[i].pre < 501
      ensures RefreshTold(s[i], s'[i], i, dlist[i], s', env)
    {
      RefreshIsTold(s, dlist, env, i);
    }
    FlagsInFields(s, s', change);
  }

  lemma FlagsInFields(s: seq<Mission>, s': seq<Mission>, change: set<Flag>)
    requires |s| == |s'| && FlagsTell(change, s, s')
    ensures UpOk in change <==> exists i :: 0 <= i < |s| && s[i].status != Ok && s'[i].status == Ok
    ensures UpNum in change <==> exists i :: 0 <= i < |s| && s[i].mid != 0 && s'[i].mid == 0
    ensures UpNew in change <==>
              exists i ::
                0 <= i < |s| && s'[i].mid != 0 && (s[i].mid == 0 || (s[i].status == Finish && s'[i].status == Ready))
  {
    forall i | 0 <= i < |s|
      ensures BecameOk(s[i], s'[i]) <==> s[i].status != Ok && s'[i].status == Ok
      ensures Erased(s[i], s'[i]) <==> s[i].mid != 0 && s'[i].mid == 0
      ensures BecameNew(s[i], s'[i]) <==>
                s'[i].mid != 0 && (s[i].mid == 0 || (s[i].status == Finish && s'[i].status == Ready))
    {
    }
  }

  // ----- the operations

  /** Counts the owned cards. */
  method CountCollection(cards: seq<char>) returns (collect: nat)
    ensures collect == Collection(cards)
  {
    collect := 0;
    for i := 0 to |cards|
      invariant collect == Collection(cards[..i])
    {
      assert cards[..i + 1][..i] == cards[..i];
      if cards[i] > '0' { collect := collect + 1; }
    }
    assert cards[..|cards|] == cards;
  }

  /** Builds a new mission; the code is -2 for a card number out of range, 2 when the target is
      already met, 0 otherwise. */
  method MissionFromDesign(d: Design, env: Env) returns (mis: Mission, ret: int)
    requires ValidEnv(env) && d.p1 > 0
    ensures mis == NewMission(d, env) && NewTold(mis, d, env)
    ensures ret == 2 <==> mis.status == Ok
    ensures ret == -2 <==> d.mtype == MISSION_CARD && !(1 <= d.p2 <= EVIL_CARD_MAX)
    ensures ret == 2 || ret == 0 || ret == -2
  {
    NewIsTold(d, env);
    mis, ret := Mission(d.mid, Ready, 0, 0), 0;
    if d.mtype == MISSION_LEVEL {
      mis := mis.(n1 := env.lv);
    } else if d.mtype == MISSION_CARD {
      if d.p2 <= 0 || d.p2 > EVIL_CARD_MAX { ret := -2; return; }
      mis := mis.(n1 := env.cards[d.p2 - 1] as int - '0' as int);
    } else if d.mtype == MISSION_COLLECTION {
      var collect := CountCollection(env.cards);
      mis := mis.(n1 := collect);
    }
    if mis.n1 >= d.p1 {
      mis := mis.(status := Ok, lastUpdate := env.now);
      ret := 2;
    }
  }

  /** Flags of one pass: what happened to some entry between two lists. */
  ghost predicate FlagsTell(change: set<Flag>, s: seq<Mission>, s': seq<Mission>)
    requires |s'| == |s|
  {
    && (UpOk in change <==> exists i :: 0 <= i < |s| && BecameOk(s[i], s'[i]))
    && (UpNew in change <==> exists i :: 0 <= i < |s| && BecameNew(s[i], s'[i]))
    && (UpNum in change <==> exists i :: 0 <= i < |s| && Erased(s[i], s'[i]))
  }

  /** One entry more has changed, and the flags say how. */
  lemma FlagsAfterEntry(change: set<Flag>, s: seq<Mission>, s': seq<Mission>, i: nat, m: Mission, change': set<Flag>)
    requires |s'| == |s| && i < |s| && s'[i] == s[i] && FlagsTell(change, s, s')
    requires UpOk in change' <==> UpOk in change || BecameOk(s[i], m)
    requires UpNew in change' <==> UpNew in change || BecameNew(s[i], m)
    requires UpNum in change' <==> UpNum in change || Erased(s[i], m)
    ensures FlagsTell(change', s, s'[i := m])
  {
    var s2 := s'[i := m];
    assert forall j :: 0 <= j < |s| && j != i ==> s2[j] == s'[j];
    assert !BecameOk(s[i], s[i]) && !BecameNew(s[i], s[i]) && !Erased(s[i], s[i]);
    assert BecameOk(s[i], m) ==> BecameOk(s[i], s2[i]);
    assert BecameNew(s[i], m) ==> BecameNew(s[i], s2[i]);
    assert Erased(s[i], m) ==> Erased(s[i], s2[i]);
    if j: nat :| j < |s| && BecameOk(s[j], s'[j]) { assert BecameOk(s[j], s2[j]); }
    if j: nat :| j < |s| && BecameNew(s[j], s'[j]) { assert BecameNew(s[j], s2[j]); }
    if j: nat :| j < |s| && Erased(s[j], s'[j]) { assert Erased(s[j], s2[j]); }
  }

  /** The first pass on one present mission. */
  method RefreshEntry(mis: Mission, dmis: Design, now: int) returns (mis': Mission, flags: set<Flag>)
    requires mis.mid != 0 && (dmis.mid == 0 || dmis.p1 > 0)
    ensures mis' == RefreshOne(mis, dmis, now)
    ensures (UpOk in flags <==> BecameOk(mis, mis')) && (UpNew in flags <==> BecameNew(mis, mis'))
    ensures UpNum in flags <==> Erased(mis, mis')
  {
    mis', flags := mis, {};
    if dmis.mid == 0 { return ABSENT, {UpNum}; }
    if mis'.n1 >= dmis.p1 && mis'.status == Ready {
      mis' := mis'.(status := Ok, lastUpdate := now);
      flags := flags + {UpOk};
    }
    if dmis.daily == 0 || mis'.status != Finish { return; }
    if DailyTest(now, mis'.lastUpdate, dmis.resetTime) {
      mis' := mis'.(n1 := 0, status := Ready);
      flags := flags + {UpNew};
    }
  }

  /** A pass from `s` to `target` that has reached entry `i`. */
  predicate Reached(s: seq<Mission>, target: seq<Mission>, cur: seq<Mission>, i: nat) {
    && |cur| == |s| == |target| == MAX_MISSION
    && (forall j :: 0 <= j < i && j < |s| ==> cur[j] == target[j])
    && (forall j :: i <= j < |s| ==> cur[j] == s[j])
  }

  lemma ReachedNext(s: seq<Mission>, target: seq<Mission>, cur: seq<Mission>, i: nat, m: Mission)
    requires Reached(s, target, cur, i) && i < MAX_MISSION && m == target[i]
    ensures cur[i] == s[i] && Reached(s, target, cur[i := m], i + 1)
    ensures m == s[i] ==> cur[i := m] == cur
  {
  }

  method RefreshFirstPass(mlist: array<Mission>, dlist: seq<Design>, now: int) returns (change: set<Flag>)
    requires ValidDesigns(dlist) && ValidList(mlist[..])
    modifies mlist
    ensures mlist[..] == Refreshed1(old(mlist[..]), dlist, now)
    ensures FlagsTell(change, old(mlist[..]), mlist[..])
  {
    change := {};
    ghost var s, target := mlist[..], Refreshed1(mlist[..], dlist, now);
    for i := 0 to MAX_MISSION
      invariant mlist.Length == MAX_MISSION && FlagsTell(change, s, mlist[..])
      invariant Reached(s, target, mlist[..], i)
    {
      assert ValidMission(s[i], i) && ValidDesign(dlist[i], i);
      ghost var before := mlist[..];
      ReachedNext(s, target, before, i, target[i]);
      var mis := mlist[i];
      if mis.mid == 0 { continue; }
      var mis', flags := RefreshEntry(mis, dlist[mis.mid], now);
      FlagsAfterEntry(change, s, before, i, mis', change + flags);
      mlist[i] := mis';
      change := change + flags;
      assert mlist[..] == before[i := mis'];
    }
    assert mlist[..] == target;
  }

  /** Half-way through the second pass the prerequisites read are those of its start. */
  lemma SecondPassStep(l1: seq<Mission>, cur: seq<Mission>, dlist: seq<Design>, env: Env, i: nat)
    requires ValidList(l1) && ValidDesigns(dlist) && ValidEnv(env) && |cur| == MAX_MISSION && 0 < i < MAX_MISSION
    requires Reached(l1, Accepted2(l1, dlist, env), cur, i)
    ensures ValidDesign(dlist[i], i) && ValidMission(l1[i], i) && cur[i] == l1[i]
    ensures Accepted2(l1, dlist, env)[i] ==
              if cur[i].mid != i && Eligible(cur, dlist[i], env) then NewMission(dlist[i], env) else l1[i]
  {
    assert ValidDesign(dlist[i], i) && ValidMission(l1[i], i);
    var d := dlist[i];
    if d.mid != 0 {
      assert ValidMission(l1[d.pre], d.pre);
      assert PreFinished(cur, d) <==> PreFinished(l1, d);
    }
  }

  /** The conditions for taking design mission `i` into the list. */
  method IsDue(mlist: array<Mission>, dlist: seq<Design>, env: Env, i: nat) returns (due: bool)
    requires 0 < i < MAX_MISSION == |dlist| == mlist.Length && ValidDesign(dlist[i], i) && ValidEnv(env)
    ensures due <==> mlist[i].mid != i && Eligible(mlist[..], dlist[i], env)
    ensures var d := dlist[i];
            due <==>
              && mlist[i].mid != i && d.mid != 0 && d.mtype != 0 && env.lv >= d.lv && env.guildLv >= d.guildLv
              && (d.pre == 0 || (mlist[d.pre].mid != 0 && mlist[d.pre].status == Finish)) && HeroTold(d, env)
  {
    HeroIsTold(dlist[i], env);
    var dmis := dlist[i];
    if dmis.mid == 0 || dmis.mtype == 0 { return false; }
    if env.lv < dmis.lv { return false; }
    if env.guildLv < dmis.guildLv { return false; }
    if mlist[dmis.mid].mid == dmis.mid { return false; }
    if dmis.pre != 0 && (mlist[dmis.pre].mid == 0 || mlist[dmis.pre].status != Finish) { return false; }
    if dmis.hero != 0 {
      var index := (dmis.hero - 1) / 2 * 2;
      if index < 0 || index >= HERO_MAX { return false; }
      if env.cards[index] <= '0' && env.cards[index + 1] <= '0' { return false; }
    }
    return true;
  }

  method RefreshSecondPass(mlist: array<Mission>, dlist: seq<Design>, env: Env) returns (change: set<Flag>)
    requires ValidDesigns(dlist) && ValidList(mlist[..]) && ValidEnv(env)
    modifies mlist
    ensures mlist[..] == Accepted2(old(mlist[..]), dlist, env)
    ensures FlagsTell(change, old(mlist[..]), mlist[..])
  {
    change := {};
    ghost var s, target := mlist[..], Accepted2(mlist[..], dlist, env);
    for i := 1 to MAX_MISSION
      invariant mlist.Length == MAX_MISSION && FlagsTell(change, s, mlist[..])
      invariant Reached(s, target, mlist[..], i)
    {
      ghost var before := mlist[..];
      SecondPassStep(s, before, dlist, env, i);
      ReachedNext(s, target, before, i, target[i]);
      var due := IsDue(mlist, dlist, env, i);
      if due { change := TakeIn(mlist, i, dlist[i], env, change, s); }
    }
    assert mlist[..] == target;
  }

  /** Writes a new mission into its empty slot and notes the flags. */
  method TakeIn(mlist: array<Mission>, i: nat, d: Design, env: Env, change0: set<Flag>, ghost s: seq<Mission>)
    returns (change: set<Flag>)
    requires i < mlist.Length == |s| && s[i] == mlist[i] == ABSENT && FlagsTell(change0, s, mlist[..])
    requires ValidEnv(env) && d.p1 > 0 && d.mid != 0
    modifies mlist
    ensures mlist[..] == old(mlist[..])[i := NewMission(d, env)]
    ensures FlagsTell(change, s, mlist[..])
  {
    ghost var before := mlist[..];
    var mis, ret := MissionFromDesign(d, env);
    change := change0;
    if ret > 0 { change := change + {UpOk}; }
    mlist[i] := mis;
    change := change + {UpNew};
    FlagsAfterEntry(change0, s, before, i, mis, change);
    assert mlist[..] == before[i := mis];
  }

  /** An entry changes in at most one of the passes. */
  lemma OnePassPerEntry(list: seq<Mission>, dlist: seq<Design>, env: Env, i: nat)
    requires ValidList(list) && ValidDesigns(dlist) && ValidEnv(env) && i < MAX_MISSION
    ensures var l1 := Refreshed1(list, dlist, env.now);
            l1[i] == list[i] || Refreshed(list, dlist, env)[i] == l1[i]
  {
    RefreshedAt(list, dlist, env, i);
  }

  lemma FlagsOfBothPasses(list: seq<Mission>, dlist: seq<Design>, env: Env, c1: set<Flag>, c2: set<Flag>)
    requires ValidList(list) && ValidDesigns(dlist) && ValidEnv(env)
    requires FlagsTell(c1, list, Refreshed1(list, dlist, env.now))
    requires FlagsTell(c2, Refreshed1(list, dlist, env.now), Refreshed(list, dlist, env))
    ensures FlagsTell(c1 + c2, list, Refreshed(list, dlist, env))
    ensures c1 + c2 == {} <==> Refreshed(list, dlist, env) == list
  {
    var l1, l2 := Refreshed1(list, dlist, env.now), Refreshed(list, dlist, env);
    forall i: nat | i < MAX_MISSION
      ensures BecameOk(list[i], l2[i]) <==> BecameOk(list[i], l1[i]) || BecameOk(l1[i], l2[i])
      ensures BecameNew(list[i], l2[i]) <==> BecameNew(list[i], l1[i]) || BecameNew(l1[i], l2[i])
      ensures Erased(list[i], l2[i]) <==> Erased(list[i], l1[i]) || Erased(l1[i], l2[i])
      ensures list[i] != l2[i] <==> BecameOk(list[i], l2[i]) || BecameNew(list[i], l2[i]) || Erased(list[i], l2[i])
    {
      OnePassPerEntry(list, dlist, env, i);
      ChangeIsFlagged(list, dlist, env, i);
    }
    if f :| f in c1 + c2 {
      assert f == UpOk || f == UpNew || f == UpNum;
    } else {
      assert UpOk !in c1 + c2 && UpNew !in c1 + c2 && UpNum !in c1 + c2;
    }
  }

  /** The flags tell what happened to the list, and are empty exactly when nothing did. */
  method MissionRefresh(mlist: array<Mission>, dlist: seq<Design>, env: Env) returns (change: set<Flag>)
    requires ValidDesigns(dlist) && ValidList(mlist[..]) && ValidEnv(env)
    modifies mlist
    ensures mlist[..] == Refreshed(old(mlist[..]), dlist, env) && ValidList(mlist[..])
    ensures FlagsTell(change, old(mlist[..]), mlist[..])
    ensures change == {} <==> mlist[..] == old(mlist[..])
    ensures RefreshAnswer(old(mlist[..]), mlist[..], dlist, env, change)
  {
    RefreshKeepsValid(mlist[..], dlist, env);
    ghost var s := mlist[..];
    var change1 := RefreshFirstPass(mlist, dlist, env.now);
    var change2 := RefreshSecondPass(mlist, dlist, env);
    change := change1 + change2;
    FlagsOfBothPasses(s, dlist, env, change1, change2);
    RefreshAnswered(s, dlist, env, change);
  }

  /** Collecting the reward. */
  function FinishCode(list: seq<Mission>, dlist: seq<Design>, mid: nat): int
    requires mid < |list| && |dlist| == |list|
  {
    if dlist[mid].mid == 0 then -3
    else if list[mid].mid == 0 then -33
    else if list[mid].status == Null then -8
    else if list[mid].status == Finish then -18
    else if list[mid].status != Ok then -6
    else 0
  }

  function Finished(list: seq<Mission>, dlist: seq<Design>, mid: nat): (r: seq<Mission>)
    requires mid < |list| && |dlist| == |list|
    ensures |r| == |list|
  {
    if FinishCode(list, dlist, mid) == 0 then list[mid := list[mid].(status := Finish)] else list
  }

  method MissionFinish(mlist: array<Mission>, dlist: seq<Design>, mid: nat) returns (ret: int)
    requires ValidDesigns(dlist) && ValidList(mlist[..]) && mid < MAX_MISSION
    modifies mlist
    ensures ret == FinishCode(old(mlist[..]), dlist, mid)
    ensures var m := old(mlist[mid]);
            ret == if dlist[mid].mid == 0 then -3 else if m.mid == 0 then -33 else if m.status == Null then -8
                   else if m.status == Finish then -18 else if m.status == Ready then -6 else 0
    ensures mlist[..] == if ret == 0 then old(mlist[..])[mid := old(mlist[mid]).(status := Finish)] else old(mlist[..])
    ensures mlist[..] == Finished(old(mlist[..]), dlist, mid) && ValidList(mlist[..])
  {
    ghost var s := mlist[..];
    assert ValidMission(s[mid], mid);
    if dlist[mid].mid == 0 { return -3; }
    if mlist[mid].mid == 0 { return -33; }
    assert mlist[mid].mid == mid;  // so the "mismatch" return is never taken
    if mlist[mid].status == Null { return -8; }
    if mlist[mid].status == Finish { return -18; }
    if mlist[mid].status != Ok { return -6; }
    mlist[mid] := mlist[mid].(status := Finish);
    FinishKeepsValid(s, dlist, mid);
    ret := 0;
  }

  lemma FinishKeepsValid(list: seq<Mission>, dlist: seq<Design>, mid: nat)
    requires ValidList(list) && ValidDesigns(dlist) && mid < MAX_MISSION
    ensures ValidList(Finished(list, dlist, mid))
  {
    forall i | 0 <= i < MAX_MISSION ensures ValidMission(Finished(list, dlist, mid)[i], i) {
      assert ValidMission(list[i], i);
    }
  }

  lemma UpdateKeepsValid(list: seq<Mission>, dlist: seq<Design>, ev: Event)
    requires ValidList(list) && ValidDesigns(dlist)
    ensures ValidList(Updated(list, dlist, ev))
  {
    forall i | 0 <= i < MAX_MISSION ensures ValidMission(Updated(list, dlist, ev)[i], i) {
      assert ValidMission(list[i], i);
    }
  }
}

/**
 A damage condition at work (src/condition.cpp): how its pending hits land while the creature's
 conditions are executed every `d` milliseconds.
 */
module DamageTicks {
  import opened Basics
  import opened DamageOverTime

  datatype Damaging = Damaging(
    damageList: seq<IntervalInfo>, ticks: int, endTime: int, periodDamage: int, periodDamageTick: int,
        tickInterval: int)

  /** The front hit comes d closer; when its time is over it lands and leaves the list. */
  function Ticked(list: seq<IntervalInfo>, d: int): (r: (seq<IntervalInfo>, seq<int>)) {
    if list == [] then ([], [])
    else if list[0].timeLeft - d <= 0 then (list[1..], [list[0].value])
    else (list[0 := list[0].(timeLeft := list[0].timeLeft - d)], [])
  }

  /** An endless condition keeps its front hit and winds it up again. */
  function Rewound(list: seq<IntervalInfo>, d: int): (r: (seq<IntervalInfo>, seq<int>)) {
    if list == [] then ([], [])
    else if list[0].timeLeft - d <= 0 then (list[0 := list[0].(timeLeft := list[0].interval)], [list[0].value])
    else (list[0 := list[0].(timeLeft := list[0].timeLeft - d)], [])
  }

  function Struck(s: Damaging, d: int): (r: (Damaging, seq<int>)) {
    if s.periodDamage != 0 then
      var tick := s.periodDamageTick + d;
      if tick >= s.tickInterval then (s.(periodDamageTick := 0), [s.periodDamage])
          else (s.(periodDamageTick := tick), [])
    else
      var (list, hits) := if s.ticks != -1 then Ticked(s.damageList, d) else Rewound(s.damageList, d);
      (s.(damageList := list), hits)
  }

  /** executeCondition: the new state, the damage dealt, and whether the condition goes on. */
  function Executed(s: Damaging, d: int, now: int): (r: (Damaging, seq<int>, bool)) {
    var (t, hits) := Struck(s, d);
    if s.ticks == -1 then (t, hits, true) else (t.(ticks := Max(0, s.ticks - d)), hits, s.endTime >= now)
  }

  /**
   Hits aside, one execution only runs the clock: a condition with an end loses d ticks and goes on until
   its end time.
   */
  lemma ExecutedExact(s: Damaging, d: int, now: int)
    ensures var (t, hits, goesOn) := Executed(s, d, now);
            && t.endTime == s.endTime && t.periodDamage == s.periodDamage && t.tickInterval == s.tickInterval
            && (s.ticks == -1 ==> t.ticks == -1 && goesOn)
            && (s.ticks != -1 ==> t.ticks == Max(0, s.ticks - d) && (goesOn <==> now <= s.endTime))
            && |hits| <= 1 && (s.periodDamage != 0 ==> t.damageList == s.damageList)
  {
  }

  // ---- When hits land ----

  /** How many executions a hit needs: its time left over d, rounded up, and at least one. */
  function Need(left: int, d: int): (n: nat)
    requires d > 0
    ensures n >= 1
    decreases Max(0, left)
  {
    if left <= d then 1 else 1 + Need(left - d, d)
  }

  lemma {:induction false} NeedRoundsUp(left: int, d: int)
    requires d > 0 && left > 0
    ensures d * (Need(left, d) - 1) < left <= d * Need(left, d)
    decreases left
  {
    if left > d {
      NeedRoundsUp(left - d, d);
    }
  }

  /** Executions until the last of these hits has landed: rounding up happens hit by hit. */
  function Steps(list: seq<IntervalInfo>, d: int): (n: nat)
    requires d > 0
  {
    if list == [] then 0 else Need(list[0].timeLeft, d) + Steps(list[1..], d)
  }

  function HitsBy(list: seq<IntervalInfo>, d: int, n: nat): (k: nat)
    requires d > 0
    ensures k <= |list|
  {
    if list == [] || n < Need(list[0].timeLeft, d) then 0 else 1 + HitsBy(list[1..], d, n - Need(list[0].timeLeft, d))
  }

  /** The first k hits have landed after n executions exactly when their steps fit into n. */
  lemma {:induction false} LandedIff(list: seq<IntervalInfo>, d: int, n: nat, k: nat)
    requires d > 0 && k <= |list|
    ensures k <= HitsBy(list, d, n) <==> Steps(list[..k], d) <= n
    decreases k
  {
    if k > 0 {
      var need := Need(list[0].timeLeft, d);
      assert list[..k][0] == list[0] && list[..k][1..] == list[1..][..k - 1];
      if n >= need {
        LandedIff(list[1..], d, n - need, k - 1);
      }
    }
  }

  function Values(list: seq<IntervalInfo>): (r: seq<int>) { seq(|list|, i requires 0 <= i < |list| => list[i].value) }

  /** n executions of a finite list. */
  function TickedTimes(list: seq<IntervalInfo>, d: int, n: nat): (r: (seq<IntervalInfo>, seq<int>))
    decreases n
  {
    if n == 0 then (list, [])
    else
      var (next, hits) := Ticked(list, d);
      var (rest, later) := TickedTimes(next, d, n - 1);
      (rest, hits + later)
  }

  lemma ValuesCons(list: seq<IntervalInfo>, k: nat)
    requires k < |list|
    ensures Values(list[..k + 1]) == [list[0].value] + Values(list[1..][..k])
  {
  }

  /** Hits land in the order of the list, each once; the rest is still pending with the same values. */
  lemma {:induction false} LandedInOrder(list: seq<IntervalInfo>, d: int, n: nat)
    requires d > 0
    ensures var (rest, dealt) := TickedTimes(list, d, n);
            dealt == Values(list[..HitsBy(list, d, n)]) && Values(rest) == Values(list[HitsBy(list, d, n)..])
    decreases n
  {
    if n > 0 && list != [] {
      var next := Ticked(list, d).0;
      LandedInOrder(next, d, n - 1);
      if list[0].timeLeft <= d {
        ValuesCons(list, HitsBy(next, d, n - 1));
      } else {
        WoundDown(list, d, n);
      }
    } else if list == [] {
      NothingLands(list, d, n);
    }
  }

  lemma {:induction false} NothingLands(list: seq<IntervalInfo>, d: int, n: nat)
    requires list == []
    ensures TickedTimes(list, d, n).0 == [] && TickedTimes(list, d, n).1 == []
    decreases n
  {
    if n > 0 {
      assert Ticked(list, d).0 == [] && Ticked(list, d).1 == [];
      NothingLands(Ticked(list, d).0, d, n - 1);
    }
  }

  /** A hit that only came closer needs one execution less. */
  lemma WoundDown(list: seq<IntervalInfo>, d: int, n: nat)
    requires d > 0 && n > 0 && list != [] && list[0].timeLeft > d
    ensures var next := Ticked(list, d).0;
            var k := HitsBy(list, d, n);
            HitsBy(next, d, n - 1) == k && Values(next[..k]) == Values(list[..k]) &&
                Values(next[k..]) == Values(list[k..])
  {
    var next := Ticked(list, d).0;
    assert next[1..] == list[1..];
    assert Need(list[0].timeLeft, d) == 1 + Need(next[0].timeLeft, d);
  }

  // ---- A whole life ----

  ghost predicate Finite(s: Damaging) { s.periodDamage == 0 && s.ticks >= 0 }

  /** Everything a finite condition deals when it is executed at now, now + d, ... until it ends. */
  ghost function Lived(s: Damaging, d: int, now: int): (dealt: seq<int>)
    requires d > 0 && Finite(s)
    decreases Max(0, s.endTime - now + 1)
  {
    var (t, hits, goesOn) := Executed(s, d, now);
    if goesOn then hits + Lived(t, d, now + d) else hits
  }

  /** Executions until the first one after the end time. */
  function Turns(endTime: int, now: int, d: int): (n: nat)
    requires d > 0
    ensures n >= 1
    decreases Max(0, endTime - now + 1)
  {
    if now > endTime then 1 else 1 + Turns(endTime, now + d, d)
  }

  lemma {:induction false} TurnsAtLeast(endTime: int, now: int, d: int, m: int)
    requires d > 0 && m >= 2
    ensures m <= Turns(endTime, now, d) <==> now + d * (m - 2) <= endTime
    decreases m
  {
    if m > 2 {
      TurnsAtLeast(endTime, now + d, d, m - 1);
      assert now + d + d * (m - 1 - 2) == now + d * (m - 2);
      if now > endTime {
        assert d * (m - 2) > 0;
      }
    } else {
      assert now + d * (m - 2) == now;
    }
  }

  lemma {:induction false} LivedExact(s: Damaging, d: int, now: int)
    requires d > 0 && Finite(s)
    ensures Lived(s, d, now) == TickedTimes(s.damageList, d, Turns(s.endTime, now, d)).1
    decreases Max(0, s.endTime - now + 1)
  {
    var (t, hits, goesOn) := Executed(s, d, now);
    if goesOn {
      LivedExact(t, d, now + d);
    } else {
      assert TickedTimes(s.damageList, d, 1).1 == hits + [];
    }
  }

  /** After n executions everything has landed exactly when all steps fit. */
  lemma AllLandedBy(list: seq<IntervalInfo>, d: int, n: nat)
    requires d > 0
    ensures TickedTimes(list, d, n).1 <= Values(list)
    ensures TickedTimes(list, d, n).1 == Values(list) <==> Steps(list, d) <= n
  {
    var k := HitsBy(list, d, n);
    LandedInOrder(list, d, n);
    LandedIff(list, d, n, |list|);
    assert list[..|list|] == list;
    assert Values(list[..k]) == Values(list)[..k];
  }

  lemma TurnsReach(endTime: int, start: int, d: int, m: nat)
    requires d > 0
    ensures m <= Turns(endTime, start + d, d) <==> m <= 1 || start + d * (m - 1) <= endTime
  {
    if m >= 2 {
      TurnsAtLeast(endTime, start + d, d, m);
      assert start + d + d * (m - 2) == start + d * (m - 1);
    }
  }

  /**
   Main result. A finite condition whose executions start d after `start` deals exactly a prefix of
   its hits, in order, and all of them if and only if the steps they need, rounded up hit by hit,
   are over by its end time, the last of them up to d later.
   */
  lemma AllLandIff(s: Damaging, d: int, start: int)
    requires d > 0 && Finite(s)
    ensures Lived(s, d, start + d) <= Values(s.damageList)
    ensures Lived(s, d, start + d) == Values(s.damageList) <==>
            Steps(s.damageList, d) <= 1 || start + d * (Steps(s.damageList, d) - 1) <= s.endTime
  {
    LivedExact(s, d, start + d);
    AllLandedBy(s.damageList, d, Turns(s.endTime, start + d, d));
    TurnsReach(s.endTime, start, d, Steps(s.damageList, d));
  }

  /** Hits as addDamage makes them, with intervals that are multiples of the execution interval. */
  ghost predicate Even(list: seq<IntervalInfo>, d: int)
    requires d > 0
  {
    forall i :: 0 <= i < |list| ==>
        list[i].timeLeft == list[i].interval && d * Need(list[i].timeLeft, d) == list[i].interval
  }

  lemma {:induction false} EvenSteps(list: seq<IntervalInfo>, d: int)
    requires d > 0 && Even(list, d)
    ensures d * Steps(list, d) == TotalInterval(list)
    decreases |list|
  {
    if list != [] {
      assert list[0].timeLeft == list[0].interval;
      EvenSteps(list[1..], d);
      TotalFirst(list);
      Spread(d, Need(list[0].timeLeft, d), Steps(list[1..], d));
    }
  }

  lemma {:induction false} TotalFirst(list: seq<IntervalInfo>)
    requires list != []
    ensures TotalInterval(list) == list[0].interval + TotalInterval(list[1..])
    decreases |list|
  {
    if |list| > 1 {
      var front := list[..|list| - 1];
      TotalFirst(front);
      assert front[1..] == list[1..][..|list[1..]| - 1];
    }
  }

  /** A fresh condition whose intervals are multiples of d ends only after all its hits have landed. */
  lemma EvenAllLand(s: Damaging, d: int, start: int)
    requires d > 0 && Finite(s) && Even(s.damageList, d) && s.endTime == start + TotalInterval(s.damageList)
    ensures Lived(s, d, start + d) == Values(s.damageList)
  {
    AllLandIff(s, d, start);
    EvenSteps(s.damageList, d);
    assert d * (Steps(s.damageList, d) - 1) == d * Steps(s.damageList, d) - d;
  }

  lemma NeedExact(d: int, k: nat)
    requires d > 0 && k > 0
    ensures Need(d * k, d) == k
  {
    assert d * k > 0;
    NeedRoundsUp(d * k, d);
    MulCancelStrict(d, Need(d * k, d) - 1, k);
    MulCancel(d, k, Need(d * k, d));
  }

  lemma MulCancelStrict(k: nat, x: int, y: int)
    requires k > 0 && k * x < k * y
    ensures x < y
  {
    if x >= y {
      MulMono(k, y, x);
    }
  }

  /** What init rolled: hits of one interval, none begun. */
  ghost predicate Rolled(s: Damaging, interval: int, start: int) {
    && Finite(s) && s.endTime == start + TotalInterval(s.damageList)
    && forall i :: 0 <= i < |s.damageList| ==> s.damageList[i].timeLeft == s.damageList[i].interval == interval
  }

  /** A rolled condition with an interval of whole seconds deals every hit when executed every second. */
  lemma RolledAllLand(s: Damaging, seconds: nat, start: int)
    requires seconds > 0 && Rolled(s, EVENT_CREATURE_THINK_INTERVAL * seconds, start)
    ensures Lived(s, EVENT_CREATURE_THINK_INTERVAL, start + EVENT_CREATURE_THINK_INTERVAL) == Values(s.damageList)
  {
    NeedExact(EVENT_CREATURE_THINK_INTERVAL, seconds);
    EvenAllLand(s, EVENT_CREATURE_THINK_INTERVAL, start);
  }

  /** Otherwise hits can be lost: three hits 1500 ms apart, executed every second, deal only two. */
  lemma HitLostHappens()
    ensures var hit := IntervalInfo(1500, -10, 1500);
            Lived(Damaging([hit, hit, hit], 4500, 4500, 0, 0, 1500), 1000, 1000) == [-10, -10]
  {
    var hit := IntervalInfo(1500, -10, 1500);
    var list := [hit, hit, hit];
    var s := Damaging(list, 4500, 4500, 0, 0, 1500);
    assert Need(500, 1000) == 1 && Need(1500, 1000) == 2;
    assert list[1..] == [hit, hit] && [hit, hit][1..] == [hit] && list[..2] == [hit, hit] && list[..3] == list;
    assert Steps([hit], 1000) == 2 && Steps([hit, hit], 1000) == 4 && Steps(list, 1000) == 6;
    TurnsAtLeast(4500, 1000, 1000, 4);
    TurnsAtLeast(4500, 1000, 1000, 6);
    var n := Turns(4500, 1000, 1000);
    LandedIff(list, 1000, n, 2);
    LandedIff(list, 1000, n, 3);
    LivedExact(s, 1000, 1000);
    LandedInOrder(list, 1000, n);
    assert Values([hit, hit]) == [-10, -10];
  }

  // ---- Endless conditions ----

  /** n executions, whatever the clock shows. */
  function StruckTimes(s: Damaging, d: int, n: nat): (hits: seq<int>)
    decreases n
  {
    if n == 0 then []
    else
      var (t, now) := Struck(s, d);
      now + StruckTimes(t, d, n - 1)
  }

  // ---- Endless lists ----

  /** An endless condition without periodic damage, whose front hit is still `left` away. */
  ghost predicate Endless(s: Damaging, left: int, interval: int) {
    && s.ticks == -1 && s.periodDamage == 0 && s.damageList != []
    && s.damageList[0].timeLeft == left && s.damageList[0].interval == interval
  }

  /** How often the front hit strikes in n executions: after `first`, and then every `need`. */
  function Strikes(first: nat, need: nat, n: nat): (k: nat)
    requires need > 0
  {
    if n < first then 0 else 1 + (n - first) / need
  }

  /**
   An endless condition deals its front hit over and over: once its waiting time is over, rounded up, and
   then every rounded-up interval. No other hit of the list ever lands.
   */
  lemma {:induction false} EndlessExact(s: Damaging, d: int, n: nat, left: int, interval: int)
    requires d > 0 && Endless(s, left, interval)
    ensures StruckTimes(s, d, n) ==
            seq(Strikes(Need(left, d), Need(interval, d), n), _ => s.damageList[0].value)
    decreases n
  {
    if n > 0 {
      var need := Need(interval, d);
      var (t, hits) := Struck(s, d);
      if left <= d {
        EndlessExact(t, d, n - 1, interval, interval);
        if n - 1 >= need {
          OneRound(n - 1 - need, need);
        } else {
          QuotientIs(n - 1, need, 0);
        }
      } else {
        EndlessExact(t, d, n - 1, left - d, interval);
      }
    }
  }

  /** n executions, the first c of a round being over: how many rounds are completed. */
  function Rounds(c: nat, n: nat, need: nat): (k: nat)
    requires c < need
    decreases n
  {
    if n == 0 then 0 else if c + 1 == need then 1 + Rounds(0, n - 1, need) else Rounds(c + 1, n - 1, need)
  }

  lemma {:induction false} RoundsIsQuotient(c: nat, n: nat, need: nat)
    requires c < need
    ensures Rounds(c, n, need) == (c + n) / need
    decreases n
  {
    if n > 0 {
      if c + 1 == need {
        RoundsIsQuotient(0, n - 1, need);
        OneRound(n - 1, need);
      } else {
        RoundsIsQuotient(c + 1, n - 1, need);
      }
    } else {
      QuotientIs(c, need, 0);
    }
  }

  lemma OneRound(x: nat, need: nat)
    requires need > 0
    ensures (need + x) / need == 1 + x / need
  {
    Spread(need, 1, x / need);
    QuotientIs(need + x, need, 1 + x / need);
  }

  lemma QuotientIs(x: nat, need: nat, q: nat)
    requires need > 0 && need * q <= x < need * q + need
    ensures x / need == q
  {
    var k := x / need;
    Spread(need, k, 1);
    Spread(need, q, 1);
    MulCancelStrict(need, k, q + 1);
    MulCancelStrict(need, q, k + 1);
  }

  /** c executions into a round the counter shows c * d, and c of them are not enough. */
  lemma {:induction false} NotYet(left: int, d: int, c: nat)
    requires d > 0 && c < Need(left, d)
    ensures d * (c + 1) >= left <==> c + 1 == Need(left, d)
    decreases c
  {
    if c > 0 {
      NotYet(left - d, d, c - 1);
      assert d * (c + 1) - d == d * c;
    } else {
      assert d * (c + 1) == d;
    }
  }

  lemma {:induction false} PeriodRounds(s: Damaging, d: int, n: nat, c: nat)
    requires d > 0 && s.periodDamage != 0 && c < Need(s.tickInterval, d) && s.periodDamageTick == d * c
    ensures StruckTimes(s, d, n) == seq(Rounds(c, n, Need(s.tickInterval, d)), _ => s.periodDamage)
    decreases n
  {
    if n > 0 {
      NotYet(s.tickInterval, d, c);
      var (t, hits) := Struck(s, d);
      assert d * (c + 1) == d * c + d;
      if c + 1 == Need(s.tickInterval, d) {
        assert t.periodDamageTick == d * 0;
        PeriodRounds(t, d, n - 1, 0);
      } else {
        PeriodRounds(t, d, n - 1, c + 1);
      }
    }
  }

  /**
   Periodic damage strikes once in every ceil(tickInterval / d) executions, in every one without an
   interval, and always with the same damage: c executions into a round, n more complete the quotient.
   */
  lemma PeriodExact(s: Damaging, d: int, n: nat, c: nat)
    requires d > 0 && s.tickInterval >= 0 && s.periodDamage != 0
    requires s.periodDamageTick == d * c && (c == 0 || d * c < s.tickInterval)
    ensures StruckTimes(s, d, n) == seq((c + n) / Max(1, (s.tickInterval + d - 1) / d), _ => s.periodDamage)
  {
    NeedCeiling(s.tickInterval, d);
    if s.tickInterval > 0 {
      NeedRoundsUp(s.tickInterval, d);
      MulCancelStrict(d, c, Need(s.tickInterval, d));
    }
    PeriodRounds(s, d, n, c);
    RoundsIsQuotient(c, n, Need(s.tickInterval, d));
  }

  lemma NeedCeiling(left: int, d: int)
    requires d > 0 && left >= 0
    ensures Need(left, d) == Max(1, (left + d - 1) / d)
  {
    if left > 0 {
      NeedRoundsUp(left, d);
      Spread(d, Need(left, d) - 1, 1);
      QuotientIs(left + d - 1, d, Need(left, d));
    } else {
      assert d * 0 == 0;
      QuotientIs(d - 1, d, 0);
    }
  }
}

/** The damage condition object of src/condition.cpp. */
module DamageCondition {
  import opened Basics
  import opened DamageOverTime
  import opened DamageTicks

  lemma RepeatMore(n: nat, info: IntervalInfo)
    ensures seq(n + 1, _ => info) == seq(n, _ => info) + [info]
  {
  }

  /** One more round adds one more value. */
  lemma {:induction false} TotalRepeated(list: seq<IntervalInfo>, n: nat, info: IntervalInfo)
    ensures TotalValue(list + seq(n, _ => info)) == TotalValue(list) + n * info.value
  {
    if n == 0 {
      assert list + seq(n, _ => info) == list;
    } else {
      TotalRepeated(list, n - 1, info);
      TotalOneMore(list, n - 1, info);
      Times(n, info.value);
    }
  }

  lemma TotalOneMore(list: seq<IntervalInfo>, n: nat, info: IntervalInfo)
    ensures TotalValue(list + seq(n + 1, _ => info)) == TotalValue(list + seq(n, _ => info)) + info.value
  {
    RepeatMore(n, info);
    assert list + seq(n + 1, _ => info) == (list + seq(n, _ => info)) + [info];
    TotalsAppend(list + seq(n, _ => info), info);
  }

  lemma Times(n: int, v: int)
    ensures n * v == (n - 1) * v + v
  {
  }

  class ConditionDamage {
    var damageList: seq<IntervalInfo>
    var ticks: int
    var endTime: int
    var periodDamage: int
    var periodDamageTick: int
    var tickInterval: int
    var startDamage: int
    var maxDamage: int

    ghost function View(): (s: Damaging)
      reads this
    {
      Damaging(damageList, ticks, endTime, periodDamage, periodDamageTick, tickInterval)
    }

    constructor (startDamage: int, maxDamage: int, tickInterval: int)
      ensures View() == Damaging([], 0, 0, 0, 0, tickInterval)
      ensures this.startDamage == startDamage && this.maxDamage == maxDamage
    {
      damageList, ticks, endTime, periodDamage, periodDamageTick := [], 0, 0, 0, 0;
      this.startDamage, this.maxDamage, this.tickInterval := startDamage, maxDamage, tickInterval;
    }

    /** A finite condition's duration is what its pending hits add up to, counted from `now`. */
    ghost predicate DurationMatches(now: int)
      reads this
    {
      ticks == TotalInterval(damageList) && ticks >= 0 && endTime == now + ticks
    }

    method SetTicks(newTicks: int, now: int)
      modifies this`ticks, this`endTime
      ensures ticks == newTicks && endTime == newTicks + now
    {
      ticks := newTicks;
      endTime := ticks + now;
    }

    method AddHit(info: IntervalInfo, now: int)
      modifies this`damageList, this`ticks, this`endTime
      ensures damageList == old(damageList) + [info]
      ensures old(DurationMatches(now)) && info.interval >= 0 ==> DurationMatches(now)
    {
      TotalsAppend(damageList, info);
      damageList := damageList + [info];
      if ticks != -1 {
        SetTicks(ticks + info.interval, now);
      }
    }

    /** The same hit `rounds` times. */
    method AddRounds(rounds: nat, info: IntervalInfo, now: int)
      requires info.interval >= 0
      modifies this`damageList, this`ticks, this`endTime
      ensures damageList == old(damageList) + seq(rounds, _ => info)
      ensures TotalValue(damageList) == TotalValue(old(damageList)) + rounds * info.value
      ensures old(DurationMatches(now)) ==> DurationMatches(now)
    {
      var i := 0;
      assert damageList + seq(0, _ => info) == damageList;
      while i < rounds
        invariant 0 <= i <= rounds
        invariant damageList == old(damageList) + seq(i, _ => info)
        invariant old(DurationMatches(now)) ==> DurationMatches(now)
      {
        RepeatMore(i, info);
        AddHit(info, now);
        i := i + 1;
      }
      TotalRepeated(old(damageList), rounds, info);
    }

    method AddDamage(rounds: int, time: int, value: int, now: int) returns (added: bool)
      modifies this`damageList, this`ticks, this`endTime, this`periodDamage, this`tickInterval
      ensures rounds == -1 ==> added && periodDamage == value && ticks == -1 && endTime == old(endTime) &&
                               tickInterval == Max(time, EVENT_CREATURE_THINK_INTERVAL) && damageList == old(damageList)
      ensures rounds != -1 ==> added == (old(periodDamage) <= 0) &&
                               periodDamage == old(periodDamage) && tickInterval == old(tickInterval)
      ensures rounds != -1 && !added ==> View() == old(View())
      ensures rounds != -1 && added ==>
                var t := Max(time, EVENT_CREATURE_THINK_INTERVAL);
                && damageList == old(damageList) + seq(Max(rounds, 0), _ => IntervalInfo(t, value, t))
                && TotalValue(damageList) == TotalValue(old(damageList)) + Max(rounds, 0) * value
                && (old(DurationMatches(now)) ==> DurationMatches(now))
    {
      var t := Max(time, EVENT_CREATURE_THINK_INTERVAL);
      if rounds == -1 {
        periodDamage := value;
        tickInterval := t;
        ticks := -1;
        return true;
      }
      if periodDamage > 0 {
        return false;
      }
      AddRounds(Max(rounds, 0), IntervalInfo(t, value, t), now);
      added := true;
    }

    /**
     Rolls the hits of a condition that has none; `amount` is the random draw between the minimum and
     the maximum damage. What it rolled adds up to max(|amount|, start + ... + 1), and with an interval
     of whole seconds all of it is dealt before the condition ends.
     */
    method Init(amount: int, now: int) returns (ok: bool)
      modifies this
      ensures old(periodDamage) != 0 || old(damageList) != [] ==> ok && View() == old(View())
      ensures old(periodDamage) == 0 && old(damageList) == [] ==>
                && ok == (amount != 0 && startDamage > 0) && ok == (damageList != [])
                && TotalValue(damageList) == -(if amount == 0 then 0 else ExpectedTotal(amount, startDamage))
                && tickInterval == old(tickInterval)
                && Rolled(View(), Max(tickInterval, EVENT_CREATURE_THINK_INTERVAL), now)
      ensures old(periodDamage) == 0 && old(damageList) == [] && old(startDamage) == 0 && 0 < amount <= maxDamage ==>
                startDamage == DefaultStart(amount)
    {
      if periodDamage != 0 {
        return true;
      }
      if damageList != [] {
        return true;
      }
      SetTicks(0, now);
      if amount != 0 {
        if startDamage > maxDamage {
          startDamage := maxDamage;
        } else if startDamage == 0 {
          startDamage := DefaultStart(amount);
        }
        var list := GenerateDamageList(amount, startDamage);
        Fill(list, now);
        if startDamage > 0 {
          assert 1 in list;
        } else if list != [] {
          assert list[0] in list;
        }
      }
      ok := damageList != [];
    }

    /** One hit for each entry of a generated list. */
    method Fill(list: seq<int>, now: int)
      requires periodDamage == 0 && damageList == [] && DurationMatches(now)
      modifies this`damageList, this`ticks, this`endTime, this`periodDamage, this`tickInterval
      ensures |damageList| == |list| && TotalValue(damageList) == -Sum(list)
      ensures tickInterval == old(tickInterval) && Rolled(View(), Max(tickInterval, EVENT_CREATURE_THINK_INTERVAL), now)
    {
      var i := 0;
      while i < |list|
        invariant 0 <= i <= |list| && |damageList| == i
        invariant periodDamage == 0 && DurationMatches(now) && tickInterval == old(tickInterval)
        invariant TotalValue(damageList) == -Sum(list[..i])
        invariant Rolled(View(), Max(tickInterval, EVENT_CREATURE_THINK_INTERVAL), now)
      {
        assert list[..i + 1] == list[..i] + [list[i]];
        SumAppend(list[..i], list[i]);
        var added := AddDamage(1, tickInterval, -list[i], now);
        i := i + 1;
      }
      assert list[..|list|] == list;
    }

    /** One execution; `dealt` is the damage handed to doDamage. */
    method ExecuteCondition(interval: int, now: int) returns (dealt: seq<int>, goesOn: bool)
      modifies this`damageList, this`ticks, this`periodDamageTick
      ensures (View(), dealt, goesOn) == Executed(old(View()), interval, now)
    {
      dealt := [];
      if periodDamage != 0 {
        periodDamageTick := periodDamageTick + interval;
        if periodDamageTick >= tickInterval {
          periodDamageTick := 0;
          dealt := [periodDamage];
        }
      } else if damageList != [] {
        var remove := ticks != -1;
        var info := damageList[0];
        info := info.(timeLeft := info.timeLeft - interval);
        damageList := damageList[0 := info];
        if info.timeLeft <= 0 {
          if remove {
            damageList := damageList[1..];
          } else {
            damageList := damageList[0 := info.(timeLeft := info.interval)];
            assert damageList == old(damageList)[0 := info.(timeLeft := info.interval)];
          }
          dealt := [info.value];
        }
        // The source would move the end time of an endless condition with positive ticks; endless means -1.
      }
      if ticks == -1 {
        return dealt, true;
      }
      ticks := Max(0, ticks - interval);
      goesOn := endTime >= now;
    }
  }
}

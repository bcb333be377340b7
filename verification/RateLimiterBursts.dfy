/** Over whole runs of the rate limiter (src/connection_rate_limiter.cpp): which calls start a block. */
module RateLimiterBursts {
  import opened Basics
  import opened RateLimiter

  /** The call of another address leaves a live entry as it is, unless the ceiling takes it. */
  lemma OtherCallKeeps(s: State, c: Call, ip: Ip)
    requires Inv(s, c.now) && ip in s.entries && c.ip != ip && !OverCeiling(s, c.now, ip)
    requires c.now <= s.entries[ip].lastAttempt + ENTRY_LIFETIME
    ensures ip in Checked(s, c).0.entries && Checked(s, c).0.entries[ip] == s.entries[ip]
  {
    Survives(s, c.now, ip);
  }

  lemma Survives(s: State, now: nat, ip: Ip)
    requires Inv(s, now) && ip in s.entries && !OverCeiling(s, now, ip)
    requires now <= s.entries[ip].lastAttempt + ENTRY_LIFETIME
    ensures ip in Cleaned(s, now).entries && Cleaned(s, now).entries[ip] == s.entries[ip]
  {
    SweptIfDueKeeps(s, now);
    CleanedKeeps(s, now);
    CeilingIff(s, now, ip);
  }

  /** The address calls at i and at j, not in between, and the ceiling does not take it on the way. */
  ghost predicate Consecutive(states: seq<State>, calls: seq<Call>, ip: Ip, i: nat, j: nat)
    requires Run(states, calls)
  {
    && i < j < |calls| && calls[i].ip == ip && calls[j].ip == ip
    && (forall k :: i < k < j ==> calls[k].ip != ip)
    && forall k :: i < k <= j ==> !OverCeiling(states[k], calls[k].now, ip)
  }

  /** The entry a call leaves is the one the next call of the address finds. */
  lemma {:induction false} EntryWaits(states: seq<State>, calls: seq<Call>, ip: Ip, i: nat, j: nat, e: Entry)
    requires Run(states, calls) && i < j < |calls| && ip in states[i + 1].entries && states[i + 1].entries[ip] == e
    requires forall k :: i < k < j ==> calls[k].ip != ip && !OverCeiling(states[k], calls[k].now, ip)
    requires calls[j].now <= e.lastAttempt + ENTRY_LIFETIME
    ensures ip in states[j].entries && states[j].entries[ip] == e
    decreases j - i
  {
    if j > i + 1 {
      var k := j - 1;
      assert calls[k].now <= calls[k + 1].now;
      EntryWaits(states, calls, ip, i, k, e);
      RunKeeps(states, calls, k);
      OtherCallKeeps(states[k], calls[k], ip);
    }
  }

  /** The calls of a burst: each within the window and the minimal interval of the one before. */
  ghost predicate Burst(states: seq<State>, calls: seq<Call>, at: seq<nat>, ip: Ip, allowed: nat, interval: nat)
    requires Run(states, calls)
  {
    && (forall i :: 0 <= i < |at| ==> at[i] < |calls|)
    && (forall i :: 0 <= i < |at| ==> calls[at[i]] == Call(ip, calls[at[i]].now, allowed, interval))
    && (forall i :: 0 <= i < |at| - 1 ==> Consecutive(states, calls, ip, at[i], at[i + 1]))
    && (forall i :: 0 <= i < |at| - 1 ==>
          calls[at[i + 1]].now - calls[at[i]].now <= 5_000 && calls[at[i + 1]].now - calls[at[i]].now <= interval)
  }

  /** After the call at index k the address has been counted n times, has no block and never had one. */
  ghost predicate Counted(states: seq<State>, calls: seq<Call>, ip: Ip, k: nat, n: nat)
    requires Run(states, calls) && k < |calls|
  {
    && ip in states[k + 1].entries
    && var e := states[k + 1].entries[ip];
    e.lastAttempt == calls[k].now && e.blockUntil == 0 && e.count == n && e.totalBlocks == 0
  }

  /** The next call of the burst finds that entry. */
  lemma NextCall(states: seq<State>, calls: seq<Call>, ip: Ip, i: nat, j: nat, n: nat)
    requires Run(states, calls) && Consecutive(states, calls, ip, i, j) && Counted(states, calls, ip, i, n)
    requires calls[j].now - calls[i].now <= 5_000 && calls[j].now < LONG_WORD
    ensures var v := Checked(states[j], calls[j]).1;
            && (n < UINT32_MAX ==> (v.blockStarted <==>
                  n + 1 > calls[j].allowed && calls[j].now - calls[i].now <= calls[j].minimumInterval))
            && v.allowed == !v.blockStarted
            && (v.blockStarted ==> v.totalBlocks == 1 && v.blockDuration == 3_000)
            && (n + 1 <= calls[j].allowed < WORD ==> Counted(states, calls, ip, j, n + 1))
  {
    FoundAgain(states, calls, ip, i, j);
    ClockRises(states, calls, i, j);
    CheckAnswers(states[j], calls[j]);
  }

  lemma FoundAgain(states: seq<State>, calls: seq<Call>, ip: Ip, i: nat, j: nat)
    requires Run(states, calls) && Consecutive(states, calls, ip, i, j) && ip in states[i + 1].entries
    requires calls[j].now <= states[i + 1].entries[ip].lastAttempt + ENTRY_LIFETIME
    ensures Inv(states[j], calls[j].now) && ip in Cleaned(states[j], calls[j].now).entries
    ensures Cleaned(states[j], calls[j].now).entries[ip] == states[i + 1].entries[ip]
  {
    EntryWaits(states, calls, ip, i, j, states[i + 1].entries[ip]);
    RunKeeps(states, calls, j);
    Survives(states[j], calls[j].now, ip);
  }

  lemma FirstCall(states: seq<State>, calls: seq<Call>, k: nat)
    requires Run(states, calls) && k < |calls| && calls[k].now < LONG_WORD && calls[k].ip !in states[k].entries
    ensures Checked(states[k], calls[k]).1.allowed && Counted(states, calls, calls[k].ip, k, 1)
  {
    RunKeeps(states, calls, k);
    CleanedKeeps(states[k], calls[k].now);
    CheckAnswers(states[k], calls[k]);
  }

  /** The first calls of a burst are let in and counted. */
  lemma {:induction false} BurstCounts(
      states: seq<State>, calls: seq<Call>, at: seq<nat>, ip: Ip, allowed: nat, interval: nat, i: nat)
    requires Run(states, calls) && Burst(states, calls, at, ip, allowed, interval)
    requires i < |at| && (i == 0 || i < allowed) && allowed < WORD
    requires ip !in states[at[0]].entries && calls[at[i]].now < LONG_WORD
    ensures Checked(states[at[i]], calls[at[i]]).1.allowed && Counted(states, calls, ip, at[i], i + 1)
  {
    if i == 0 {
      FirstCall(states, calls, at[0]);
    } else {
      assert Consecutive(states, calls, ip, at[i - 1], at[i - 1 + 1]);
      assert calls[at[i - 1 + 1]].now - calls[at[i - 1]].now <= 5_000;
      ClockRises(states, calls, at[i - 1], at[i]);
      BurstCounts(states, calls, at, ip, allowed, interval, i - 1);
      NextCall(states, calls, ip, at[i - 1], at[i], i);
    }
  }

  /**
   Main result on bursts. Of an address without an entry, `allowed` calls (at least one) are let in, each
   within the window and the minimal interval of the one before; the next such call starts a block of three
   seconds, unless the ceiling takes the entry meanwhile.
   */
  lemma BurstStartsBlock(states: seq<State>, calls: seq<Call>, at: seq<nat>, ip: Ip, allowed: nat, interval: nat)
    requires Run(states, calls) && Burst(states, calls, at, ip, allowed, interval)
    requires allowed < UINT32_MAX && |at| == Max(1, allowed) + 1
    requires ip !in states[at[0]].entries && calls[at[|at| - 1]].now < LONG_WORD
    ensures forall i :: 0 <= i < |at| - 1 ==> Checked(states[at[i]], calls[at[i]]).1.allowed
    ensures Checked(states[at[|at| - 1]], calls[at[|at| - 1]]).1 == Verdict(false, true, 3_000, 1)
  {
    var last := |at| - 1;
    forall i | 0 <= i < last ensures Checked(states[at[i]], calls[at[i]]).1.allowed {
      BurstRises(states, calls, at, ip, allowed, interval, i);
      BurstCounts(states, calls, at, ip, allowed, interval, i);
    }
    BurstRises(states, calls, at, ip, allowed, interval, last - 1);
    BurstCounts(states, calls, at, ip, allowed, interval, last - 1);
    assert Consecutive(states, calls, ip, at[last - 1], at[last - 1 + 1]);
    assert calls[at[last - 1 + 1]].now - calls[at[last - 1]].now <= 5_000;
    NextCall(states, calls, ip, at[last - 1], at[last], last);
  }

  lemma {:induction false} BurstRises(
      states: seq<State>, calls: seq<Call>, at: seq<nat>, ip: Ip, allowed: nat, interval: nat, i: nat)
    requires Run(states, calls) && Burst(states, calls, at, ip, allowed, interval) && i < |at|
    ensures calls[at[i]].now <= calls[at[|at| - 1]].now
    decreases |at| - i
  {
    if i < |at| - 1 {
      assert Consecutive(states, calls, ip, at[i], at[i + 1]);
      ClockRises(states, calls, at[i], at[i + 1]);
      BurstRises(states, calls, at, ip, allowed, interval, i + 1);
    }
  }
}

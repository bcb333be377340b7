/**
 What each charm action answers and what it costs (src/bestiary_charm.cpp), in terms of the player's
 money, points and creatures before the call.
 */
module CharmAnswers {
  import opened Basics
  import opened Transactions
  import opened CharmLedger
  import opened CharmRuns

  // ---- Gold ----

  /** The player has `cost` in inventory and bank together, and paid it, inventory first. */
  ghost predicate Pays(w: World, r: World, cost: nat) {
    && w.inventory + w.bank >= cost
    && r.inventory == Max(0, w.inventory - cost) && r.bank == w.bank - Max(0, cost - w.inventory)
  }

  ghost predicate KeepsGold(w: World, r: World) { r.inventory == w.inventory && r.bank == w.bank }

  lemma HasGoldIff(w: World, amount: nat)
    ensures HasGold(w, amount) <==> w.inventory + w.bank >= amount
  {
  }

  /** Taking gold succeeds if there is enough and, where the inventory has a part in it, the removal does not fail. */
  lemma RemoveGoldExact(w: World, amount: nat, moneyOk: bool)
    ensures var (r, paid) := RemoveGold(w, amount, moneyOk);
            && (paid <==> w.inventory + w.bank >= amount && (amount == 0 || w.inventory == 0 || moneyOk))
            && (paid ==> Pays(w, r, amount)) && (!paid ==> KeepsGold(w, r))
            && r == w.(inventory := r.inventory, bank := r.bank)
  {
  }

  /** The price of a reset: 100,000, and above level 100 another 11,000 a level. */
  ghost predicate ResetPrice(level: nat, cost: nat) {
    && (level <= 100 ==> cost == 100_000)
    && (level > 100 ==> cost == 100_000 + 11_000 * level)
  }

  /** A reset that answers true has been paid for; otherwise no gold is gone, whatever else happened. */
  lemma ResetPays(w: World, e: Env, cost: nat)
    requires Enumerates(e.order, Load(w.rows, e.loadOk)) && ResetPrice(e.level, cost)
    ensures var (r, ok) := DoReset(w, e);
            && (ok ==> Pays(w, r, cost)) && (!ok ==> KeepsGold(w, r))
            && (ok <==> w.inventory + w.bank >= cost && Goes(e.attempts, 2) && (w.inventory == 0 || e.moneyOk))
  {
    HasGoldIff(w, cost);
    ResetResult(w, e);
    var w1 := w.(rows := InTransaction(w.rows, (s, o) => ResetBody(s, o), e.attempts).0,
                 points := (w.points + SpentOn(Load(w.rows, e.loadOk), Major)) % WORD);
    RemoveGoldExact(w1, cost, e.moneyOk);
  }

  lemma OneInARow(o: nat -> Outcome)
    ensures AllOk(o, 0, 1) <==> o(0).Ok?
    ensures StopsForRetry(o, 0, 1) <==> AsksRetry(o(0))
  {
    FirstStatement(o, 0, 1);
    NoStatement(o, 1);
  }

  lemma RemovalGoesIff(d: Rows, id: CharmId, attempts: nat -> Attempt)
    ensures InTransaction(d, (s, o) => RemoveBody(id, s, o), attempts).1 <==> Goes(attempts, 1)
  {
    var callback := (s, o) => RemoveBody(id, s, o);
    forall o {:trigger callback(Began(d), o)}
      ensures var (s, ok) := callback(Began(d), o);
              ok == AllOk(o, 0, 1) && s.committed == d && (!ok ==> (s.errno.LockError? <==> StopsForRetry(o, 0, 1)))
    {
      OneInARow(o);
    }
    GoesIff(d, callback, 1, attempts);
  }

  /** The charm, as it was read, has a creature. */
  predicate HasCreature(w: World, id: CharmId, e: Env) {
    var states := Load(w.rows, e.loadOk);
    id < CHARMS && id in states && states[id].tier > 0 && states[id].race > 0
  }

  /** The same for taking a creature off a charm, at 100 a level. */
  lemma RemovalPays(w: World, id: CharmId, e: Env)
    requires Enumerates(e.order, Load(w.rows, e.loadOk))
    ensures var (r, ok) := DoRemove(w, id, e);
            && (ok ==> Pays(w, r, 100 * e.level)) && (!ok ==> KeepsGold(w, r))
            && (ok <==> HasCreature(w, id, e) && w.inventory + w.bank >= 100 * e.level && Goes(e.attempts, 1) &&
                        (e.level == 0 || w.inventory == 0 || e.moneyOk))
  {
    HasGoldIff(w, e.level * 100);
    RemovalGoesIff(w.rows, id, e.attempts);
    RemoveGoldExact(w.(rows := InTransaction(w.rows, (s, o) => RemoveBody(id, s, o), e.attempts).0), e.level * 100,
                    e.moneyOk);
  }

  /** No other event takes gold. */
  lemma OthersKeepGold(w: World, ev: Event)
    requires Enabled(w, ev) && (ev.Do? ==> !ev.action.Reset? && !ev.action.Remove?)
    ensures KeepsGold(w, Next(w, ev))
  {
    if ev.Do? && ev.action.Upgrade? {
      UpgradeResult(w, ev.action.id, ev.env);
    }
  }

  /** A load reads every row, tiers above three as three; one that fails reads none, and echoes as zero. */
  lemma LoadReads(rows: Rows, ok: bool)
    ensures Load(rows, ok).Keys == (if ok then rows.charms.Keys else {})
    ensures forall id :: id in Load(rows, ok) ==>
              Load(rows, ok)[id] == State(Min(3, rows.charms[id].tier), rows.charms[id].race)
    ensures LoadEchoes(rows, ok) == if ok then (rows.echoes, rows.maxEchoes) else (0, 0)
  {
  }

  // ---- Prices and rewards ----

  /** The three tiers of a charm cost their three prices, one after the other, and add up. */
  lemma TierPrices(id: CharmId)
    requires id < CHARMS
    ensures var d := TABLE[id];
            && Price(id, 0) == d.first == SpentForTier(id, 1)
            && Price(id, 1) == d.second == SpentForTier(id, 2) - d.first
            && Price(id, 2) == d.third == SpentForTier(id, 3) - d.first - d.second
            && 0 < d.first < d.second < d.third && SpentForTier(id, 0) == 0
  {
    assert SpentForTier(id, 0) == 0;
    assert SpentForTier(id, 1) == TABLE[id].first;
    assert SpentForTier(id, 2) == TABLE[id].first + TABLE[id].second;
  }

  /** The tiers of a major charm bring 50, 100 and 200 echoes. */
  lemma TierRewards()
    ensures EchoReward(0) == 50 && EchoReward(1) == 100 && EchoReward(2) == 200
  {
  }

  /** Added echoes that were read and written raise balance and maximum by the amount, up to the largest word. */
  lemma EchoesRise(w: World, amount: nat, echoOk: bool, write: Outcome)
    requires amount <= UINT32_MAX && echoOk && write.Ok?
    ensures var r := EchoesAdded(w, amount, echoOk, write);
            && r.rows.charms == w.rows.charms
            && (w.rows.echoes <= UINT32_MAX ==> r.rows.echoes == Min(UINT32_MAX, w.rows.echoes + amount))
            && (w.rows.maxEchoes <= UINT32_MAX ==> r.rows.maxEchoes == Min(UINT32_MAX, w.rows.maxEchoes + amount))
  {
  }

  // ---- Assigning a creature ----

  /** The charms that have a creature. */
  ghost function InUse(states: States, n: nat): (ids: set<CharmId>) {
    set id: CharmId | id < n && id in states && states[id].tier > 0 && states[id].race > 0
  }

  lemma {:induction false} AssignedIsCard(states: States, n: nat)
    ensures AssignedBelow(states, n) == |InUse(states, n)|
  {
    if n > 0 {
      AssignedIsCard(states, n - 1);
      var before, after := InUse(states, n - 1), InUse(states, n);
      if Assigned(states, n - 1) {
        assert after == before + {n - 1};
      } else {
        assert after == before;
      }
    }
  }

  /** The charm has been unlocked, the creature is known well enough, and no charm of the category has it. */
  ghost predicate Fits(states: States, id: CharmId, race: nat, e: Env) {
    && id < CHARMS && id in states && states[id].tier > 0
    && e.registered && race != 0 && e.kills >= e.required
    && forall c :: c in states && c < CHARMS && c != id && states[c].tier > 0 && TABLE[c].category == TABLE[id].category
                   ==> states[c].race != race
  }

  /**
   An assignment answers true exactly if the creature fits, a charm that had none finds one of two slots,
   or six for premium players, and the write succeeds. Then this charm has the creature and nothing else
   changes; otherwise nothing changes.
   */
  lemma AssignExact(w: World, id: CharmId, race: nat, e: Env)
    ensures var (r, ok) := DoAssign(w, id, race, e);
            var states := Load(w.rows, e.loadOk);
            && (ok <==> Fits(states, id, race, e) && e.write.Ok? &&
                        (states[id].race > 0 || |InUse(states, CHARMS)| < if e.premium then 6 else 2))
            && (!ok ==> r == w)
            && (ok ==> id in w.rows.charms &&
                       r == w.(cache := None, rows := w.rows.(charms := w.rows.charms[
                                 id := State(w.rows.charms[id].tier, race)])))
  {
    AssignedIsCard(Load(w.rows, e.loadOk), CHARMS);
  }
}

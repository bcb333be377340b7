/**
 Bestiary charms of one player who is online (src/bestiary_charm.cpp): unlocking and upgrading for
 charm points or minor echoes, assigning creatures, removing them, and resetting everything.

 Charm rows and echoes are in the database; charm points and gold belong to the player object. A
 SELECT that fails reads as "no rows", as in the source. Points and echoes are 32-bit words.
 */
module CharmLedger {
  import opened Basics
  import opened Transactions

  // ---- Definitions ----

  datatype Category = Major | Minor
  datatype Definition = Definition(category: Category, first: nat, second: nat, third: nat)

  type CharmId = nat

  /** Category and prices of charms 0 to 24. */
  const TABLE: seq<Definition> := [
    Definition(Major, 240, 360, 1200), Definition(Major, 400, 600, 2000), Definition(Major, 240, 360, 1200),
    Definition(Major, 320, 480, 1600), Definition(Major, 320, 480, 1600), Definition(Major, 360, 540, 1800),
    Definition(Minor, 100, 150, 225), Definition(Major, 400, 600, 2000), Definition(Major, 240, 360, 1200),
    Definition(Minor, 100, 150, 225), Definition(Minor, 100, 150, 225), Definition(Minor, 100, 150, 225),
    Definition(Minor, 100, 150, 225), Definition(Minor, 100, 150, 225), Definition(Minor, 100, 150, 225),
    Definition(Major, 800, 1200, 4000), Definition(Major, 600, 900, 3000), Definition(Minor, 100, 150, 225),
    Definition(Minor, 100, 150, 225), Definition(Major, 800, 1200, 4000), Definition(Minor, 100, 150, 225),
    Definition(Minor, 100, 150, 225), Definition(Major, 600, 900, 3000), Definition(Major, 600, 900, 3000),
    Definition(Major, 600, 900, 3000)]

  const CHARMS: nat := |TABLE|

  function DefinitionOf(id: CharmId): (d: Definition)
    requires id < CHARMS
  {
    TABLE[id]
  }

  /** No tier is free. */
  lemma PricesPositive(id: CharmId)
    requires id < CHARMS
    ensures DefinitionOf(id).first > 0 && DefinitionOf(id).second > 0 && DefinitionOf(id).third > 0
  {
  }

  function CategoryOf(id: CharmId): (c: Category)
    requires id < CHARMS
  {
    DefinitionOf(id).category
  }

  /** The price of going from `tier` to the next one; nothing beyond the third. */
  function Price(id: CharmId, tier: nat): (p: nat)
    requires id < CHARMS
  {
    var d := DefinitionOf(id);
    if tier == 0 then d.first else if tier == 1 then d.second else if tier == 2 then d.third else 0
  }

  /** getSpentCharmPointsForTier: the prices of all tiers reached. */
  function SpentForTier(id: CharmId, tier: nat): (n: nat)
    requires id < CHARMS
  {
    if tier == 0 then 0 else if tier > 3 then SpentForTier(id, 3) else SpentForTier(id, tier - 1) + Price(id, tier - 1)
  }

  function EchoReward(tier: nat): (n: nat) { 25 * tier * tier + 25 * tier + 50 }

  // ---- State ----

  datatype State = State(tier: nat, race: nat)
  type States = map<CharmId, State>

  datatype Rows = Rows(charms: States, echoes: nat, maxEchoes: nat)

  datatype World = World(rows: Rows, points: nat, inventory: nat, bank: nat, cache: Option<States>)

  function TierOf(states: States, id: CharmId): (t: nat) { if id in states then states[id].tier else 0 }
  function RaceOf(states: States, id: CharmId): (r: nat) { if id in states then states[id].race else 0 }

  /** What the tiers reached by the charms of a category below n have cost. */
  function Spent(states: States, c: Category, n: nat): (total: nat)
    requires n <= CHARMS
  {
    if n == 0 then 0
    else Spent(states, c, n - 1) + if CategoryOf(n - 1) == c then SpentForTier(n - 1, TierOf(states, n - 1)) else 0
  }

  function SpentOn(states: States, c: Category): (total: nat) { Spent(states, c, CHARMS) }

  predicate Assigned(states: States, id: CharmId) { TierOf(states, id) > 0 && RaceOf(states, id) > 0 }

  function AssignedBelow(states: States, n: nat): (count: nat) {
    if n == 0 then 0 else AssignedBelow(states, n - 1) + if Assigned(states, n - 1) then 1 else 0
  }

  function AssignedCount(states: States): (count: nat) { AssignedBelow(states, CHARMS) }

  /** loadCharmStates: tiers above 3 read as 3, and a failed SELECT as no rows. */
  function Load(rows: Rows, ok: bool): (states: States) {
    if ok then map id | id in rows.charms ::
        State(if rows.charms[id].tier < 3 then rows.charms[id].tier else 3, rows.charms[id].race)
    else map[]
  }

  function LoadEchoes(rows: Rows, ok: bool): (e: (nat, nat)) { if ok then (rows.echoes, rows.maxEchoes) else (0, 0) }

  // ---- Gold ----

  predicate HasGold(w: World, amount: nat) { amount == 0 || w.inventory >= amount || w.bank >= amount - w.inventory }

  /** Inventory first, then the bank; taking inventory money can fail. */
  function RemoveGold(w: World, amount: nat, moneyOk: bool): (r: (World, bool)) {
    if amount == 0 then (w, true)
    else if !HasGold(w, amount) then (w, false)
    else
      var fromInventory := if w.inventory < amount then w.inventory else amount;
      if fromInventory > 0 && !moneyOk then (w, false)
      else (w.(inventory := w.inventory - fromInventory, bank := w.bank - (amount - fromInventory)), true)
  }

  // ---- Transaction bodies ----

  function UpgradeBody(id: CharmId, tier: nat, echoes: nat, maxEchoes: nat, s: Session<Rows>,
      o: nat -> Outcome): (r: (Session<Rows>, bool)) {
    var d := Current(s);
    var s0 := Write(s, o(0), d.(charms := d.charms[id := State(tier, RaceOf(d.charms, id))]));
    if !o(0).Ok? then (s0, false) else EchoBody(echoes, maxEchoes, s0, o(1))
  }

  function EchoBody(echoes: nat, maxEchoes: nat, s: Session<Rows>, o: Outcome): (r: (Session<Rows>, bool)) {
    (Write(s, o, Current(s).(echoes := echoes, maxEchoes := maxEchoes)), o.Ok?)
  }

  function Blank(states: States): (r: States) { map id | id in states :: State(0, 0) }

  function ResetBody(s: Session<Rows>, o: nat -> Outcome): (r: (Session<Rows>, bool)) {
    var s0 := Write(s, o(0), Current(s).(charms := Blank(Current(s).charms)));
    if !o(0).Ok? then (s0, false) else EchoBody(0, 0, s0, o(1))
  }

  function RemoveBody(id: CharmId, s: Session<Rows>, o: nat -> Outcome): (r: (Session<Rows>, bool)) {
    var d := Current(s);
    (Write(s, o(0), if id in d.charms then d.(charms := d.charms[id := d.charms[id].(race := 0)]) else d), o(0).Ok?)
  }

  /** writeCharmStates: delete all rows, then insert the given ones in the order of iteration. */
  function InsertRows(states: States, order: seq<CharmId>, s: Session<Rows>, o: nat -> Outcome,
      i: nat): (r: (Session<Rows>, bool))
    requires i <= |order| && forall id :: id in order ==> id in states
    decreases |order| - i
  {
    if i == |order| then (s, true)
    else
      var d := Current(s);
      var s1 := Write(s, o(i + 1), d.(charms := d.charms[order[i] := states[order[i]]]));
      if !o(i + 1).Ok? then (s1, false) else InsertRows(states, order, s1, o, i + 1)
  }

  function WriteStates(states: States, order: seq<CharmId>, s: Session<Rows>,
      o: nat -> Outcome): (r: (Session<Rows>, bool))
    requires forall id :: id in order ==> id in states
  {
    var s0 := Write(s, o(0), Current(s).(charms := map[]));
    if !o(0).Ok? then (s0, false) else InsertRows(states, order, s0, o, 0)
  }

  function RestoreBody(states: States, order: seq<CharmId>, echoes: Option<(nat, nat)>, s: Session<Rows>,
      o: nat -> Outcome):
    (r: (Session<Rows>, bool))
    requires forall id :: id in order ==> id in states
  {
    var (s1, ok) := WriteStates(states, order, s, o);
    if !ok || echoes.None? then (s1, ok) else EchoBody(echoes.value.0, echoes.value.1, s1, o(|order| + 1))
  }

  // ---- Actions ----

  datatype Action = Upgrade(id: CharmId) | Assign(id: CharmId, race: nat) | Remove(id: CharmId) | Reset

  /** Everything the outcome of an action depends on besides the player's own state. */
  datatype Env = Env(
    loadOk: bool, echoOk: bool, attempts: nat -> Attempt, restore: nat -> Attempt,
    order: seq<CharmId>, moneyOk: bool, write: Outcome, level: nat, premium: bool,
    registered: bool, kills: nat, required: nat)

  /** The iteration order lists every loaded row once. */
  ghost predicate Enumerates(order: seq<CharmId>, states: States) {
    (forall id :: id in order <==> id in states) && forall i, j :: 0 <= i < j < |order| ==> order[i] != order[j]
  }

  function Invalidated(w: World): (r: World) { w.(cache := None) }

  function UpgradeMajor(w: World, id: CharmId, tier: nat, reward: nat, echoes: nat, maxEchoes: nat,
      attempts: nat -> Attempt): (r: (World, bool))
    requires id < CHARMS
  {
    if w.points < Price(id, tier) then (w, false)
    else
      var (rows, ok) := InTransaction(w.rows,
        (s, o) => UpgradeBody(id, tier + 1, (echoes + reward) % WORD, (maxEchoes + reward) % WORD, s, o), attempts);
      if ok then (Invalidated(w.(rows := rows, points := w.points - Price(id, tier))), true)
          else (w.(rows := rows), false)
  }

  function UpgradeMinor(w: World, id: CharmId, tier: nat, echoes: nat, maxEchoes: nat,
      attempts: nat -> Attempt): (r: (World, bool))
    requires id < CHARMS
  {
    var price := Price(id, tier);
    if echoes < price then (w, false)
    else
      var (rows, ok) := InTransaction(w.rows, (s, o) => UpgradeBody(id, tier + 1, echoes - price, maxEchoes, s, o),
          attempts);
      if ok then (Invalidated(w.(rows := rows)), true) else (w.(rows := rows), false)
  }

  function DoUpgrade(w: World, id: CharmId, e: Env): (r: (World, bool)) {
    if id >= CHARMS then (w, false)
    else
      var tier := TierOf(Load(w.rows, e.loadOk), id);
      if tier >= 3 || Price(id, tier) == 0 then (w, false)
      else
        var (echoes, maxEchoes) := LoadEchoes(w.rows, e.echoOk);
        if CategoryOf(id).Major? then UpgradeMajor(w, id, tier, EchoReward(tier), echoes, maxEchoes, e.attempts)
        else UpgradeMinor(w, id, tier, echoes, maxEchoes, e.attempts)
  }

  function ResetCost(level: nat): (n: nat) { 100000 + if level > 100 then level * 11000 else 0 }

  function DoReset(w: World, e: Env): (r: (World, bool))
    requires forall id :: id in e.order ==> id in Load(w.rows, e.loadOk)
  {
    var states := Load(w.rows, e.loadOk);
    if !HasGold(w, ResetCost(e.level)) then (w, false)
    else
      var refund := SpentOn(states, Major);
      var echoes := LoadEchoes(w.rows, e.echoOk);
      var (rows, ok) := InTransaction(w.rows, (s, o) => ResetBody(s, o), e.attempts);
      if !ok then (w.(rows := rows), false)
      else
        var w1 := w.(rows := rows, points := (w.points + refund) % WORD);
        var (w2, paid) := RemoveGold(w1, ResetCost(e.level), e.moneyOk);
        if paid then (Invalidated(w2), true)
        else
          var (restoredRows, restored) := InTransaction(w2.rows,
              (s, o) => RestoreBody(states, e.order, Some(echoes), s, o), e.restore);
          var w3 := w2.(rows := restoredRows);
          (Invalidated(if restored then w3.(points := w.points) else w3), false)
  }

  function DoRemove(w: World, id: CharmId, e: Env): (r: (World, bool))
    requires forall c :: c in e.order ==> c in Load(w.rows, e.loadOk)
  {
    var states := Load(w.rows, e.loadOk);
    if id >= CHARMS || TierOf(states, id) == 0 || RaceOf(states, id) == 0 then (w, false)
    else if !HasGold(w, e.level * 100) then (w, false)
    else
      var (rows, ok) := InTransaction(w.rows, (s, o) => RemoveBody(id, s, o), e.attempts);
      if !ok then (w.(rows := rows), false)
      else
        var (w2, paid) := RemoveGold(w.(rows := rows), e.level * 100, e.moneyOk);
        if paid then (Invalidated(w2), true)
        else
          var (restoredRows, restored) := InTransaction(w2.rows, (s, o) => RestoreBody(states, e.order, None, s, o),
              e.restore);
          (Invalidated(w2.(rows := restoredRows)), false)
  }

  ghost predicate Conflict(states: States, id: CharmId, race: nat)
    requires id < CHARMS
  {
    exists c :: c in states && c != id && c < CHARMS && states[c].tier > 0 && states[c].race == race &&
        CategoryOf(c) == CategoryOf(id)
  }

  ghost function DoAssign(w: World, id: CharmId, race: nat, e: Env): (r: (World, bool)) {
    var states := Load(w.rows, e.loadOk);
    if id >= CHARMS || TierOf(states, id) == 0 then (w, false)
    else if !e.registered || race == 0 || e.kills < e.required then (w, false)
    else if RaceOf(states, id) == 0 && AssignedCount(states) >= (if e.premium then 6 else 2) then (w, false)
    else if Conflict(states, id, race) then (w, false)
    else if !e.write.Ok? then (w, false)
    else
      var d := w.rows;
      (Invalidated(w.(rows := if id in d.charms then d.(charms := d.charms[id := d.charms[id].(race := race)]) else d)),
          true)
  }

  ghost function Act(w: World, a: Action, e: Env): (r: (World, bool))
    requires Enumerates(e.order, Load(w.rows, e.loadOk))
  {
    match a
    case Upgrade(id) => DoUpgrade(w, id, e)
    case Assign(id, race) => DoAssign(w, id, race, e)
    case Remove(id) => DoRemove(w, id, e)
    case Reset => DoReset(w, e)
  }

  // ---- Invariant ----

  ghost predicate CharmsOk(states: States) {
    && (forall id :: id in states ==> states[id].tier <= 3 && (states[id].tier == 0 ==> states[id].race == 0))
    && AssignedCount(states) <= 6
    && forall a, b ::
         a in states && b in states && a < CHARMS && b < CHARMS && a != b && CategoryOf(a) == CategoryOf(b) ==>
         states[a].race == 0 || states[a].race != states[b].race
  }

  /** `total` is what the player ever had in charm points, spent or not. */
  ghost predicate PointsOk(w: World, total: nat) { w.points + SpentOn(w.rows.charms, Major) == total <= UINT32_MAX }

  ghost predicate EchoesOk(w: World) { w.rows.echoes + SpentOn(w.rows.charms, Minor) == w.rows.maxEchoes <= UINT32_MAX }

  ghost predicate CacheOk(w: World) { w.cache.Some? ==> w.cache.value == Load(w.rows, true) }

  ghost predicate Inv(w: World, total: nat) {
    CharmsOk(w.rows.charms) && PointsOk(w, total) && EchoesOk(w) && CacheOk(w)
  }

  lemma LoadExact(rows: Rows)
    requires CharmsOk(rows.charms)
    ensures Load(rows, true) == rows.charms
  {
  }

  // ---- What the sums do under one change ----

  lemma {:induction false} SpentUpdate(states: States, id: CharmId, s: State, c: Category, n: nat)
    requires n <= CHARMS && id < CHARMS
    ensures Spent(states[id := s], c, n) ==
            Spent(states, c, n) +
            if id < n && CategoryOf(id) == c then SpentForTier(id, s.tier) - SpentForTier(id, TierOf(states, id))
            else 0
  {
    if n > 0 {
      SpentUpdate(states, id, s, c, n - 1);
      TierUpdated(states, id, s, n - 1);
    }
  }

  lemma TierUpdated(states: States, id: CharmId, s: State, i: CharmId)
    ensures TierOf(states[id := s], i) == if i == id then s.tier else TierOf(states, i)
  {
  }

  lemma {:induction false} SpentSame(a: States, b: States, c: Category, n: nat)
    requires n <= CHARMS && forall id: nat :: id < n ==> TierOf(a, id) == TierOf(b, id)
    ensures Spent(a, c, n) == Spent(b, c, n)
  {
    if n > 0 {
      SpentSame(a, b, c, n - 1);
    }
  }

  lemma {:induction false} SpentBlank(states: States, c: Category, n: nat)
    requires n <= CHARMS
    ensures Spent(Blank(states), c, n) == 0
  {
    if n > 0 {
      SpentBlank(states, c, n - 1);
    }
  }

  lemma {:induction false} AssignedUpdate(states: States, id: CharmId, s: State, n: nat)
    ensures AssignedBelow(states[id := s], n) ==
            AssignedBelow(states, n) + (if id < n && s.tier > 0 && s.race > 0 then 1 else 0)
            - (if id < n && Assigned(states, id) then 1 else 0)
  {
    if n > 0 {
      AssignedUpdate(states, id, s, n - 1);
    }
  }

  lemma {:induction false} AssignedBlank(states: States, n: nat)
    ensures AssignedBelow(Blank(states), n) == 0
  {
    if n > 0 {
      AssignedBlank(states, n - 1);
    }
  }

  // ---- Transactions are all or nothing ----

  lemma UpgradeExact(d: Rows, id: CharmId, tier: nat, echoes: nat, maxEchoes: nat, attempts: nat -> Attempt)
    ensures var (r, ok) := InTransaction(d, (s, o) => UpgradeBody(id, tier, echoes, maxEchoes, s, o), attempts);
            r == if ok then Rows(d.charms[id := State(tier, RaceOf(d.charms, id))], echoes, maxEchoes) else d
  {
    var callback := (s, o) => UpgradeBody(id, tier, echoes, maxEchoes, s, o);
    assert Contained(d, callback, attempts);
    AllOrNothing(d, callback, attempts, 1);
    var (r, ok) := InTransaction(d, callback, attempts);
    if ok {
      var k :| AppliedBy(d, callback, attempts, r, k);
    }
  }

  lemma ResetTxExact(d: Rows, attempts: nat -> Attempt)
    ensures var (r, ok) := InTransaction(d, (s, o) => ResetBody(s, o), attempts);
            r == if ok then Rows(Blank(d.charms), 0, 0) else d
  {
    var callback := (s, o) => ResetBody(s, o);
    assert Contained(d, callback, attempts);
    AllOrNothing(d, callback, attempts, 1);
    var (r, ok) := InTransaction(d, callback, attempts);
    if ok {
      var k :| AppliedBy(d, callback, attempts, r, k);
    }
  }

  lemma RemoveTxExact(d: Rows, id: CharmId, attempts: nat -> Attempt)
    ensures var (r, ok) := InTransaction(d, (s, o) => RemoveBody(id, s, o), attempts);
            r == if ok && id in d.charms then d.(charms := d.charms[id := d.charms[id].(race := 0)]) else d
  {
    var callback := (s, o) => RemoveBody(id, s, o);
    assert Contained(d, callback, attempts);
    AllOrNothing(d, callback, attempts, 1);
    var (r, ok) := InTransaction(d, callback, attempts);
    if ok {
      var k :| AppliedBy(d, callback, attempts, r, k);
    }
  }

  function RowsFrom(states: States, order: seq<CharmId>, i: nat): (r: States)
    requires i <= |order| && forall id :: id in order ==> id in states
  {
    map id | id in order[i..] :: states[id]
  }

  lemma {:induction false} InsertRowsExact(states: States, order: seq<CharmId>, s: Session<Rows>, o: nat -> Outcome,
      i: nat)
    requires i <= |order| && (forall id :: id in order ==> id in states) && s.open.Some?
    ensures var (r, ok) := InsertRows(states, order, s, o, i);
            && r.committed == s.committed && (ok ==> r.open.Some?)
            && (ok ==> Current(r) == Current(s).(charms := Current(s).charms + RowsFrom(states, order, i)))
    decreases |order| - i
  {
    if i < |order| {
      var d := Current(s);
      var s1 := Write(s, o(i + 1), d.(charms := d.charms[order[i] := states[order[i]]]));
      assert order[i..] == [order[i]] + order[i + 1..];
      if o(i + 1).Ok? {
        InsertRowsExact(states, order, s1, o, i + 1);
        assert d.charms[order[i] := states[order[i]]] + RowsFrom(states, order, i + 1)
            == d.charms + RowsFrom(states, order, i);
      }
    } else {
      assert RowsFrom(states, order, i) == map[];
      assert Current(s).charms + map[] == Current(s).charms;
    }
  }

  lemma RestoreBodyExact(d: Rows, states: States, order: seq<CharmId>, echoes: Option<(nat, nat)>, o: nat -> Outcome)
    requires Enumerates(order, states)
    ensures var (s, ok) := RestoreBody(states, order, echoes, Began(d), o);
            && s.committed == d
            && (ok ==> Current(s) == if echoes.Some? then Rows(states, echoes.value.0, echoes.value.1)
                else d.(charms := states))
  {
    var s0 := Write(Began(d), o(0), d.(charms := map[]));
    if o(0).Ok? {
      InsertRowsExact(states, order, s0, o, 0);
      assert order[0..] == order;
      assert map[] + RowsFrom(states, order, 0) == states;
    }
  }

  /** The rows after a restore are the rows given, or nothing has changed. */
  lemma RestoreExact(d: Rows, states: States, order: seq<CharmId>, echoes: Option<(nat, nat)>, attempts: nat -> Attempt)
    requires Enumerates(order, states)
    ensures var (r, ok) := InTransaction(d, (s, o) => RestoreBody(states, order, echoes, s, o), attempts);
            r == if !ok then d
                 else if echoes.Some? then Rows(states, echoes.value.0, echoes.value.1)
                 else d.(charms := states)
  {
    var callback := (s, o) => RestoreBody(states, order, echoes, s, o);
    forall k {:trigger attempts(k)} | 1 <= k <= TRANSACTION_MAX_ATTEMPTS
      ensures callback(Began(d), attempts(k).outcomes).0.committed == d
    {
      RestoreBodyExact(d, states, order, echoes, attempts(k).outcomes);
    }
    AllOrNothing(d, callback, attempts, 1);
    var (r, ok) := InTransaction(d, callback, attempts);
    if ok {
      var k :| AppliedBy(d, callback, attempts, r, k);
      RestoreBodyExact(d, states, order, echoes, attempts(k).outcomes);
    }
  }

  // ---- When the transactions go through ----

  lemma TwoInARow(o: nat -> Outcome)
    ensures AllOk(o, 0, 2) <==> o(0).Ok? && o(1).Ok?
    ensures StopsForRetry(o, 0, 2) <==> AsksRetry(o(0)) || (o(0).Ok? && AsksRetry(o(1)))
  {
    FirstStatement(o, 0, 2);
    FirstStatement(o, 1, 2);
    NoStatement(o, 2);
  }

  lemma UpgradeGoesIff(d: Rows, id: CharmId, tier: nat, echoes: nat, maxEchoes: nat, attempts: nat -> Attempt)
    ensures InTransaction(d, (s, o) => UpgradeBody(id, tier, echoes, maxEchoes, s, o), attempts).1 <==>
            Goes(attempts, 2)
  {
    var callback := (s, o) => UpgradeBody(id, tier, echoes, maxEchoes, s, o);
    forall o {:trigger callback(Began(d), o)}
      ensures var (s, ok) := callback(Began(d), o);
              ok == AllOk(o, 0, 2) && s.committed == d && (!ok ==> (s.errno.LockError? <==> StopsForRetry(o, 0, 2)))
    {
      TwoInARow(o);
    }
    GoesIff(d, callback, 2, attempts);
  }

  lemma ResetGoesIff(d: Rows, attempts: nat -> Attempt)
    ensures InTransaction(d, (s, o) => ResetBody(s, o), attempts).1 <==> Goes(attempts, 2)
  {
    var callback := (s, o) => ResetBody(s, o);
    forall o {:trigger callback(Began(d), o)}
      ensures var (s, ok) := callback(Began(d), o);
              ok == AllOk(o, 0, 2) && s.committed == d && (!ok ==> (s.errno.LockError? <==> StopsForRetry(o, 0, 2)))
    {
      TwoInARow(o);
    }
    GoesIff(d, callback, 2, attempts);
  }

  /** The insertions, and the echoes behind them, are statements i + 1 to |order| + 1. */
  lemma {:induction false} InsertsInARow(
      states: States, order: seq<CharmId>, echoes: (nat, nat), s: Session<Rows>, o: nat -> Outcome, i: nat)
    requires i <= |order| && (forall id :: id in order ==> id in states) && s.open.Some?
    ensures var (s1, ok1) := InsertRows(states, order, s, o, i);
            var (r, ok) := if ok1 then EchoBody(echoes.0, echoes.1, s1, o(|order| + 1)) else (s1, false);
            && ok == AllOk(o, i + 1, |order| + 2)
            && r.committed == s.committed && (!ok ==> (r.errno.LockError? <==> StopsForRetry(o, i + 1, |order| + 2)))
    decreases |order| - i
  {
    FirstStatement(o, i + 1, |order| + 2);
    if i == |order| {
      NoStatement(o, |order| + 2);
    } else if o(i + 1).Ok? {
      var d := Current(s);
      InsertsInARow(states, order, echoes, Write(s, o(i + 1), d.(charms := d.charms[order[i] := states[order[i]]])), o,
          i + 1);
    }
  }

  lemma RestoreInARow(d: Rows, states: States, order: seq<CharmId>, echoes: (nat, nat), o: nat -> Outcome)
    requires forall id :: id in order ==> id in states
    ensures var (s, ok) := RestoreBody(states, order, Some(echoes), Began(d), o);
            && ok == AllOk(o, 0, |order| + 2) && s.committed == d
            && (!ok ==> (s.errno.LockError? <==> StopsForRetry(o, 0, |order| + 2)))
  {
    FirstStatement(o, 0, |order| + 2);
    if o(0).Ok? {
      InsertsInARow(states, order, echoes, Write(Began(d), o(0), d.(charms := map[])), o, 0);
    }
  }

  lemma RestoreGoesIff(d: Rows, states: States, order: seq<CharmId>, echoes: (nat, nat), attempts: nat -> Attempt)
    requires forall id :: id in order ==> id in states
    ensures InTransaction(d, (s, o) => RestoreBody(states, order, Some(echoes), s, o), attempts).1 <==>
            Goes(attempts, |order| + 2)
  {
    var callback := (s, o) => RestoreBody(states, order, Some(echoes), s, o);
    forall o {:trigger callback(Began(d), o)}
      ensures var (s, ok) := callback(Began(d), o);
              && ok == AllOk(o, 0, |order| + 2) && s.committed == d
              && (!ok ==> (s.errno.LockError? <==> StopsForRetry(o, 0, |order| + 2)))
    {
      RestoreInARow(d, states, order, echoes, o);
    }
    GoesIff(d, callback, |order| + 2, attempts);
  }

  // ---- What the actions come to ----

  /** The world after a major upgrade from `tier`, with the echoes read before. */
  function MajorUp(w: World, id: CharmId, tier: nat, reward: nat, echoes: nat, maxEchoes: nat): (r: World)
    requires id < CHARMS && Price(id, tier) <= w.points
  {
    World(Rows(w.rows.charms[id := State(tier + 1, RaceOf(w.rows.charms, id))],
               (echoes + reward) % WORD, (maxEchoes + reward) % WORD),
          w.points - Price(id, tier), w.inventory, w.bank, None)
  }

  function MinorUp(w: World, id: CharmId, tier: nat, echoes: nat, maxEchoes: nat): (r: World)
    requires id < CHARMS && Price(id, tier) <= echoes
  {
    World(Rows(w.rows.charms[id := State(tier + 1, RaceOf(w.rows.charms, id))], echoes - Price(id, tier), maxEchoes),
          w.points, w.inventory, w.bank, None)
  }

  lemma MajorResult(w: World, id: CharmId, tier: nat, reward: nat, echoes: nat, maxEchoes: nat,
      attempts: nat -> Attempt)
    requires id < CHARMS
    ensures var (r, ok) := UpgradeMajor(w, id, tier, reward, echoes, maxEchoes, attempts);
            if ok then Price(id, tier) <= w.points && r == MajorUp(w, id, tier, reward, echoes, maxEchoes) else r == w
  {
    UpgradeExact(w.rows, id, tier + 1, (echoes + reward) % WORD, (maxEchoes + reward) % WORD, attempts);
  }

  lemma MinorResult(w: World, id: CharmId, tier: nat, echoes: nat, maxEchoes: nat, attempts: nat -> Attempt)
    requires id < CHARMS
    ensures var (r, ok) := UpgradeMinor(w, id, tier, echoes, maxEchoes, attempts);
            if ok then Price(id, tier) <= echoes && r == MinorUp(w, id, tier, echoes, maxEchoes) else r == w
  {
    if echoes >= Price(id, tier) {
      UpgradeExact(w.rows, id, tier + 1, echoes - Price(id, tier), maxEchoes, attempts);
    }
  }

  /** An upgrade changes everything or nothing. */
  lemma UpgradeResult(w: World, id: CharmId, e: Env)
    ensures var (r, ok) := DoUpgrade(w, id, e);
            var tier := TierOf(Load(w.rows, e.loadOk), id);
            var (echoes, maxEchoes) := LoadEchoes(w.rows, e.echoOk);
            && (!ok ==> r == w)
            && (ok ==> id < CHARMS && tier < 3)
            && (ok && CategoryOf(id).Major? ==>
                  Price(id, tier) <= w.points && r == MajorUp(w, id, tier, EchoReward(tier), echoes, maxEchoes))
            && (ok && CategoryOf(id).Minor? ==>
                Price(id, tier) <= echoes && r == MinorUp(w, id, tier, echoes, maxEchoes))
  {
    var tier := TierOf(Load(w.rows, e.loadOk), id);
    if id < CHARMS && tier < 3 {
      var (echoes, maxEchoes) := LoadEchoes(w.rows, e.echoOk);
      MajorResult(w, id, tier, EchoReward(tier), echoes, maxEchoes, e.attempts);
      MinorResult(w, id, tier, echoes, maxEchoes, e.attempts);
    }
  }

  /** The tier is not the last, its price is at hand as far as it was read, and the two statements go through. */
  ghost predicate Upgrades(w: World, id: CharmId, e: Env) {
    id < CHARMS &&
    var tier := TierOf(Load(w.rows, e.loadOk), id);
    && tier < 3 && Goes(e.attempts, 2)
    && Price(id, tier) <= if CategoryOf(id).Major? then w.points else LoadEchoes(w.rows, e.echoOk).0
  }

  lemma MajorGoes(w: World, id: CharmId, tier: nat, reward: nat, echoes: nat, maxEchoes: nat, attempts: nat -> Attempt)
    requires id < CHARMS
    ensures UpgradeMajor(w, id, tier, reward, echoes, maxEchoes, attempts).1 <==>
            Price(id, tier) <= w.points && Goes(attempts, 2)
  {
    UpgradeGoesIff(w.rows, id, tier + 1, (echoes + reward) % WORD, (maxEchoes + reward) % WORD, attempts);
  }

  lemma MinorGoes(w: World, id: CharmId, tier: nat, echoes: nat, maxEchoes: nat, attempts: nat -> Attempt)
    requires id < CHARMS
    ensures UpgradeMinor(w, id, tier, echoes, maxEchoes, attempts).1 <==> Price(id, tier) <= echoes && Goes(attempts, 2)
  {
    if Price(id, tier) <= echoes {
      UpgradeGoesIff(w.rows, id, tier + 1, echoes - Price(id, tier), maxEchoes, attempts);
    }
  }

  lemma UpgradesIff(w: World, id: CharmId, e: Env)
    ensures DoUpgrade(w, id, e).1 <==> Upgrades(w, id, e)
  {
    var tier := TierOf(Load(w.rows, e.loadOk), id);
    var (echoes, maxEchoes) := LoadEchoes(w.rows, e.echoOk);
    if id < CHARMS && tier < 3 {
      PricesPositive(id);
      MajorGoes(w, id, tier, EchoReward(tier), echoes, maxEchoes, e.attempts);
      MinorGoes(w, id, tier, echoes, maxEchoes, e.attempts);
    }
  }

  /** An affordable upgrade that meets no failure goes through. */
  lemma UpgradeSucceeds(w: World, id: CharmId, e: Env)
    requires id < CHARMS && TierOf(Load(w.rows, e.loadOk), id) < 3
    requires Price(id, TierOf(Load(w.rows, e.loadOk), id)) <=
             if CategoryOf(id).Major? then w.points else LoadEchoes(w.rows, e.echoOk).0
    requires e.attempts(1).begin && e.attempts(1).commit.Ok? && forall i: nat :: e.attempts(1).outcomes(i).Ok?
    ensures DoUpgrade(w, id, e).1
  {
    PricesPositive(id);
  }

  /** Writing tier + 1 on the strength of what was read: the sums change by what that tier costs, less what was paid. */
  lemma TierWritten(states: States, id: CharmId, tier: nat)
    requires CharmsOk(states) && id < CHARMS && tier < 3
    ensures var n := states[id := State(tier + 1, RaceOf(states, id))];
            && CharmsOk(n)
            && SpentOn(n, CategoryOf(id)) == SpentOn(states, CategoryOf(id)) + SpentForTier(id, tier) + Price(id, tier)
                                             - SpentForTier(id, TierOf(states, id))
            && (forall c :: c != CategoryOf(id) ==> SpentOn(n, c) == SpentOn(states, c))
  {
    var s := State(tier + 1, RaceOf(states, id));
    AssignedUpdate(states, id, s, CHARMS);
    SpentUpdate(states, id, s, Major, CHARMS);
    SpentUpdate(states, id, s, Minor, CHARMS);
  }

  lemma SpentPositive(id: CharmId, t: nat)
    requires id < CHARMS
    ensures SpentForTier(id, t) == 0 <==> t == 0
  {
    PricesPositive(id);
    assert SpentForTier(id, 0) == 0;
  }

  lemma BlankOk(states: States)
    ensures CharmsOk(Blank(states)) && SpentOn(Blank(states), Major) == 0 && SpentOn(Blank(states), Minor) == 0
  {
    SpentBlank(states, Major, CHARMS);
    SpentBlank(states, Minor, CHARMS);
    AssignedBlank(states, CHARMS);
  }

  /** The charge goes through: there is gold, and taking what the inventory holds does not fail. */
  predicate Charged(w: World, amount: nat, moneyOk: bool) {
    amount == 0 || (HasGold(w, amount) && (w.inventory == 0 || moneyOk))
  }

  /** A reset wipes the rows. */
  ghost predicate ResetGoes(w: World, e: Env) { HasGold(w, ResetCost(e.level)) && Goes(e.attempts, 2) }

  /** The charge fails and the restore goes through. */
  ghost predicate ResetUndone(w: World, e: Env) {
    ResetGoes(w, e) && !Charged(w, ResetCost(e.level), e.moneyOk) && Goes(e.restore, |e.order| + 2)
  }

  ghost predicate ResetLeaves(w: World, e: Env, r: World) {
    var states := Load(w.rows, e.loadOk);
    var echoes := LoadEchoes(w.rows, e.echoOk);
    if !ResetGoes(w, e) then r == w
    else if ResetUndone(w, e) then r.rows == Rows(states, echoes.0, echoes.1) && r.points == w.points && r.cache.None?
    else
      && r.rows == Rows(Blank(w.rows.charms), 0, 0) && r.points == (w.points + SpentOn(states, Major)) % WORD
      && r.cache.None?
  }

  /**
   A reset does nothing, or wipes the rows and refunds what was read as spent, or puts back the rows as
   they were read.
   */
  lemma ResetResult(w: World, e: Env)
    requires Enumerates(e.order, Load(w.rows, e.loadOk))
    ensures DoReset(w, e).1 <==> ResetGoes(w, e) && Charged(w, ResetCost(e.level), e.moneyOk)
    ensures ResetLeaves(w, e, DoReset(w, e).0)
  {
    var blank := Rows(Blank(w.rows.charms), 0, 0);
    ResetTxExact(w.rows, e.attempts);
    ResetGoesIff(w.rows, e.attempts);
    RestoreGoesIff(blank, Load(w.rows, e.loadOk), e.order, LoadEchoes(w.rows, e.echoOk), e.restore);
    RestoreExact(blank, Load(w.rows, e.loadOk), e.order, Some(LoadEchoes(w.rows, e.echoOk)), e.restore);
  }

  lemma RaceKeeps(states: States, id: CharmId, race: nat)
    requires CharmsOk(states) && id in states && id < CHARMS && states[id].tier > 0
    requires race == 0 || (!Conflict(states, id, race) && (states[id].race == 0 ==> AssignedCount(states) < 6))
    ensures var n := states[id := states[id].(race := race)];
            CharmsOk(n) && SpentOn(n, Major) == SpentOn(states, Major) && SpentOn(n, Minor) == SpentOn(states, Minor)
  {
    var n := states[id := states[id].(race := race)];
    AssignedUpdate(states, id, states[id].(race := race), CHARMS);
    SpentSame(n, states, Major, CHARMS);
    SpentSame(n, states, Minor, CHARMS);
    if race != 0 {
      forall a, b | a in n && b in n && a < CHARMS && b < CHARMS && a != b && CategoryOf(a) == CategoryOf(b)
        ensures n[a].race == 0 || n[a].race != n[b].race
      {
        assert (a in states && states[a].race != 0 ==> states[a].tier > 0) &&
               (b in states && states[b].race != 0 ==> states[b].tier > 0);
      }
    }
  }

  function RaceCleared(rows: Rows, id: CharmId): (r: Rows)
    requires id in rows.charms
  {
    rows.(charms := rows.charms[id := rows.charms[id].(race := 0)])
  }

  /** A removal clears one creature or, failed or restored, leaves the rows as they were; points are not involved. */
  lemma RemoveResult(w: World, id: CharmId, e: Env)
    requires CharmsOk(w.rows.charms) && e.loadOk && Enumerates(e.order, Load(w.rows, true))
    ensures var (r, ok) := DoRemove(w, id, e);
            && r.points == w.points && (r.cache.None? || (r.cache == w.cache && r.rows == w.rows))
            && (r.rows == w.rows || (id in w.rows.charms && id < CHARMS && w.rows.charms[id].tier > 0 &&
                r.rows == RaceCleared(w.rows, id)))
            && (ok ==> r.rows != w.rows)
  {
    LoadExact(w.rows);
    if id < CHARMS && TierOf(w.rows.charms, id) > 0 && RaceOf(w.rows.charms, id) > 0 {
      RemoveTxExact(w.rows, id, e.attempts);
      RestoreExact(RaceCleared(w.rows, id), w.rows.charms, e.order, None, e.restore);
      assert w.rows != RaceCleared(w.rows, id) by { assert RaceCleared(w.rows, id).charms[id].race == 0; }
    }
  }

  // ---- The sum over the loaded rows ----

  /** getSpentMajorCharmPoints iterates the rows in any order. */
  method SpentMajorCharmPoints(states: States) returns (spent: nat)
    ensures spent == SpentOn(states, Major)
  {
    spent := 0;
    var rest := states;
    ghost var done: States := map[];
    SpentSame(done, map[], Major, CHARMS);
    while rest != map[]
      invariant rest.Keys <= states.Keys && forall id :: id in rest ==> rest[id] == states[id]
      invariant spent + SpentOn(rest, Major) == SpentOn(states, Major)
      decreases |rest|
    {
      var id := SomeKey(rest);
      SpentWithout(rest, id, Major);
      if id < CHARMS && CategoryOf(id).Major? && rest[id].tier != 0 {
        spent := spent + SpentForTier(id, rest[id].tier);
      }
      assert (rest - {id}).Keys == rest.Keys - {id};
      rest := rest - {id};
    }
    SpentNone(Major, CHARMS);
  }

  method SomeKey(states: States) returns (id: CharmId)
    requires states != map[]
    ensures id in states
  {
    assert |states.Keys| == |states|;
    EmptyOrNot(states.Keys);
    id :| id in states.Keys;
  }

  lemma {:induction false} SpentNone(c: Category, n: nat)
    requires n <= CHARMS
    ensures Spent(map[], c, n) == 0
  {
    if n > 0 {
      SpentNone(c, n - 1);
    }
  }

  lemma SpentWithout(states: States, id: CharmId, c: Category)
    requires id in states
    ensures SpentOn(states, c) ==
            SpentOn(states - {id}, c) +
            if id < CHARMS && CategoryOf(id) == c then SpentForTier(id, states[id].tier) else 0
  {
    var rest := states - {id};
    if id < CHARMS {
      SpentUpdate(rest, id, states[id], c, CHARMS);
      assert rest[id := states[id]] == states;
    } else {
      SpentSame(states, rest, c, CHARMS);
    }
  }
}

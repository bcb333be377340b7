/**
 Whole histories of a player's charms (src/bestiary_charm.cpp), with every failure: exactly which
 events keep points, echoes and cache right, and calls that lose what was spent.
 */
module CharmRuns {
  import opened Basics
  import opened Transactions
  import opened CharmLedger

  datatype Event = Do(action: Action, env: Env) | FillCache(loadOk: bool)
      | AddEchoes(amount: nat, echoOk: bool, write: Outcome)

  /** getCachedCharmStates, and addMinorCharmEchoes with its saturating sums. */
  function Filled(w: World, loadOk: bool): (r: World) {
    if w.cache.Some? then w else w.(cache := Some(Load(w.rows, loadOk)))
  }

  function Saturated(x: nat, amount: nat): (r: nat) { if x > UINT32_MAX - amount then UINT32_MAX else x + amount }

  function EchoesAdded(w: World, amount: nat, echoOk: bool, write: Outcome): (r: World) {
    var (echoes, maxEchoes) := LoadEchoes(w.rows, echoOk);
    if write.Ok? && amount <= UINT32_MAX
        then w.(rows := w.rows.(echoes := Saturated(echoes, amount), maxEchoes := Saturated(maxEchoes, amount))) else w
  }

  /** The rows a load reads are iterated once each. */
  ghost predicate Enabled(w: World, ev: Event) {
    ev.Do? ==> Enumerates(ev.env.order, Load(w.rows, ev.env.loadOk))
  }

  ghost function Next(w: World, ev: Event): (r: World)
    requires Enabled(w, ev)
  {
    match ev
    case Do(action, env) => Act(w, action, env).0
    case FillCache(loadOk) => Filled(w, loadOk)
    case AddEchoes(amount, echoOk, write) => EchoesAdded(w, amount, echoOk, write)
  }

  // ---- Which events keep what ----

  /** Points: a load that fails must not hide what a major charm, or for a reset all of them, had cost. */
  ghost predicate KeepsPoints(w: World, ev: Event) {
    match ev
    case Do(Upgrade(id), e) =>
      Upgrades(w, id, e) && CategoryOf(id).Major? ==> e.loadOk || TierOf(w.rows.charms, id) == 0
    case Do(Reset, e) => ResetGoes(w, e) ==> e.loadOk || SpentOn(w.rows.charms, Major) == 0
    case _ => true
  }

  /**
   Echoes: balance and maximum must have been read, or no minor charm bought; they must overflow
   together or not at all; and a failed load must not hide what the minor charms had cost.
   */
  ghost predicate KeepsEchoes(w: World, ev: Event)
    requires Enabled(w, ev)
  {
    var minors := SpentOn(w.rows.charms, Minor);
    match ev
    case Do(Upgrade(id), e) =>
      Upgrades(w, id, e) ==>
        if CategoryOf(id).Minor? then e.loadOk || TierOf(w.rows.charms, id) == 0
        else if e.echoOk then
          var reward := EchoReward(TierOf(Load(w.rows, e.loadOk), id));
          w.rows.echoes + reward < WORD <==> w.rows.maxEchoes + reward < WORD
        else minors == 0
    case Do(Reset, e) => ResetUndone(w, e) ==> minors == 0 || (e.loadOk && e.echoOk) || (!e.loadOk && !e.echoOk)
    case AddEchoes(amount, echoOk, write) =>
      write.Ok? && amount <= UINT32_MAX ==> minors == 0 || (echoOk && w.rows.maxEchoes + amount < WORD)
    case _ => true
  }

  ghost predicate KeepsCache(w: World, ev: Event) {
    ev.FillCache? ==> w.cache.Some? || ev.loadOk || w.rows.charms == map[]
  }

  ghost predicate Harmless(w: World, ev: Event)
    requires Enabled(w, ev)
  {
    KeepsPoints(w, ev) && KeepsEchoes(w, ev) && KeepsCache(w, ev)
  }

  // ---- Upgrades ----

  lemma TierRead(w: World, id: CharmId, loadOk: bool)
    requires CharmsOk(w.rows.charms)
    ensures TierOf(Load(w.rows, loadOk), id) == if loadOk then TierOf(w.rows.charms, id) else 0
  {
    LoadExact(w.rows);
  }

  /** Two sums that differ by what was spent still do after both took a reward, if both wrapped or neither. */
  lemma WrapTogether(echoes: nat, spent: nat, reward: nat)
    requires echoes + spent < WORD && reward < WORD
    ensures (echoes + reward) % WORD + spent == (echoes + spent + reward) % WORD <==>
            (echoes + reward < WORD <==> echoes + spent + reward < WORD)
  {
  }

  /** A major upgrade from the tier that was read: points stay right exactly when that is the tier it has. */
  lemma MajorUpPoints(w: World, id: CharmId, tier: nat, reward: nat, echoes: nat, maxEchoes: nat, total: nat)
    requires CharmsOk(w.rows.charms) && PointsOk(w, total) && id < CHARMS && CategoryOf(id).Major?
    requires tier < 3 && (tier == TierOf(w.rows.charms, id) || tier == 0) && Price(id, tier) <= w.points
    ensures var r := MajorUp(w, id, tier, reward, echoes, maxEchoes);
            && CharmsOk(r.rows.charms) && (PointsOk(r, total) <==> tier == TierOf(w.rows.charms, id))
            && SpentOn(r.rows.charms, Minor) == SpentOn(w.rows.charms, Minor)
  {
    TierWritten(w.rows.charms, id, tier);
    SpentPositive(id, TierOf(w.rows.charms, id));
    assert SpentForTier(id, 0) == 0;
  }

  /** Its echoes, as far as the balance was read. */
  lemma MajorUpEchoes(w: World, id: CharmId, tier: nat, echoOk: bool, total: nat, r: World)
    requires EchoesOk(w) && tier < 3 && id < CHARMS && Price(id, tier) <= w.points
    requires SpentOn(r.rows.charms, Minor) == SpentOn(w.rows.charms, Minor)
    requires r == MajorUp(w, id, tier, EchoReward(tier), LoadEchoes(w.rows, echoOk).0, LoadEchoes(w.rows, echoOk).1)
    ensures EchoesOk(r) <==>
            if echoOk then w.rows.echoes + EchoReward(tier) < WORD <==> w.rows.maxEchoes + EchoReward(tier) < WORD
            else SpentOn(w.rows.charms, Minor) == 0
  {
    RewardFits(tier);
    WrapTogether(w.rows.echoes, SpentOn(w.rows.charms, Minor), EchoReward(tier));
  }

  lemma MajorUpIff(w: World, id: CharmId, e: Env, total: nat)
    requires Inv(w, total) && Upgrades(w, id, e) && DoUpgrade(w, id, e).1 && CategoryOf(id).Major? &&
             Enabled(w, Do(Upgrade(id), e))
    ensures var r := DoUpgrade(w, id, e).0;
            && CharmsOk(r.rows.charms) && CacheOk(r)
            && (PointsOk(r, total) <==> KeepsPoints(w, Do(Upgrade(id), e)))
            && (EchoesOk(r) <==> KeepsEchoes(w, Do(Upgrade(id), e)))
  {
    var tier := TierOf(Load(w.rows, e.loadOk), id);
    var (echoes, maxEchoes) := LoadEchoes(w.rows, e.echoOk);
    UpgradeResult(w, id, e);
    TierRead(w, id, e.loadOk);
    MajorUpPoints(w, id, tier, EchoReward(tier), echoes, maxEchoes, total);
    MajorUpEchoes(w, id, tier, e.echoOk, total, DoUpgrade(w, id, e).0);
  }

  lemma RewardFits(tier: nat)
    requires tier < 3
    ensures EchoReward(tier) <= 200
  {
  }

  /** A minor upgrade, for which the balance must have been read. */
  lemma MinorUpEchoes(w: World, id: CharmId, tier: nat, total: nat)
    requires CharmsOk(w.rows.charms) && PointsOk(w, total) && EchoesOk(w) && id < CHARMS && CategoryOf(id).Minor?
    requires tier < 3 && (tier == TierOf(w.rows.charms, id) || tier == 0) && Price(id, tier) <= w.rows.echoes
    ensures var r := MinorUp(w, id, tier, w.rows.echoes, w.rows.maxEchoes);
            CharmsOk(r.rows.charms) && PointsOk(r, total) && (EchoesOk(r) <==> tier == TierOf(w.rows.charms, id))
  {
    TierWritten(w.rows.charms, id, tier);
    SpentPositive(id, TierOf(w.rows.charms, id));
    assert SpentForTier(id, 0) == 0;
  }

  lemma PriceNeedsEchoes(id: CharmId, tier: nat)
    requires id < CHARMS && tier < 3
    ensures Price(id, tier) > 0
  {
    PricesPositive(id);
  }

  lemma MinorUpIff(w: World, id: CharmId, e: Env, total: nat)
    requires Inv(w, total) && Upgrades(w, id, e) && DoUpgrade(w, id, e).1 && CategoryOf(id).Minor? &&
             Enabled(w, Do(Upgrade(id), e))
    ensures var r := DoUpgrade(w, id, e).0;
            && CharmsOk(r.rows.charms) && CacheOk(r) && PointsOk(r, total)
            && (EchoesOk(r) <==> KeepsEchoes(w, Do(Upgrade(id), e)))
  {
    var tier := TierOf(Load(w.rows, e.loadOk), id);
    UpgradeResult(w, id, e);
    PriceNeedsEchoes(id, tier);
    TierRead(w, id, e.loadOk);
    MinorUpEchoes(w, id, tier, total);
  }

  lemma UpgradeIff(w: World, id: CharmId, e: Env, total: nat)
    requires Inv(w, total) && Enabled(w, Do(Upgrade(id), e))
    ensures var r := DoUpgrade(w, id, e).0;
            && CharmsOk(r.rows.charms) && CacheOk(r)
            && (PointsOk(r, total) <==> KeepsPoints(w, Do(Upgrade(id), e)))
            && (EchoesOk(r) <==> KeepsEchoes(w, Do(Upgrade(id), e)))
  {
    UpgradeResult(w, id, e);
    UpgradesIff(w, id, e);
    if Upgrades(w, id, e) {
      if CategoryOf(id).Major? {
        MajorUpIff(w, id, e, total);
      } else {
        MinorUpIff(w, id, e, total);
      }
    }
  }

  // ---- Resets ----

  lemma WipedFrom(w: World, loadOk: bool, total: nat, r: World)
    requires CharmsOk(w.rows.charms) && PointsOk(w, total)
    requires r.rows == Rows(Blank(w.rows.charms), 0, 0) && r.cache.None?
    requires r.points == (w.points + SpentOn(Load(w.rows, loadOk), Major)) % WORD
    ensures CharmsOk(r.rows.charms) && CacheOk(r) && EchoesOk(r)
    ensures PointsOk(r, total) <==> loadOk || SpentOn(w.rows.charms, Major) == 0
  {
    Refund(w.rows, loadOk);
    WipedOk(w, r, SpentOn(Load(w.rows, loadOk), Major), total);
  }

  lemma Refund(rows: Rows, loadOk: bool)
    requires CharmsOk(rows.charms)
    ensures SpentOn(Load(rows, loadOk), Major) == if loadOk then SpentOn(rows.charms, Major) else 0
  {
    LoadExact(rows);
    NoRowsOk();
  }

  /** Blank rows are right exactly when the refund is what the majors had cost. */
  lemma WipedOk(w: World, r: World, refund: nat, total: nat)
    requires PointsOk(w, total) && (refund == SpentOn(w.rows.charms, Major) || refund == 0)
    requires r.rows == Rows(Blank(w.rows.charms), 0, 0) && r.points == (w.points + refund) % WORD && r.cache.None?
    ensures CharmsOk(r.rows.charms) && CacheOk(r) && EchoesOk(r)
    ensures PointsOk(r, total) <==> refund == SpentOn(w.rows.charms, Major)
  {
    BlankOk(w.rows.charms);
  }

  /** Rows put back as they were read are right exactly when they had been read right. */
  lemma UndoneFrom(w: World, loadOk: bool, echoOk: bool, total: nat, r: World)
    requires Inv(w, total)
    requires r.rows == Rows(Load(w.rows, loadOk), LoadEchoes(w.rows, echoOk).0, LoadEchoes(w.rows, echoOk).1)
    requires r.points == w.points && r.cache.None?
    ensures CharmsOk(r.rows.charms) && CacheOk(r)
    ensures PointsOk(r, total) <==> loadOk || SpentOn(w.rows.charms, Major) == 0
    ensures EchoesOk(r) <==>
            SpentOn(w.rows.charms, Minor) == 0 || (loadOk && echoOk) || (!loadOk && !echoOk)
  {
    LoadExact(w.rows);
    NoRowsOk();
  }

  lemma NoRowsOk()
    ensures CharmsOk(map[]) && SpentOn(map[], Major) == 0 && SpentOn(map[], Minor) == 0
  {
    BlankOk(map[]);
    assert Blank(map[]) == map[];
  }

  lemma ResetIff(w: World, e: Env, total: nat)
    requires Inv(w, total) && Enabled(w, Do(Reset, e))
    ensures var r := DoReset(w, e).0;
            && CharmsOk(r.rows.charms) && CacheOk(r)
            && (PointsOk(r, total) <==> KeepsPoints(w, Do(Reset, e)))
            && (EchoesOk(r) <==> KeepsEchoes(w, Do(Reset, e)))
  {
    ResetResult(w, e);
    LeavesIff(w, e, total, DoReset(w, e).0);
  }

  lemma LeavesIff(w: World, e: Env, total: nat, r: World)
    requires Inv(w, total) && Enabled(w, Do(Reset, e)) && ResetLeaves(w, e, r)
    ensures CharmsOk(r.rows.charms) && CacheOk(r)
    ensures PointsOk(r, total) <==> KeepsPoints(w, Do(Reset, e))
    ensures EchoesOk(r) <==> KeepsEchoes(w, Do(Reset, e))
  {
    if ResetGoes(w, e) {
      if ResetUndone(w, e) {
        UndoneFrom(w, e.loadOk, e.echoOk, total, r);
      } else {
        WipedFrom(w, e.loadOk, total, r);
      }
    }
  }

  /** A reset that answers true refunds exactly what the majors cost, if the load did not fail, and blanks every row. */
  lemma ResetRefunds(w: World, e: Env, total: nat)
    requires Inv(w, total) && Enabled(w, Do(Reset, e)) && e.loadOk && DoReset(w, e).1
    ensures DoReset(w, e).0.points == w.points + SpentOn(w.rows.charms, Major)
    ensures DoReset(w, e).0.rows == Rows(Blank(w.rows.charms), 0, 0)
  {
    ResetResult(w, e);
    LoadExact(w.rows);
  }

  // ---- Creatures ----

  /** Removing and assigning creatures keep everything, whatever fails: without a load they do nothing. */
  lemma RemoveKeeps(w: World, id: CharmId, e: Env, total: nat)
    requires Inv(w, total) && Enabled(w, Do(Remove(id), e))
    ensures Inv(DoRemove(w, id, e).0, total)
  {
    if e.loadOk {
      RemoveResult(w, id, e);
      if DoRemove(w, id, e).0.rows != w.rows {
        RaceKeeps(w.rows.charms, id, 0);
      }
    }
  }

  lemma AssignKeeps(w: World, id: CharmId, race: nat, e: Env, total: nat)
    requires Inv(w, total)
    ensures Inv(DoAssign(w, id, race, e).0, total)
  {
    LoadExact(w.rows);
    var (r, ok) := DoAssign(w, id, race, e);
    if ok {
      RaceKeeps(w.rows.charms, id, race);
    }
  }

  // ---- Every event ----

  lemma EchoesAddedIff(w: World, amount: nat, echoOk: bool, write: Outcome, total: nat)
    requires Inv(w, total)
    ensures var r := EchoesAdded(w, amount, echoOk, write);
            && CharmsOk(r.rows.charms) && CacheOk(r) && PointsOk(r, total)
            && (EchoesOk(r) <==> KeepsEchoes(w, AddEchoes(amount, echoOk, write)))
  {
  }

  lemma FilledIff(w: World, loadOk: bool, total: nat)
    requires Inv(w, total)
    ensures var r := Filled(w, loadOk);
            && r.rows == w.rows && r.points == w.points
            && (CacheOk(r) <==> KeepsCache(w, FillCache(loadOk)))
  {
    LoadExact(w.rows);
  }

  /**
   Main result on one event, whatever fails in it: the charm rows stay well-formed, and points,
   echoes and cache stay right, each if and only if its guard holds.
   */
  lemma EventIff(w: World, ev: Event, total: nat)
    requires Inv(w, total) && Enabled(w, ev)
    ensures var r := Next(w, ev);
            && CharmsOk(r.rows.charms)
            && (PointsOk(r, total) <==> KeepsPoints(w, ev))
            && (EchoesOk(r) <==> KeepsEchoes(w, ev))
            && (CacheOk(r) <==> KeepsCache(w, ev))
  {
    match ev {
      case Do(action, env) => ActIff(w, action, env, total);
      case FillCache(loadOk) => FilledIff(w, loadOk, total);
      case AddEchoes(amount, echoOk, write) => EchoesAddedIff(w, amount, echoOk, write, total);
    }
  }

  lemma ActIff(w: World, a: Action, e: Env, total: nat)
    requires Inv(w, total) && Enabled(w, Do(a, e))
    ensures var r := Act(w, a, e).0;
            && CharmsOk(r.rows.charms) && CacheOk(r)
            && (PointsOk(r, total) <==> KeepsPoints(w, Do(a, e)))
            && (EchoesOk(r) <==> KeepsEchoes(w, Do(a, e)))
  {
    match a {
      case Upgrade(id) => UpgradeIff(w, id, e, total);
      case Assign(id, race) => AssignKeeps(w, id, race, e, total);
      case Remove(id) => RemoveKeeps(w, id, e, total);
      case Reset => ResetIff(w, e, total);
    }
  }

  /** The invariant survives an event if and only if the event is harmless. */
  lemma NextIff(w: World, ev: Event, total: nat)
    requires Inv(w, total) && Enabled(w, ev)
    ensures Inv(Next(w, ev), total) <==> Harmless(w, ev)
  {
    EventIff(w, ev, total);
  }

  /** SELECTs that succeed and sums that fit a word are enough. */
  ghost predicate Clean(w: World, ev: Event) {
    match ev
    case Do(a, e) => e.loadOk && e.echoOk &&
        (a.Upgrade? ==> w.rows.maxEchoes + EchoReward(TierOf(w.rows.charms, a.id)) < WORD)
    case FillCache(loadOk) => loadOk
    case AddEchoes(amount, echoOk, _) => echoOk && w.rows.maxEchoes + amount < WORD
  }

  lemma CleanIsHarmless(w: World, ev: Event, total: nat)
    requires Inv(w, total) && Enabled(w, ev) && Clean(w, ev)
    ensures Harmless(w, ev)
  {
    LoadExact(w.rows);
  }

  // ---- Runs ----

  ghost predicate Run(worlds: seq<World>, events: seq<Event>, total: nat) {
    && |worlds| == |events| + 1 && Inv(worlds[0], total)
    && forall k :: 0 <= k < |events| ==> Enabled(worlds[k], events[k]) && worlds[k + 1] == Next(worlds[k], events[k])
  }

  /**
   Main result on runs. Over any sequence of harmless events, with any failures, deadlocks and
   retries of their transactions, failed gold charges and failed restores: charm points plus what the
   majors cost stay the same, minor echoes plus what the minors cost are the maximum, a tier-0 charm
   has no creature, at most six charms are assigned, no two charms of a category share a creature, and
   a cached state map is what a load would return.
   */
  lemma {:induction false} RunKeeps(worlds: seq<World>, events: seq<Event>, total: nat, k: nat)
    requires Run(worlds, events, total) && k <= |events|
    requires forall i :: 0 <= i < k ==> Harmless(worlds[i], events[i])
    ensures Inv(worlds[k], total)
  {
    if k > 0 {
      RunKeeps(worlds, events, total, k - 1);
      NextIff(worlds[k - 1], events[k - 1], total);
      assert worlds[k - 1 + 1] == Next(worlds[k - 1], events[k - 1]);
    }
  }

  /** And the first event that is not harmless breaks it. */
  lemma FirstHarmBreaks(worlds: seq<World>, events: seq<Event>, total: nat, k: nat)
    requires Run(worlds, events, total) && k < |events|
    requires (forall i :: 0 <= i < k ==> Harmless(worlds[i], events[i])) && !Harmless(worlds[k], events[k])
    ensures !Inv(worlds[k + 1], total)
  {
    RunKeeps(worlds, events, total, k);
    NextIff(worlds[k], events[k], total);
  }

  // ---- Runs that lose what was spent ----

  /** No statement fails. */
  function AllWell(): (attempts: nat -> Attempt) { (k: nat) => Attempt(true, (i: nat) => Ok, Ok) }

  function Calm(loadOk: bool, echoOk: bool, moneyOk: bool): (e: Env) {
    Env(loadOk, echoOk, AllWell(), AllWell(), [], moneyOk, Ok, 50, true, true, 0, 0)
  }

  /** A player with 1000 charm points and gold, and no charm yet. */
  const FRESH := World(Rows(map[], 0, 0), 1000, 200_000, 0, None)

  /** After unlocking charm 0 for 240 points. */
  const UNLOCKED := World(Rows(map[0 := State(1, 0)], 50, 50), 760, 200_000, 0, None)

  lemma FreshOk()
    ensures Inv(FRESH, 1000)
  {
    NoRowsOk();
  }

  lemma Unlocks()
    ensures Enabled(FRESH, Do(Upgrade(0), Calm(true, true, true)))
    ensures Next(FRESH, Do(Upgrade(0), Calm(true, true, true))) == UNLOCKED
  {
    var e := Calm(true, true, true);
    assert Load(FRESH.rows, true) == map[];
    UpgradeSucceeds(FRESH, 0, e);
    UpgradeResult(FRESH, 0, e);
  }

  /** A reset whose load fails, then its gold charge, and whose restore goes through. */
  const BLIND_RESET := Do(Reset, Calm(false, true, false))

  lemma BlindResetUndone()
    ensures Enabled(UNLOCKED, BLIND_RESET)
    ensures ResetGoes(UNLOCKED, BLIND_RESET.env) && ResetUndone(UNLOCKED, BLIND_RESET.env)
  {
    assert GoesAt(AllWell(), 2, 1, 1);
  }

  lemma BlindResetLoses()
    ensures Enabled(UNLOCKED, BLIND_RESET)
    ensures Next(UNLOCKED, BLIND_RESET).rows == Rows(map[], 50, 50) && Next(UNLOCKED, BLIND_RESET).points == 760
  {
    BlindResetUndone();
    ResetResult(UNLOCKED, BLIND_RESET.env);
  }

  /** It puts back the empty map it had read: the charm is gone, its 240 points are not refunded. */
  lemma ResetLosesCharms()
    ensures Enabled(UNLOCKED, BLIND_RESET)
    ensures Run([FRESH, UNLOCKED, Next(UNLOCKED, BLIND_RESET)], [Do(Upgrade(0), Calm(true, true, true)), BLIND_RESET],
            1000)
    ensures Next(UNLOCKED, BLIND_RESET).rows == Rows(map[], 50, 50) && Next(UNLOCKED, BLIND_RESET).points == 760
  {
    FreshOk();
    Unlocks();
    BlindResetLoses();
    TwoSteps(FRESH, UNLOCKED, Do(Upgrade(0), Calm(true, true, true)), BLIND_RESET, 1000);
  }

  lemma TwoSteps(a: World, b: World, first: Event, second: Event, total: nat)
    requires Inv(a, total) && Enabled(a, first) && Next(a, first) == b && Enabled(b, second)
    ensures Run([a, b, Next(b, second)], [first, second], total)
  {
  }

  /** A run of two events, the first of which unlocks charm 0. */
  lemma UnlockedThen(second: Event, c: World)
    requires Enabled(UNLOCKED, second) && Next(UNLOCKED, second) == c
    ensures Run([FRESH, UNLOCKED, c], [Do(Upgrade(0), Calm(true, true, true)), second], 1000)
  {
    FreshOk();
    Unlocks();
    TwoSteps(FRESH, UNLOCKED, Do(Upgrade(0), Calm(true, true, true)), second, 1000);
  }

  /** After unlocking charm 0, with a cache filled while the rows could not be read. */
  const MISSED := UNLOCKED.(cache := Some(map[]))

  /** The cache does not have the charm. */
  lemma MissedIsWrong()
    ensures 0 in Load(MISSED.rows, true) && !CacheOk(MISSED)
  {
    assert 0 in UNLOCKED.rows.charms && MISSED.rows == UNLOCKED.rows;
    assert 0 in Load(MISSED.rows, true);
  }

  /** A run that ends so. */
  lemma CacheMissesCharms()
    ensures Run([FRESH, UNLOCKED, MISSED], [Do(Upgrade(0), Calm(true, true, true)), FillCache(false)], 1000)
  {
    assert Load(UNLOCKED.rows, false) == map[];
    UnlockedThen(FillCache(false), MISSED);
  }

  /** A player who has earned 150 echoes, and the same after unlocking minor charm 6 for 100 of them. */
  const EARNED := World(Rows(map[], 150, 150), 1000, 200_000, 0, None)
  const BOUGHT := World(Rows(map[6 := State(1, 0)], 50, 150), 1000, 200_000, 0, None)

  lemma Buys()
    ensures Inv(EARNED, 1000) && Enabled(EARNED, Do(Upgrade(6), Calm(true, true, true)))
    ensures Next(EARNED, Do(Upgrade(6), Calm(true, true, true))) == BOUGHT
  {
    var e := Calm(true, true, true);
    NoRowsOk();
    assert Load(EARNED.rows, true) == map[];
    UpgradeSucceeds(EARNED, 6, e);
    UpgradeResult(EARNED, 6, e);
  }

  lemma SixCosts()
    ensures SpentOn(BOUGHT.rows.charms, Minor) > 0
  {
    NoRowsOk();
    SpentUpdate(map[], 6, State(1, 0), Minor, CHARMS);
    SpentPositive(6, 1);
    assert TierOf(map[], 6) == 0 && SpentForTier(6, 0) == 0;
  }

  /** Echoes added when the balance could not be read overwrite it: 50 were left of 150, 10 of 10 are on record. */
  lemma AddingLosesEchoes()
    ensures var add := AddEchoes(10, false, Ok);
            && Run([EARNED, BOUGHT, Next(BOUGHT, add)], [Do(Upgrade(6), Calm(true, true, true)), add], 1000)
            && Next(BOUGHT, add).rows == Rows(map[6 := State(1, 0)], 10, 10) && !EchoesOk(Next(BOUGHT, add))
  {
    Buys();
    SixCosts();
    var add := AddEchoes(10, false, Ok);
    TwoSteps(EARNED, BOUGHT, Do(Upgrade(6), Calm(true, true, true)), add, 1000);
  }
}

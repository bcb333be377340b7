/**
 Echo raids (src/echo_raid.cpp): raids, the creatures they spawned, and the monsters a living
 Warden protects.

 `monsters` are the live ones. Numbers of creatures and raids are never reused. Which monsters stand
 near a Warden, and whether a spawn finds its tile free, are inputs.
 */
module EchoRaids {
  import opened Basics

  type CreatureId = nat
  type RaidId = nat

  datatype Kind = Warden | Influenced | Ordinary

  datatype Raid = Raid(
    id: RaidId, race: nat, instance: nat,
    wardenPending: bool, pendingSpawns: seq<bool>, wardenId: CreatureId,
    creatureIds: set<CreatureId>, protectedCreatureIds: set<CreatureId>,
    plan: seq<Kind>, spawned: seq<Kind>)   // what was planned at the start and what has appeared so far

  datatype Monster = Monster(race: nat, instance: nat, echoRaid: RaidId, wardOwner: RaidId, echoWarden: bool)

  datatype State = State(
    raids: map<RaidId, Raid>, creatureToRaid: map<CreatureId, RaidId>, monsters: map<CreatureId, Monster>,
    nextRaid: RaidId, nextCreature: CreatureId)

  const INITIAL := State(map[], map[], map[], 1, 1)

  // ---- Spawn plan ----

  datatype Outcome = NormalRaid | InfluencedRaid | WardenRaid

  function Repeat(value: bool, n: nat): (r: seq<bool>) { seq(n, _ => value) }

  /** Configured group sizes. */
  datatype Sizes = Sizes(normal: nat, influenced: nat, wardenNormal: nat, wardenInfluenced: nat)

  /** True stands for an influenced companion. */
  function BuildSpawnPlan(outcome: Outcome, n: Sizes): (plan: seq<bool>) {
    match outcome
    case NormalRaid => Repeat(false, n.normal)
    case InfluencedRaid => Repeat(true, n.influenced)
    case WardenRaid => Repeat(false, n.wardenNormal) + Repeat(true, n.wardenInfluenced)
  }

  function Kinds(pending: seq<bool>): (r: seq<Kind>) {
    seq(|pending|, i requires 0 <= i < |pending| => if pending[i] then Influenced else Ordinary)
  }

  /** Still to appear: the Warden first, then its companions in order. */
  function Rest(raid: Raid): (r: seq<Kind>) {
    (if raid.wardenPending then [Warden] else []) + Kinds(raid.pendingSpawns)
  }

  predicate HasPendingSpawns(raid: Raid) { raid.wardenPending || raid.pendingSpawns != [] }

  // ---- Operations ----

  /** A spawn that found its tile: the monster, its mapping, and one entry of the plan used up. */
  function SpawnedNext(s: State, r: RaidId): (t: State)
    requires r in s.raids && HasPendingSpawns(s.raids[r])
  {
    var raid := s.raids[r];
    var c := s.nextCreature;
    var warden := raid.wardenPending;
    var kind := if warden then Warden else if raid.pendingSpawns[0] then Influenced else Ordinary;
    var after := raid.(
      creatureIds := raid.creatureIds + {c}, spawned := raid.spawned + [kind],
      wardenId := (if warden then c else raid.wardenId),
      wardenPending := (if warden then false else raid.wardenPending),
      pendingSpawns := if warden then raid.pendingSpawns else raid.pendingSpawns[1..]);
    s.(raids := s.raids[r := after], creatureToRaid := s.creatureToRaid[c := r],
       monsters := s.monsters[c := Monster(raid.race, raid.instance, r, 0, warden)], nextCreature := c + 1)
  }

  /** A spawn attempt; one that fails keeps the plan as it is. */
  function Spawn(s: State, r: RaidId, free: bool): (t: State) {
    if r in s.raids && HasPendingSpawns(s.raids[r]) && free then SpawnedNext(s, r) else s
  }

  function Unprotect(monsters: map<CreatureId, Monster>, ids: set<CreatureId>, r: RaidId):
    (n: map<CreatureId, Monster>)
  {
    map c | c in monsters ::
      if c in ids && monsters[c].wardOwner == r then monsters[c].(wardOwner := 0) else monsters[c]
  }

  /** clearWardenProtection of a raid that is stored. */
  function Cleared(s: State, r: RaidId): (t: State)
    requires r in s.raids
  {
    s.(monsters := Unprotect(s.monsters, s.raids[r].protectedCreatureIds, r),
       raids := s.raids[r := s.raids[r].(protectedCreatureIds := {})])
  }

  /** Same race and instance, of no other raid, protected by no other raid, and not the Warden. */
  predicate Eligible(s: State, raid: Raid, c: CreatureId) {
    && c in s.monsters && c != raid.wardenId
    && s.monsters[c].instance == raid.instance && s.monsters[c].race == raid.race
    && (s.monsters[c].echoRaid == 0 || s.monsters[c].echoRaid == raid.id)
    && (s.monsters[c].wardOwner == 0 || s.monsters[c].wardOwner == raid.id)
  }

  function ProtectedNow(s: State, raid: Raid, near: set<CreatureId>): (r: set<CreatureId>) {
    set c | c in near && Eligible(s, raid, c)
  }

  function Protect(monsters: map<CreatureId, Monster>, ids: set<CreatureId>, r: RaidId): (n: map<CreatureId, Monster>) {
    map c | c in monsters :: if c in ids then monsters[c].(wardOwner := r) else monsters[c]
  }

  /** updateWardenAura with the monsters in range. */
  function AuraUpdated(s: State, r: RaidId, near: set<CreatureId>): (t: State)
    requires r in s.raids
  {
    var raid := s.raids[r];
    if raid.wardenId !in s.monsters || !s.monsters[raid.wardenId].echoWarden then
      var t := Cleared(s, r);
      t.(raids := t.raids[r := t.raids[r].(wardenId := 0)])
    else
      var now := ProtectedNow(s, raid, near);
      s.(monsters := Unprotect(Protect(s.monsters, now, r), raid.protectedCreatureIds - now, r),
         raids := s.raids[r := raid.(protectedCreatureIds := now)])
  }

  function Aura(s: State, r: RaidId, near: set<CreatureId>): (t: State) {
    if r in s.raids && s.raids[r].wardenId != 0 then AuraUpdated(s, r, near) else s
  }

  /** startRaid: the record, the first spawn attempt, and the aura if the Warden came at once. */
  function Started(s: State, race: nat, instance: nat, outcome: Outcome, pending: seq<bool>, free: bool,
      near: set<CreatureId>): (t: State) {
    var r := s.nextRaid;
    var base := Raid(r, race, instance, outcome.WardenRaid?, pending, 0, {}, {}, [], []);
    var raid := base.(plan := Rest(base));
    var t := Spawn(s.(raids := s.raids[r := raid], nextRaid := r + 1), r, free);
    if outcome.WardenRaid? then Aura(t, r, near) else t
  }

  /** onCreatureRemoved, after the creature has left the game. */
  function Forgotten(s: State, c: CreatureId): (t: State) {
    if c !in s.creatureToRaid then s
    else
      var r := s.creatureToRaid[c];
      var s1 := s.(creatureToRaid := s.creatureToRaid - {c});
      if r !in s.raids then s1
      else
        var raid := s.raids[r].(creatureIds := s.raids[r].creatureIds - {c},
            protectedCreatureIds := s.raids[r].protectedCreatureIds - {c});
        var s2 :=
          if raid.wardenId == c then
            Cleared(s1.(raids := s1.raids[r := raid.(wardenId := 0, wardenPending := false)]), r)
          else s1.(raids := s1.raids[r := raid]);
        if s2.raids[r].creatureIds == {} && !HasPendingSpawns(s2.raids[r]) then s2.(raids := s2.raids - {r}) else s2
  }

  function Removed(s: State, c: CreatureId): (t: State) {
    if c in s.monsters then Forgotten(s.(monsters := s.monsters - {c}), c) else s
  }

  function CleanedUp(s: State, r: RaidId): (t: State) {
    if r !in s.raids then s
    else
      var raid := s.raids[r];
      s.(raids := s.raids - {r}, creatureToRaid := s.creatureToRaid - raid.creatureIds,
         monsters := Unprotect(s.monsters, raid.protectedCreatureIds, r) - raid.creatureIds)
  }

  // ---- Invariant ----

  /** What holds of one stored raid. */
  ghost predicate RaidOk(s: State, r: RaidId)
    requires r in s.raids
  {
    var raid := s.raids[r];
    && raid.id == r && 0 < r < s.nextRaid
    && (raid.creatureIds != {} || HasPendingSpawns(raid))
    && (raid.wardenId == 0 ==> raid.protectedCreatureIds == {})
    && (raid.wardenId != 0 ==>
          raid.wardenId in raid.creatureIds && raid.wardenId in s.monsters && s.monsters[raid.wardenId].echoWarden)
    && (raid.wardenPending ==> raid.wardenId == 0)
    && (forall c :: c in raid.creatureIds ==> c in s.creatureToRaid && s.creatureToRaid[c] == r && c in s.monsters)
    && (forall c :: c in raid.protectedCreatureIds ==> c < s.nextCreature)
    && (forall c :: c in raid.protectedCreatureIds && c in s.monsters ==> s.monsters[c].wardOwner == r)
    && raid.plan == raid.spawned + Rest(raid)
  }

  /** A mapped creature is listed by the raid it maps to. */
  ghost predicate MappingOk(s: State, c: CreatureId)
    requires c in s.creatureToRaid
  {
    s.creatureToRaid[c] in s.raids && c in s.raids[s.creatureToRaid[c]].creatureIds
  }

  /** A protected monster is on the list of the raid that owns it; a raid's monster is mapped to it. */
  ghost predicate MonsterOk(s: State, c: CreatureId)
    requires c in s.monsters
  {
    var m := s.monsters[c];
    && 0 < c < s.nextCreature
    && (m.wardOwner != 0 ==> m.wardOwner in s.raids && c in s.raids[m.wardOwner].protectedCreatureIds)
    && (m.echoRaid != 0 ==> c in s.creatureToRaid && s.creatureToRaid[c] == m.echoRaid)
  }

  ghost predicate Inv(s: State) {
    && (forall r {:trigger RaidOk(s, r)} :: r in s.raids ==> RaidOk(s, r))
    && (forall c {:trigger MappingOk(s, c)} :: c in s.creatureToRaid ==> MappingOk(s, c))
    && (forall c {:trigger MonsterOk(s, c)} :: c in s.monsters ==> MonsterOk(s, c))
    && s.nextRaid > 0 && s.nextCreature > 0
  }

  lemma IdsBelow(s: State)
    requires Inv(s)
    ensures forall r :: r in s.raids ==> 0 < r < s.nextRaid
    ensures forall c :: c in s.monsters ==> 0 < c < s.nextCreature
  {
    forall r | r in s.raids ensures 0 < r < s.nextRaid {
      assert RaidOk(s, r);
    }
    forall c | c in s.monsters ensures 0 < c < s.nextCreature {
      assert MonsterOk(s, c);
    }
  }

  lemma KindsTail(pending: seq<bool>)
    requires pending != []
    ensures Kinds(pending) == [if pending[0] then Influenced else Ordinary] + Kinds(pending[1..])
  {
  }

  lemma SpawnKeeps(s: State, r: RaidId, free: bool)
    requires Inv(s)
    ensures Inv(Spawn(s, r, free))
  {
    if r in s.raids && HasPendingSpawns(s.raids[r]) && free {
      var t := SpawnedNext(s, r);
      var c := s.nextCreature;
      assert RaidOk(s, r);
      if !s.raids[r].wardenPending {
        KindsTail(s.raids[r].pendingSpawns);
      }
      forall q | q in t.raids ensures RaidOk(t, q) {
        assert RaidOk(s, q);
        SpawnedRaid(s, r, q);
      }
      forall d | d in t.creatureToRaid ensures MappingOk(t, d) {
        if d != c {
          assert MappingOk(s, d);
        }
      }
      forall d | d in t.monsters ensures MonsterOk(t, d) {
        if d != c {
          assert MonsterOk(s, d);
        }
      }
    }
  }

  /** A new monster c of raid r: the first one still planned, mapped to the raid, listed there, protected by none. */
  ghost predicate Spawns(s: State, t: State, r: RaidId, c: CreatureId) {
    && r in s.raids && r in t.raids && Rest(s.raids[r]) != []
    && var raid := s.raids[r];
    && t == s.(raids := t.raids, creatureToRaid := s.creatureToRaid[c := r], nextCreature := c + 1,
               monsters := s.monsters[c := Monster(raid.race, raid.instance, r, 0, Rest(raid)[0].Warden?)])
    && t.raids == s.raids[r := t.raids[r]]
    && t.raids[r] == raid.(creatureIds := raid.creatureIds + {c}, spawned := raid.spawned + [Rest(raid)[0]],
                           wardenId := if Rest(raid)[0].Warden? then c else raid.wardenId,
                           wardenPending := false, pendingSpawns := t.raids[r].pendingSpawns)
    && Rest(t.raids[r]) == Rest(raid)[1..]
  }

  /** With a free tile the first planned monster of a raid appears, if one is planned; otherwise nothing changes. */
  lemma SpawnExact(s: State, r: RaidId, free: bool)
    requires Inv(s)
    ensures var t := Spawn(s, r, free);
            if free && r in s.raids && Rest(s.raids[r]) != [] then Spawns(s, t, r, s.nextCreature) else t == s
  {
    if r in s.raids && HasPendingSpawns(s.raids[r]) {
      assert RaidOk(s, r);
      if !s.raids[r].wardenPending {
        KindsTail(s.raids[r].pendingSpawns);
      }
      RestMoves(s, r);
    }
  }

  lemma RestMoves(s: State, r: RaidId)
    requires r in s.raids && HasPendingSpawns(s.raids[r])
    ensures Rest(s.raids[r]) != [] && Rest(SpawnedNext(s, r).raids[r]) == Rest(s.raids[r])[1..]
    ensures Rest(s.raids[r])[0] ==
            if s.raids[r].wardenPending then Warden
            else if s.raids[r].pendingSpawns[0] then Influenced else Ordinary
  {
    if !s.raids[r].wardenPending {
      KindsTail(s.raids[r].pendingSpawns);
    }
  }

  lemma SpawnedRaid(s: State, r: RaidId, q: RaidId)
    requires Inv(s) && r in s.raids && HasPendingSpawns(s.raids[r]) && q in s.raids
    ensures RaidOk(SpawnedNext(s, r), q)
  {
    assert RaidOk(s, q);
    IdsBelow(s);
    if q == r {
      OwnRaid(s, r);
    } else {
      OtherRaid(s, r, q);
    }
  }

  /** One entry of the plan moves from pending to spawned. */
  lemma PlanMoves(s: State, r: RaidId)
    requires r in s.raids && HasPendingSpawns(s.raids[r]) && s.raids[r].plan == s.raids[r].spawned + Rest(s.raids[r])
    ensures var raid := SpawnedNext(s, r).raids[r]; raid.plan == raid.spawned + Rest(raid)
  {
    var raid := s.raids[r];
    if !raid.wardenPending {
      KindsTail(raid.pendingSpawns);
    }
  }

  lemma OwnRaid(s: State, r: RaidId)
    requires r in s.raids && HasPendingSpawns(s.raids[r]) && RaidOk(s, r)
    requires forall c :: c in s.monsters ==> 0 < c < s.nextCreature
    requires s.nextCreature > 0
    ensures RaidOk(SpawnedNext(s, r), r)
  {
    PlanMoves(s, r);
  }

  lemma OtherRaid(s: State, r: RaidId, q: RaidId)
    requires r in s.raids && HasPendingSpawns(s.raids[r]) && q in s.raids && q != r && RaidOk(s, q)
    requires forall c :: c in s.monsters ==> 0 < c < s.nextCreature
    ensures RaidOk(SpawnedNext(s, r), q)
  {
  }

  /** The monsters after a change of protection are the same up to their owners. */
  ghost predicate SameButOwners(a: map<CreatureId, Monster>, b: map<CreatureId, Monster>) {
    a.Keys == b.Keys && forall c :: c in a ==> b[c] == a[c].(wardOwner := b[c].wardOwner)
  }

  /** Ownership and list of raid r agree in t, and other raids' lists and owners are as in s. */
  ghost predicate Reprotected(s: State, t: State, r: RaidId) {
    && r in s.raids && t.raids.Keys == s.raids.Keys
    && t.creatureToRaid == s.creatureToRaid && t.nextRaid == s.nextRaid && t.nextCreature == s.nextCreature
    && SameButOwners(s.monsters, t.monsters)
    && t.raids[r] == s.raids[r].(protectedCreatureIds := t.raids[r].protectedCreatureIds,
        wardenId := t.raids[r].wardenId)
    && (forall q :: q in s.raids && q != r ==> t.raids[q] == s.raids[q])
    && (forall c :: c in s.monsters && t.monsters[c].wardOwner != s.monsters[c].wardOwner ==>
          (s.monsters[c].wardOwner == 0 || s.monsters[c].wardOwner == r) &&
              (t.monsters[c].wardOwner == 0 || t.monsters[c].wardOwner == r))
    && (forall c :: c in s.monsters ==> (t.monsters[c].wardOwner == r <==> c in t.raids[r].protectedCreatureIds))
    && (forall c :: c in t.raids[r].protectedCreatureIds ==> c < s.nextCreature)
  }

  lemma ReprotectKeeps(s: State, t: State, r: RaidId)
    requires Inv(s) && Reprotected(s, t, r) && RaidOk(s, r)
    requires t.raids[r].wardenId == s.raids[r].wardenId || t.raids[r].wardenId == 0
    requires t.raids[r].wardenId == 0 ==> t.raids[r].protectedCreatureIds == {}
    ensures Inv(t)
  {
    forall q | q in t.raids ensures RaidOk(t, q) {
      assert RaidOk(s, q);
      OtherRaidReprotected(s, t, r, q);
    }
    forall c | c in t.creatureToRaid ensures MappingOk(t, c) {
      assert MappingOk(s, c);
    }
    forall c | c in t.monsters ensures MonsterOk(t, c) {
      assert MonsterOk(s, c);
    }
  }

  lemma OtherRaidReprotected(s: State, t: State, r: RaidId, q: RaidId)
    requires Inv(s) && Reprotected(s, t, r) && q in s.raids && RaidOk(s, q)
    requires t.raids[r].wardenId == s.raids[r].wardenId || t.raids[r].wardenId == 0
    requires t.raids[r].wardenId == 0 ==> t.raids[r].protectedCreatureIds == {}
    ensures RaidOk(t, q)
  {
    assert Rest(t.raids[q]) == Rest(s.raids[q]);
  }

  lemma AuraKeeps(s: State, r: RaidId, near: set<CreatureId>)
    requires Inv(s)
    ensures Inv(Aura(s, r, near))
  {
    if r in s.raids && s.raids[r].wardenId != 0 {
      var raid := s.raids[r];
      assert RaidOk(s, r);
      assert MonsterOk(s, raid.wardenId);
      var t := Aura(s, r, near);
      AuraReprotects(s, r, near);
      ReprotectKeeps(s, t, r);
    }
  }

  lemma AuraReprotects(s: State, r: RaidId, near: set<CreatureId>)
    requires Inv(s) && r in s.raids && RaidOk(s, r) && s.raids[r].wardenId != 0
    ensures Reprotected(s, AuraUpdated(s, r, near), r)
    ensures AuraUpdated(s, r, near).raids[r].wardenId == s.raids[r].wardenId
    ensures AuraUpdated(s, r, near).raids[r].protectedCreatureIds == ProtectedNow(s, s.raids[r], near)
  {
    var raid := s.raids[r];
    var t := AuraUpdated(s, r, near);
    var now := ProtectedNow(s, raid, near);
    forall c | c in s.monsters ensures (t.monsters[c].wardOwner == r <==> c in now) && 0 < c < s.nextCreature {
      assert MonsterOk(s, c);
    }
  }

  /**
   Whom an aura update of a living Warden protects: the monsters in range of its race and instance, except
   itself, that belong to no other raid and are protected by none. Everything else stays.
   */
  lemma AuraExact(s: State, r: RaidId, near: set<CreatureId>)
    requires Inv(s) && r in s.raids && s.raids[r].wardenId != 0
    ensures var raid, t := s.raids[r], Aura(s, r, near);
            && (forall c :: c in t.raids[r].protectedCreatureIds <==>
                  && c in near && c in s.monsters && c != raid.wardenId
                  && s.monsters[c].race == raid.race && s.monsters[c].instance == raid.instance
                  && (s.monsters[c].echoRaid == 0 || s.monsters[c].echoRaid == r)
                  && (s.monsters[c].wardOwner == 0 || s.monsters[c].wardOwner == r))
            && t == s.(monsters := t.monsters, raids := t.raids)
            && t.raids == s.raids[r := raid.(protectedCreatureIds := t.raids[r].protectedCreatureIds)]
            && t.monsters.Keys == s.monsters.Keys
            && (forall c :: c in s.monsters ==> t.monsters[c] == s.monsters[c].(wardOwner :=
                  if c in t.raids[r].protectedCreatureIds then r
                  else if s.monsters[c].wardOwner == r then 0 else s.monsters[c].wardOwner))
  {
    assert RaidOk(s, r);
    AuraReprotects(s, r, near);
    AuraOwners(s, r, near);
  }

  lemma AuraOwners(s: State, r: RaidId, near: set<CreatureId>)
    requires Inv(s) && r in s.raids && RaidOk(s, r) && s.raids[r].wardenId != 0
    ensures var t := AuraUpdated(s, r, near);
            forall c :: c in s.monsters ==> c in t.monsters && t.monsters[c] == s.monsters[c].(wardOwner :=
              if c in ProtectedNow(s, s.raids[r], near) then r
              else if s.monsters[c].wardOwner == r then 0 else s.monsters[c].wardOwner)
  {
    forall c | c in s.monsters ensures s.monsters[c].wardOwner == r ==> c in s.raids[r].protectedCreatureIds {
      assert MonsterOk(s, c);
    }
  }

  lemma AddRaidKeeps(s: State, race: nat, instance: nat, warden: bool, pending: seq<bool>)
    requires Inv(s) && (warden || pending != [])
    ensures var base := Raid(s.nextRaid, race, instance, warden, pending, 0, {}, {}, [], []);
            Inv(s.(raids := s.raids[s.nextRaid := base.(plan := Rest(base))], nextRaid := s.nextRaid + 1))
  {
    var base := Raid(s.nextRaid, race, instance, warden, pending, 0, {}, {}, [], []);
    var raid := base.(plan := Rest(base));
    var t := s.(raids := s.raids[s.nextRaid := raid], nextRaid := s.nextRaid + 1);
    IdsBelow(s);
    forall q | q in t.raids ensures RaidOk(t, q) {
      if q != s.nextRaid {
        assert RaidOk(s, q);
      } else {
        assert Rest(raid) == Rest(base) && raid.plan == [] + Rest(raid);
      }
    }
    forall c | c in t.creatureToRaid ensures MappingOk(t, c) {
      assert MappingOk(s, c);
    }
    forall c | c in t.monsters ensures MonsterOk(t, c) {
      assert MonsterOk(s, c);
    }
  }

  lemma StartKeeps(s: State, race: nat, instance: nat, outcome: Outcome, pending: seq<bool>, free: bool,
      near: set<CreatureId>)
    requires Inv(s) && (outcome.WardenRaid? || pending != [])
    ensures Inv(Started(s, race, instance, outcome, pending, free, near))
  {
    var base := Raid(s.nextRaid, race, instance, outcome.WardenRaid?, pending, 0, {}, {}, [], []);
    var u := s.(raids := s.raids[s.nextRaid := base.(plan := Rest(base))], nextRaid := s.nextRaid + 1);
    AddRaidKeeps(s, race, instance, outcome.WardenRaid?, pending);
    SpawnKeeps(u, s.nextRaid, free);
    AuraKeeps(Spawn(u, s.nextRaid, free), s.nextRaid, near);
  }

  // ---- Removal ----

  /** The raid loses one creature that is not its Warden. */
  lemma ForgetCompanion(s: State, c: CreatureId)
    requires Inv(s) && c in s.monsters && c in s.creatureToRaid && s.creatureToRaid[c] in s.raids
    requires s.raids[s.creatureToRaid[c]].wardenId != c
    ensures Inv(Removed(s, c))
  {
    var r := s.creatureToRaid[c];
    var t := Removed(s, c);
    assert MappingOk(s, c) && MonsterOk(s, c) && RaidOk(s, r);
    assert s.raids[r].wardenId != 0 ==> s.raids[r].wardenId in s.raids[r].creatureIds - {c};
    assert r !in t.raids ==> s.raids[r].protectedCreatureIds == {};
    forall q | q in t.raids ensures RaidOk(t, q) {
      assert RaidOk(s, q);
      assert q == r ==> Rest(t.raids[r]) == Rest(s.raids[r]);
    }
    forall d | d in t.creatureToRaid ensures MappingOk(t, d) {
      assert MappingOk(s, d);
    }
    forall d | d in t.monsters ensures MonsterOk(t, d) {
      assert MonsterOk(s, d);
    }
  }

  lemma ForgetOther(s: State, c: CreatureId)
    requires Inv(s) && c in s.monsters && c !in s.creatureToRaid
    ensures Inv(Removed(s, c))
  {
    var t := Removed(s, c);
    forall q | q in t.raids ensures RaidOk(t, q) {
      assert RaidOk(s, q);
    }
    forall d | d in t.creatureToRaid ensures MappingOk(t, d) {
      assert MappingOk(s, d);
    }
    forall d | d in t.monsters ensures MonsterOk(t, d) {
      assert MonsterOk(s, d);
    }
  }

  /** The Warden goes: its aura ends at once, its companions stay planned. */
  lemma ForgetWarden(s: State, c: CreatureId)
    requires Inv(s) && c in s.monsters && c in s.creatureToRaid && s.creatureToRaid[c] in s.raids
    requires s.raids[s.creatureToRaid[c]].wardenId == c
    ensures Inv(Removed(s, c))
    ensures forall d :: d in Removed(s, c).monsters ==> Removed(s, c).monsters[d].wardOwner != s.creatureToRaid[c]
  {
    var r := s.creatureToRaid[c];
    var t := Removed(s, c);
    assert MappingOk(s, c) && MonsterOk(s, c) && RaidOk(s, r);
    forall d | d in t.monsters ensures t.monsters[d].wardOwner != r {
      assert MonsterOk(s, d);
    }
    forall q | q in t.raids ensures RaidOk(t, q) {
      WardenGoneRaid(s, c, q);
    }
    forall d | d in t.creatureToRaid ensures MappingOk(t, d) {
      assert MappingOk(s, d);
    }
    forall d | d in t.monsters ensures MonsterOk(t, d) {
      assert MonsterOk(s, d);
    }
  }

  lemma WardenGoneRaid(s: State, c: CreatureId, q: RaidId)
    requires Inv(s) && c in s.monsters && c in s.creatureToRaid && s.creatureToRaid[c] in s.raids
    requires s.raids[s.creatureToRaid[c]].wardenId == c && q in Removed(s, c).raids
    ensures RaidOk(Removed(s, c), q)
  {
    var r := s.creatureToRaid[c];
    var t := Removed(s, c);
    assert MonsterOk(s, c) && RaidOk(s, r) && q in s.raids && RaidOk(s, q);
    if q == r {
      assert Rest(t.raids[r]) == Rest(s.raids[r]);
    }
  }

  lemma RemovedKeeps(s: State, c: CreatureId)
    requires Inv(s)
    ensures Inv(Removed(s, c))
  {
    if c in s.monsters {
      if c !in s.creatureToRaid {
        ForgetOther(s, c);
      } else {
        assert MappingOk(s, c);
        if s.raids[s.creatureToRaid[c]].wardenId == c {
          ForgetWarden(s, c);
        } else {
          ForgetCompanion(s, c);
        }
      }
    }
  }

  /**
   What the death of a raid's creature leaves: the raid stays, without the creature, as long as others are
   alive or spawns are pending, also after its Warden, who takes the protection along; no other raid changes.
   */
  lemma RemovedExact(s: State, c: CreatureId)
    requires Inv(s) && c in s.monsters && c in s.creatureToRaid
    ensures s.creatureToRaid[c] in s.raids
    ensures var r, t := s.creatureToRaid[c], Removed(s, c);
            var raid := s.raids[r];
            && t.monsters.Keys == s.monsters.Keys - {c} && t.creatureToRaid == s.creatureToRaid - {c}
            && t.nextRaid == s.nextRaid && t.nextCreature == s.nextCreature
            && t.raids.Keys <= s.raids.Keys
            && (forall q :: q in s.raids && q != r ==> q in t.raids && t.raids[q] == s.raids[q])
            && (r in t.raids <==>
                  raid.creatureIds != {c} || raid.pendingSpawns != [] || (raid.wardenPending && raid.wardenId != c))
            && (r in t.raids && raid.wardenId != c ==>
                  t.raids[r] == raid.(creatureIds := raid.creatureIds - {c},
                                      protectedCreatureIds := raid.protectedCreatureIds - {c}))
            && (r in t.raids && raid.wardenId == c ==>
                  t.raids[r] == raid.(creatureIds := raid.creatureIds - {c}, protectedCreatureIds := {},
                                      wardenId := 0, wardenPending := false))
  {
    assert MappingOk(s, c);
    var raid := s.raids[s.creatureToRaid[c]];
    assert raid.creatureIds - {c} == {} <==> raid.creatureIds == {c};
  }

  lemma CleanupKeeps(s: State, r: RaidId)
    requires Inv(s)
    ensures Inv(CleanedUp(s, r))
    ensures forall c :: c in CleanedUp(s, r).monsters ==>
              CleanedUp(s, r).monsters[c].wardOwner != r || r == 0
    ensures forall c :: c in CleanedUp(s, r).monsters ==> CleanedUp(s, r).monsters[c].echoRaid != r || r == 0
  {
    var t := CleanedUp(s, r);
    forall c | c in t.monsters ensures (t.monsters[c].wardOwner != r && t.monsters[c].echoRaid != r) || r == 0 {
      assert MonsterOk(s, c);
      assert s.monsters[c].echoRaid != 0 ==> MappingOk(s, c);
    }
    if r in s.raids {
      assert RaidOk(s, r);
      forall q | q in t.raids ensures RaidOk(t, q) {
        assert RaidOk(s, q);
        forall c | c in s.raids[q].creatureIds ensures c !in s.raids[r].creatureIds {
          assert s.creatureToRaid[c] == q;
        }
      }
      forall d | d in t.creatureToRaid ensures MappingOk(t, d) {
        assert MappingOk(s, d);
      }
      forall d | d in t.monsters ensures MonsterOk(t, d) {
        assert MonsterOk(s, d);
        if s.monsters[d].echoRaid != 0 {
          assert MappingOk(s, d);
        }
      }
    }
  }

  // ---- Runs ----

  datatype Event =
    | Start(race: nat, instance: nat, outcome: Outcome, sizes: Sizes, free: bool, near: set<CreatureId>)
    | SpawnAttempt(r: RaidId, free: bool)
    | AuraTick(r: RaidId, near: set<CreatureId>)
    | Appear(race: nat, instance: nat)      // a monster of no raid
    | Vanish(c: CreatureId)
    | Cleanup(r: RaidId)

  /** validateConfig refuses empty normal and influenced groups. */
  predicate Enabled(e: Event) { e.Start? ==> e.sizes.normal > 0 && e.sizes.influenced > 0 }

  function Next(s: State, e: Event): (t: State) {
    match e
    case Start(race, instance, outcome, sizes, free, near) =>
      Started(s, race, instance, outcome, BuildSpawnPlan(outcome, sizes), free, near)
    case SpawnAttempt(r, free) => Spawn(s, r, free)
    case AuraTick(r, near) => Aura(s, r, near)
    case Appear(race, instance) =>
      s.(monsters := s.monsters[s.nextCreature := Monster(race, instance, 0, 0, false)],
          nextCreature := s.nextCreature + 1)
    case Vanish(c) => Removed(s, c)
    case Cleanup(r) => CleanedUp(s, r)
  }

  lemma AppearKeeps(s: State, race: nat, instance: nat)
    requires Inv(s)
    ensures Inv(Next(s, Appear(race, instance)))
  {
    var t := Next(s, Appear(race, instance));
    IdsBelow(s);
    forall q | q in t.raids ensures RaidOk(t, q) {
      assert RaidOk(s, q);
    }
    forall c | c in t.creatureToRaid ensures MappingOk(t, c) {
      assert MappingOk(s, c);
    }
    forall c | c in t.monsters ensures MonsterOk(t, c) {
      if c != s.nextCreature {
        assert MonsterOk(s, c);
      }
    }
  }

  lemma NextKeeps(s: State, e: Event)
    requires Inv(s) && Enabled(e)
    ensures Inv(Next(s, e))
  {
    match e {
      case Start(race, instance, outcome, sizes, free, near) =>
        StartKeeps(s, race, instance, outcome, BuildSpawnPlan(outcome, sizes), free, near);
      case SpawnAttempt(r, free) => SpawnKeeps(s, r, free);
      case AuraTick(r, near) => AuraKeeps(s, r, near);
      case Appear(race, instance) => AppearKeeps(s, race, instance);
      case Vanish(c) => RemovedKeeps(s, c);
      case Cleanup(r) => CleanupKeeps(s, r);
    }
  }

  ghost predicate Run(states: seq<State>, events: seq<Event>) {
    && |states| == |events| + 1 && states[0] == INITIAL
    && forall k :: 0 <= k < |events| ==> Enabled(events[k]) && states[k + 1] == Next(states[k], events[k])
  }

  lemma {:induction false} RunKeeps(states: seq<State>, events: seq<Event>, k: nat)
    requires Run(states, events) && k <= |events|
    ensures Inv(states[k])
  {
    if k > 0 {
      RunKeeps(states, events, k - 1);
      NextKeeps(states[k - 1], events[k - 1]);
      assert states[k - 1 + 1] == Next(states[k - 1], events[k - 1]);
    }
  }

  /** creatureToRaid and the raids' lists are inverse to each other, and no stored raid is empty-handed. */
  lemma TablesAgree(states: seq<State>, events: seq<Event>, k: nat)
    requires Run(states, events) && k <= |events|
    ensures var s := states[k];
            && (forall c, r :: r in s.raids && c in s.raids[r].creatureIds ==>
                c in s.creatureToRaid && s.creatureToRaid[c] == r)
            && (forall c :: c in s.creatureToRaid ==>
                s.creatureToRaid[c] in s.raids && c in s.raids[s.creatureToRaid[c]].creatureIds)
            && (forall r :: r in s.raids ==> s.raids[r].creatureIds != {} || HasPendingSpawns(s.raids[r]))
            && (forall r :: r in s.raids ==> s.raids[r].plan == s.raids[r].spawned + Rest(s.raids[r]))
  {
    RunKeeps(states, events, k);
    var s := states[k];
    forall r | r in s.raids
      ensures (forall c :: c in s.raids[r].creatureIds ==> c in s.creatureToRaid && s.creatureToRaid[c] == r)
      ensures s.raids[r].creatureIds != {} || HasPendingSpawns(s.raids[r])
      ensures s.raids[r].plan == s.raids[r].spawned + Rest(s.raids[r])
    {
      assert RaidOk(s, r);
    }
    forall c | c in s.creatureToRaid
        ensures s.creatureToRaid[c] in s.raids && c in s.raids[s.creatureToRaid[c]].creatureIds {
      assert MappingOk(s, c);
    }
  }

  /**
   Main result on protection: in every reachable state a live protected monster is on the list of
   exactly one stored raid, the one that owns it, and that raid's Warden is alive.
   */
  lemma ProtectedByLivingWarden(states: seq<State>, events: seq<Event>, k: nat, c: CreatureId)
    requires Run(states, events) && k <= |events| && c in states[k].monsters && states[k].monsters[c].wardOwner != 0
    ensures var s := states[k];
            var r := s.monsters[c].wardOwner;
            && r in s.raids && c in s.raids[r].protectedCreatureIds
            && (forall q :: q in s.raids && c in s.raids[q].protectedCreatureIds ==> q == r)
            && s.raids[r].wardenId in s.monsters && s.monsters[s.raids[r].wardenId].echoWarden
            && s.raids[r].wardenId in s.raids[r].creatureIds
  {
    RunKeeps(states, events, k);
    var s := states[k];
    assert MonsterOk(s, c);
    assert RaidOk(s, s.monsters[c].wardOwner);
    forall q | q in s.raids && c in s.raids[q].protectedCreatureIds ensures q == s.monsters[c].wardOwner {
      assert RaidOk(s, q);
    }
  }

  /** The kinds planned at the start are those the outcome calls for. */
  lemma PlanOfOutcome(s: State, e: Event)
    requires Inv(s) && Enabled(e) && e.Start?
    ensures s.nextRaid in Next(s, e).raids
    ensures var plan := Next(s, e).raids[s.nextRaid].plan;
            match e.outcome
            case NormalRaid => plan == seq(e.sizes.normal, _ => Ordinary)
            case InfluencedRaid => plan == seq(e.sizes.influenced, _ => Influenced)
            case WardenRaid =>
              plan == [Warden] + seq(e.sizes.wardenNormal, _ => Ordinary)
                      + seq(e.sizes.wardenInfluenced, _ => Influenced)
  {
  }

  /** A start adds this raid, with its first monster if the tile is free, and leaves the other raids alone. */
  lemma StartExact(s: State, e: Event)
    requires Inv(s) && Enabled(e) && e.Start?
    ensures var t, r := Next(s, e), s.nextRaid;
            && t.raids.Keys == s.raids.Keys + {r} && t.nextRaid == r + 1
            && (forall q :: q in s.raids ==> t.raids[q] == s.raids[q])
            && t.raids[r].id == r && t.raids[r].race == e.race && t.raids[r].instance == e.instance
            && t.raids[r].spawned == (if e.free then t.raids[r].plan[..1] else [])
            && t.raids[r].creatureIds == (if e.free then {s.nextCreature} else {})
            && t.creatureToRaid == (if e.free then s.creatureToRaid[s.nextCreature := r] else s.creatureToRaid)
  {
    IdsBelow(s);
    var pending, r := BuildSpawnPlan(e.outcome, e.sizes), s.nextRaid;
    var base := Raid(r, e.race, e.instance, e.outcome.WardenRaid?, pending, 0, {}, {}, [], []);
    var u := s.(raids := s.raids[r := base.(plan := Rest(base))], nextRaid := r + 1);
    AddRaidKeeps(s, e.race, e.instance, e.outcome.WardenRaid?, pending);
    FirstSpawn(u, r, e.free);
    AuraLeaves(Spawn(u, r, e.free), r, e.near);
  }

  /** The aura of a Warden that came at once works from the start; no other start protects anything. */
  lemma StartProtects(s: State, e: Event, c: CreatureId)
    requires Inv(s) && Enabled(e) && e.Start?
    ensures s.nextRaid in Next(s, e).raids
    ensures c in Next(s, e).raids[s.nextRaid].protectedCreatureIds <==>
            && e.outcome.WardenRaid? && e.free && c in e.near && c in s.monsters
            && s.monsters[c].race == e.race && s.monsters[c].instance == e.instance
            && s.monsters[c].echoRaid == 0 && s.monsters[c].wardOwner == 0
  {
    IdsBelow(s);
    var pending, r := BuildSpawnPlan(e.outcome, e.sizes), s.nextRaid;
    var base := Raid(r, e.race, e.instance, e.outcome.WardenRaid?, pending, 0, {}, {}, [], []);
    var u := s.(raids := s.raids[r := base.(plan := Rest(base))], nextRaid := r + 1);
    AddRaidKeeps(s, e.race, e.instance, e.outcome.WardenRaid?, pending);
    NotOfNewRaid(s, c);
    FirstProtects(u, r, e.free, e.near, e.outcome.WardenRaid?, c);
  }

  lemma NotOfNewRaid(s: State, c: CreatureId)
    requires Inv(s)
    ensures c in s.monsters ==> c < s.nextCreature
    ensures c in s.monsters ==> s.monsters[c].echoRaid != s.nextRaid && s.monsters[c].wardOwner != s.nextRaid
  {
    IdsBelow(s);
    if c in s.monsters {
      assert MonsterOk(s, c);
      assert s.monsters[c].echoRaid != 0 ==> MappingOk(s, c);
    }
  }

  /** The first spawn and the first aura of raid r. */
  lemma FirstProtects(u: State, r: RaidId, free: bool, near: set<CreatureId>, warden: bool, c: CreatureId)
    requires Inv(u) && r in u.raids && u.raids[r].protectedCreatureIds == {} && u.raids[r].wardenId == 0
    requires Rest(u.raids[r]) != [] && warden == u.raids[r].wardenPending
    requires c in u.monsters ==>
               c < u.nextCreature && u.monsters[c].echoRaid != r && u.monsters[c].wardOwner != r
    ensures var t := Spawn(u, r, free);
            r in t.raids && r in (if warden then Aura(t, r, near) else t).raids
    ensures var t := Spawn(u, r, free);
            c in (if warden then Aura(t, r, near) else t).raids[r].protectedCreatureIds <==>
            && warden && free && c in near && c in u.monsters
            && u.monsters[c].race == u.raids[r].race && u.monsters[c].instance == u.raids[r].instance
            && u.monsters[c].echoRaid == 0 && u.monsters[c].wardOwner == 0
  {
    SpawnExact(u, r, free);
    SpawnKeeps(u, r, free);
    var t := Spawn(u, r, free);
    if warden && free {
      RestMoves(u, r);
      AuraExact(t, r, near);
    }
  }

  lemma FirstSpawn(u: State, r: RaidId, free: bool)
    requires Inv(u) && r in u.raids && u.raids[r].spawned == [] && u.raids[r].creatureIds == {}
    requires u.raids[r].plan == Rest(u.raids[r]) != []
    ensures Inv(Spawn(u, r, free))
    ensures var t := Spawn(u, r, free);
            && t.nextRaid == u.nextRaid && r in t.raids && t.raids == u.raids[r := t.raids[r]]
            && t.raids[r].id == u.raids[r].id && t.raids[r].plan == u.raids[r].plan
            && t.raids[r].race == u.raids[r].race && t.raids[r].instance == u.raids[r].instance
            && t.raids[r].spawned == (if free then t.raids[r].plan[..1] else [])
            && t.raids[r].creatureIds == (if free then {u.nextCreature} else {})
            && t.creatureToRaid == (if free then u.creatureToRaid[u.nextCreature := r] else u.creatureToRaid)
  {
    SpawnExact(u, r, free);
    SpawnKeeps(u, r, free);
  }

  lemma AuraLeaves(s: State, r: RaidId, near: set<CreatureId>)
    requires Inv(s) && r in s.raids
    ensures var t := Aura(s, r, near);
            && r in t.raids && t == s.(monsters := t.monsters, raids := t.raids)
            && t.raids == s.raids[r := s.raids[r].(protectedCreatureIds := t.raids[r].protectedCreatureIds)]
  {
    if s.raids[r].wardenId != 0 {
      AuraExact(s, r, near);
    }
  }

  /** Marking as one goes does not change who else is eligible. */
  lemma MarkStep(s: State, raid: Raid, done: set<CreatureId>, c: CreatureId, monsters: map<CreatureId, Monster>)
    requires monsters == Protect(s.monsters, ProtectedNow(s, raid, done), raid.id)
    ensures Eligible(s.(monsters := monsters), raid, c) <==> Eligible(s, raid, c)
    ensures ProtectedNow(s, raid, done + {c}) == ProtectedNow(s, raid, done) + if Eligible(s, raid, c) then {c} else {}
    ensures Eligible(s, raid, c) ==>
              monsters[c := monsters[c].(wardOwner := raid.id)] ==
                  Protect(s.monsters, ProtectedNow(s, raid, done + {c}), raid.id)
  {
  }

  // ---- The manager object ----

  class EchoRaidManager {
    var raids: map<RaidId, Raid>
    var creatureToRaid: map<CreatureId, RaidId>
    var monsters: map<CreatureId, Monster>
    var nextRaid: RaidId
    var nextCreature: CreatureId

    ghost function View(): (s: State)
      reads this
    {
      State(raids, creatureToRaid, monsters, nextRaid, nextCreature)
    }

    constructor ()
      ensures View() == INITIAL && Inv(View())
    {
      raids, creatureToRaid, monsters, nextRaid, nextCreature := map[], map[], map[], 1, 1;
    }

    method Pick(ids: set<nat>) returns (c: nat)
      requires ids != {}
      ensures c in ids
    {
      EmptyOrNot(ids);
      c :| c in ids;
    }

    /** Takes the protection of raid r from every listed live monster that r owns. */
    method Release(ids: set<CreatureId>, r: RaidId)
      modifies this`monsters
      ensures monsters == Unprotect(old(monsters), ids, r)
    {
      var rest := ids;
      while rest != {}
        invariant rest <= ids
        invariant monsters == Unprotect(old(monsters), ids - rest, r)
        decreases |rest|
      {
        var c := Pick(rest);
        if c in monsters && monsters[c].wardOwner == r {
          monsters := monsters[c := monsters[c].(wardOwner := 0)];
        }
        rest := rest - {c};
        assert ids - rest == (ids - (rest + {c})) + {c};
      }
      assert ids - rest == ids;
    }

    method ClearWardenProtection(r: RaidId)
      requires r in raids
      modifies this`monsters, this`raids
      ensures View() == Cleared(old(View()), r)
    {
      Release(raids[r].protectedCreatureIds, r);
      raids := raids[r := raids[r].(protectedCreatureIds := {})];
    }

    method UpdateWardenAura(r: RaidId, near: set<CreatureId>)
      requires r in raids && raids[r].id == r
      modifies this`monsters, this`raids
      ensures View() == AuraUpdated(old(View()), r, near)
    {
      var raid := raids[r];
      if raid.wardenId !in monsters || !monsters[raid.wardenId].echoWarden {
        ClearWardenProtection(r);
        raids := raids[r := raids[r].(wardenId := 0)];
        return;
      }
      var protectedNow := MarkNear(raid, near);
      Release(raid.protectedCreatureIds - protectedNow, r);
      raids := raids[r := raid.(protectedCreatureIds := protectedNow)];
    }

    /** The monsters in range are looked at one by one; each is judged and marked at once. */
    method MarkNear(raid: Raid, near: set<CreatureId>) returns (protectedNow: set<CreatureId>)
      modifies this`monsters
      ensures protectedNow == ProtectedNow(old(View()), raid, near)
      ensures monsters == Protect(old(monsters), protectedNow, raid.id)
    {
      ghost var s := View();
      protectedNow := {};
      var rest := near;
      while rest != {}
        invariant rest <= near && View() == s.(monsters := monsters)
        invariant protectedNow == ProtectedNow(s, raid, near - rest)
        invariant monsters == Protect(s.monsters, protectedNow, raid.id)
        decreases |rest|
      {
        var c := Pick(rest);
        protectedNow := MarkNext(raid, c, protectedNow, s, near - rest);
        assert near - (rest - {c}) == near - rest + {c};
        rest := rest - {c};
      }
      assert near - rest == near;
    }

    method MarkNext(raid: Raid, c: CreatureId, before: set<CreatureId>, ghost s: State, ghost done: set<CreatureId>)
      returns (after: set<CreatureId>)
      requires View() == s.(monsters := monsters)
      requires before == ProtectedNow(s, raid, done) && monsters == Protect(s.monsters, before, raid.id)
      modifies this`monsters
      ensures View() == s.(monsters := monsters)
      ensures after == ProtectedNow(s, raid, done + {c}) && monsters == Protect(s.monsters, after, raid.id)
    {
      MarkStep(s, raid, done, c, monsters);
      var marked := MarkOne(raid, c);
      after := if marked then before + {c} else before;
    }

    method MarkOne(raid: Raid, c: CreatureId) returns (marked: bool)
      modifies this`monsters
      ensures marked == Eligible(old(View()), raid, c)
      ensures monsters == if marked then old(monsters)[c := old(monsters)[c].(wardOwner := raid.id)] else old(monsters)
    {
      if c !in monsters || c == raid.wardenId {
        return false;
      }
      var monster := monsters[c];
      if monster.instance != raid.instance || monster.race != raid.race {
        return false;
      }
      if (monster.echoRaid != 0 && monster.echoRaid != raid.id) ||
          (monster.wardOwner != 0 && monster.wardOwner != raid.id) {
        return false;
      }
      monsters := monsters[c := monster.(wardOwner := raid.id)];
      return true;
    }

    method OnCreatureRemoved(c: CreatureId)
      modifies this
      ensures View() == Forgotten(old(View()), c)
    {
      if c !in creatureToRaid {
        return;
      }
      var r := creatureToRaid[c];
      creatureToRaid := creatureToRaid - {c};
      if r !in raids {
        return;
      }
      raids := raids[r := raids[r].(creatureIds := raids[r].creatureIds - {c},
          protectedCreatureIds := raids[r].protectedCreatureIds - {c})];
      if raids[r].wardenId == c {
        raids := raids[r := raids[r].(wardenId := 0, wardenPending := false)];
        ClearWardenProtection(r);
      }
      if raids[r].creatureIds == {} && !HasPendingSpawns(raids[r]) {
        raids := raids - {r};
      }
    }

    /** Extracts the record first, so the removals it causes find nothing to do. */
    method CleanupRaid(r: RaidId)
      requires Inv(View())
      modifies this
      ensures View() == CleanedUp(old(View()), r) && Inv(View())
    {
      CleanupKeeps(View(), r);
      if r !in raids {
        return;
      }
      var raid := raids[r];
      raids := raids - {r};
      creatureToRaid := creatureToRaid - raid.creatureIds;
      Release(raid.protectedCreatureIds, r);
      RemoveAll(raid.creatureIds);
    }

    /** Removes unmapped creatures from the game; their removal events change nothing more. */
    method RemoveAll(ids: set<CreatureId>)
      requires creatureToRaid.Keys !! ids
      modifies this
      ensures View() == old(View()).(monsters := old(monsters) - ids)
    {
      var rest := ids;
      while rest != {}
        invariant rest <= ids
        invariant View() == old(View()).(monsters := old(monsters) - (ids - rest))
        decreases |rest|
      {
        var c := Pick(rest);
        if c in monsters {
          monsters := monsters - {c};
          OnCreatureRemoved(c);
        }
        assert ids - (rest - {c}) == (ids - rest) + {c};
        rest := rest - {c};
      }
      assert ids - rest == ids;
    }
  }
}

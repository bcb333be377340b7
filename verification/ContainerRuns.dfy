/** Every sequence of container mutations keeps the forest acyclic and its caches right. */
module ContainerRuns {
  import opened Basics
  import opened ContainerForest
  import opened ContainerOps

  // ---- The mutators ----

  /** Container::updateAmmoCount: 32-bit addition, subtraction that stops at zero. */
  function UpdateAmmo(ammoCount: nat, item: Item, diff: int): (r: nat) {
    if !item.kind.ammo || diff == 0 then ammoCount
    else if diff > 0 then (ammoCount + diff) % WORD
    else ammoCount - Min(ammoCount, -diff)
  }

  /** The replaced item leaves the count, then the new one enters it. */
  function SwapAmmo(ammoCount: nat, y: Item, x: Item): (r: nat) {
    UpdateAmmo(UpdateAmmo(ammoCount, y, 0 - y.count), x, x.count)
  }

  /** The count Item::setSubType leaves behind; fluids and charges go to an attribute instead. */
  function SubTypeCount(kind: ItemType, count: nat, n: nat): (r: nat) {
    if kind.fluid then count
    else if kind.stackable then n % 256
    else if kind.charges then count
    else n % 256
  }

  /** removeThing's new count: the 32-bit difference read as signed, not below zero, cut to a byte. */
  function CountAfter(count: nat, removed: nat): (r: nat) {
    var d := (count - removed) % WORD;
    if d >= WORD / 2 then 0 else d % 256
  }

  /** Write the new ammunition count at path[0], then add the weight difference along the chain. */
  ghost function Settled(f: Forest, path: seq<Id>, diff: int, ammo: nat): (g: Forest)
    requires path != [] && forall k :: 0 <= k < |path| ==> path[k] in f
  {
    AddAlong(SetAmmo(f, path[0], ammo), path, diff)
  }

  ghost function AddThing(f: Forest, c: Id, k: nat, x: Id): (g: Forest)
    requires Acyclic(f) && c in f && x in f && x != c && k <= |f[c].contents|
  {
    Settled(Insert(f, c, k, x), ChainOf(f, c), Weight(f[x]), UpdateAmmo(f[c].ammoCount, f[x], f[x].count))
  }

  ghost function Change(f: Forest, c: Id, x: Id, kind: ItemType, count: nat, ammo: nat): (g: Forest)
    requires Acyclic(f) && c in f && x in f
  {
    Settled(Retype(f, x, kind, count), ChainOf(f, c), Weight(f[x].(kind := kind, count := count)) - Weight(f[x]), ammo)
  }

  ghost function UpdateThing(f: Forest, c: Id, x: Id, kind: ItemType, n: nat): (g: Forest)
    requires Acyclic(f) && c in f && x in f
  {
    var count := SubTypeCount(kind, f[x].count, n);
    Change(f, c, x, kind, count, SwapAmmo(f[c].ammoCount, f[x], f[x].(kind := kind, count := count)))
  }

  ghost function ReplaceThing(f: Forest, c: Id, k: nat, x: Id): (g: Forest)
    requires Linked(f) && Acyclic(f) && c in f && x in f && x != c && k < |f[c].contents|
  {
    var y := f[c].contents[k];
    EraseLinked(f, ChainOf(f, c), k);
    Settled(Insert(Erase(f, c, k), c, k, x), ChainOf(f, c), Weight(f[x]) - Weight(f[y]),
            SwapAmmo(f[c].ammoCount, f[y], f[x]))
  }

  ghost function RemoveThing(f: Forest, c: Id, k: nat, removed: nat): (g: Forest)
    requires Linked(f) && Acyclic(f) && c in f && k < |f[c].contents|
  {
    var x := f[c].contents[k];
    EraseLinked(f, ChainOf(f, c), k);
    if f[x].kind.stackable && removed != f[x].count then
      var count := CountAfter(f[x].count, removed);
      Change(f, c, x, f[x].kind, count, UpdateAmmo(f[c].ammoCount, f[x], count - f[x].count))
    else TakenOut(f, c, k)
  }

  ghost function TakenOut(f: Forest, c: Id, k: nat): (g: Forest)
    requires Linked(f) && Acyclic(f) && c in f && k < |f[c].contents|
  {
    var x := f[c].contents[k];
    EraseLinked(f, ChainOf(f, c), k);
    Settled(Erase(f, c, k), ChainOf(f, c), 0 - Weight(f[x]), UpdateAmmo(f[c].ammoCount, f[x], 0 - f[x].count))
  }

  // ---- Each of them keeps the invariant ----

  /** The discrepancies of a forest in which everything is right. */
  lemma NothingOff(f: Forest, c: Id)
    requires Inv(f) && c in f && f[c].container
    ensures OffBy(f, ChainOf(f, c), 0) && AmmoOffBy(f, c, 0)
  {
    assert BoxOk(f, c) && WeightOk(f, c) && AmmoOk(f, c);
  }

  /** Writing the ammunition count and adding the weight along the chain settles both. */
  lemma Settle(f: Forest, path: seq<Id>, diff: int, ammoDiff: int, ammo: nat)
    requires OffBy(f, path, diff) && AmmoOffBy(f, path[0], ammoDiff) && Acyclic(f)
    requires ammo == f[path[0]].ammoCount + ammoDiff
    ensures Inv(Settled(f, path, diff, ammo))
  {
    var g := SetAmmo(f, path[0], ammo);
    SetAmmoOffBy(f, path, diff, ammoDiff, ammo);
    var h := AddAlong(g, path, diff);
    AddAlongRepairs(g, path, diff);
    AddAlongReweighs(g, path, diff);
    ReweighedAmmo(g, h);
  }

  lemma SetAmmoOffBy(f: Forest, path: seq<Id>, diff: int, ammoDiff: int, ammo: nat)
    requires OffBy(f, path, diff) && AmmoOffBy(f, path[0], ammoDiff)
    requires ammo == f[path[0]].ammoCount + ammoDiff
    ensures var g := SetAmmo(f, path[0], ammo);
            OffBy(g, path, diff) && AmmoCached(g) && (Acyclic(f) ==> Acyclic(g))
  {
    var c := path[0];
    var g := SetAmmo(f, c, ammo);
    forall b | b in g ensures BoxOk(g, b) && PlaceOk(g, b) {
      assert BoxOk(f, b) && PlaceOk(f, b);
    }
    forall b | b in g ensures b != c ==> WeightOk(g, b)
                      ensures AmmoOk(g, b)
    {
      assert BoxOk(f, b) && (b != c ==> WeightOk(f, b) && AmmoOk(f, b));
      SumsAgree(f, g, f[b].contents);
    }
    SumsAgree(f, g, f[c].contents);
    ChainAvoidsNothing(f, g);
    assert Chain(g, path);
  }

  lemma ChainAvoidsNothing(f: Forest, g: Forest)
    requires f.Keys == g.Keys && forall z :: z in f ==> g[z].parent == f[z].parent
    ensures Acyclic(f) ==> Acyclic(g)
  {
    if Acyclic(f) {
      forall z | z in g ensures HasChain(g, z) {
        assert Chain(g, ChainOf(f, z));
      }
    }
  }

  /** Direct ammunition is at least what one listed item contributes. */
  lemma AmmoAtLeast(f: Forest, s: seq<Id>, k: nat)
    requires Members(f, s) && k < |s|
    ensures s[k] in f && AmmoSum(f, s) >= Ammo(f[s[k]])
  {
    SumsSplit(f, s, k);
  }

  lemma InsertAcyclic(f: Forest, path: seq<Id>, k: nat, x: Id)
    requires Acyclic(f) && MayEnter(f, path, x) && k <= |f[path[0]].contents|
    ensures Acyclic(Insert(f, path[0], k, x))
  {
    ChainUnique(f, path, ChainOf(f, path[0]));
    AttachChains(f, Insert(f, path[0], k, x), x, path[0]);
  }

  lemma AddThingKeeps(f: Forest, c: Id, k: nat, x: Id)
    requires Inv(f) && c in f && k <= |f[c].contents| && MayEnter(f, ChainOf(f, c), x)
    requires f[c].ammoCount + Ammo(f[x]) < WORD
    ensures Inv(AddThing(f, c, k, x))
  {
    var path := ChainOf(f, c);
    NothingOff(f, c);
    InsertOffBy(f, path, k, x, 0, 0);
    InsertAcyclic(f, path, k, x);
    Settle(Insert(f, c, k, x), path, Weight(f[x]), Ammo(f[x]), UpdateAmmo(f[c].ammoCount, f[x], f[x].count));
  }

  /** What one listed item contributes is part of the cached count. */
  lemma AmmoListed(f: Forest, c: Id, k: nat)
    requires Inv(f) && c in f && k < |f[c].contents|
    ensures f[c].container && f[c].contents[k] in f && f[c].contents[k] != c
    ensures Ammo(f[f[c].contents[k]]) <= f[c].ammoCount
  {
    assert BoxOk(f, c) && AmmoOk(f, c);
    NotOwnChild(f, ChainOf(f, c));
    AmmoAtLeast(f, f[c].contents, k);
  }

  lemma ChangeKeeps(f: Forest, c: Id, k: nat, x: Id, kind: ItemType, count: nat, ammo: nat)
    requires Inv(f) && c in f && k < |f[c].contents| && f[c].contents[k] == x && x in f && f[c].container
    requires ammo == f[c].ammoCount - Ammo(f[x]) + Ammo(f[x].(kind := kind, count := count))
    ensures Inv(Change(f, c, x, kind, count, ammo))
  {
    var path := ChainOf(f, c);
    NothingOff(f, c);
    RetypeOffBy(f, path, x, kind, count, 0, 0);
    var g := Retype(f, x, kind, count);
    ChainAvoidsNothing(f, g);
    var x' := f[x].(kind := kind, count := count);
    Settle(g, path, Weight(x') - Weight(f[x]), Ammo(x') - Ammo(f[x]), ammo);
  }

  lemma UpdateThingKeeps(f: Forest, c: Id, k: nat, x: Id, kind: ItemType, n: nat)
    requires Inv(f) && c in f && k < |f[c].contents| && f[c].contents[k] == x && x in f
    requires f[c].ammoCount - Ammo(f[x]) + Ammo(f[x].(kind := kind, count := SubTypeCount(kind, f[x].count, n))) < WORD
    ensures Inv(UpdateThing(f, c, x, kind, n))
  {
    var count := SubTypeCount(kind, f[x].count, n);
    var x' := f[x].(kind := kind, count := count);
    AmmoListed(f, c, k);
    SwapAmmoExact(f[c].ammoCount, f[x], x');
    ChangeKeeps(f, c, k, x, kind, count, SwapAmmo(f[c].ammoCount, f[x], x'));
  }

  /** Within 32 bits, updateAmmoCount adds the difference for ammunition and nothing otherwise. */
  lemma UpdateAmmoExact(ammoCount: nat, item: Item, diff: int)
    requires item.kind.ammo ==> 0 <= ammoCount + diff < WORD
    ensures UpdateAmmo(ammoCount, item, diff) == ammoCount + if item.kind.ammo then diff else 0
  {
  }

  lemma ReplaceOffBy(f: Forest, path: seq<Id>, k: nat, x: Id, y: Id)
    requires Inv(f) && MayEnter(f, path, x) && k < |f[path[0]].contents| && f[path[0]].contents[k] == y
    ensures y in f && y != path[0] && y != x
    ensures var g := Insert(Erase(f, path[0], k), path[0], k, x);
            && OffBy(g, path, Weight(f[x]) - Weight(f[y]))
            && AmmoOffBy(g, path[0], Ammo(f[x]) - Ammo(f[y]))
            && Acyclic(g) && g[path[0]].ammoCount == f[path[0]].ammoCount
  {
    var c := path[0];
    ChainUnique(f, path, ChainOf(f, c));
    NothingOff(f, c);
    EraseOffBy(f, path, k, y, 0, 0);
    var e := Erase(f, c, k);
    DetachChains(f, e, y);
    StillLoose(f, path, k, x);
    InsertOffBy(e, path, k, x, 0 - Weight(f[y]), 0 - Ammo(f[y]));
    InsertAcyclic(e, path, k, x);
  }

  lemma ReplaceThingKeeps(f: Forest, c: Id, k: nat, x: Id)
    requires Inv(f) && c in f && k < |f[c].contents| && MayEnter(f, ChainOf(f, c), x)
    requires f[c].contents[k] in f && f[c].ammoCount - Ammo(f[f[c].contents[k]]) + Ammo(f[x]) < WORD
    ensures Inv(ReplaceThing(f, c, k, x))
  {
    var path := ChainOf(f, c);
    var y := f[c].contents[k];
    AmmoListed(f, c, k);
    ReplaceOffBy(f, path, k, x, y);
    SwapAmmoExact(f[c].ammoCount, f[y], f[x]);
    Settle(Insert(Erase(f, c, k), c, k, x), path, Weight(f[x]) - Weight(f[y]), Ammo(f[x]) - Ammo(f[y]),
           SwapAmmo(f[c].ammoCount, f[y], f[x]));
  }

  lemma SwapAmmoExact(ammoCount: nat, y: Item, x: Item)
    requires Ammo(y) <= ammoCount && ammoCount - Ammo(y) + Ammo(x) < WORD
    ensures SwapAmmo(ammoCount, y, x) == ammoCount + (Ammo(x) - Ammo(y))
  {
    UpdateAmmoExact(ammoCount, y, 0 - y.count);
    UpdateAmmoExact(UpdateAmmo(ammoCount, y, 0 - y.count), x, x.count);
  }

  /** Taking an item out leaves another loose item as it was. */
  lemma StillLoose(f: Forest, path: seq<Id>, k: nat, x: Id)
    requires Linked(f) && MayEnter(f, path, x) && k < |f[path[0]].contents|
    ensures var y := f[path[0]].contents[k];
            && y in f && y != path[0] && y != x
            && MayEnter(Erase(f, path[0], k), path, x) && Erase(f, path[0], k)[x] == f[x]
  {
    var y := f[path[0]].contents[k];
    assert BoxOk(f, path[0]) && y in f[path[0]].contents;
    EraseLinked(f, path, k);
    ChainAvoids(f, Erase(f, path[0], k), y, path);
  }

  lemma TakeOutKeeps(f: Forest, c: Id, k: nat, x: Id)
    requires Inv(f) && c in f && k < |f[c].contents| && f[c].contents[k] == x && x in f && x != c
    ensures Inv(Settled(Erase(f, c, k), ChainOf(f, c), 0 - Weight(f[x]),
            UpdateAmmo(f[c].ammoCount, f[x], 0 - f[x].count)))
  {
    var path := ChainOf(f, c);
    AmmoListed(f, c, k);
    NothingOff(f, c);
    EraseOffBy(f, path, k, x, 0, 0);
    DetachChains(f, Erase(f, c, k), x);
    Settle(Erase(f, c, k), path, 0 - Weight(f[x]), 0 - Ammo(f[x]), UpdateAmmo(f[c].ammoCount, f[x], 0 - f[x].count));
  }

  lemma RemoveThingKeeps(f: Forest, c: Id, k: nat, x: Id, removed: nat)
    requires Inv(f) && c in f && k < |f[c].contents| && f[c].contents[k] == x && x in f
    requires f[x].kind.ammo ==> f[c].ammoCount - f[x].count + CountAfter(f[x].count, removed) < WORD
    ensures Inv(RemoveThing(f, c, k, removed))
  {
    AmmoListed(f, c, k);
    var count := CountAfter(f[x].count, removed);
    if f[x].kind.stackable && removed != f[x].count {
      UpdateAmmoExact(f[c].ammoCount, f[x], count - f[x].count);
      ChangeKeeps(f, c, k, x, f[x].kind, count, UpdateAmmo(f[c].ammoCount, f[x], count - f[x].count));
    } else {
      TakeOutKeeps(f, c, k, x);
    }
  }
}

/**
 The container object itself (src/container.cpp): every item of the game lives in one store,
 and the methods below update it step by step, in the order the source does.
 */
module ContainerStore {
  import opened Basics
  import opened ContainerForest
  import opened ContainerOps
  import opened ContainerRuns
  import opened ContainerEffects

  datatype ReturnValue =
    | NoError | NotPossible | CannotPickup | ThisIsImpossible | NotEnoughRoom
    | OtherRefusal(code: nat)

  /**
   What queryAdd asks of its surroundings: flags, item properties, house rules. `early` is the first
   refusal among the store-item, corpse and quiver rules, `late` that of house rules and the top parent.
   */
  datatype Circumstances = Circumstances(
    browseField: bool, childIsOwner: bool, pickupable: bool,
    early: ReturnValue, hasRoom: bool, late: ReturnValue)

  /** Whoever is named as a parent is a container. */
  ghost predicate ParentsAreContainers(f: Forest) {
    forall x :: x in f && f[x].parent.Inside? ==> f[x].parent.box in f && f[f[x].parent.box].container
  }

  lemma LinkedParents(f: Forest)
    requires Linked(f)
    ensures ParentsAreContainers(f)
  {
    forall x | x in f && f[x].parent.Inside? ensures f[x].parent.box in f && f[f[x].parent.box].container {
      assert PlaceOk(f, x) && BoxOk(f, f[x].parent.box);
    }
  }

  /** The forest with `diff` added to the cached weight of every item on the path. */
  ghost function Bumped(f: Forest, path: seq<Id>, diff: int): (g: Forest)
    ensures g.Keys == f.Keys
  {
    map z | z in f :: f[z].(totalWeight := f[z].totalWeight + if z in path then diff else 0)
  }

  /** Adding along a chain changes the cached weights on it, each once, and nothing else. */
  lemma {:induction false} AddAlongPointwise(f: Forest, path: seq<Id>, diff: int)
    requires NoDuplicates(path) && forall k :: 0 <= k < |path| ==> path[k] in f
    ensures AddAlong(f, path, diff) == Bumped(f, path, diff)
    decreases path
  {
    if path != [] {
      assert forall k :: 0 <= k < |path[1..]| ==> path[1..][k] == path[k + 1];
      AddAlongPointwise(AddWeight(f, path[0], diff), path[1..], diff);
      assert path == [path[0]] + path[1..] && path[0] !in path[1..];
      BumpedFirst(f, path[0], path[1..], diff);
    }
  }

  lemma BumpedFirst(f: Forest, c: Id, rest: seq<Id>, diff: int)
    requires c in f && c !in rest
    ensures Bumped(AddWeight(f, c, diff), rest, diff) == Bumped(f, [c] + rest, diff)
  {
  }

  lemma ReweighedAcyclic(f: Forest, g: Forest, c: Id)
    requires Reweighed(f, g) && Acyclic(f) && c in f
    ensures Acyclic(g) && ChainOf(g, c) == ChainOf(f, c)
  {
    forall z | z in g ensures HasChain(g, z) {
      ReweighedChain(f, g, ChainOf(f, z));
    }
    ReweighedChain(f, g, ChainOf(f, c));
    ChainUnique(g, ChainOf(g, c), ChainOf(f, c));
  }

  /** The chain of c is the same once a loose item outside it is attached to c. */
  lemma AttachedChain(f: Forest, g: Forest, x: Id, c: Id)
    requires Acyclic(f) && Attached(f, g, x, c) && x !in ChainOf(f, c)
    ensures Acyclic(g) && ChainOf(g, c) == ChainOf(f, c)
  {
    AttachChains(f, g, x, c);
    ChainAvoids(f, g, x, ChainOf(f, c));
    ChainUnique(g, ChainOf(g, c), ChainOf(f, c));
  }

  lemma SameParentsChain(f: Forest, g: Forest, c: Id)
    requires Acyclic(f) && c in f && f.Keys == g.Keys && forall z :: z in f ==> g[z].parent == f[z].parent
    ensures Acyclic(g) && ChainOf(g, c) == ChainOf(f, c)
  {
    ChainAvoidsNothing(f, g);
    assert Chain(g, ChainOf(f, c));
    ChainUnique(g, ChainOf(g, c), ChainOf(f, c));
  }

  /** The chain above c is there and updateItemWeight can climb it. */
  ghost predicate CanClimb(f: Forest, c: Id, path: seq<Id>) {
    Acyclic(f) && ParentsAreContainers(f) && c in f && ChainOf(f, c) == path
  }

  lemma LinkedClimbs(f: Forest, c: Id)
    requires Linked(f) && Acyclic(f) && c in f
    ensures CanClimb(f, c, ChainOf(f, c))
  {
    LinkedParents(f);
  }

  lemma EnteredClimbs(f: Forest, c: Id, k: nat, x: Id, ammo: nat)
    requires Linked(f) && Acyclic(f) && c in f && MayEnter(f, ChainOf(f, c), x) && k <= |f[c].contents|
    ensures CanClimb(SetAmmo(Insert(f, c, k, x), c, ammo), c, ChainOf(f, c))
  {
    LinkedParents(f);
    var g := Insert(f, c, k, x);
    AttachedChain(f, g, x, c);
    SameParentsChain(g, SetAmmo(g, c, ammo), c);
  }

  lemma RetypedClimbs(f: Forest, c: Id, x: Id, kind: ItemType, count: nat, ammo: nat)
    requires Linked(f) && Acyclic(f) && c in f && x in f
    ensures CanClimb(SetAmmo(Retype(f, x, kind, count), c, ammo), c, ChainOf(f, c))
  {
    LinkedParents(f);
    SameParentsChain(f, SetAmmo(Retype(f, x, kind, count), c, ammo), c);
  }

  /** The list entry overwritten and the new parent set, before anything else. */
  function Overwrite(f: Forest, c: Id, k: nat, x: Id): (g: Forest)
    requires c in f && x in f && x != c && k < |f[c].contents|
  {
    f[c := f[c].(contents := f[c].contents[k := x])][x := f[x].(parent := Inside(c))]
  }

  /** Lists and parents do not count for the weight an item reports. */
  lemma OverwriteWeight(f: Forest, c: Id, k: nat, x: Id, z: Id)
    requires c in f && x in f && x != c && k < |f[c].contents| && z in f
    ensures Weight(Overwrite(f, c, k, x)[z]) == Weight(f[z])
  {
  }

  lemma OverwrittenClimbs(f: Forest, c: Id, k: nat, x: Id)
    requires Linked(f) && Acyclic(f) && c in f && MayEnter(f, ChainOf(f, c), x) && k < |f[c].contents|
    ensures CanClimb(Overwrite(f, c, k, x), c, ChainOf(f, c))
  {
    LinkedParents(f);
    AttachedChain(f, Overwrite(f, c, k, x), x, c);
  }

  function Leave(f: Forest, y: Id): (g: Forest)
    requires y in f
  {
    f[y := f[y].(parent := Nowhere)]
  }

  /** replaceThing's own order of writes. */
  ghost function ReplacedInPlace(f: Forest, c: Id, k: nat, x: Id, path: seq<Id>, diff: int, ammo: nat): (g: Forest)
    requires c in f && x in f && x != c && k < |f[c].contents| && f[c].contents[k] in f
  {
    Leave(SetAmmo(Bumped(Overwrite(f, c, k, x), path, diff), c, ammo), f[c].contents[k])
  }

  /** Writing weights, lists and parents does not change what the ammunition update sees. */
  lemma BumpedAmmo(f: Forest, c: Id, k: nat, x: Id, path: seq<Id>, diff: int)
    requires c in f && x in f && x != c && k < |f[c].contents| && f[c].contents[k] in f
    ensures var g := Bumped(Overwrite(f, c, k, x), path, diff);
            var y := f[c].contents[k];
            SwapAmmo(g[c].ammoCount, g[y], g[x]) == SwapAmmo(f[c].ammoCount, f[y], f[x])
  {
  }

  /** It ends in the same forest as erasing and inserting. */
  lemma ReplacedSame(f: Forest, c: Id, k: nat, x: Id, path: seq<Id>, diff: int, ammo: nat)
    requires c in f && k < |f[c].contents| && x in f && x != c
    requires f[c].contents[k] in f && f[c].contents[k] != c && f[c].contents[k] != x
    ensures ReplacedInPlace(f, c, k, x, path, diff, ammo)
         == Bumped(SetAmmo(Insert(Erase(f, c, k), c, k, x), c, ammo), path, diff)
  {
    EraseInsert(f, c, k, x);
    BumpedCommutes(Overwrite(f, c, k, x), c, f[c].contents[k], path, diff, ammo);
  }

  lemma EraseInsert(f: Forest, c: Id, k: nat, x: Id)
    requires c in f && k < |f[c].contents| && x in f && x != c
    requires f[c].contents[k] in f && f[c].contents[k] != c && f[c].contents[k] != x
    ensures Insert(Erase(f, c, k), c, k, x) == Leave(Overwrite(f, c, k, x), f[c].contents[k])
  {
    assert InsertAt(RemoveAt(f[c].contents, k), k, x) == f[c].contents[k := x];
  }

  lemma BumpedCommutes(f: Forest, c: Id, y: Id, path: seq<Id>, diff: int, ammo: nat)
    requires c in f && y in f && c != y
    ensures Leave(SetAmmo(Bumped(f, path, diff), c, ammo), y) == Bumped(SetAmmo(Leave(f, y), c, ammo), path, diff)
  {
    var a, b := Leave(SetAmmo(Bumped(f, path, diff), c, ammo), y), Bumped(SetAmmo(Leave(f, y), c, ammo), path, diff);
    assert a.Keys == b.Keys;
    forall z | z in f ensures a[z] == b[z] {
      CommutesAt(f, c, y, path, diff, ammo, z);
    }
  }

  lemma CommutesAt(f: Forest, c: Id, y: Id, path: seq<Id>, diff: int, ammo: nat, z: Id)
    requires c in f && y in f && c != y && z in f
    ensures Leave(SetAmmo(Bumped(f, path, diff), c, ammo), y)[z] == Bumped(SetAmmo(Leave(f, y), c, ammo), path, diff)[z]
  {
  }

  /** What Swap needs to know of the forest it starts from. */
  ghost predicate Swappable(f: Forest, c: Id, k: nat, x: Id, path: seq<Id>) {
    && c in f && k < |f[c].contents| && x in f && x != c
    && f[c].contents[k] in f && f[c].contents[k] != c && f[c].contents[k] != x
    && CanClimb(Overwrite(f, c, k, x), c, path)
    && forall d {:trigger Bumped(Overwrite(f, c, k, x), path, d)} ::
         AddAlong(Overwrite(f, c, k, x), path, d) == Bumped(Overwrite(f, c, k, x), path, d)
  }

  lemma SwapStarts(f: Forest, c: Id, k: nat, x: Id)
    requires Linked(f) && Acyclic(f) && c in f && MayEnter(f, ChainOf(f, c), x) && k < |f[c].contents|
    ensures Swappable(f, c, k, x, ChainOf(f, c))
  {
    var path := ChainOf(f, c);
    OverwrittenClimbs(f, c, k, x);
    StillLoose(f, path, k, x);
    ChainNoDuplicates(f, path);
    forall d ensures AddAlong(Overwrite(f, c, k, x), path, d) == Bumped(Overwrite(f, c, k, x), path, d) {
      AddAlongPointwise(Overwrite(f, c, k, x), path, d);
    }
  }

  /** Settling after erasing and inserting is what the writes in place come to. */
  lemma SettledInPlace(f: Forest, c: Id, k: nat, x: Id, path: seq<Id>, diff: int, ammo: nat)
    requires c in f && k < |f[c].contents| && x in f && x != c
    requires f[c].contents[k] in f && f[c].contents[k] != c && f[c].contents[k] != x
    requires path != [] && path[0] == c && NoDuplicates(path) && forall i :: 0 <= i < |path| ==> path[i] in f
    ensures Settled(Insert(Erase(f, c, k), c, k, x), path, diff, ammo) == ReplacedInPlace(f, c, k, x, path, diff, ammo)
  {
    ReplacedSame(f, c, k, x, path, diff, ammo);
    AddAlongPointwise(SetAmmo(Insert(Erase(f, c, k), c, k, x), c, ammo), path, diff);
  }

  lemma ReplacedSettles(f: Forest, c: Id, k: nat, x: Id)
    requires Linked(f) && Acyclic(f) && c in f && MayEnter(f, ChainOf(f, c), x) && k < |f[c].contents|
    ensures f[c].contents[k] in f && f[c].contents[k] != c
    ensures var y := f[c].contents[k];
            ContainerRuns.ReplaceThing(f, c, k, x)
            == ReplacedInPlace(f, c, k, x, ChainOf(f, c), Weight(f[x]) - Weight(f[y]),
                SwapAmmo(f[c].ammoCount, f[y], f[x]))
  {
    var path, y := ChainOf(f, c), f[c].contents[k];
    StillLoose(f, path, k, x);
    ChainNoDuplicates(f, path);
    SettledInPlace(f, c, k, x, path, Weight(f[x]) - Weight(f[y]), SwapAmmo(f[c].ammoCount, f[y], f[x]));
  }

  /** removeThing's own order of writes. */
  ghost function TakenOutInPlace(f: Forest, c: Id, k: nat, path: seq<Id>, diff: int, ammo: nat): (g: Forest)
    requires c in f && k < |f[c].contents| && f[c].contents[k] in f
  {
    Detached(Bumped(f, path, diff), c, k, ammo)
  }

  function Detached(f: Forest, c: Id, k: nat, ammo: nat): (g: Forest)
    requires c in f && k < |f[c].contents| && f[c].contents[k] in f
  {
    var h := Leave(SetAmmo(f, c, ammo), f[c].contents[k]);
    h[c := h[c].(contents := RemoveAt(f[c].contents, k))]
  }

  lemma TakenOutSame(f: Forest, c: Id, k: nat, path: seq<Id>, diff: int, ammo: nat)
    requires c in f && k < |f[c].contents| && f[c].contents[k] in f && f[c].contents[k] != c
    ensures TakenOutInPlace(f, c, k, path, diff, ammo) == Bumped(SetAmmo(Erase(f, c, k), c, ammo), path, diff)
  {
  }

  lemma TakenOutSettles(f: Forest, path: seq<Id>, k: nat, diff: int, ammo: nat)
    requires Linked(f) && Chain(f, path) && k < |f[path[0]].contents|
    ensures var y := f[path[0]].contents[k];
            && y in f && y != path[0]
            && AddAlong(f, path, diff) == Bumped(f, path, diff)
            && TakenOutInPlace(f, path[0], k, path, diff, ammo) == Settled(Erase(f, path[0], k), path, diff, ammo)
  {
    EraseLinked(f, path, k);
    ChainNoDuplicates(f, path);
    TakenOutSame(f, path[0], k, path, diff, ammo);
    AddAlongPointwise(f, path, diff);
    AddAlongPointwise(SetAmmo(Erase(f, path[0], k), path[0], ammo), path, diff);
  }

  /** What Detach needs to know of the forest it starts from. */
  ghost predicate Detachable(f: Forest, c: Id, k: nat, x: Id, path: seq<Id>) {
    && CanClimb(f, c, path) && k < |f[c].contents| && f[c].contents[k] == x && x in f && x != c
    && AddAlong(f, path, 0 - Weight(f[x])) == Bumped(f, path, 0 - Weight(f[x]))
  }

  lemma TakeOutStarts(f: Forest, c: Id, k: nat, x: Id)
    requires Linked(f) && Acyclic(f) && c in f && k < |f[c].contents| && f[c].contents[k] == x && x in f
    ensures Detachable(f, c, k, x, ChainOf(f, c))
  {
    LinkedClimbs(f, c);
    TakenOutSettles(f, ChainOf(f, c), k, 0 - Weight(f[x]), f[c].ammoCount);
  }

  lemma TakenOutIs(f: Forest, c: Id, k: nat, path: seq<Id>, diff: int, ammo: nat)
    requires Linked(f) && Acyclic(f) && c in f && k < |f[c].contents| && f[c].contents[k] in f
    requires path == ChainOf(f, c) && f[c].contents[k] != c && forall i :: 0 <= i < |path| ==> path[i] in f
    requires diff == 0 - Weight(f[f[c].contents[k]])
    requires ammo == UpdateAmmo(f[c].ammoCount, f[f[c].contents[k]], 0 - f[f[c].contents[k]].count)
    ensures TakenOut(f, c, k) == Settled(Erase(f, c, k), path, diff, ammo)
  {
  }

  lemma TakeOutSame(f: Forest, c: Id, k: nat, path: seq<Id>, diff: int, ammo: nat)
    requires Linked(f) && Acyclic(f) && c in f && k < |f[c].contents| && f[c].contents[k] in f && path == ChainOf(f, c)
    requires diff == 0 - Weight(f[f[c].contents[k]])
    requires ammo == UpdateAmmo(f[c].ammoCount, f[f[c].contents[k]], 0 - f[f[c].contents[k]].count)
    ensures TakenOutInPlace(f, c, k, path, diff, ammo) == TakenOut(f, c, k)
  {
    TakenOutSettles(f, path, k, diff, ammo);
    TakenOutIs(f, c, k, path, diff, ammo);
  }

  /** Detaching x from c comes to `result`. */
  ghost predicate DetachGives(f: Forest, c: Id, k: nat, x: Id, path: seq<Id>, result: Forest) {
    && Detachable(f, c, k, x, path)
    && TakenOutInPlace(f, c, k, path, 0 - Weight(f[x]), UpdateAmmo(f[c].ammoCount, f[x], 0 - f[x].count)) == result
  }

  lemma TakeOutGives(f: Forest, c: Id, k: nat, x: Id, path: seq<Id>)
    requires Linked(f) && Acyclic(f) && c in f && path == ChainOf(f, c)
    requires k < |f[c].contents| && f[c].contents[k] == x && x in f
    ensures DetachGives(f, c, k, x, path, TakenOut(f, c, k))
  {
    TakeOutStarts(f, c, k, x);
    TakeOutSame(f, c, k, path, 0 - Weight(f[x]), UpdateAmmo(f[c].ammoCount, f[x], 0 - f[x].count));
  }

  class Store {
    var items: Forest

    constructor ()
      ensures items == map[]
    {
      items := map[];
    }

    /** Adds to this container and calls itself on the container around it. */
    method UpdateItemWeight(c: Id, diff: int)
      requires Acyclic(items) && ParentsAreContainers(items) && c in items
      modifies this
      ensures items == AddAlong(old(items), ChainOf(old(items), c), diff)
      decreases |ChainOf(items, c)|
    {
      ghost var before, path := items, ChainOf(items, c);
      items := AddWeight(items, c, diff);
      ReweighedAcyclic(before, items, c);
      ChainNext(items, path);
      if items[c].parent.Inside? {
        var p := items[c].parent.box;
        if items[p].container {
          ChainUnique(items, ChainOf(items, p), path[1..]);
          UpdateItemWeight(p, diff);
        }
      } else {
        assert AddAlong(before, path, diff) == items;
      }
    }

    method UpdateAmmoCount(c: Id, x: Id, diff: int)
      requires c in items && x in items
      modifies this
      ensures items == SetAmmo(old(items), c, UpdateAmmo(old(items)[c].ammoCount, old(items)[x], diff))
    {
      var ammoCount := items[c].ammoCount;
      if items[x].kind.ammo && diff != 0 {
        ammoCount := if diff > 0 then (ammoCount + diff) % WORD else ammoCount - Min(ammoCount, -diff);
      }
      items := items[c := items[c].(ammoCount := ammoCount)];
    }

    method SwapAmmoCount(c: Id, y: Id, x: Id)
      requires c in items && x in items && y in items && x != c && y != c
      modifies this
      ensures items == SetAmmo(old(items), c, SwapAmmo(old(items)[c].ammoCount, old(items)[y], old(items)[x]))
    {
      UpdateAmmoCount(c, y, 0 - items[y].count);
      UpdateAmmoCount(c, x, items[x].count);
    }

    method SetParent(x: Id, place: Place)
      requires x in items
      modifies this
      ensures items == old(items)[x := old(items)[x].(parent := place)]
    {
      items := items[x := items[x].(parent := place)];
    }

    method SetContents(c: Id, contents: seq<Id>)
      requires c in items
      modifies this
      ensures items == old(items)[c := old(items)[c].(contents := contents)]
    {
      items := items[c := items[c].(contents := contents)];
    }

    method GetThingIndex(c: Id, x: Id) returns (index: int)
      requires c in items
      ensures index == -1 ==> x !in items[c].contents
      ensures index != -1 ==> 0 <= index < |items[c].contents| && items[c].contents[index] == x
    {
      index := 0;
      while index < |items[c].contents|
        invariant 0 <= index <= |items[c].contents|
        invariant x !in items[c].contents[..index]
      {
        if items[c].contents[index] == x {
          return;
        }
        index := index + 1;
      }
      index := -1;
    }

    /** Parent, list entry, ammunition and weight of an item that enters at position k. */
    method Enter(c: Id, k: nat, x: Id)
      requires Linked(items) && Acyclic(items) && c in items && MayEnter(items, ChainOf(items, c), x)
      requires k <= |items[c].contents|
      modifies this
      ensures items == ContainerRuns.AddThing(old(items), c, k, x)
    {
      ghost var f := items;
      EnteredClimbs(f, c, k, x, UpdateAmmo(f[c].ammoCount, f[x], f[x].count));
      SetParent(x, Inside(c));
      SetContents(c, InsertAt(items[c].contents, k, x));
      UpdateAmmoCount(c, x, items[x].count);
      UpdateItemWeight(c, Weight(items[x]));
    }

    /** An index past the capacity changes nothing; otherwise the item goes to the front. */
    method AddThing(c: Id, index: int, x: Id)
      requires Linked(items) && Acyclic(items) && c in items && MayEnter(items, ChainOf(items, c), x)
      modifies this
      ensures items == if index >= old(items)[c].capacity then old(items)
              else ContainerRuns.AddThing(old(items), c, 0, x)
      ensures index < old(items)[c].capacity ==> PutIn(old(items), items, c, 0, x)
    {
      if index >= items[c].capacity {
        return;
      }
      AddThingPutsIn(items, c, 0, x);
      Enter(c, 0, x);
    }

    method AddItemBack(c: Id, x: Id)
      requires Linked(items) && Acyclic(items) && c in items && MayEnter(items, ChainOf(items, c), x)
      modifies this
      ensures items == ContainerRuns.AddThing(old(items), c, |old(items)[c].contents|, x)
      ensures PutIn(old(items), items, c, |old(items)[c].contents|, x)
    {
      AddThingPutsIn(items, c, |items[c].contents|, x);
      Enter(c, |items[c].contents|, x);
    }

    method UpdateThing(c: Id, x: Id, kind: ItemType, n: nat)
      requires Linked(items) && Acyclic(items) && c in items && x in items
      modifies this
      ensures items == if x in old(items)[c].contents then ContainerRuns.UpdateThing(old(items), c, x, kind, n)
              else old(items)
      ensures x in old(items)[c].contents ==> Updated(old(items), items, c, x, kind, n)
    {
      var index := GetThingIndex(c, x);
      if index == -1 {
        return;
      }
      NotOwnChild(items, ChainOf(items, c));
      UpdateThingUpdates(items, c, x, kind, n);
      Rewrite(c, x, kind, n);
    }

    /** The writes of updateThing: ammunition, type and subtype, ammunition, weight. */
    method Rewrite(c: Id, x: Id, kind: ItemType, n: nat)
      requires Linked(items) && Acyclic(items) && c in items && x in items && x != c
      modifies this
      ensures items == ContainerRuns.UpdateThing(old(items), c, x, kind, n)
    {
      ghost var f := items;
      ghost var count := SubTypeCount(kind, f[x].count, n);
      ghost var ammo := SwapAmmo(f[c].ammoCount, f[x], f[x].(kind := kind, count := count));
      RetypedClimbs(f, c, x, kind, count, ammo);
      var oldWeight := Weight(items[x]);
      UpdateAmmoCount(c, x, 0 - items[x].count);
      items := items[x := items[x].(kind := kind, count := SubTypeCount(kind, items[x].count, n))];
      UpdateAmmoCount(c, x, items[x].count);
      assert items == SetAmmo(Retype(f, x, kind, count), c, ammo);
      UpdateItemWeight(c, Weight(items[x]) - oldWeight);
    }

    method ReplaceThing(c: Id, index: nat, x: Id)
      requires Linked(items) && Acyclic(items) && c in items && MayEnter(items, ChainOf(items, c), x)
      modifies this
      ensures items == if index < |old(items)[c].contents| then ContainerRuns.ReplaceThing(old(items), c, index, x)
              else old(items)
      ensures index < |old(items)[c].contents| ==> TakesPlace(old(items), items, c, index, x)
    {
      if index >= |items[c].contents| {
        return;
      }
      ReplaceThingReplaces(items, c, index, x);
      Substitute(c, index, x);
    }

    method Substitute(c: Id, index: nat, x: Id)
      requires Linked(items) && Acyclic(items) && c in items && MayEnter(items, ChainOf(items, c), x)
      requires index < |items[c].contents|
      modifies this
      ensures items == ContainerRuns.ReplaceThing(old(items), c, index, x)
    {
      ghost var f, path := items, ChainOf(items, c);
      SwapStarts(f, c, index, x);
      ReplacedSettles(f, c, index, x);
      Swap(c, index, x, path);
    }

    /** The writes of replaceThing: list entry, parent, weight, ammunition, the old item's parent. */
    method Swap(c: Id, index: nat, x: Id, ghost path: seq<Id>)
      requires Swappable(items, c, index, x, path)
      modifies this
      ensures var y := old(items)[c].contents[index];
              items == ReplacedInPlace(old(items), c, index, x, path, Weight(old(items)[x]) - Weight(old(items)[y]),
                                       SwapAmmo(old(items)[c].ammoCount, old(items)[y], old(items)[x]))
    {
      ghost var f := items;
      var replaced := items[c].contents[index];
      PutInPlace(c, index, x, path);
      BumpedAmmo(f, c, index, x, path, Weight(f[x]) - Weight(f[replaced]));
      Replaced(c, replaced, x);
    }

    method Replaced(c: Id, y: Id, x: Id)
      requires c in items && x in items && y in items && x != c && y != c
      modifies this
      ensures items == Leave(SetAmmo(old(items), c, SwapAmmo(old(items)[c].ammoCount, old(items)[y], old(items)[x])), y)
    {
      SwapAmmoCount(c, y, x);
      SetParent(y, Nowhere);
    }

    method PutInPlace(c: Id, index: nat, x: Id, ghost path: seq<Id>)
      requires Swappable(items, c, index, x, path)
      modifies this
      ensures var y := old(items)[c].contents[index];
              items == Bumped(Overwrite(old(items), c, index, x), path, Weight(old(items)[x]) - Weight(old(items)[y]))
    {
      var replaced := items[c].contents[index];
      OverwriteWeight(items, c, index, x, x);
      OverwriteWeight(items, c, index, x, replaced);
      PutAt(c, index, x);
      UpdateItemWeight(c, Weight(items[x]) - Weight(items[replaced]));
    }

    method PutAt(c: Id, index: nat, x: Id)
      requires c in items && x in items && x != c && index < |items[c].contents|
      modifies this
      ensures items == Overwrite(old(items), c, index, x)
    {
      SetContents(c, items[c].contents[index := x]);
      SetParent(x, Inside(c));
    }

    /** Takes `count` pieces of a pile, or the whole item out of the container. */
    method RemoveThing(c: Id, x: Id, count: nat)
      requires Linked(items) && Acyclic(items) && c in items && x in items
      modifies this
      ensures x !in old(items)[c].contents ==> items == old(items)
      ensures forall k :: 0 <= k < |old(items)[c].contents| && old(items)[c].contents[k] == x ==>
                            items == ContainerRuns.RemoveThing(old(items), c, k, count)
      ensures old(items)[x].count < 256 && count < WORD ==>
                forall k :: 0 <= k < |old(items)[c].contents| && old(items)[c].contents[k] == x ==>
                              TakenAway(old(items), items, c, k, x, count)
    {
      var index := GetThingIndex(c, x);
      if index == -1 {
        return;
      }
      assert BoxOk(items, c);
      if items[x].count < 256 && count < WORD {
        RemoveThingTakesAway(items, c, index, x, count);
      }
      Take(c, index, x, count);
    }

    method Take(c: Id, index: nat, x: Id, count: nat)
      requires Linked(items) && Acyclic(items) && c in items && x in items
      requires index < |items[c].contents| && items[c].contents[index] == x
      modifies this
      ensures items == ContainerRuns.RemoveThing(old(items), c, index, count)
    {
      ghost var path := ChainOf(items, c);
      EraseLinked(items, path, index);
      if items[x].kind.stackable && count != items[x].count {
        Decrease(c, x, CountAfter(items[x].count, count));
      } else {
        TakeOut(c, index, x, path);
      }
    }

    method Decrease(c: Id, x: Id, newCount: nat)
      requires Linked(items) && Acyclic(items) && c in items && x in items && x != c
      modifies this
      ensures items == Change(old(items), c, x, old(items)[x].kind, newCount,
                              UpdateAmmo(old(items)[c].ammoCount, old(items)[x], newCount - old(items)[x].count))
    {
      ghost var f := items;
      ghost var ammo := UpdateAmmo(f[c].ammoCount, f[x], newCount - f[x].count);
      RetypedClimbs(f, c, x, f[x].kind, newCount, ammo);
      var oldWeight := Weight(items[x]);
      UpdateAmmoCount(c, x, newCount - items[x].count);
      items := items[x := items[x].(count := newCount)];
      assert items == SetAmmo(Retype(f, x, f[x].kind, newCount), c, ammo);
      UpdateItemWeight(c, Weight(items[x]) - oldWeight);
    }

    method TakeOut(c: Id, index: nat, x: Id, ghost path: seq<Id>)
      requires Linked(items) && Acyclic(items) && c in items && path == ChainOf(items, c)
      requires index < |items[c].contents| && items[c].contents[index] == x && x in items
      modifies this
      ensures items == TakenOut(old(items), c, index)
    {
      TakeOutGives(items, c, index, x, path);
      Detach(c, index, x, path, TakenOut(items, c, index));
    }

    /** The writes of removeThing: weight, ammunition, parent, list. */
    method Detach(c: Id, index: nat, x: Id, ghost path: seq<Id>, ghost result: Forest)
      requires DetachGives(items, c, index, x, path, result)
      modifies this
      ensures items == result
    {
      UpdateItemWeight(c, 0 - Weight(items[x]));
      Unlink(c, index, x);
    }

    method Unlink(c: Id, index: nat, x: Id)
      requires c in items && index < |items[c].contents| && items[c].contents[index] == x && x in items && x != c
      modifies this
      ensures items == Detached(old(items), c, index,
              UpdateAmmo(old(items)[c].ammoCount, old(items)[x], 0 - old(items)[x].count))
    {
      UpdateAmmoCount(c, x, 0 - items[x].count);
      SetParent(x, Nowhere);
      SetContents(c, RemoveAt(items[c].contents, index));
    }

    /**
     Whether x may be put into c. The walk looks at every cylinder around c; an accepted query
     without FLAG_CHILDISOWNER means that x is neither c nor around c.
     */
    method QueryAdd(c: Id, thing: Id, isItem: bool, at: Circumstances) returns (r: ReturnValue)
      requires Acyclic(items) && c in items && thing in items
      ensures r.NoError? && !at.childIsOwner ==> isItem && thing !in ChainOf(items, c)
      ensures !at.browseField && at.childIsOwner ==> r.NoError?
      ensures !at.browseField && !at.childIsOwner && isItem && at.pickupable && at.early.NoError? ==>
                (thing in ChainOf(items, c) ==> r == ThisIsImpossible) &&
                (thing !in ChainOf(items, c) ==> r == if at.hasRoom then at.late else NotEnoughRoom)
    {
      if at.browseField {
        return NotPossible;
      }
      if at.childIsOwner {
        return NoError;
      }
      if !isItem {
        return NotPossible;
      }
      if !at.pickupable {
        return CannotPickup;
      }
      if thing == c {
        return ThisIsImpossible;
      }
      if !at.early.NoError? {
        return at.early;
      }
      ghost var path := ChainOf(items, c);
      ghost var k := 0;
      var cylinder := items[c].parent;
      while cylinder.Inside?
        invariant k < |path| && path[k] in items && items[path[k]].parent == cylinder
        invariant thing !in path[..k + 1]
        decreases |path| - k
      {
        ChainSuffix(items, path, k);
        ChainNext(items, path[k..]);
        assert path[k..][1] == path[k + 1];
        if cylinder.box == thing {
          return ThisIsImpossible;
        }
        k := k + 1;
        assert path[..k + 1] == path[..k] + [path[k]];
        cylinder := items[cylinder.box].parent;
      }
      ChainSuffix(items, path, k);
      ChainNext(items, path[k..]);
      assert path[..k + 1] == path;
      if !at.hasRoom {
        return NotEnoughRoom;
      }
      return at.late;
    }
  }
}

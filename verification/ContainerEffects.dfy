/** What one mutation of a container (src/container.cpp) does to the items themselves, caches aside. */
module ContainerEffects {
  import opened Basics
  import opened ContainerForest
  import opened ContainerOps
  import opened ContainerRuns

  /** An item without its two caches. */
  function Bare(i: Item): (r: Item) { i.(totalWeight := 0, ammoCount := 0) }

  /** Caches aside, g is f with the list of c replaced by s and the items of `news` as given there. */
  ghost predicate Becomes(f: Forest, g: Forest, c: Id, s: seq<Id>, news: map<Id, Item>) {
    && c in f && c !in news && f.Keys == g.Keys
    && Bare(g[c]) == Bare(f[c]).(contents := s)
    && forall z :: z in f && z != c ==> Bare(g[z]) == Bare(if z in news then news[z] else f[z])
  }

  lemma SettledBare(f: Forest, path: seq<Id>, diff: int, ammo: nat)
    requires path != [] && forall k :: 0 <= k < |path| ==> path[k] in f
    ensures Settled(f, path, diff, ammo).Keys == f.Keys
    ensures forall z :: z in f ==> Bare(Settled(f, path, diff, ammo)[z]) == Bare(f[z])
  {
    AddAlongReweighs(SetAmmo(f, path[0], ammo), path, diff);
  }

  lemma SettledBecomes(f: Forest, e: Forest, path: seq<Id>, diff: int, ammo: nat, s: seq<Id>, news: map<Id, Item>)
    requires path != [] && (forall k :: 0 <= k < |path| ==> path[k] in e) && Becomes(f, e, path[0], s, news)
    ensures Becomes(f, Settled(e, path, diff, ammo), path[0], s, news)
  {
    SettledBare(e, path, diff, ammo);
  }

  // ---- Putting in ----

  /** x is listed at position k and names c as its parent; everything else is as it was. */
  ghost predicate PutIn(f: Forest, g: Forest, c: Id, k: nat, x: Id) {
    && c in f && x in f && k <= |f[c].contents|
    && Becomes(f, g, c, f[c].contents[..k] + [x] + f[c].contents[k..], map[x := f[x].(parent := Inside(c))])
  }

  lemma AddThingPutsIn(f: Forest, c: Id, k: nat, x: Id)
    requires Acyclic(f) && c in f && x in f && x != c && k <= |f[c].contents|
    ensures PutIn(f, AddThing(f, c, k, x), c, k, x)
  {
    SettledBare(Insert(f, c, k, x), ChainOf(f, c), Weight(f[x]), UpdateAmmo(f[c].ammoCount, f[x], f[x].count));
  }

  // ---- Changing in place ----

  lemma ChangeBare(f: Forest, c: Id, x: Id, kind: ItemType, count: nat, ammo: nat)
    requires Acyclic(f) && c in f && x in f && x != c
    ensures Becomes(f, Change(f, c, x, kind, count, ammo), c, f[c].contents,
                    map[x := f[x].(kind := kind, count := count)])
  {
    SettledBare(Retype(f, x, kind, count), ChainOf(f, c),
                Weight(f[x].(kind := kind, count := count)) - Weight(f[x]), ammo);
  }

  /** Fluids and charges are kept apart from the count, except for stackable charges; a count is a byte. */
  ghost predicate Updated(f: Forest, g: Forest, c: Id, x: Id, kind: ItemType, n: nat) {
    && c in f && x in f
    && (kind.fluid || (kind.charges && !kind.stackable) ==>
          Becomes(f, g, c, f[c].contents, map[x := f[x].(kind := kind)]))
    && (!kind.fluid && (kind.stackable || !kind.charges) ==>
          Becomes(f, g, c, f[c].contents, map[x := f[x].(kind := kind, count := n % 256)]))
  }

  lemma UpdateThingUpdates(f: Forest, c: Id, x: Id, kind: ItemType, n: nat)
    requires Acyclic(f) && c in f && x in f && x != c
    ensures Updated(f, UpdateThing(f, c, x, kind, n), c, x, kind, n)
  {
    var count := SubTypeCount(kind, f[x].count, n);
    ChangeBare(f, c, x, kind, count, SwapAmmo(f[c].ammoCount, f[x], f[x].(kind := kind, count := count)));
  }

  /**
   The pieces left when `removed` of n are taken: none if more are asked for. Beyond 2^31 more the 32-bit
   difference reads as positive, and its lowest byte is left.
   */
  ghost predicate PiecesLeft(n: nat, removed: nat, left: nat) {
    && (removed <= n ==> left == n - removed)
    && (n < removed <= n + WORD / 2 ==> left == 0)
    && (removed > n + WORD / 2 ==> left == (n - removed) % 256)
  }

  ghost predicate Unlisted(f: Forest, g: Forest, c: Id, k: nat, x: Id) {
    && c in f && x in f && k < |f[c].contents|
    && Becomes(f, g, c, f[c].contents[..k] + f[c].contents[k + 1..], map[x := f[x].(parent := Nowhere)])
  }

  /** A pile of another size stays where it is with the rest; anything else leaves the list, and only that. */
  ghost predicate TakenAway(f: Forest, g: Forest, c: Id, k: nat, x: Id, removed: nat) {
    && c in f && x in f
    && if f[x].kind.stackable && removed != f[x].count then
         exists left: nat :: PiecesLeft(f[x].count, removed, left) &&
           Becomes(f, g, c, f[c].contents, map[x := f[x].(count := left)])
       else Unlisted(f, g, c, k, x)
  }

  /** Main result on removal, for piles of up to 255 pieces. */
  lemma RemoveThingTakesAway(f: Forest, c: Id, k: nat, x: Id, removed: nat)
    requires Linked(f) && Acyclic(f) && c in f && k < |f[c].contents| && f[c].contents[k] == x && x in f
    requires f[x].count < 256 && removed < WORD
    ensures TakenAway(f, RemoveThing(f, c, k, removed), c, k, x, removed)
  {
    EraseLinked(f, ChainOf(f, c), k);
    if f[x].kind.stackable && removed != f[x].count {
      PileShrinks(f, c, k, x, removed);
    } else {
      assert RemoveThing(f, c, k, removed) == TakenOut(f, c, k);
      TakenOutUnlists(f, c, k, x);
    }
  }

  lemma PileShrinks(f: Forest, c: Id, k: nat, x: Id, removed: nat)
    requires Linked(f) && Acyclic(f) && c in f && k < |f[c].contents| && f[c].contents[k] == x && x in f && x != c
    requires f[x].count < 256 && removed < WORD && f[x].kind.stackable && removed != f[x].count
    ensures TakenAway(f, RemoveThing(f, c, k, removed), c, k, x, removed)
  {
    var count := CountAfter(f[x].count, removed);
    CountLeft(f[x].count, removed);
    var ammo := UpdateAmmo(f[c].ammoCount, f[x], count - f[x].count);
    ChangeBare(f, c, x, f[x].kind, count, ammo);
    assert f[x].(kind := f[x].kind, count := count) == f[x].(count := count);
    assert RemoveThing(f, c, k, removed) == Change(f, c, x, f[x].kind, count, ammo);
  }

  lemma TakenOutUnlists(f: Forest, c: Id, k: nat, x: Id)
    requires Linked(f) && Acyclic(f) && c in f && k < |f[c].contents| && f[c].contents[k] == x && x in f && x != c
    ensures Unlisted(f, TakenOut(f, c, k), c, k, x)
  {
    ErasedBare(f, c, k, x);
    SettledBecomes(f, Erase(f, c, k), ChainOf(f, c), 0 - Weight(f[x]),
                   UpdateAmmo(f[c].ammoCount, f[x], 0 - f[x].count),
                   f[c].contents[..k] + f[c].contents[k + 1..], map[x := f[x].(parent := Nowhere)]);
  }

  lemma ErasedBare(f: Forest, c: Id, k: nat, x: Id)
    requires c in f && k < |f[c].contents| && f[c].contents[k] == x && x in f && x != c
    ensures Unlisted(f, Erase(f, c, k), c, k, x)
  {
  }

  lemma CountLeft(n: nat, removed: nat)
    requires n < 256 && removed < WORD
    ensures PiecesLeft(n, removed, CountAfter(n, removed))
  {
    if removed <= n {
      assert (n - removed) % WORD == n - removed;
    } else {
      assert (n - removed) % WORD == WORD - (removed - n);
      assert WORD == 256 * 0x100_0000;
    }
  }

  // ---- Replacing ----

  /** x takes the place of the item listed at k, which ends up nowhere. */
  ghost predicate TakesPlace(f: Forest, g: Forest, c: Id, k: nat, x: Id) {
    && c in f && x in f && k < |f[c].contents| && f[c].contents[k] in f
    && Becomes(f, g, c, f[c].contents[k := x],
               map[x := f[x].(parent := Inside(c)), f[c].contents[k] := f[f[c].contents[k]].(parent := Nowhere)])
  }

  lemma ReplaceThingReplaces(f: Forest, c: Id, k: nat, x: Id)
    requires Linked(f) && Acyclic(f) && c in f && MayEnter(f, ChainOf(f, c), x) && k < |f[c].contents|
    ensures TakesPlace(f, ReplaceThing(f, c, k, x), c, k, x)
  {
    var y := f[c].contents[k];
    var path := ChainOf(f, c);
    EraseLinked(f, path, k);
    StillLoose(f, path, k, x);
    SwappedBare(f, c, k, x);
    SettledBare(Insert(Erase(f, c, k), c, k, x), path, Weight(f[x]) - Weight(f[y]),
                SwapAmmo(f[c].ammoCount, f[y], f[x]));
  }

  lemma SwappedBare(f: Forest, c: Id, k: nat, x: Id)
    requires c in f && x in f && x != c && k < |f[c].contents|
    requires f[c].contents[k] in f && f[c].contents[k] != c && f[c].contents[k] != x
    ensures TakesPlace(f, Insert(Erase(f, c, k), c, k, x), c, k, x)
  {
    assert InsertAt(RemoveAt(f[c].contents, k), k, x) == f[c].contents[k := x];
  }
}

/**
 Loading a container from a tree of item nodes (Container::unserializeItemNode in src/container.cpp):
 the OTB trees and the container forest together.

 What an item's properties decode to is an input; new items take the next free number.
 */
module ContainerLoading {
  import opened Basics
  import opened OtbFormat
  import opened ContainerForest
  import opened ContainerOps
  import opened ContainerRuns
  import opened ContainerHistory
  import opened ContainerStore

  const ITEM_NODE: Byte := 6

  datatype Info = Info(kind: ItemType, count: nat, container: bool, capacity: nat)

  type Decoder = seq<Byte> -> Option<Info>

  function NewItem(i: Info): (item: Item) { Item(i.kind, i.count, Nowhere, i.container, i.capacity, [], 0, 0) }

  /** The node can be read: an item node with properties that make an item. */
  predicate Readable(t: Tree, decode: Decoder) { t.kind == ITEM_NODE && t.props != [] && decode(t.props).Some? }

  function InfoOf(t: Tree, decode: Decoder): (i: Info)
    requires Readable(t, decode)
  {
    decode(t.props).value
  }

  /** The whole tree can be read; below an item that is no container nothing is looked at. */
  predicate AllReadable(ts: seq<Tree>, decode: Decoder) {
    forall i :: 0 <= i < |ts| ==>
      Readable(ts[i], decode) && (InfoOf(ts[i], decode).container ==> AllReadable(ts[i].children, decode))
  }

  // ---- What a tree stands for ----

  /** Item x and, recursively, its contents are what the tree says; all of them are numbered from lo on. */
  ghost predicate Stands(f: Forest, x: Id, t: Tree, decode: Decoder, lo: Id)
    decreases t
  {
    && x in f && x >= lo && Readable(t, decode)
    && var i := InfoOf(t, decode);
    && f[x].kind == i.kind && f[x].count == i.count && f[x].container == i.container
    && (i.container ==> |f[x].contents| == |t.children| &&
                        forall k :: 0 <= k < |t.children| ==> Stands(f, f[x].contents[k], t.children[k], decode, lo))
  }

  /** Base weight times the number of pieces, as Item::getWeight computes it. */
  function InfoWeight(i: Info): (w: nat) { if i.kind.stackable then i.kind.weight * Max(1, i.count) else i.kind.weight }

  lemma InfoWeighs(i: Info)
    ensures OwnWeight(NewItem(i)) == InfoWeight(i)
  {
    PileIsProduct(i.kind.weight, Max(1, i.count));
  }

  function TreeWeight(t: Tree, decode: Decoder): (w: int)
    requires AllReadable([t], decode)
    decreases t, 1
  {
    assert [t][0] == t;
    var i := InfoOf(t, decode);
    InfoWeight(i) + if i.container then TreesWeight(t.children, decode) else 0
  }

  function TreesWeight(ts: seq<Tree>, decode: Decoder): (w: int)
    requires AllReadable(ts, decode)
    decreases ts, 0
  {
    if ts == [] then 0
    else
      assert ts[0] in ts;
      TreeWeight(ts[0], decode) + TreesWeight(ts[1..], decode)
  }

  /** Ammunition among the nodes of one list. */
  function DirectAmmo(ts: seq<Tree>, decode: Decoder): (n: nat) {
    if ts == [] then 0
    else
      DirectAmmo(ts[..|ts| - 1], decode) +
      if Readable(ts[|ts| - 1], decode) then Ammo(NewItem(InfoOf(ts[|ts| - 1], decode))) else 0
  }

  /** The ammunition directly in one container fits a word, at every level. */
  predicate Fits(ts: seq<Tree>, decode: Decoder) {
    DirectAmmo(ts, decode) < WORD && forall i :: 0 <= i < |ts| ==> Fits(ts[i].children, decode)
  }

  lemma {:induction false} AmmoPrefix(ts: seq<Tree>, decode: Decoder, k: nat)
    requires k <= |ts|
    ensures DirectAmmo(ts[..k], decode) <= DirectAmmo(ts, decode)
    decreases |ts|
  {
    if k < |ts| {
      AmmoPrefix(ts[..|ts| - 1], decode, k);
      assert ts[..|ts| - 1][..k] == ts[..k];
    } else {
      assert ts[..k] == ts;
    }
  }

  // ---- Frames ----

  /** From number lo on, nothing a tree speaks of differs. */
  ghost predicate SameFrom(f: Forest, g: Forest, lo: Id) {
    forall z :: z in f && z >= lo ==>
      z in g && g[z].kind == f[z].kind && g[z].count == f[z].count && g[z].container == f[z].container &&
          g[z].contents == f[z].contents
  }

  lemma {:induction false} StandsFrame(f: Forest, g: Forest, x: Id, t: Tree, decode: Decoder, lo: Id)
    requires Stands(f, x, t, decode, lo) && SameFrom(f, g, lo)
    ensures Stands(g, x, t, decode, lo)
    decreases t
  {
    if InfoOf(t, decode).container {
      forall k | 0 <= k < |t.children| ensures Stands(g, g[x].contents[k], t.children[k], decode, lo) {
        StandsFrame(f, g, f[x].contents[k], t.children[k], decode, lo);
      }
    }
  }

  lemma {:induction false} StandsLower(f: Forest, x: Id, t: Tree, decode: Decoder, hi: Id, lo: Id)
    requires Stands(f, x, t, decode, hi) && lo <= hi
    ensures Stands(f, x, t, decode, lo)
    decreases t
  {
    if InfoOf(t, decode).container {
      forall k | 0 <= k < |t.children| ensures Stands(f, f[x].contents[k], t.children[k], decode, lo) {
        StandsLower(f, f[x].contents[k], t.children[k], decode, hi, lo);
      }
    }
  }

  // ---- The weight of what was loaded ----

  lemma {:induction false} StandsReadable(f: Forest, x: Id, t: Tree, decode: Decoder, lo: Id)
    requires Stands(f, x, t, decode, lo)
    ensures AllReadable([t], decode)
    decreases t
  {
    if InfoOf(t, decode).container {
      forall k | 0 <= k < |t.children|
        ensures Readable(t.children[k], decode) &&
                (InfoOf(t.children[k], decode).container ==> AllReadable(t.children[k].children, decode))
      {
        StandsReadable(f, f[x].contents[k], t.children[k], decode, lo);
        assert [t.children[k]][0] == t.children[k];
      }
    }
  }

  /** The recursive weight of a loaded item is that of its tree. */
  lemma {:induction false} LoadedWeight(f: Forest, x: Id, t: Tree, decode: Decoder, lo: Id)
    requires Linked(f) && Acyclic(f) && Stands(f, x, t, decode, lo)
    ensures AllReadable([t], decode) && DeepWeight(f, x) == TreeWeight(t, decode)
    decreases t, 1
  {
    StandsReadable(f, x, t, decode, lo);
    InfoWeighs(InfoOf(t, decode));
    ChainBounded(f, ChainOf(f, x));
    assert [t][0] == t;
    if InfoOf(t, decode).container {
      assert BoxOk(f, x);
      LoadedSum(f, x, f[x].contents, t.children, decode, lo);
    }
  }

  lemma {:induction false} LoadedSum(f: Forest, c: Id, s: seq<Id>, ts: seq<Tree>, decode: Decoder, lo: Id)
    requires Linked(f) && Acyclic(f) && c in f && (forall x :: x in s ==> x in f && f[x].parent == Inside(c)) &&
             AllReadable(ts, decode)
    requires |s| == |ts| && forall k :: 0 <= k < |ts| ==> Stands(f, s[k], ts[k], decode, lo)
    ensures DeepSum(f, c, s) == TreesWeight(ts, decode)
    decreases ts, 0
  {
    ChainBounded(f, ChainOf(f, c));
    if s != [] {
      assert s[0] in s && ts[0] in ts;
      LoadedWeight(f, s[0], ts[0], decode, lo);
      LoadedSum(f, c, s[1..], ts[1..], decode, lo);
    }
  }

  // ---- The loop ----

  /** A container that is in no other one, everything in order, and all numbers from `next` on free. */
  ghost predicate Ready(f: Forest, c: Id, next: Id) {
    Inv(f) && c in f && f[c].container && !f[c].parent.Inside? && forall z :: z in f ==> z < next
  }

  /** Besides c, nothing that was there has changed. */
  ghost predicate OnlyGrown(f: Forest, g: Forest, c: Id) {
    && c in f && c in g && g[c].kind == f[c].kind && g[c].count == f[c].count && g[c].container == f[c].container &&
        g[c].parent == f[c].parent
    && forall z :: z in f && z != c ==> z in g && g[z] == f[z]
  }

  ghost predicate AllAsBefore(f: Forest, h: Forest) { forall z :: z in f ==> z in h && h[z] == f[z] }

  lemma LooseChain(f: Forest, c: Id)
    requires Acyclic(f) && c in f && !f[c].parent.Inside?
    ensures ChainOf(f, c) == [c]
  {
    ChainUnique(f, ChainOf(f, c), [c]);
  }

  lemma CreatedReady(f: Forest, c: Id, next: Id, i: Info)
    requires Ready(f, c, next)
    ensures var g := f[next := NewItem(i)]; Ready(g, c, next + 1) && (i.container ==> Ready(g, next, next + 1))
  {
    CreateKeeps(f, next, NewItem(i));
  }

  /** Adding a loose item at the back of a loose container. */
  lemma AddedBack(f: Forest, c: Id, x: Id, next: Id)
    requires Ready(f, c, next) && x in f && x != c && !f[x].parent.Inside? && f[c].ammoCount + Ammo(f[x]) < WORD
    ensures MayEnter(f, ChainOf(f, c), x)
    ensures var g := AddThing(f, c, |f[c].contents|, x);
            && Ready(g, c, next) && OnlyGrown(f, g[x := f[x]], c) && x in g && g[x] == f[x].(parent := Inside(c))
            && g[c].contents == f[c].contents + [x] && g[c].ammoCount == f[c].ammoCount + Ammo(f[x])
            && g.Keys == f.Keys
  {
    LooseChain(f, c);
    AddThingKeeps(f, c, |f[c].contents|, x);
    UpdateAmmoExact(f[c].ammoCount, f[x], f[x].count);
    var h := SetAmmo(Insert(f, c, |f[c].contents|, x), c, UpdateAmmo(f[c].ammoCount, f[x], f[x].count));
    assert AddAlong(h, [c], Weight(f[x])) == AddWeight(h, c, Weight(f[x])) by {
      assert [c][1..] == [];
    }
  }

  /** One child has been read and added: it stands for its node, and the rest is as it was. */
  lemma OneAdded(f: Forest, h: Forest, c: Id, x: Id, t: Tree, next: Id, decode: Decoder)
    requires Ready(f, c, x) && Ready(h, c, next) && x in h && !h[x].parent.Inside?
    requires AllAsBefore(f, h) && Stands(h, x, t, decode, x)
    requires f[c].ammoCount + Ammo(h[x]) < WORD
    ensures var g := AddThing(h, c, |h[c].contents|, x);
            && MayEnter(h, ChainOf(h, c), x) && Ready(g, c, next) && OnlyGrown(f, g, c) && Stands(g, x, t, decode, x)
            && g[c].contents == f[c].contents + [x] && g[c].ammoCount == f[c].ammoCount + Ammo(h[x])
  {
    AddedBack(h, c, x, next);
    StandsFrame(h, AddThing(h, c, |h[c].contents|, x), x, t, decode, x);
  }

  /** The state in which the children of a new item are read. */
  lemma ReadInside(f: Forest, h: Forest, c: Id, x: Id, t: Tree, next: Id, decode: Decoder)
    requires Ready(f, c, x) && Readable(t, decode) && InfoOf(t, decode).container
    requires Ready(h, x, next) && OnlyGrown(f[x := NewItem(InfoOf(t, decode))], h, x)
    requires |h[x].contents| == |t.children| && forall k :: 0 <= k < |t.children| ==>
             Stands(h, h[x].contents[k], t.children[k], decode, x + 1)
    ensures Stands(h, x, t, decode, x)
  {
    forall k | 0 <= k < |t.children| ensures Stands(h, h[x].contents[k], t.children[k], decode, x) {
      StandsLower(h, h[x].contents[k], t.children[k], decode, x + 1, x);
    }
  }

  method Create(store: Store, x: Id, i: Info)
    modifies store
    ensures store.items == old(store.items)[x := NewItem(i)]
  {
    store.items := store.items[x := NewItem(i)];
  }

  /** A child node becomes a loose item numbered x, with everything in it; nothing else changes. */
  method MakeItem(store: Store, ghost c: Id, t: Tree, x: Id, decode: Decoder) returns (ok: bool, next: Id)
    requires Ready(store.items, c, x) && Fits(t.children, decode)
    modifies store
    ensures ok == (Readable(t, decode) && (InfoOf(t, decode).container ==> AllReadable(t.children, decode)))
    ensures next >= x && Ready(store.items, c, next) && AllAsBefore(old(store.items), store.items)
    ensures ok ==> Stands(store.items, x, t, decode, x) && !store.items[x].parent.Inside?
    decreases t, 1
  {
    ghost var f := store.items;
    next := x;
    if t.kind != ITEM_NODE || t.props == [] {
      return false, next;
    }
    var info := decode(t.props);
    if info.None? {
      return false, next;
    }
    CreatedReady(f, c, x, info.value);
    Create(store, x, info.value);
    next := x + 1;
    ok := true;
    if info.value.container {
      ok, next := UnserializeItemNode(store, x, t.children, next, decode);
      InsideReady(f, store.items, c, x, next, info.value);
      if ok {
        ReadInside(f, store.items, c, x, t, next, decode);
      }
    }
  }

  lemma InsideReady(f: Forest, h: Forest, c: Id, x: Id, next: Id, i: Info)
    requires Ready(f, c, x) && Ready(h, x, next) && OnlyGrown(f[x := NewItem(i)], h, x)
    ensures Ready(h, c, next) && AllAsBefore(f, h)
  {
  }

  lemma StandsAmmo(f: Forest, x: Id, t: Tree, decode: Decoder, lo: Id)
    requires Stands(f, x, t, decode, lo)
    ensures Ammo(f[x]) == Ammo(NewItem(InfoOf(t, decode)))
  {
  }

  /** One turn of the loop: the child is read and added at the back. */
  method LoadChild(store: Store, c: Id, t: Tree, x: Id, decode: Decoder) returns (ok: bool, next: Id)
    requires Ready(store.items, c, x) && Fits(t.children, decode)
    requires Readable(t, decode) ==> store.items[c].ammoCount + Ammo(NewItem(InfoOf(t, decode))) < WORD
    modifies store
    ensures ok == (Readable(t, decode) && (InfoOf(t, decode).container ==> AllReadable(t.children, decode)))
    ensures next >= x && Ready(store.items, c, next) && OnlyGrown(old(store.items), store.items, c)
    ensures ok ==> Stands(store.items, x, t, decode, x) && store.items[c].contents == old(store.items)[c].contents + [x]
    ensures ok ==> store.items[c].ammoCount == old(store.items)[c].ammoCount + Ammo(NewItem(InfoOf(t, decode)))
    decreases t, 2
  {
    ghost var f := store.items;
    ok, next := MakeItem(store, c, t, x, decode);
    if ok {
      StandsAmmo(store.items, x, t, decode, x);
      OneAdded(f, store.items, c, x, t, next, decode);
      store.AddItemBack(c, x);
    }
  }

  lemma PrefixMore(ts: seq<Tree>, decode: Decoder, i: nat)
    requires i < |ts|
    ensures DirectAmmo(ts[..i + 1], decode) ==
            DirectAmmo(ts[..i], decode) + if Readable(ts[i], decode) then Ammo(NewItem(InfoOf(ts[i], decode))) else 0
    ensures DirectAmmo(ts[..i + 1], decode) <= DirectAmmo(ts, decode)
  {
    assert ts[..i + 1][..i] == ts[..i];
    AmmoPrefix(ts, decode, i + 1);
  }

  /** What the loop has added to c so far stands for the nodes read so far. */
  ghost predicate Added(f: Forest, g: Forest, c: Id, ts: seq<Tree>, decode: Decoder, lo: Id)
    requires c in f && c in g
  {
    && |g[c].contents| == |f[c].contents| + |ts| && f[c].contents <= g[c].contents
    && forall k :: 0 <= k < |ts| ==> Stands(g, g[c].contents[|f[c].contents| + k], ts[k], decode, lo)
  }

  lemma AddedMore(f: Forest, g: Forest, h: Forest, c: Id, ts: seq<Tree>, i: nat, decode: Decoder, lo: Id, x: Id)
    requires c in f && c in g && c < lo <= x && i < |ts| && Added(f, g, c, ts[..i], decode, lo)
    requires OnlyGrown(g, h, c) && h[c].contents == g[c].contents + [x] && Stands(h, x, ts[i], decode, x)
    ensures Added(f, h, c, ts[..i + 1], decode, lo)
  {
    assert SameFrom(g, h, lo);
    var done := ts[..i + 1];
    forall k | 0 <= k < |done| ensures Stands(h, h[c].contents[|f[c].contents| + k], done[k], decode, lo) {
      if k < i {
        StandsFrame(g, h, g[c].contents[|f[c].contents| + k], ts[..i][k], decode, lo);
      } else {
        StandsLower(h, x, ts[i], decode, x, lo);
      }
    }
  }

  /** Where the loop stands when it has read and added `done`. */
  ghost predicate Progress(f: Forest, g: Forest, c: Id, done: seq<Tree>, decode: Decoder, free: Id, next: Id) {
    && next >= free && Ready(g, c, next) && OnlyGrown(f, g, c)
    && AllReadable(done, decode) && Added(f, g, c, done, decode, free)
    && g[c].ammoCount == f[c].ammoCount + DirectAmmo(done, decode)
  }

  lemma ProgressMore(f: Forest, g: Forest, h: Forest, c: Id, ts: seq<Tree>, i: nat, decode: Decoder, free: Id, x: Id,
      next: Id)
    requires c < free && i < |ts| && Progress(f, g, c, ts[..i], decode, free, x)
    requires next >= x && Ready(h, c, next) && OnlyGrown(g, h, c)
    requires Readable(ts[i], decode) && (InfoOf(ts[i], decode).container ==> AllReadable(ts[i].children, decode))
    requires Stands(h, x, ts[i], decode, x) && h[c].contents == g[c].contents + [x]
    requires h[c].ammoCount == g[c].ammoCount + Ammo(NewItem(InfoOf(ts[i], decode)))
    ensures Progress(f, h, c, ts[..i + 1], decode, free, next)
  {
    PrefixMore(ts, decode, i);
    AddedMore(f, g, h, c, ts, i, decode, free, x);
    assert ts[..i + 1] == ts[..i] + [ts[i]];
  }

  /**
   Container::unserializeItemNode. Whatever the tree holds, the forest stays sound, and nothing but the
   container itself and new items is touched; the answer is true exactly when every node can be read,
   and then the container holds, in order and at every depth, what the tree says.
   */
  method UnserializeItemNode(store: Store, c: Id, ts: seq<Tree>, free: Id, decode: Decoder) returns (ok: bool, next: Id)
    requires Ready(store.items, c, free) && store.items[c].ammoCount + DirectAmmo(ts, decode) < WORD
    requires forall i :: 0 <= i < |ts| ==> Fits(ts[i].children, decode)
    modifies store
    ensures ok == AllReadable(ts, decode)
    ensures next >= free && Ready(store.items, c, next) && OnlyGrown(old(store.items), store.items, c)
    ensures ok ==> Added(old(store.items), store.items, c, ts, decode, free)
    decreases ts, 0
  {
    ghost var f := store.items;
    next := free;
    var i := 0;
    while i < |ts|
      invariant 0 <= i <= |ts| && Progress(f, store.items, c, ts[..i], decode, free, next)
    {
      ghost var g, x := store.items, next;
      PrefixMore(ts, decode, i);
      ok, next := LoadChild(store, c, ts[i], next, decode);
      if !ok {
        return;
      }
      ProgressMore(f, g, store.items, c, ts, i, decode, free, x, next);
      i := i + 1;
    }
    assert ts[..i] == ts;
    ok := true;
  }

  /**
   Main result: a container loaded from an empty one holds the tree, and the weight it reports, read off
   its cache, is the weight of everything in the tree.
   */
  method LoadContainer(store: Store, c: Id, ts: seq<Tree>, free: Id, decode: Decoder) returns (ok: bool, next: Id)
    requires Ready(store.items, c, free) && store.items[c].contents == [] && store.items[c].ammoCount == 0 &&
             Fits(ts, decode)
    modifies store
    ensures ok == AllReadable(ts, decode) && Inv(store.items) && c in store.items
    ensures ok ==> Added(old(store.items), store.items, c, ts, decode, free)
    ensures ok ==> Weight(store.items[c]) == OwnWeight(old(store.items)[c]) + TreesWeight(ts, decode)
  {
    ok, next := UnserializeItemNode(store, c, ts, free, decode);
    if ok {
      CachedIsRecursive(store.items, c);
      ChainBounded(store.items, ChainOf(store.items, c));
      assert BoxOk(store.items, c);
      LoadedSum(store.items, c, store.items[c].contents, ts, decode, free);
    }
  }
}

/**
 Items nested in containers (src/container.cpp), as values.

 Every container caches the weight of its contents and the ammunition it holds directly.
 The source keeps weights in 32-bit words. No branch here looks at them and they are only added
 and subtracted, so the model keeps the integers themselves; `WrapAtEveryStep` shows that a word
 that wraps after every update shows the integer modulo 2^32.
 */
module ContainerForest {
  import opened Basics

  type Id = nat

  /** What the item type table says; `fluid` and `charges` decide where a subtype goes. */
  datatype ItemType = ItemType(weight: nat, stackable: bool, ammo: bool, fluid: bool, charges: bool)

  /** Where an item is: nowhere, in a cylinder that is no container (tile, player), or in a container. */
  datatype Place = Nowhere | Outside | Inside(box: Id)

  datatype Item = Item(
    kind: ItemType, count: nat, parent: Place,
    container: bool, capacity: nat, contents: seq<Id>, totalWeight: int, ammoCount: nat)

  type Forest = map<Id, Item>

  /** The weight of n pieces. */
  function Pile(weight: nat, n: nat): (w: nat) {
    if n == 0 then 0 else weight + Pile(weight, n - 1)
  }

  lemma {:induction false} PileIsProduct(weight: nat, n: nat)
    ensures Pile(weight, n) == weight * n
  {
    if n > 0 {
      PileIsProduct(weight, n - 1);
    }
  }

  /** Item::getWeight. */
  function OwnWeight(i: Item): (w: nat) {
    if i.kind.stackable then Pile(i.kind.weight, Max(1, i.count)) else i.kind.weight
  }

  /** Container::getWeight for containers. */
  function Weight(i: Item): (w: int) {
    if i.container then OwnWeight(i) + i.totalWeight else OwnWeight(i)
  }

  function Ammo(i: Item): (n: nat) { if i.kind.ammo then i.count else 0 }

  predicate Members(f: Forest, s: seq<Id>) { forall x :: x in s ==> x in f }

  ghost function WeightSum(f: Forest, s: seq<Id>): (w: int)
    requires Members(f, s)
  {
    if s == [] then 0 else Weight(f[s[0]]) + WeightSum(f, s[1..])
  }

  ghost function AmmoSum(f: Forest, s: seq<Id>): (n: nat)
    requires Members(f, s)
  {
    if s == [] then 0 else Ammo(f[s[0]]) + AmmoSum(f, s[1..])
  }

  // ---- Structure ----

  /** The listed items exist, are listed once, and name this container as their parent. */
  ghost predicate BoxOk(f: Forest, c: Id)
    requires c in f
  {
    && NoDuplicates(f[c].contents)
    && (f[c].contents != [] ==> f[c].container)
    && forall x :: x in f[c].contents ==> x in f && f[x].parent == Inside(c)
  }

  /** An item that names a container as its parent is listed there. */
  ghost predicate PlaceOk(f: Forest, x: Id)
    requires x in f
  {
    f[x].parent.Inside? ==> f[x].parent.box in f && x in f[f[x].parent.box].contents
  }

  ghost predicate Linked(f: Forest) {
    forall c {:trigger BoxOk(f, c)} {:trigger PlaceOk(f, c)} :: c in f ==> BoxOk(f, c) && PlaceOk(f, c)
  }

  /** The parents of path[0], innermost first, up to an item that is in no container. */
  ghost predicate Chain(f: Forest, path: seq<Id>) {
    && path != []
    && (forall k :: 0 <= k < |path| ==> path[k] in f)
    && (forall k :: 0 <= k < |path| - 1 ==> f[path[k]].parent == Inside(path[k + 1]))
    && !f[path[|path| - 1]].parent.Inside?
  }

  ghost predicate HasChain(f: Forest, c: Id) {
    exists path :: Chain(f, path) && path[0] == c
  }

  ghost predicate Acyclic(f: Forest) {
    forall c {:trigger HasChain(f, c)} :: c in f ==> HasChain(f, c)
  }

  ghost function ChainOf(f: Forest, c: Id): (path: seq<Id>)
    requires Acyclic(f) && c in f
    ensures Chain(f, path) && path[0] == c
  {
    assert HasChain(f, c);
    var path :| Chain(f, path) && path[0] == c;
    path
  }

  lemma ChainNext(f: Forest, p: seq<Id>)
    requires Chain(f, p)
    ensures if |p| == 1 then !f[p[0]].parent.Inside? else f[p[0]].parent == Inside(p[1]) && Chain(f, p[1..])
  {
    if |p| > 1 {
      assert f[p[0]].parent == Inside(p[0 + 1]);
    }
  }

  lemma {:induction false} ChainUnique(f: Forest, p: seq<Id>, q: seq<Id>)
    requires Chain(f, p) && Chain(f, q) && p[0] == q[0]
    ensures p == q
  {
    ChainNext(f, p);
    ChainNext(f, q);
    if |p| > 1 && |q| > 1 {
      ChainUnique(f, p[1..], q[1..]);
      assert p == [p[0]] + p[1..] && q == [q[0]] + q[1..];
    }
  }

  lemma ChainSuffix(f: Forest, p: seq<Id>, k: nat)
    requires Chain(f, p) && k < |p|
    ensures Chain(f, p[k..]) && p[k..][0] == p[k]
  {
  }

  lemma ChainNoDuplicates(f: Forest, p: seq<Id>)
    requires Chain(f, p)
    ensures NoDuplicates(p)
  {
    forall i, j | 0 <= i < j < |p| ensures p[i] != p[j] {
      if p[i] == p[j] {
        ChainSuffix(f, p, i);
        ChainSuffix(f, p, j);
        ChainUnique(f, p[i..], p[j..]);
      }
    }
  }

  // ---- The invariant ----

  /** The cached weight is the sum of the weights listed. */
  ghost predicate WeightOk(f: Forest, c: Id)
    requires c in f && BoxOk(f, c)
  {
    f[c].container ==> f[c].totalWeight == WeightSum(f, f[c].contents)
  }

  ghost predicate AmmoOk(f: Forest, c: Id)
    requires c in f && BoxOk(f, c)
  {
    f[c].container ==> f[c].ammoCount == AmmoSum(f, f[c].contents)
  }

  ghost predicate WeightsCached(f: Forest)
    requires Linked(f)
  {
    forall c {:trigger WeightOk(f, c)} :: c in f ==> WeightOk(f, c)
  }

  ghost predicate AmmoCached(f: Forest)
    requires Linked(f)
  {
    forall c {:trigger AmmoOk(f, c)} :: c in f ==> AmmoOk(f, c)
  }

  ghost predicate Inv(f: Forest) {
    Linked(f) && Acyclic(f) && WeightsCached(f) && AmmoCached(f)
  }

  // ---- Sums ----

  lemma {:induction false} SumsAgree(f: Forest, g: Forest, s: seq<Id>)
    requires Members(f, s) && Members(g, s)
    ensures (forall x :: x in s ==> Weight(f[x]) == Weight(g[x])) ==> WeightSum(f, s) == WeightSum(g, s)
    ensures (forall x :: x in s ==> Ammo(f[x]) == Ammo(g[x])) ==> AmmoSum(f, s) == AmmoSum(g, s)
  {
    if s != [] {
      assert s[0] in s && forall x :: x in s[1..] ==> x in s;
      SumsAgree(f, g, s[1..]);
    }
  }

  /** The sums split at any position. */
  lemma {:induction false} SumsSplit(f: Forest, s: seq<Id>, k: nat)
    requires Members(f, s) && k < |s|
    ensures Members(f, s[..k]) && Members(f, s[k + 1..]) && s[k] in f
    ensures WeightSum(f, s) == WeightSum(f, s[..k]) + Weight(f[s[k]]) + WeightSum(f, s[k + 1..])
    ensures AmmoSum(f, s) == AmmoSum(f, s[..k]) + Ammo(f[s[k]]) + AmmoSum(f, s[k + 1..])
  {
    assert s[k] in s;
    if k > 0 {
      SumsSplit(f, s[1..], k - 1);
      assert s[1..][..k - 1] == s[..k][1..] && s[1..][k..] == s[k + 1..];
    } else {
      assert s[..0] == [];
    }
  }

  lemma {:induction false} SumsConcat(f: Forest, s: seq<Id>, t: seq<Id>)
    requires Members(f, s) && Members(f, t)
    ensures Members(f, s + t)
    ensures WeightSum(f, s + t) == WeightSum(f, s) + WeightSum(f, t)
    ensures AmmoSum(f, s + t) == AmmoSum(f, s) + AmmoSum(f, t)
  {
    if s == [] {
      assert s + t == t;
    } else {
      assert forall x :: x in s[1..] ==> x in s;
      SumsConcat(f, s[1..], t);
      assert (s + t)[1..] == s[1..] + t;
    }
  }

  /** If the weight of one listed item changes, the sum changes by the same amount. */
  lemma SumOneChanged(f: Forest, g: Forest, s: seq<Id>, x: Id)
    requires Members(f, s) && Members(g, s) && NoDuplicates(s) && x in s
    requires forall y :: y in s && y != x ==> Weight(f[y]) == Weight(g[y])
    ensures WeightSum(g, s) == WeightSum(f, s) - Weight(f[x]) + Weight(g[x])
  {
    var k :| 0 <= k < |s| && s[k] == x;
    SumsSplit(f, s, k);
    SumsSplit(g, s, k);
    forall y | y in s[..k] || y in s[k + 1..] ensures y in s && y != x {
      if y in s[..k] {
        var j :| 0 <= j < k && s[j] == y;
      } else {
        var j :| 0 <= j < |s| - k - 1 && s[k + 1..][j] == y;
        assert s[k + 1 + j] == y;
      }
    }
    SumsAgree(f, g, s[..k]);
    SumsAgree(f, g, s[k + 1..]);
  }

  // ---- Container::updateItemWeight: the same difference along the whole chain ----

  function AddWeight(f: Forest, c: Id, diff: int): (g: Forest)
    requires c in f
  {
    f[c := f[c].(totalWeight := f[c].totalWeight + diff)]
  }

  /** Only cached weights differ. */
  ghost predicate Reweighed(f: Forest, g: Forest) {
    && f.Keys == g.Keys
    && forall x :: x in f ==> g[x] == f[x].(totalWeight := g[x].totalWeight)
  }

  ghost function AddAlong(f: Forest, path: seq<Id>, diff: int): (g: Forest)
    requires forall k :: 0 <= k < |path| ==> path[k] in f
    ensures g.Keys == f.Keys
    decreases path
  {
    if path == [] then f else AddAlong(AddWeight(f, path[0], diff), path[1..], diff)
  }

  lemma {:induction false} AddAlongReweighs(f: Forest, path: seq<Id>, diff: int)
    requires forall k :: 0 <= k < |path| ==> path[k] in f
    ensures Reweighed(f, AddAlong(f, path, diff))
    ensures forall x :: x in f && x !in path ==> AddAlong(f, path, diff)[x] == f[x]
    decreases path
  {
    if path != [] {
      AddAlongReweighs(AddWeight(f, path[0], diff), path[1..], diff);
    }
  }

  lemma ReweighedLinked(f: Forest, g: Forest)
    requires Reweighed(f, g) && Linked(f)
    ensures Linked(g)
  {
    forall c | c in g ensures BoxOk(g, c) && PlaceOk(g, c) {
      assert BoxOk(f, c) && PlaceOk(f, c);
    }
  }

  lemma ReweighedChain(f: Forest, g: Forest, path: seq<Id>)
    requires Reweighed(f, g) && Chain(f, path)
    ensures Chain(g, path)
  {
  }

  lemma ReweighedAmmo(f: Forest, g: Forest)
    requires Reweighed(f, g) && Linked(f) && Linked(g)
    ensures Acyclic(f) ==> Acyclic(g)
    ensures AmmoCached(f) ==> AmmoCached(g)
  {
    if Acyclic(f) {
      forall c | c in g ensures HasChain(g, c) {
        ReweighedChain(f, g, ChainOf(f, c));
      }
    }
    if AmmoCached(f) {
      forall c | c in g ensures AmmoOk(g, c) {
        assert AmmoOk(f, c) && BoxOk(f, c);
        SumsAgree(f, g, f[c].contents);
      }
    }
  }

  /** A container that lists no reweighed item keeps a right cache. */
  lemma UntouchedBox(f: Forest, c: Id, diff: int, b: Id)
    requires Linked(f) && c in f && b in f && b != c && f[c].parent != Inside(b)
    requires WeightOk(f, b) && Linked(AddWeight(f, c, diff))
    ensures WeightOk(AddWeight(f, c, diff), b)
  {
    var g := AddWeight(f, c, diff);
    assert BoxOk(f, b) && BoxOk(g, b);
    SumsAgree(f, g, f[b].contents);
  }

  /** Reweighing a container shifts the sum of the container it is in by the same amount. */
  lemma ParentBox(f: Forest, c: Id, diff: int, p: Id)
    requires Linked(f) && c in f && f[c].container && p in f && f[c].parent == Inside(p) && c != p
    requires WeightOk(f, p)
    ensures BoxOk(AddWeight(f, c, diff), p)
    ensures f[p].totalWeight + diff == WeightSum(AddWeight(f, c, diff), f[p].contents)
  {
    var g := AddWeight(f, c, diff);
    assert BoxOk(f, p) && PlaceOk(f, c);
    SumOneChanged(f, g, f[p].contents, c);
  }

  /** Every cache is right except that of path[0], which is off by exactly `diff`. */
  ghost predicate OffBy(f: Forest, path: seq<Id>, diff: int) {
    && Linked(f) && Chain(f, path) && f[path[0]].container
    && (forall c {:trigger WeightOk(f, c)} :: c in f && c != path[0] ==> WeightOk(f, c))
    && BoxOk(f, path[0])
    && f[path[0]].totalWeight + diff == WeightSum(f, f[path[0]].contents)
  }

  /** One call of updateItemWeight moves the discrepancy to the next container up. */
  lemma OffByStep(f: Forest, path: seq<Id>, diff: int)
    requires OffBy(f, path, diff)
    ensures var g := AddWeight(f, path[0], diff);
            if |path| == 1 then Linked(g) && WeightsCached(g) else OffBy(g, path[1..], diff)
  {
    var c := path[0];
    var g := AddWeight(f, c, diff);
    ReweighedLinked(f, g);
    ChainNoDuplicates(f, path);
    ChainNext(f, path);
    RepairedBox(f, path, diff);
    forall b | b in g && b != c && (|path| == 1 || b != path[1]) ensures WeightOk(g, b) {
      UntouchedBox(f, c, diff, b);
    }
    if |path| > 1 {
      assert path[0] != path[1];
      assert PlaceOk(f, c) && BoxOk(f, path[1]);
      ParentBox(f, c, diff, path[1]);
      ReweighedChain(f, g, path);
      ChainNext(g, path);
    }
  }

  /**
   The heart of the accounting: adding `diff` along the chain makes every cache right,
   at every level.
   */
  lemma {:induction false} AddAlongRepairs(f: Forest, path: seq<Id>, diff: int)
    requires OffBy(f, path, diff)
    ensures Linked(AddAlong(f, path, diff)) && WeightsCached(AddAlong(f, path, diff))
    decreases path
  {
    OffByStep(f, path, diff);
    if |path| > 1 {
      AddAlongRepairs(AddWeight(f, path[0], diff), path[1..], diff);
    } else {
      assert AddAlong(f, path, diff) == AddWeight(f, path[0], diff);
    }
  }

  lemma RepairedBox(f: Forest, path: seq<Id>, diff: int)
    requires Linked(f) && Chain(f, path) && Linked(AddWeight(f, path[0], diff))
    requires BoxOk(f, path[0]) && f[path[0]].totalWeight + diff == WeightSum(f, f[path[0]].contents)
    ensures WeightOk(AddWeight(f, path[0], diff), path[0])
  {
    NotOwnChild(f, path);
    assert BoxOk(f, path[0]);
    SumsAgree(f, AddWeight(f, path[0], diff), f[path[0]].contents);
  }

  lemma NotOwnChild(f: Forest, path: seq<Id>)
    requires Linked(f) && Chain(f, path)
    ensures path[0] !in f[path[0]].contents
  {
    ChainNoDuplicates(f, path);
    ChainNext(f, path);
    assert BoxOk(f, path[0]);
  }
}

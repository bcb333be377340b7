/** The mutators of src/container.cpp as functions on forests, and what every run of them keeps. */
module ContainerOps {
  import opened Basics
  import opened ContainerForest

  // ---- Chains under changed parents ----

  /** Consecutive entries are child and parent. */
  ghost predicate Climb(f: Forest, p: seq<Id>) {
    && (forall k :: 0 <= k < |p| ==> p[k] in f)
    && (forall k :: 0 <= k < |p| - 1 ==> f[p[k]].parent == Inside(p[k + 1]))
  }

  lemma ClimbJoin(f: Forest, p: seq<Id>, q: seq<Id>)
    requires p != [] && Climb(f, p) && Chain(f, q) && f[p[|p| - 1]].parent == Inside(q[0])
    ensures Chain(f, p + q)
  {
    var r := p + q;
    forall k | 0 <= k < |r| - 1 ensures f[r[k]].parent == Inside(r[k + 1]) {
      if k < |p| - 1 {
        assert f[p[k]].parent == Inside(p[k + 1]);
      } else if k >= |p| {
        assert f[q[k - |p|]].parent == Inside(q[k - |p| + 1]);
      }
    }
  }

  /** A climb only depends on the parents of all entries but the last. */
  lemma ClimbSame(f: Forest, g: Forest, p: seq<Id>)
    requires Climb(f, p) && f.Keys == g.Keys
    requires forall k :: 0 <= k < |p| - 1 ==> g[p[k]].parent == f[p[k]].parent
    ensures Climb(g, p)
  {
  }

  /** The parents agree except at x. */
  ghost predicate SameParentsBut(f: Forest, g: Forest, x: Id) {
    f.Keys == g.Keys && forall z :: z in f && z != x ==> g[z].parent == f[z].parent
  }

  /** The way up from z, cut at x if it meets x. */
  lemma ClimbTo(f: Forest, z: Id, x: Id) returns (p: seq<Id>)
    requires Acyclic(f) && z in f
    ensures p != [] && p[0] == z && Climb(f, p)
    ensures forall k :: 0 <= k < |p| - 1 ==> p[k] != x
    ensures p[|p| - 1] == x || (x !in p && Chain(f, p))
  {
    p := ChainOf(f, z);
    if x in p {
      var k :| 0 <= k < |p| && p[k] == x;
      ChainNoDuplicates(f, p);
      p := p[..k + 1];
    }
  }

  lemma DetachChains(f: Forest, g: Forest, y: Id)
    requires Acyclic(f) && SameParentsBut(f, g, y) && y in f && !g[y].parent.Inside?
    ensures Acyclic(g)
  {
    forall z | z in g ensures HasChain(g, z) {
      var p := ClimbTo(f, z, y);
      ClimbSame(f, g, p);
      assert Chain(g, p);
    }
  }

  /** The parent relation after putting a loose item x into c. */
  ghost predicate Attached(f: Forest, g: Forest, x: Id, c: Id) {
    && c in f && x in f && SameParentsBut(f, g, x)
    && !f[x].parent.Inside? && g[x].parent == Inside(c)
  }

  lemma ChainAvoids(f: Forest, g: Forest, x: Id, q: seq<Id>)
    requires Chain(f, q) && SameParentsBut(f, g, x) && x !in q
    ensures Chain(g, q)
  {
    ClimbSame(f, g, q);
  }

  lemma AttachChains(f: Forest, g: Forest, x: Id, c: Id)
    requires Acyclic(f) && Attached(f, g, x, c) && x !in ChainOf(f, c)
    ensures Acyclic(g)
  {
    var q := ChainOf(f, c);
    ChainAvoids(f, g, x, q);
    forall z | z in g ensures HasChain(g, z) {
      var p := ClimbTo(f, z, x);
      ClimbSame(f, g, p);
      if p[|p| - 1] == x {
        ClimbJoin(g, p, q);
      } else {
        ChainAvoids(f, g, x, p);
      }
    }
  }

  /** Putting an item into itself or into something it holds makes a cycle. */
  lemma AttachCycle(f: Forest, g: Forest, x: Id, c: Id)
    requires Acyclic(f) && Attached(f, g, x, c) && x in ChainOf(f, c)
    ensures !HasChain(g, x)
  {
    var q := ClimbTo(f, c, x);
    if q[|q| - 1] != x {
      ChainUnique(f, q, ChainOf(f, c));
    }
    if HasChain(g, x) {
      var p :| Chain(g, p) && p[0] == x;
      NoReturn(f, g, q, p, x);
    }
  }

  /** No chain starts at x and comes by x again. */
  lemma NoReturn(f: Forest, g: Forest, q: seq<Id>, p: seq<Id>, x: Id)
    requires q != [] && Climb(f, q) && q[|q| - 1] == x && SameParentsBut(f, g, x)
    requires forall k :: 0 <= k < |q| - 1 ==> q[k] != x
    requires x in g && g[x].parent == Inside(q[0])
    ensures !(Chain(g, p) && p[0] == x)
  {
    if Chain(g, p) && p[0] == x {
      ChainNext(g, p);
      Follows(f, g, q, p[1..], x);
      assert p[|q|] == x;
      ChainNoDuplicates(g, p);
    }
  }

  /** Until it meets x, the way up in g is the way up in f. */
  lemma {:induction false} Follows(f: Forest, g: Forest, q: seq<Id>, p: seq<Id>, x: Id)
    requires q != [] && Climb(f, q) && Chain(g, p) && q[0] == p[0] && SameParentsBut(f, g, x)
    requires forall k :: 0 <= k < |q| - 1 ==> q[k] != x
    ensures |q| <= |p| && p[|q| - 1] == q[|q| - 1]
  {
    if |q| > 1 {
      assert f[q[0]].parent == Inside(q[0 + 1]);
      ChainNext(g, p);
      forall k | 0 <= k < |q[1..]| - 1 ensures q[1..][k] != x && f[q[1..][k]].parent == Inside(q[1..][k + 1]) {
        assert q[1..][k] == q[k + 1] && f[q[k + 1]].parent == Inside(q[k + 1 + 1]);
      }
      Follows(f, g, q[1..], p[1..], x);
    }
  }

  /** `queryAdd`'s ancestor walk is exact: the forest stays acyclic iff x is neither c nor around c. */
  lemma AncestorWalkExact(f: Forest, g: Forest, x: Id, c: Id)
    requires Acyclic(f) && Attached(f, g, x, c)
    ensures Acyclic(g) <==> x !in ChainOf(f, c)
  {
    if x in ChainOf(f, c) {
      AttachCycle(f, g, x, c);
    } else {
      AttachChains(f, g, x, c);
    }
  }

  // ---- Putting an item in, taking one out, changing one in place ----

  function InsertAt(s: seq<Id>, k: nat, x: Id): (r: seq<Id>)
    requires k <= |s|
  {
    s[..k] + [x] + s[k..]
  }

  function RemoveAt(s: seq<Id>, k: nat): (r: seq<Id>)
    requires k < |s|
  {
    s[..k] + s[k + 1..]
  }

  lemma InsertAtFacts(s: seq<Id>, k: nat, x: Id)
    requires k <= |s|
    ensures forall y :: y in InsertAt(s, k, x) <==> y in s || y == x
    ensures NoDuplicates(s) && x !in s ==> NoDuplicates(InsertAt(s, k, x))
  {
    var t := InsertAt(s, k, x);
    forall y | y in s ensures y in t {
      var j :| 0 <= j < |s| && s[j] == y;
      assert t[if j < k then j else j + 1] == y;
    }
    assert t[k] == x;
    assert forall j :: 0 <= j < |t| && j != k ==> t[j] == s[if j < k then j else j - 1];
  }

  lemma RemoveAtFacts(s: seq<Id>, k: nat)
    requires k < |s| && NoDuplicates(s)
    ensures NoDuplicates(RemoveAt(s, k))
    ensures forall y :: y in RemoveAt(s, k) <==> y in s && y != s[k]
  {
    var t := RemoveAt(s, k);
    assert forall j :: 0 <= j < |t| ==> t[j] == s[if j < k then j else j + 1];
    forall y | y in s && y != s[k] ensures y in t {
      var j :| 0 <= j < |s| && s[j] == y;
      assert t[if j < k then j else j - 1] == y;
    }
  }

  /** Parent link and list entry of an item that goes into c. */
  function Insert(f: Forest, c: Id, k: nat, x: Id): (g: Forest)
    requires c in f && x in f && x != c && k <= |f[c].contents|
  {
    f[x := f[x].(parent := Inside(c))][c := f[c].(contents := InsertAt(f[c].contents, k, x))]
  }

  function Erase(f: Forest, c: Id, k: nat): (g: Forest)
    requires c in f && k < |f[c].contents| && f[c].contents[k] in f && f[c].contents[k] != c
  {
    var y := f[c].contents[k];
    f[y := f[y].(parent := Nowhere)][c := f[c].(contents := RemoveAt(f[c].contents, k))]
  }

  /** setID and setSubType, or setItemCount. */
  function Retype(f: Forest, x: Id, kind: ItemType, count: nat): (g: Forest)
    requires x in f
  {
    f[x := f[x].(kind := kind, count := count)]
  }

  function SetAmmo(f: Forest, c: Id, ammo: nat): (g: Forest)
    requires c in f
  {
    f[c := f[c].(ammoCount := ammo)]
  }

  /** x may go into the container at the bottom of the chain. */
  ghost predicate MayEnter(f: Forest, path: seq<Id>, x: Id) {
    Chain(f, path) && f[path[0]].container && x in f && !f[x].parent.Inside? && x !in path
  }

  lemma InsertLinked(f: Forest, path: seq<Id>, k: nat, x: Id)
    requires Linked(f) && MayEnter(f, path, x) && k <= |f[path[0]].contents|
    ensures Linked(Insert(f, path[0], k, x))
  {
    var c := path[0];
    var g := Insert(f, c, k, x);
    InsertAtFacts(f[c].contents, k, x);
    assert BoxOk(f, c);
    forall b | b in g ensures BoxOk(g, b) && PlaceOk(g, b) {
      assert BoxOk(f, b) && PlaceOk(f, b);
    }
  }

  lemma EraseLinked(f: Forest, path: seq<Id>, k: nat)
    requires Linked(f) && Chain(f, path) && k < |f[path[0]].contents|
    ensures var y := f[path[0]].contents[k];
            y in f && y !in path && Linked(Erase(f, path[0], k))
  {
    var c := path[0];
    var y := f[c].contents[k];
    assert BoxOk(f, c) && y in f[c].contents;
    ChildNotAbove(f, path, y);
    var g := Erase(f, c, k);
    RemoveAtFacts(f[c].contents, k);
    forall b | b in g ensures BoxOk(g, b) && PlaceOk(g, b) {
      assert BoxOk(f, b) && PlaceOk(f, b);
    }
  }

  lemma ChildNotAbove(f: Forest, path: seq<Id>, y: Id)
    requires Chain(f, path) && y in f && f[y].parent == Inside(path[0])
    ensures y !in path && Chain(f, [y] + path)
  {
    ClimbJoin(f, [y], path);
    var whole := [y] + path;
    ChainNoDuplicates(f, whole);
    forall k | 0 <= k < |path| ensures path[k] != y {
      assert whole[0] != whole[k + 1];
    }
  }

  lemma RetypeLinked(f: Forest, x: Id, kind: ItemType, count: nat)
    requires Linked(f) && x in f
    ensures Linked(Retype(f, x, kind, count))
  {
    var g := Retype(f, x, kind, count);
    forall b | b in g ensures BoxOk(g, b) && PlaceOk(g, b) {
      assert BoxOk(f, b) && PlaceOk(f, b);
    }
  }

  // ---- What each of them does to the discrepancy at path[0] ----

  /** Outside c, every list, cache and weight is the same. */
  ghost predicate OnlyBox(f: Forest, g: Forest, c: Id) {
    && f.Keys == g.Keys
    && (forall x :: x in f ==> Weight(g[x]) == Weight(f[x]) && Ammo(g[x]) == Ammo(f[x]))
    && forall b :: b in f && b != c ==>
         g[b].contents == f[b].contents && g[b].container == f[b].container &&
         g[b].totalWeight == f[b].totalWeight && g[b].ammoCount == f[b].ammoCount
  }

  lemma OtherBox(f: Forest, g: Forest, c: Id, b: Id)
    requires OnlyBox(f, g, c) && b in f && b != c && BoxOk(f, b) && BoxOk(g, b)
    ensures WeightOk(f, b) ==> WeightOk(g, b)
    ensures AmmoOk(f, b) ==> AmmoOk(g, b)
  {
    SumsAgree(f, g, f[b].contents);
  }

  /** The ammunition caches are right except that of c, which is off by `diff`. */
  ghost predicate AmmoOffBy(f: Forest, c: Id, diff: int) {
    && Linked(f) && c in f && f[c].container
    && (forall b {:trigger AmmoOk(f, b)} :: b in f && b != c ==> AmmoOk(f, b))
    && BoxOk(f, c)
    && f[c].ammoCount + diff == AmmoSum(f, f[c].contents)
  }

  /** A change of one list that shifts its sums shifts the discrepancies. */
  lemma BoxChanged(f: Forest, g: Forest, path: seq<Id>, diff: int, ammoDiff: int, w: int, a: int)
    requires OffBy(f, path, diff) && AmmoOffBy(f, path[0], ammoDiff)
    requires OnlyBox(f, g, path[0]) && Linked(g) && Chain(g, path) && BoxOk(g, path[0])
    requires g[path[0]].container && g[path[0]].totalWeight == f[path[0]].totalWeight
    requires g[path[0]].ammoCount == f[path[0]].ammoCount
    requires WeightSum(g, g[path[0]].contents) == WeightSum(f, f[path[0]].contents) + w
    requires AmmoSum(g, g[path[0]].contents) == AmmoSum(f, f[path[0]].contents) + a
    ensures OffBy(g, path, diff + w) && AmmoOffBy(g, path[0], ammoDiff + a)
  {
    forall b | b in g && b != path[0] ensures WeightOk(g, b) && AmmoOk(g, b) {
      assert BoxOk(f, b) && BoxOk(g, b);
      OtherBox(f, g, path[0], b);
    }
  }

  lemma InsertSums(f: Forest, s: seq<Id>, k: nat, x: Id)
    requires Members(f, s) && x in f && k <= |s|
    ensures Members(f, InsertAt(s, k, x))
    ensures WeightSum(f, InsertAt(s, k, x)) == WeightSum(f, s) + Weight(f[x])
    ensures AmmoSum(f, InsertAt(s, k, x)) == AmmoSum(f, s) + Ammo(f[x])
  {
    InsertAtFacts(s, k, x);
    var t := InsertAt(s, k, x);
    SumsSplit(f, t, k);
    assert t[..k] == s[..k] && t[k + 1..] == s[k..] && s == s[..k] + s[k..];
    SumsConcat(f, s[..k], s[k..]);
  }

  lemma InsertOnlyBox(f: Forest, c: Id, k: nat, x: Id)
    requires c in f && x in f && x != c && k <= |f[c].contents|
    ensures OnlyBox(f, Insert(f, c, k, x), c)
  {
  }

  lemma EraseOnlyBox(f: Forest, c: Id, k: nat)
    requires c in f && k < |f[c].contents| && f[c].contents[k] in f && f[c].contents[k] != c
    ensures OnlyBox(f, Erase(f, c, k), c)
  {
  }

  lemma InsertOffBy(f: Forest, path: seq<Id>, k: nat, x: Id, diff: int, ammoDiff: int)
    requires OffBy(f, path, diff) && AmmoOffBy(f, path[0], ammoDiff)
    requires MayEnter(f, path, x) && k <= |f[path[0]].contents|
    ensures OffBy(Insert(f, path[0], k, x), path, diff + Weight(f[x]))
    ensures AmmoOffBy(Insert(f, path[0], k, x), path[0], ammoDiff + Ammo(f[x]))
  {
    var c := path[0];
    var g := Insert(f, c, k, x);
    InsertLinked(f, path, k, x);
    ChainAvoids(f, g, x, path);
    InsertOnlyBox(f, c, k, x);
    assert BoxOk(f, c) && BoxOk(g, c);
    InsertSums(f, f[c].contents, k, x);
    SumsAgree(f, g, g[c].contents);
    BoxChanged(f, g, path, diff, ammoDiff, Weight(f[x]), Ammo(f[x]));
  }

  lemma EraseSums(f: Forest, s: seq<Id>, k: nat)
    requires Members(f, s) && k < |s| && NoDuplicates(s)
    ensures s[k] in f && Members(f, RemoveAt(s, k))
    ensures WeightSum(f, RemoveAt(s, k)) == WeightSum(f, s) - Weight(f[s[k]])
    ensures AmmoSum(f, RemoveAt(s, k)) == AmmoSum(f, s) - Ammo(f[s[k]])
  {
    RemoveAtFacts(s, k);
    SumsSplit(f, s, k);
    SumsConcat(f, s[..k], s[k + 1..]);
  }

  lemma EraseOffBy(f: Forest, path: seq<Id>, k: nat, y: Id, diff: int, ammoDiff: int)
    requires OffBy(f, path, diff) && AmmoOffBy(f, path[0], ammoDiff)
    requires k < |f[path[0]].contents| && f[path[0]].contents[k] == y
    ensures y in f && y !in path
    ensures OffBy(Erase(f, path[0], k), path, diff - Weight(f[y]))
    ensures AmmoOffBy(Erase(f, path[0], k), path[0], ammoDiff - Ammo(f[y]))
  {
    var c := path[0];
    EraseLinked(f, path, k);
    var g := Erase(f, c, k);
    ChainAvoids(f, g, y, path);
    EraseOnlyBox(f, c, k);
    assert BoxOk(f, c) && BoxOk(g, c);
    EraseSums(f, f[c].contents, k);
    SumsAgree(f, g, g[c].contents);
    BoxChanged(f, g, path, diff, ammoDiff, 0 - Weight(f[y]), 0 - Ammo(f[y]));
  }

  lemma RetypeOffBy(f: Forest, path: seq<Id>, x: Id, kind: ItemType, count: nat, diff: int, ammoDiff: int)
    requires OffBy(f, path, diff) && AmmoOffBy(f, path[0], ammoDiff) && x in f[path[0]].contents
    ensures x in f && x !in path
    ensures var g := Retype(f, x, kind, count);
            && OffBy(g, path, diff - Weight(f[x]) + Weight(g[x]))
            && AmmoOffBy(g, path[0], ammoDiff - Ammo(f[x]) + Ammo(g[x]))
  {
    var c := path[0];
    assert BoxOk(f, c);
    ChildNotAbove(f, path, x);
    var g := Retype(f, x, kind, count);
    RetypeLinked(f, x, kind, count);
    ChainAvoids(f, g, x, path);
    forall b | b in g && b != c ensures WeightOk(g, b) && AmmoOk(g, b) {
      RetypeOther(f, c, x, kind, count, b);
    }
    assert BoxOk(g, c);
    RetypeSums(f, f[c].contents, x, kind, count);
  }

  lemma RetypeOther(f: Forest, c: Id, x: Id, kind: ItemType, count: nat, b: Id)
    requires Linked(f) && c in f && x in f && f[x].parent == Inside(c) && b in f && b != c
    requires WeightOk(f, b) && AmmoOk(f, b) && Linked(Retype(f, x, kind, count))
    ensures WeightOk(Retype(f, x, kind, count), b) && AmmoOk(Retype(f, x, kind, count), b)
  {
    var g := Retype(f, x, kind, count);
    assert BoxOk(f, b) && BoxOk(g, b);
    assert x !in f[b].contents;
    SumsAgree(f, g, f[b].contents);
  }

  lemma RetypeSums(f: Forest, s: seq<Id>, x: Id, kind: ItemType, count: nat)
    requires Members(f, s) && NoDuplicates(s) && x in s
    ensures var g := Retype(f, x, kind, count);
            && WeightSum(g, s) == WeightSum(f, s) - Weight(f[x]) + Weight(g[x])
            && AmmoSum(g, s) == AmmoSum(f, s) - Ammo(f[x]) + Ammo(g[x])
  {
    var g := Retype(f, x, kind, count);
    var k :| 0 <= k < |s| && s[k] == x;
    SumsSplit(f, s, k);
    SumsSplit(g, s, k);
    assert x !in s[..k] && x !in s[k + 1..];
    SumsAgree(f, g, s[..k]);
    SumsAgree(f, g, s[k + 1..]);
  }
}

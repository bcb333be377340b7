/** Whole histories of containers (src/container.cpp): what holds after every sequence of mutations. */
module ContainerHistory {
  import opened Basics
  import opened ContainerForest
  import opened ContainerOps
  import opened ContainerRuns

  // ---- Depth is bounded, so recursion into contents is well founded ----

  /** A list without repetition is no longer than the set it draws from. */
  lemma {:induction false} Pigeonhole(s: seq<Id>, keys: set<Id>)
    requires NoDuplicates(s) && forall x :: x in s ==> x in keys
    ensures |s| <= |keys|
  {
    if s != [] {
      assert s[0] !in s[1..];
      assert forall x :: x in s[1..] ==> x in s;
      Pigeonhole(s[1..], keys - {s[0]});
    }
  }

  lemma ChainBounded(f: Forest, path: seq<Id>)
    requires Chain(f, path)
    ensures |path| <= |f|
  {
    ChainNoDuplicates(f, path);
    Pigeonhole(path, f.Keys);
  }

  lemma ChildChain(f: Forest, c: Id, x: Id)
    requires Linked(f) && Acyclic(f) && c in f && x in f && f[x].parent == Inside(c)
    ensures ChainOf(f, x) == [x] + ChainOf(f, c)
    ensures |ChainOf(f, c)| < |ChainOf(f, x)| <= |f|
  {
    ChildNotAbove(f, ChainOf(f, c), x);
    ChainUnique(f, ChainOf(f, x), [x] + ChainOf(f, c));
    ChainBounded(f, ChainOf(f, x));
  }

  /** What an item weighs if nothing is cached: itself and, recursively, everything in it. */
  ghost function DeepWeight(f: Forest, c: Id): (w: int)
    requires Linked(f) && Acyclic(f) && c in f
    decreases |f| - |ChainOf(f, c)|, 1, 0
  {
    ChainBounded(f, ChainOf(f, c));
    if f[c].container then
      assert BoxOk(f, c);
      OwnWeight(f[c]) + DeepSum(f, c, f[c].contents)
    else OwnWeight(f[c])
  }

  ghost function DeepSum(f: Forest, c: Id, s: seq<Id>): (w: int)
    requires Linked(f) && Acyclic(f) && c in f && forall x :: x in s ==> x in f && f[x].parent == Inside(c)
    decreases |f| - |ChainOf(f, c)|, 0, |s|
  {
    ChainBounded(f, ChainOf(f, c));
    if s == [] then 0
    else
      assert s[0] in s;
      ChildChain(f, c, s[0]);
      DeepWeight(f, s[0]) + DeepSum(f, c, s[1..])
  }

  /** Under the invariant the weight read off the cache is the recursive weight, at every level. */
  lemma {:induction false} CachedIsRecursive(f: Forest, c: Id)
    requires Inv(f) && c in f
    ensures Weight(f[c]) == DeepWeight(f, c)
    decreases |f| - |ChainOf(f, c)|, 1, 0
  {
    ChainBounded(f, ChainOf(f, c));
    if f[c].container {
      assert BoxOk(f, c) && WeightOk(f, c);
      CachedSum(f, c, f[c].contents);
    }
  }

  lemma {:induction false} CachedSum(f: Forest, c: Id, s: seq<Id>)
    requires Inv(f) && c in f && forall x :: x in s ==> x in f && f[x].parent == Inside(c)
    ensures WeightSum(f, s) == DeepSum(f, c, s)
    decreases |f| - |ChainOf(f, c)|, 0, |s|
  {
    ChainBounded(f, ChainOf(f, c));
    if s != [] {
      assert s[0] in s;
      ChildChain(f, c, s[0]);
      CachedIsRecursive(f, s[0]);
      CachedSum(f, c, s[1..]);
    }
  }

  // ---- 32-bit words ----

  ghost function Total(w: int, diffs: seq<int>): (r: int)
    decreases diffs
  {
    if diffs == [] then w else Total(w + diffs[0], diffs[1..])
  }

  ghost function WrappedTotal(w: int, diffs: seq<int>): (r: int)
    decreases diffs
  {
    if diffs == [] then w else WrappedTotal((w + diffs[0]) % WORD, diffs[1..])
  }

  /** A word that wraps after every update shows the unbounded total modulo 2^32. */
  lemma {:induction false} WrapAtEveryStep(w: int, diffs: seq<int>)
    ensures WrappedTotal(w % WORD, diffs) == Total(w, diffs) % WORD
    decreases diffs
  {
    if diffs != [] {
      assert (w % WORD + diffs[0]) % WORD == (w + diffs[0]) % WORD;
      WrapAtEveryStep(w + diffs[0], diffs[1..]);
    }
  }

  // ---- Runs ----

  /** One mutation; every insertion comes with an accepted queryAdd that did not carry FLAG_CHILDISOWNER. */
  datatype Op =
    | Create(x: Id, item: Item)
    | Relocate(x: Id, place: Place)
    | AddFront(c: Id, index: int, x: Id)
    | AddBack(c: Id, x: Id)
    | Update(c: Id, x: Id, kind: ItemType, n: nat)
    | Replace(c: Id, k: nat, x: Id)
    | Remove(c: Id, x: Id, count: nat)

  /** Loose, and accepted by queryAdd of c. */
  ghost predicate Accepted(f: Forest, c: Id, x: Id)
    requires Acyclic(f)
  {
    c in f && f[c].container && x in f && !f[x].parent.Inside? && x !in ChainOf(f, c)
  }

  /** What the caller of each mutation sees to. */
  ghost predicate Enabled(f: Forest, op: Op) {
    && Linked(f) && Acyclic(f)
    && match op
       case Create(x, item) =>
         x !in f && item.parent == Nowhere && item.contents == [] && item.totalWeight == 0 && item.ammoCount == 0
       case Relocate(x, place) => x in f && !f[x].parent.Inside? && !place.Inside?
       case AddFront(c, _, x) => Accepted(f, c, x)
       case AddBack(c, x) => Accepted(f, c, x)
       case Update(c, x, _, _) => c in f && x in f
       case Replace(c, _, x) => Accepted(f, c, x)
       case Remove(c, x, _) => c in f && x in f
  }

  ghost function IndexOf(s: seq<Id>, x: Id): (k: nat)
    requires x in s
    ensures k < |s| && s[k] == x
  {
    if s[0] == x then 0 else 1 + IndexOf(s[1..], x)
  }

  /** The direct ammunition of the touched container after the step, counted without a word size. */
  ghost function AmmoAfter(f: Forest, op: Op): (n: int)
    requires Enabled(f, op)
  {
    match op
    case AddFront(c, _, x) => f[c].ammoCount + Ammo(f[x])
    case AddBack(c, x) => f[c].ammoCount + Ammo(f[x])
    case Update(c, x, kind, n) =>
      f[c].ammoCount - Ammo(f[x]) + Ammo(f[x].(kind := kind, count := SubTypeCount(kind, f[x].count, n)))
    case Replace(c, k, x) =>
      if k < |f[c].contents| && f[c].contents[k] in f then f[c].ammoCount - Ammo(f[f[c].contents[k]]) + Ammo(f[x])
          else 0
    case Remove(c, x, count) =>
      if f[x].kind.ammo then f[c].ammoCount - f[x].count + CountAfter(f[x].count, count) else 0
    case _ => 0
  }

  ghost function Apply(f: Forest, op: Op): (g: Forest)
    requires Enabled(f, op)
  {
    match op
    case Create(x, item) => f[x := item]
    case Relocate(x, place) => f[x := f[x].(parent := place)]
    case AddFront(c, index, x) => if index >= f[c].capacity then f else AddThing(f, c, 0, x)
    case AddBack(c, x) => AddThing(f, c, |f[c].contents|, x)
    case Update(c, x, kind, n) => if x in f[c].contents then UpdateThing(f, c, x, kind, n) else f
    case Replace(c, k, x) => if k < |f[c].contents| then ReplaceThing(f, c, k, x) else f
    case Remove(c, x, count) => if x in f[c].contents then RemoveThing(f, c, IndexOf(f[c].contents, x), count) else f
  }

  lemma CreateKeeps(f: Forest, x: Id, item: Item)
    requires Inv(f) && Enabled(f, Create(x, item))
    ensures Inv(f[x := item])
  {
    var g := f[x := item];
    forall b | b in g ensures BoxOk(g, b) && PlaceOk(g, b) {
      if b != x {
        assert BoxOk(f, b) && PlaceOk(f, b);
      }
    }
    forall b | b in g ensures HasChain(g, b) {
      if b == x {
        assert Chain(g, [x]);
      } else {
        var p := ChainOf(f, b);
        assert Chain(g, p);
      }
    }
    forall b | b in g ensures WeightOk(g, b) && AmmoOk(g, b) {
      assert BoxOk(g, b);
      if b != x {
        assert BoxOk(f, b) && WeightOk(f, b) && AmmoOk(f, b);
        SumsAgree(f, g, f[b].contents);
      }
    }
  }

  lemma RelocateKeeps(f: Forest, x: Id, place: Place)
    requires Inv(f) && Enabled(f, Relocate(x, place))
    ensures Inv(f[x := f[x].(parent := place)])
  {
    var g := f[x := f[x].(parent := place)];
    forall b | b in g ensures BoxOk(g, b) && PlaceOk(g, b) {
      assert BoxOk(f, b) && PlaceOk(f, b);
    }
    DetachChains(f, g, x);
    forall b | b in g ensures WeightOk(g, b) && AmmoOk(g, b) {
      assert BoxOk(g, b) && BoxOk(f, b) && WeightOk(f, b) && AmmoOk(f, b);
      SumsAgree(f, g, f[b].contents);
    }
  }

  /** Every mutation keeps the whole invariant as long as the ammunition of one container fits a word. */
  lemma StepKeeps(f: Forest, op: Op)
    requires Inv(f) && Enabled(f, op) && AmmoAfter(f, op) < WORD
    ensures Inv(Apply(f, op))
  {
    match op {
      case Create(x, item) => CreateKeeps(f, x, item);
      case Relocate(x, place) => RelocateKeeps(f, x, place);
      case AddFront(c, index, x) =>
        if index < f[c].capacity { AddThingKeeps(f, c, 0, x); }
      case AddBack(c, x) => AddThingKeeps(f, c, |f[c].contents|, x);
      case Update(c, x, kind, n) =>
        if x in f[c].contents { UpdateThingKeeps(f, c, IndexOf(f[c].contents, x), x, kind, n); }
      case Replace(c, k, x) =>
        if k < |f[c].contents| {
          AmmoListed(f, c, k);
          ReplaceThingKeeps(f, c, k, x);
        }
      case Remove(c, x, count) =>
        if x in f[c].contents { RemoveThingKeeps(f, c, IndexOf(f[c].contents, x), x, count); }
    }
  }

  /** Each state comes from the one before by an enabled mutation. */
  ghost predicate Run(states: seq<Forest>, ops: seq<Op>) {
    && |states| == |ops| + 1 && states[0] == map[]
    && forall k :: 0 <= k < |ops| ==>
         Enabled(states[k], ops[k]) && AmmoAfter(states[k], ops[k]) < WORD && states[k + 1] == Apply(states[k], ops[k])
  }

  /**
   Main result. From an empty world, after any number of mutations, no container is inside itself,
   every cached weight is the recursive weight of the contents at every level, and every
   ammunition count is the sum over the items directly inside.
   */
  lemma {:induction false} EveryStateIsSound(states: seq<Forest>, ops: seq<Op>, k: nat)
    requires Run(states, ops) && k <= |ops|
    ensures Inv(states[k])
    ensures forall c :: c in states[k] ==> Weight(states[k][c]) == DeepWeight(states[k], c)
  {
    if k > 0 {
      EveryStateIsSound(states, ops, k - 1);
      StepKeeps(states[k - 1], ops[k - 1]);
      assert states[k - 1 + 1] == Apply(states[k - 1], ops[k - 1]);
    }
    forall c | c in states[k] ensures Weight(states[k][c]) == DeepWeight(states[k], c) {
      CachedIsRecursive(states[k], c);
    }
  }

  /** The word size is the exact limit: one more piece of ammunition than fits and the count is wrong. */
  lemma AddThingExact(f: Forest, c: Id, k: nat, x: Id)
    requires Inv(f) && c in f && k <= |f[c].contents| && MayEnter(f, ChainOf(f, c), x)
    requires f[c].ammoCount < WORD
    ensures Inv(AddThing(f, c, k, x)) <==> f[c].ammoCount + Ammo(f[x]) < WORD
  {
    var path := ChainOf(f, c);
    if f[c].ammoCount + Ammo(f[x]) < WORD {
      AddThingKeeps(f, c, k, x);
    } else {
      var g := Insert(f, c, k, x);
      var ammo := UpdateAmmo(f[c].ammoCount, f[x], f[x].count);
      NothingOff(f, c);
      InsertOffBy(f, path, k, x, 0, 0);
      AddAlongReweighs(SetAmmo(g, c, ammo), path, Weight(f[x]));
      var h := AddThing(f, c, k, x);
      if Inv(h) {
        assert AmmoOk(h, c) && BoxOk(h, c) && BoxOk(g, c);
        SumsAgree(g, h, h[c].contents);
      }
    }
  }

  // ---- Container::iterator: everything inside, breadth first ----

  /** x is in c, directly or further down. */
  ghost predicate Held(f: Forest, c: Id, x: Id)
    requires Acyclic(f)
  {
    x in f && x != c && c in ChainOf(f, x)
  }

  function Containers(f: Forest, s: seq<Id>): (r: seq<Id>)
    requires Members(f, s)
  {
    if s == [] then []
    else Containers(f, s[..|s| - 1]) + if f[s[|s| - 1]].container then [s[|s| - 1]] else []
  }

  lemma {:induction false} ContainersFacts(f: Forest, s: seq<Id>)
    requires Members(f, s)
    ensures forall x :: x in Containers(f, s) <==> x in s && f[x].container
    ensures NoDuplicates(s) ==> NoDuplicates(Containers(f, s))
  {
    if s != [] {
      var t := s[..|s| - 1];
      assert s == t + [s[|s| - 1]];
      ContainersFacts(f, t);
      if NoDuplicates(s) {
        assert s[|s| - 1] !in t;
      }
    }
  }

  /** How far the traversal has come: whoever is open is still to be listed, whoever is done is listed. */
  ghost predicate Traversal(f: Forest, c: Id, out: seq<Id>, pending: seq<Id>) {
    && Linked(f) && Acyclic(f) && c in f
    && NoDuplicates(out) && NoDuplicates(pending)
    && (forall x :: x in out ==>
          x in f && x != c && f[x].parent.Inside? && (f[x].parent.box == c || f[x].parent.box in out))
    && (forall p :: p in pending ==> p == c || p in out)
    && (forall x :: x in out ==> f[x].parent.box !in pending)
    && forall x :: x in f && f[x].parent.Inside? && (f[x].parent.box == c || f[x].parent.box in out) ==>
         f[x].parent.box in pending || x in out
  }

  lemma NoDuplicatesConcat(s: seq<Id>, t: seq<Id>)
    requires NoDuplicates(s) && NoDuplicates(t) && forall x :: x in t ==> x !in s
    ensures NoDuplicates(s + t)
  {
    forall i, j | 0 <= i < j < |s + t| ensures (s + t)[i] != (s + t)[j] {
      if i < |s| && j >= |s| {
        assert t[j - |s|] in t;
      }
    }
  }

  /** The entries of an open box are new to the traversal, and held by c like the box. */
  lemma NewEntry(f: Forest, c: Id, out: seq<Id>, pending: seq<Id>, x: Id)
    requires Traversal(f, c, out, pending) && pending != [] && pending[0] in f && BoxOk(f, pending[0])
    requires forall y :: y in out ==> Held(f, c, y)
    requires x in f[pending[0]].contents
    ensures x in f && f[x].parent == Inside(pending[0]) && x !in out && x != c && x !in pending && Held(f, c, x)
  {
    var p := pending[0];
    ChildChain(f, p, x);
    assert p in ChainOf(f, p);
    if x == c {
      CycleFree(f, c, p, x);
    }
  }

  lemma TraversalStep(f: Forest, c: Id, out: seq<Id>, pending: seq<Id>)
    requires Traversal(f, c, out, pending) && pending != [] && pending[0] in f && BoxOk(f, pending[0])
    requires forall x :: x in out ==> Held(f, c, x)
    ensures var s := f[pending[0]].contents;
            && Traversal(f, c, out + s, pending[1..] + Containers(f, s))
            && forall x :: x in out + s ==> Held(f, c, x)
  {
    var p := pending[0];
    var s := f[p].contents;
    forall x | x in s ensures x in f && f[x].parent == Inside(p) && x !in out && x != c && x !in pending &&
        Held(f, c, x) {
      NewEntry(f, c, out, pending, x);
    }
    ContainersFacts(f, s);
    BoxListed(f, c, out, pending, s, Containers(f, s));
  }

  /** Listing the new entries of the first open box, and opening the containers among them. */
  lemma BoxListed(f: Forest, c: Id, out: seq<Id>, pending: seq<Id>, s: seq<Id>, more: seq<Id>)
    requires Traversal(f, c, out, pending) && pending != [] && pending[0] in f && f[pending[0]].contents == s &&
             NoDuplicates(s)
    requires forall x :: x in s ==> x in f && f[x].parent == Inside(pending[0]) && x !in out && x != c && x !in pending
    requires NoDuplicates(more) && forall x :: x in more <==> x in s && f[x].container
    ensures Traversal(f, c, out + s, pending[1..] + more)
  {
    var p := pending[0];
    var out', pending' := out + s, pending[1..] + more;
    assert forall x :: x in out' <==> x in out || x in s;
    assert forall x :: x in pending' <==> x in pending[1..] || x in more;
    assert forall x :: x in pending <==> x == p || x in pending[1..];
    assert p !in pending[1..];
    NoDuplicatesConcat(out, s);
    NoDuplicatesConcat(pending[1..], more);
    forall x | x in f && f[x].parent.Inside? && (f[x].parent.box == c || f[x].parent.box in out')
               && f[x].parent.box !in pending' ensures x in out'
    {
      var q := f[x].parent.box;
      assert PlaceOk(f, x) && BoxOk(f, q);
    }
  }

  /** c does not lie in something it holds. */
  lemma CycleFree(f: Forest, c: Id, p: Id, x: Id)
    requires Linked(f) && Acyclic(f) && c in f && p in f && x in f && f[x].parent == Inside(p)
    requires p == c || Held(f, c, p)
    ensures x != c
  {
    ChildChain(f, p, x);
    ChainNoDuplicates(f, ChainOf(f, x));
    var path := ChainOf(f, p);
    var k :| 0 <= k < |path| && path[k] == c;
    assert ([x] + path)[0] != ([x] + path)[k + 1];
  }

  /** Once nothing is open, everything held has been listed. */
  lemma {:induction false} NothingMissed(f: Forest, c: Id, out: seq<Id>, x: Id)
    requires Traversal(f, c, out, []) && Held(f, c, x)
    ensures x in out
    decreases |ChainOf(f, x)|
  {
    var path := ChainOf(f, x);
    ChainNext(f, path);
    assert |path| > 1;
    assert PlaceOk(f, x);
    ChildChain(f, path[1], x);
    if path[1] != c {
      NothingMissed(f, c, out, path[1]);
    }
  }

  /**
   The traversal lists every item held by c, at any depth, exactly once; it ends because no
   container is inside itself.
   */
  method Iterate(f: Forest, c: Id) returns (out: seq<Id>)
    requires Linked(f) && Acyclic(f) && c in f
    ensures NoDuplicates(out)
    ensures forall x :: x in out <==> Held(f, c, x)
  {
    out := [];
    var pending := [c];
    assert BoxOk(f, c);
    while pending != []
      invariant Traversal(f, c, out, pending)
      invariant forall x :: x in out ==> Held(f, c, x)
      invariant |out| <= |f|
      decreases |f| - |out|, |pending|
    {
      ghost var out0, pending0 := out, pending;
      var box := pending[0];
      assert box in f && BoxOk(f, box);
      TraversalStep(f, c, out, pending);
      pending := pending[1..];
      out, pending := ListBox(f, box, out, pending);
      Pigeonhole(out, f.Keys);
    }
    forall x | Held(f, c, x) ensures x in out {
      NothingMissed(f, c, out, x);
    }
  }

  /** The inner loop: every entry is listed, containers are queued. */
  method ListBox(f: Forest, box: Id, out: seq<Id>, pending: seq<Id>) returns (out': seq<Id>, pending': seq<Id>)
    requires box in f && Members(f, f[box].contents)
    ensures out' == out + f[box].contents
    ensures pending' == pending + Containers(f, f[box].contents)
  {
    var s := f[box].contents;
    out', pending' := out, pending;
    var i := 0;
    while i < |s|
      invariant 0 <= i <= |s|
      invariant out' == out + s[..i]
      invariant pending' == pending + Containers(f, s[..i])
    {
      assert s[..i + 1][..i] == s[..i] && s[..i + 1] == s[..i] + [s[i]];
      out' := out' + [s[i]];
      if f[s[i]].container {
        pending' := pending' + [s[i]];
      }
      i := i + 1;
    }
    assert s[..|s|] == s;
  }
}

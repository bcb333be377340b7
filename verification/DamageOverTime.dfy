/**
 Damage-over-time lists (src/condition.cpp).

 `GenerateDamageList` spreads an amount over hits of size start, start - 1, ..., 1.
 The floating-point test of the inner loop compares |1 - (sum + i) / med| with
 |1 - sum / med|; over exact rationals that is 2 * (med - sum) > i.
 */
module DamageOverTime {

  ghost function Sum(s: seq<int>): (r: int) {
    if s == [] then 0 else Sum(s[..|s| - 1]) + s[|s| - 1]
  }

  ghost function Triangle(n: nat): (r: nat) {
    if n == 0 then 0 else n + Triangle(n - 1)
  }

  function Abs(x: int): (r: nat) { if x < 0 then -x else x }

  /** Hits never grow. */
  ghost predicate NonIncreasing(s: seq<int>) {
    forall i, j :: 0 <= i < j < |s| ==> s[i] >= s[j]
  }

  /** What a damage list generated for `amount` from `start` adds up to. */
  ghost function ExpectedTotal(amount: int, start: int): (r: nat) {
    if start <= 0 then 0
    else if Triangle(start) <= Abs(amount) then Abs(amount)
    else Triangle(start)
  }

  lemma {:induction false} TriangleClosed(n: nat)
    ensures 2 * Triangle(n) == n * (n + 1)
  {
    if n != 0 {
      TriangleClosed(n - 1);
    }
  }

  lemma SumAppend(s: seq<int>, x: int)
    ensures Sum(s + [x]) == Sum(s) + x
  {
    assert (s + [x])[..|s|] == s;
  }

  lemma MulMono(k: nat, x: int, y: int)
    requires x <= y
    ensures k * x <= k * y
  {
  }

  lemma MulCancel(k: nat, x: int, y: int)
    requires k > 0 && k * x <= k * y
    ensures x <= y
  {
    if x > y {
      MulMono(k, y + 1, x);
    }
  }

  lemma Rotate(x: int, y: int, z: int)
    ensures x * (y * z) == y * (x * z)
  {
  }

  lemma Spread(x: int, y: int, z: int)
    ensures x * (y + z) == x * y + x * z
  {
  }

  lemma FloorBound(x: nat, k: nat)
    requires k > 0
    ensures k * (x / k) <= x
  {
  }

  lemma DivExact(a: nat, k: nat)
    requires k > 0
    ensures k * a / k == a
  {
    var q := k * a / k;
    FloorBound(k * a, k);
    MulCancel(k, q, a);
    if q < a {
      MulMono(k, q + 1, a);
      Spread(k, q, 1);
    }
  }

  /** The target of the stage of hits of size i is at most amount - (i - 1) * amount / start. */
  lemma TargetBound(a: nat, start: nat, i: nat, med: int, c: int)
    requires 1 <= i <= start
    requires med == (start + 1 - i) * a / start
    requires start * c <= (i - 1) * (2 * a)
    ensures 2 * med <= 2 * a - c
  {
    FloorBound((start + 1 - i) * a, start);
    assert start * (2 * med) <= 2 * ((start + 1 - i) * a);
    assert 2 * ((start + 1 - i) * a) == start * (2 * a) - (i - 1) * (2 * a);
    assert start * (2 * a - c) == start * (2 * a) - start * c;
    MulCancel(start, 2 * med, 2 * a - c);
  }

  /**
   An extra hit of size i is only taken while the hits still owed (i - 1, ..., 1) fit
   under the amount.
   */
  lemma ExtraHitFits(a: nat, start: nat, i: nat, med: int, sum: int)
    requires 1 <= i <= start
    requires Triangle(start) <= a
    requires med == (start + 1 - i) * a / start
    requires 2 * (med - sum) > i
    ensures sum + i + Triangle(i - 1) <= a
  {
    TriangleClosed(start);
    TriangleClosed(i - 1);
    var c := (i - 1) * (i + 1);
    assert start * c <= (i - 1) * (2 * a) by {
      MulMono(start, i + 1, start + 1);
      MulMono(i - 1, start * (i + 1), 2 * a);
      Rotate(start, i - 1, i + 1);
    }
    TargetBound(a, start, i, med, c);
    Spread(i - 1, i, 1);
  }

  lemma DifferenceOfTriangles(s: int, i: int)
    ensures (s + 1 - i) * (s + i) == s * (s + 1) - (i - 1) * i
  {
  }

  lemma SmallTarget(a: nat, start: nat, n: nat, med: int)
    requires start > 0 && med == n * a / start && 2 * a <= start * (start + 1)
    ensures 2 * med <= n * (start + 1)
  {
    FloorBound(n * a, start);
    Rotate(2, start, med);
    Rotate(2, n, a);
    MulMono(n, 2 * a, start * (start + 1));
    Rotate(n, start, start + 1);
    MulCancel(start, 2 * med, n * (start + 1));
  }

  /** When the amount is below start + ... + 1, no hit is ever repeated. */
  lemma NoExtraHit(a: nat, start: nat, i: nat, med: int, sum: int)
    requires 1 <= i <= start
    requires a < Triangle(start)
    requires med == (start + 1 - i) * a / start
    requires sum == Triangle(start) - Triangle(i - 1)
    ensures 2 * (med - sum) <= i
  {
    TriangleClosed(start);
    TriangleClosed(i - 1);
    SmallTarget(a, start, start + 1 - i, med);
    MulMono(start + 1 - i, start + 1, start + i);
    DifferenceOfTriangles(start, i);
  }

  lemma AppendSmaller(list: seq<int>, i: int)
    requires NonIncreasing(list) && forall v :: v in list ==> v >= i
    ensures NonIncreasing(list + [i])
  {
    forall j, k | 0 <= j < k < |list| + 1 ensures (list + [i])[j] >= (list + [i])[k] {
      assert list[j] in list;
    }
  }

  /**
   The generator. For every amount and start it terminates; the hits never grow, lie in
   1..start, include each of start, ..., 1, and their total is exactly
   max(|amount|, start + ... + 1).
   */
  method GenerateDamageList(amount: int, start: int) returns (list: seq<int>)
    ensures NonIncreasing(list)
    ensures forall v :: v in list <==> 1 <= v <= start
    ensures Sum(list) == ExpectedTotal(amount, start)
  {
    var a := Abs(amount);
    var sum := 0;
    list := [];
    var i := start;
    while i > 0
      invariant start <= 0 ==> i == start && list == []
      invariant start > 0 ==> 0 <= i <= start
      invariant sum == Sum(list)
      invariant NonIncreasing(list) && (forall v :: v in list <==> i < v <= start)
      invariant start > 0 && Triangle(start) <= a ==> sum + Triangle(i) <= a
      invariant start > 0 && a < Triangle(start) ==> sum == Triangle(start) - Triangle(i)
      invariant start > 0 && i == 0 ==> sum >= a || a < Triangle(start)
      decreases i
    {
      var n := start + 1 - i;
      var med := n * a / start;
      SumAppend(list, i);
      AppendSmaller(list, i);
      sum := sum + i;
      list := list + [i];
      while 2 * (med - sum) > i
        invariant sum == Sum(list)
        invariant NonIncreasing(list) && (forall v :: v in list <==> i <= v <= start)
        invariant Triangle(start) <= a ==> sum + Triangle(i - 1) <= a
        invariant a < Triangle(start) ==> sum == Triangle(start) - Triangle(i - 1)
        decreases med - sum
      {
        if a < Triangle(start) {
          NoExtraHit(a, start, i, med, sum);
          assert false;
        }
        ExtraHitFits(a, start, i, med, sum);
        SumAppend(list, i);
        AppendSmaller(list, i);
        sum := sum + i;
        list := list + [i];
      }
      if i == 1 {
        assert med == a by { DivExact(a, start); }
      }
      i := i - 1;
    }
  }

  /** The generator hits the amount exactly when the forced hits start, ..., 1 do not exceed it. */
  lemma ExactIff(amount: int, start: nat)
    requires start > 0
    ensures ExpectedTotal(amount, start) == Abs(amount) <==> start * (start + 1) <= 2 * Abs(amount)
  {
    TriangleClosed(start);
  }

  /** The start value `ConditionDamage::init` picks when none is configured: ceil(amount / 20). */
  function DefaultStart(amount: int): (r: int) {
    if amount <= 0 then 1 else (amount + 19) / 20
  }

  /**
   With the default start the dealt total is the rolled amount exactly for amounts up to 760
   and for 780; every other amount is exceeded, because ceil(amount / 20) distinct hits are forced.
   */
  lemma DefaultStartExactIff(amount: int)
    requires amount > 0
    ensures ExpectedTotal(amount, DefaultStart(amount)) == amount <==> amount <= 760 || amount == 780
  {
    var s := DefaultStart(amount);
    ExactIff(amount, s);
    assert 20 * (s - 1) < amount <= 20 * s;
    if s <= 38 {
      MulMono(s, s + 1, 39);
      BelowForty(s);
    } else if s >= 40 {
      MulMono(s, 41, s + 1);
    }
  }

  /** s * (s + 1) <= 2 * (20 * (s - 1) + 1), that is (s - 1) * (s - 38) <= 0. */
  lemma BelowForty(s: int)
    requires 1 <= s <= 38
    ensures s * (s + 1) <= 40 * s - 38
  {
    MulMono(s - 1, s - 38, 0);
    assert (s - 1) * (s - 38) == s * s - 39 * s + 38;
  }

  datatype IntervalInfo = IntervalInfo(timeLeft: int, value: int, interval: int)

  const EVENT_CREATURE_THINK_INTERVAL := 1000

  ghost function TotalValue(list: seq<IntervalInfo>): (r: int) {
    if list == [] then 0 else TotalValue(list[..|list| - 1]) + list[|list| - 1].value
  }

  ghost function TotalInterval(list: seq<IntervalInfo>): (r: int) {
    if list == [] then 0 else TotalInterval(list[..|list| - 1]) + list[|list| - 1].interval
  }

  lemma TotalsAppend(list: seq<IntervalInfo>, info: IntervalInfo)
    ensures TotalValue(list + [info]) == TotalValue(list) + info.value
    ensures TotalInterval(list + [info]) == TotalInterval(list) + info.interval
  {
    assert (list + [info])[..|list|] == list;
  }

}

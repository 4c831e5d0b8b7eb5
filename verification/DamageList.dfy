/** Splitting an amount of damage over time into single hits (src/condition.cpp,
    ConditionDamage::generateDamageList). */
module DamageList {
  import opened Arithmetic

  const INT32_MAX := 0x7fff_ffff

  function Abs(i: int): nat {
    if i < 0 then -i else i
  }

  /** 1 + 2 + ... + n */
  function Triangle(n: int): (t: nat)
    decreases if n < 0 then 0 else n
  {
    if n <= 0 then 0 else Triangle(n - 1) + n
  }

  function Sum(list: seq<int>): int {
    if list == [] then 0 else Sum(list[..|list| - 1]) + list[|list| - 1]
  }

  lemma SumPush(list: seq<int>, v: int)
    ensures Sum(list + [v]) == Sum(list) + v
  {
    assert (list + [v])[..|list|] == list;
  }

  lemma {:induction false} TriangleClosed(n: nat)
    ensures 2 * Triangle(n) == n * n + n
  {
    if n > 0 {
      TriangleClosed(n - 1);
      assert (n - 1) * (n - 1) + (n - 1) == n * n - n;
    }
  }

  lemma {:induction false} TriangleMonotone(m: nat, n: nat)
    requires m <= n
    ensures Triangle(m) <= Triangle(n)
    decreases n
  {
    if m < n {
      TriangleMonotone(m, n - 1);
    }
  }

  /** How the test x1 < x2 on the two relative errors comes out: another hit of i brings the sum closer
      to the target med.  When both are equally far the rounding of the ratios decides. */
  predicate Closer(sum: int, i: int, med: int) {
    2 * (med - sum) > i
  }

  predicate Tie(sum: int, i: int, med: int) {
    2 * (med - sum) == i
  }

  /** The 32-bit products and sums of the generator stay in range. */
  predicate FitsInt32(amount: int, start: int) {
    start * Abs(amount) <= INT32_MAX && Abs(amount) + Triangle(start) <= INT32_MAX
  }

  /** The target of a stage leaves, for the stages below i, their share of the amount. */
  lemma TargetShare(amount: nat, start: nat, i: nat, med: int)
    requires 1 <= i <= start && 2 * amount >= start * start + start
    requires start * med <= (start + 1 - i) * amount
    ensures 2 * med <= 2 * amount - (i - 1) * (start + 1)
  {
    var b, q := i - 1, (i - 1) * (start + 1);
    Distribute(start, b, amount);
    MulMonotone(b, start * start + start, 2 * amount);
    Regroup(b, start);
    Double(b, amount);
    Double(start, med);
    Spread(start, amount, q);
    CancelFactor(start, 2 * med, 2 * amount - q);
  }

  lemma Distribute(x: int, y: int, k: int)
    ensures (x - y) * k == x * k - y * k
  {
  }

  lemma Regroup(b: int, s: int)
    ensures b * (s * s + s) == s * (b * (s + 1))
  {
    assert s * s + s == s * (s + 1);
    assert b * (s * (s + 1)) == s * (b * (s + 1));
  }

  lemma Double(k: int, a: int)
    ensures k * (2 * a) == 2 * (k * a)
  {
  }

  lemma Spread(k: int, a: int, q: int)
    ensures k * (2 * a - q) == 2 * (k * a) - k * q
  {
    Double(k, a);
    Distribute(2 * a, q, k);
  }

  /** A sum that overtook its stage's target by at most half a hit leaves room for the hits below i. */
  lemma RoomBelow(amount: nat, start: nat, i: nat, med: int, sum: int)
    requires 1 <= i <= start && amount >= Triangle(start)
    requires start * med <= (start + 1 - i) * amount
    requires 2 * sum <= 2 * med + i
    ensures sum <= amount - Triangle(i - 1)
  {
    TriangleClosed(start);
    TriangleClosed(i - 1);
    TargetShare(amount, start, i, med);
    MulMonotone(i - 1, i + 1, start + 1);
    assert (i - 1) * (i + 1) == (i - 1) * (i - 1) + 2 * (i - 1);
  }

  predicate NonIncreasing(list: seq<int>) {
    forall j, k :: 0 <= j < k < |list| ==> list[j] >= list[k]
  }

  function Med(amount: int, start: int, i: int): int
    requires start != 0
  {
    (start + 1 - i) * amount / start
  }

  /** The targets stay below the amount, and the last one is the amount. */
  lemma StageTarget(amount: nat, start: nat, i: nat)
    requires 1 <= i <= start
    ensures start * Med(amount, start, i) <= (start + 1 - i) * amount
    ensures (start + 1 - i) * amount <= start * amount
    ensures 0 <= Med(amount, start, i) <= amount
    ensures i == 1 ==> Med(amount, start, i) == amount
  {
    var n := start + 1 - i;
    MulMonotone(amount, n, start);
    var p := n * amount;
    assert 0 <= p <= start * amount;
    DivBounds(p, start);
    CancelFactor(start, p / start, amount);
    if i == 1 {
      if p / start < amount {
        MulMonotone(start, p / start + 1, amount);
      }
    }
  }

  /** One stage: hits of i until another one would not bring the sum closer to med. */
  method Stage(i: int, med: int, sum0: int, list0: seq<int>) returns (sum: int, list: seq<int>)
    requires 1 <= i && sum0 == Sum(list0) && NonIncreasing(list0)
    requires forall k :: 0 <= k < |list0| ==> i < list0[k]
    ensures sum == Sum(list) && NonIncreasing(list)
    ensures forall v :: v in list <==> v in list0 || v == i
    ensures sum0 + i <= sum && 2 * (med - sum) <= i
    ensures sum == sum0 + i || 2 * sum <= 2 * med + i
  {
    sum, list := sum0, list0;
    var again := true;
    while again
      invariant sum == Sum(list) && NonIncreasing(list)
      invariant forall k :: 0 <= k < |list| ==> i <= list[k]
      invariant forall v :: v in list <==> v in list0 || (v == i && sum != sum0)
      invariant sum == sum0 || (sum0 + i <= sum && (sum == sum0 + i || 2 * sum <= 2 * med + i))
      invariant sum == sum0 ==> again
      invariant !again ==> 2 * (med - sum) <= i
      invariant again && sum != sum0 ==> 2 * (med - sum) >= i
      decreases again, med - sum
    {
      SumPush(list, i);
      sum := sum + i;
      list := list + [i];
      var roundsDown: bool := *;
      again := Closer(sum, i, med) || (Tie(sum, i, med) && roundsDown);
    }
  }

  /** Every hit from `start` down to 1 occurs, the list never rises, the sum reaches the amount, and it
      is the amount exactly when the amount is at least 1 + ... + start. */
  method GenerateDamageList(amount: int, start: int) returns (list: seq<int>)
    requires start >= 1 ==> FitsInt32(amount, start)
    ensures NonIncreasing(list)
    ensures forall v :: v in list <==> 1 <= v <= start
    ensures start >= 1 ==> Abs(amount) <= Sum(list) <= Abs(amount) + Triangle(start)
    ensures start >= 1 ==> (Sum(list) == Abs(amount) <==> Abs(amount) >= Triangle(start))
    ensures start <= 0 ==> list == []
  {
    var amount' := Abs(amount);
    list := [];
    var sum := 0;
    var i := start;
    while i > 0
      invariant if start <= 0 then i == start && list == [] else 0 <= i <= start
      invariant sum == Sum(list) && NonIncreasing(list)
      invariant forall v :: v in list <==> i < v <= start
      invariant Triangle(start) - Triangle(i) <= sum <= Triangle(start) - Triangle(i) + amount'
      invariant amount' >= Triangle(start) ==> sum <= amount' - Triangle(i)
      invariant start >= 1 && i == 0 ==> sum >= amount'
      invariant sum <= INT32_MAX
    {
      var n := start + 1 - i;
      var med := Med(amount', start, i);
      StageTarget(amount', start, i);
      TriangleMonotone(i, start);
      assert (start + 1 - i) * amount' <= INT32_MAX;
      assert forall k :: 0 <= k < |list| ==> list[k] in list;
      ghost var sum0 := sum;
      sum, list := Stage(i, med, sum, list);
      if amount' >= Triangle(start) && sum != sum0 + i {
        RoomBelow(amount', start, i, med, sum);
      }
      i := i - 1;
    }
  }

  /** The start the code picks when none is set: a twentieth of the amount, rounded up, at least 1. */
  function DefaultStart(amount: int): int {
    if amount <= 20 then 1 else (amount + 19) / 20
  }

  /** The least number, of at least 1, of which twenty make the amount. */
  lemma DefaultStartIsTwentieth(amount: int)
    ensures var s := DefaultStart(amount); s >= 1 && amount <= 20 * s && (s > 1 ==> amount > 20 * (s - 1))
  {
  }

  /** With the default start the damage dealt is the amount drawn exactly up to 760, and for 780. */
  lemma DefaultStartExact(amount: int)
    requires amount >= 1
    ensures amount >= Triangle(DefaultStart(amount)) <==> amount <= 760 || amount == 780
  {
    var s := DefaultStart(amount);
    TriangleClosed(s);
    assert 20 * (s - 1) < amount <= 20 * s;
    if s <= 38 {
      SquareBelow(s);
    } else if s >= 40 {
      MulMonotone(s, 40, s);
    }
  }

  lemma SquareBelow(s: nat)
    requires 1 <= s <= 38
    ensures s * s + s <= 40 * (s - 1) + 2
  {
    assert (s - 1) * (38 - s) >= 0;
    assert (s - 1) * (38 - s) == 39 * s - s * s - 38;
  }
}

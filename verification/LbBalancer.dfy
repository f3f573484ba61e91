/** Round robin and weighted round robin: who is picked, and how often. */
module LbBalancer {
  import opened Options
  import opened LbBackend
  import opened Words

  /** The counters are unsigned 64-bit. */
  const COUNTER_RANGE := 0x1_0000_0000_0000_0000

  function AsUint64(x: int): nat {
    x % COUNTER_RANGE
  }

  function Weights(backends: seq<Backend>): seq<int> {
    seq(|backends|, i requires 0 <= i < |backends| => backends[i].weight)
  }

  // ----- picking

  function Sum(weights: seq<int>): int {
    if weights == [] then 0 else Sum(weights[..|weights| - 1]) + weights[|weights| - 1]
  }

  /** The total as the code adds it up, in a signed 64-bit integer. */
  function WrappedSum(weights: seq<int>): int {
    if weights == [] then 0 else Wrap64(WrappedSum(weights[..|weights| - 1]) + weights[|weights| - 1])
  }

  /** The first backend from i on whose cumulative weight exceeds `pos`, or else the last one. */
  function SlotFrom(weights: seq<int>, pos: nat, i: nat): (k: nat)
    requires i <= |weights| && weights != []
    ensures k < |weights|
    decreases |weights| - i
  {
    if i == |weights| then |weights| - 1
    else if pos < AsUint64(WrappedSum(weights[..i + 1])) then i
    else SlotFrom(weights, pos, i + 1)
  }

  /** The backend weighted round robin takes at this counter value. */
  function WeightedPick(weights: seq<int>, counter: nat): nat
    requires weights != []
  {
    if WrappedSum(weights) <= 0 then counter % |weights| else SlotFrom(weights, counter % WrappedSum(weights), 0)
  }

  class RoundRobin {
    var counter: nat

    constructor ()
      ensures counter == 0
    {
      counter := 0;
    }

    method Next(pool: Pool) returns (b: Option<Backend>)
      requires counter < COUNTER_RANGE
      modifies this
      ensures counter < COUNTER_RANGE
      ensures b == None <==> forall x :: x in pool.backends ==> !x.alive
      ensures b.Some? ==> b.value in pool.backends && b.value.alive
      ensures var healthy := AliveOf(pool.backends);
              if healthy == [] then b == None && counter == old(counter)
              else b == Some(healthy[old(counter) % |healthy|]) && counter == (old(counter) + 1) % COUNTER_RANGE
    {
      var healthy, _ := pool.Healthy();
      if |healthy| == 0 {
        return None;
      }
      var index := counter;
      counter := (counter + 1) % COUNTER_RANGE;
      return Some(healthy[index % |healthy|]);
    }
  }

  class WeightedRoundRobin {
    var counter: nat

    constructor ()
      ensures counter == 0
    {
      counter := 0;
    }

    method Next(pool: Pool) returns (b: Option<Backend>)
      requires counter < COUNTER_RANGE
      modifies this
      ensures counter < COUNTER_RANGE
      ensures b == None <==> forall x :: x in pool.backends ==> !x.alive
      ensures b.Some? ==> b.value in pool.backends && b.value.alive
      ensures var healthy := AliveOf(pool.backends);
              if healthy == [] then b == None && counter == old(counter)
              else && b == Some(healthy[WeightedPick(Weights(healthy), old(counter))])
                   && counter == (old(counter) + 1) % COUNTER_RANGE
    {
      var healthy, _ := pool.Healthy();
      if |healthy| == 0 {
        return None;
      }
      var k := Choose(healthy, counter);
      counter := (counter + 1) % COUNTER_RANGE;
      return Some(healthy[k]);
    }

    method Choose(healthy: seq<Backend>, index: nat) returns (k: nat)
      requires healthy != []
      ensures k == WeightedPick(Weights(healthy), index)
    {
      var total := TotalWeight(healthy);
      if total <= 0 {
        return index % |healthy|;
      }
      k := Slot(healthy, index % total);
    }

    method TotalWeight(healthy: seq<Backend>) returns (total: int)
      ensures total == WrappedSum(Weights(healthy))
    {
      ghost var weights := Weights(healthy);
      total := 0;
      for i := 0 to |healthy|
        invariant total == WrappedSum(weights[..i])
      {
        assert weights[..i + 1][..i] == weights[..i];
        total := Wrap64(total + healthy[i].weight);
      }
      assert weights[..|healthy|] == weights;
    }

    /** The cumulative walk, with the last backend to fall back on. */
    method Slot(healthy: seq<Backend>, pos: nat) returns (k: nat)
      requires healthy != []
      ensures k == SlotFrom(Weights(healthy), pos, 0)
    {
      ghost var weights := Weights(healthy);
      var cumulative := 0;
      for i := 0 to |healthy|
        invariant cumulative == WrappedSum(weights[..i])
        invariant SlotFrom(weights, pos, 0) == SlotFrom(weights, pos, i)
      {
        assert weights[..i + 1][..i] == weights[..i];
        cumulative := Wrap64(cumulative + healthy[i].weight);
        if pos < AsUint64(cumulative) {
          return i;
        }
      }
      return |healthy| - 1;
    }
  }

  // ----- weights as backends have them

  /** Backends always weigh at least one; the total fits a signed 64-bit integer. */
  ghost predicate Proper(weights: seq<int>) {
    weights != [] && (forall i :: 0 <= i < |weights| ==> weights[i] >= 1) && Sum(weights) < -INT64_MIN
  }

  lemma {:induction false} WrappedOnce(weights: seq<int>)
    ensures WrappedSum(weights) == Wrap64(Sum(weights))
  {
    if weights == [] {
      WrapInRange(0);
    } else {
      WrappedOnce(weights[..|weights| - 1]);
      WrapAdds(Sum(weights[..|weights| - 1]), weights[|weights| - 1]);
    }
  }

  /** A total from 2^63 up to 2^64 has wrapped below zero, and the weights no longer count. */
  lemma HugeTotalIsPlain(weights: seq<int>, counter: nat)
    requires weights != [] && -INT64_MIN <= Sum(weights) < INT64_RANGE
    ensures WeightedPick(weights, counter) == counter % |weights|
  {
    WrappedOnce(weights);
    AddMultiple(Sum(weights) - INT64_RANGE - INT64_MIN, 1);
  }

  lemma {:induction false} SumGrows(weights: seq<int>, i: nat, j: nat)
    requires (forall k :: 0 <= k < |weights| ==> weights[k] >= 1) && i <= j <= |weights|
    ensures Sum(weights[..i]) + (j - i) <= Sum(weights[..j])
    decreases j
  {
    if i < j {
      SumGrows(weights, i, j - 1);
      assert weights[..j][..j - 1] == weights[..j - 1];
    }
  }

  lemma SumBounds(weights: seq<int>, i: nat)
    requires Proper(weights) && i <= |weights|
    ensures i <= Sum(weights[..i]) <= Sum(weights)
    ensures AsUint64(WrappedSum(weights[..i])) == WrappedSum(weights[..i]) == Sum(weights[..i])
  {
    SumGrows(weights, 0, i);
    SumGrows(weights, i, |weights|);
    assert weights[..0] == [] && weights[..|weights|] == weights;
    WrappedOnce(weights[..i]);
    WrapInRange(Sum(weights[..i]));
    SmallMod(Sum(weights[..i]), COUNTER_RANGE);
  }

  /** The backend found is the one whose share of the positions contains `pos`; the fallback after
      the loop is never needed. */
  lemma {:induction false} SlotIsShare(weights: seq<int>, pos: nat, i: nat)
    requires Proper(weights) && i < |weights| && Sum(weights[..i]) <= pos < Sum(weights)
    ensures var k := SlotFrom(weights, pos, i);
            i <= k && Sum(weights[..k]) <= pos < Sum(weights[..k + 1])
    decreases |weights| - i
  {
    SumBounds(weights, i + 1);
    assert weights[..|weights|] == weights;
    if pos >= Sum(weights[..i + 1]) {
      SlotIsShare(weights, pos, i + 1);
    }
  }

  /** Shares do not overlap. */
  lemma ShareUnique(weights: seq<int>, pos: nat, k: nat, m: nat)
    requires Proper(weights) && k < |weights| && m < |weights|
    requires Sum(weights[..k]) <= pos < Sum(weights[..k + 1]) && Sum(weights[..m]) <= pos < Sum(weights[..m + 1])
    ensures k == m
  {
    if k < m {
      SumGrows(weights, k + 1, m);
    } else if m < k {
      SumGrows(weights, m + 1, k);
    }
  }

  /** A counter value falls to backend k exactly when its position lies in k's share. */
  lemma PickIff(weights: seq<int>, counter: nat, k: nat)
    requires Proper(weights) && k < |weights|
    ensures Sum(weights) > 0
    ensures WeightedPick(weights, counter) == k
            <==> Sum(weights[..k]) <= counter % Sum(weights) < Sum(weights[..k + 1])
  {
    SumBounds(weights, |weights|);
    assert weights[..|weights|] == weights && weights[..0] == [];
    var pos := counter % Sum(weights);
    SlotIsShare(weights, pos, 0);
    if Sum(weights[..k]) <= pos < Sum(weights[..k + 1]) {
      ShareUnique(weights, pos, k, SlotFrom(weights, pos, 0));
    }
  }

  // ----- counting picks

  /** How many of the n picks from counter value `start` on fall to backend k. */
  function Picks(weights: seq<int>, start: nat, n: nat, k: nat): nat
    requires weights != []
  {
    if n == 0 then 0 else Picks(weights, start, n - 1, k) + (if WeightedPick(weights, start + n - 1) == k then 1 else 0)
  }

  lemma {:induction false} PicksSplit(weights: seq<int>, start: nat, m: nat, n: nat, k: nat)
    requires weights != []
    ensures Picks(weights, start, m + n, k) == Picks(weights, start, m, k) + Picks(weights, start + m, n, k)
    decreases n
  {
    if n == 0 {
    } else {
      PicksSplit(weights, start, m, n - 1, k);
    }
  }

  /** The first m positions, m at most one round: exactly the part of k's share they cover. */
  lemma {:induction false} PicksInRound(weights: seq<int>, m: nat, k: nat)
    requires Proper(weights) && k < |weights| && m <= Sum(weights)
    ensures var lo, hi := Sum(weights[..k]), Sum(weights[..k + 1]);
            Picks(weights, 0, m, k) == if m <= lo then 0 else if m <= hi then m - lo else hi - lo
  {
    SumBounds(weights, k);
    SumGrows(weights, k, k + 1);
    if m == 0 {
    } else {
      PicksInRound(weights, m - 1, k);
      PickIff(weights, m - 1, k);
      SmallMod(m - 1, Sum(weights));
    }
  }

  lemma SmallMod(a: nat, n: nat)
    requires a < n
    ensures a % n == a
  {
  }

  lemma PeriodicPick(weights: seq<int>, counter: nat)
    requires Proper(weights)
    ensures Sum(weights) > 0 && WeightedPick(weights, counter + Sum(weights)) == WeightedPick(weights, counter)
  {
    SumBounds(weights, |weights|);
    assert weights[..|weights|] == weights;
    AddPeriod(counter, Sum(weights));
  }

  lemma AddPeriod(a: nat, n: nat)
    requires n > 0
    ensures (a + n) % n == a % n
  {
    var q, r := a / n, a % n;
    assert a + n == (q + 1) * n + r;
    ModOf(q + 1, r, n);
  }

  lemma ModOf(q: int, r: nat, n: nat)
    requires r < n
    ensures (q * n + r) % n == r
  {
    var x := q * n + r;
    var q', r' := x / n, x % n;
    assert x == q' * n + r';
    assert (q - q') * n == r' - r;
    Multiples(q - q', n);
  }

  lemma Multiples(d: int, n: nat)
    ensures d >= 1 ==> d * n >= n
    ensures d <= -1 ==> d * n <= -(n as int)
  {
  }

  /** Any full round, wherever it starts, is like the first. */
  lemma {:induction false} RoundAnywhere(weights: seq<int>, start: nat, k: nat)
    requires Proper(weights) && k < |weights|
    ensures Sum(weights) > 0 && Picks(weights, start, Sum(weights), k) == Picks(weights, 0, Sum(weights), k)
    decreases start
  {
    SumBounds(weights, |weights|);
    assert weights[..|weights|] == weights;
    var w := Sum(weights);
    if start == 0 {
    } else {
      RoundAnywhere(weights, start - 1, k);
      PicksSplit(weights, start - 1, 1, w - 1, k);
      PicksSplit(weights, start, w - 1, 1, k);
      PeriodicPick(weights, start - 1);
      OnePick(weights, start - 1, k);
      OnePick(weights, start + w - 1, k);
    }
  }

  lemma OnePick(weights: seq<int>, start: nat, k: nat)
    requires weights != []
    ensures Picks(weights, start, 1, k) == if WeightedPick(weights, start) == k then 1 else 0
  {
    assert Picks(weights, start, 0, k) == 0;
  }

  /** Exactness: any W consecutive picks, W the total weight, choose each backend exactly as often as
      its weight says. */
  lemma ExactShare(weights: seq<int>, start: nat, k: nat)
    requires Proper(weights) && k < |weights|
    ensures Sum(weights) > 0 && Picks(weights, start, Sum(weights), k) == weights[k]
  {
    RoundAnywhere(weights, start, k);
    PicksInRound(weights, Sum(weights), k);
    SumBounds(weights, k + 1);
    SumBounds(weights, k);
    assert weights[..k + 1][..k] == weights[..k];
  }

  lemma {:induction false} WholeRounds(weights: seq<int>, start: nat, rounds: nat, k: nat)
    requires Proper(weights) && k < |weights|
    ensures Sum(weights) > 0 && rounds * Sum(weights) >= 0
    ensures Picks(weights, start, rounds * Sum(weights), k) == rounds * weights[k]
    decreases rounds
  {
    ExactShare(weights, start, k);
    if rounds == 0 {
    } else {
      WholeRounds(weights, start, rounds - 1, k);
      var w := Sum(weights);
      assert rounds * w == (rounds - 1) * w + w;
      PicksSplit(weights, start, (rounds - 1) * w, w, k);
      ExactShare(weights, start + (rounds - 1) * w, k);
      assert rounds * weights[k] == (rounds - 1) * weights[k] + weights[k];
    }
  }

  /** A number of full rounds and a part of one. */
  lemma RoundsAndRest(weights: seq<int>, start: nat, rounds: nat, rest: nat, k: nat)
    requires Proper(weights) && k < |weights| && rest < Sum(weights)
    ensures rounds * Sum(weights) >= 0
    ensures rounds * weights[k] <= Picks(weights, start, rounds * Sum(weights) + rest, k) <= rounds * weights[k] + weights[k]
  {
    WholeRounds(weights, start, rounds, k);
    var whole := rounds * Sum(weights);
    PicksSplit(weights, start, whole, rest, k);
    PicksSplit(weights, start + whole, rest, Sum(weights) - rest, k);
    ExactShare(weights, start + whole, k);
  }

  /** Over any n picks a backend gets its weight once per full round, and at most once more. */
  lemma ShareBounds(weights: seq<int>, start: nat, n: nat, rounds: nat, k: nat)
    requires Proper(weights) && k < |weights| && Sum(weights) > 0 && rounds == n / Sum(weights)
    ensures rounds * weights[k] <= Picks(weights, start, n, k) <= (rounds + 1) * weights[k]
  {
    Divided(n, Sum(weights));
    RoundsAndRest(weights, start, rounds, n % Sum(weights), k);
    Successor(rounds, weights[k]);
  }

  lemma Divided(a: nat, n: nat)
    requires n > 0
    ensures a == (a / n) * n + a % n && a % n < n
  {
  }

  lemma Successor(a: int, b: int)
    ensures (a + 1) * b == a * b + b
  {
  }

  lemma {:induction false} OnesSum(weights: seq<int>, i: nat)
    requires (forall j :: 0 <= j < |weights| ==> weights[j] == 1) && i <= |weights|
    ensures Sum(weights[..i]) == i
  {
    if i == 0 {
    } else {
      OnesSum(weights, i - 1);
      assert weights[..i][..i - 1] == weights[..i - 1];
    }
  }

  /** With all weights one, weighted round robin is round robin. */
  lemma EqualWeightsAreRoundRobin(weights: seq<int>, counter: nat)
    requires weights != [] && |weights| < -INT64_MIN && forall i :: 0 <= i < |weights| ==> weights[i] == 1
    ensures WeightedPick(weights, counter) == counter % |weights|
  {
    OnesSum(weights, |weights|);
    assert weights[..|weights|] == weights;
    var k := counter % |weights|;
    OnesSum(weights, k);
    OnesSum(weights, k + 1);
    PickIff(weights, counter, k);
  }
}

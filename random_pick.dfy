/** `random_pick`: choose an item by walking the cumulative probabilities
    until the uniform draw `p` falls below them. */
module Picking {

  /** An injected `np.random.randint(0, n)`: any draw, reduced modulo `n`,
      names a valid index, and every index is named by some draw. */
  function DrawIndex(draw: nat, n: nat): (k: nat)
    requires n > 0
    ensures k < n
    ensures draw < n ==> k == draw
  {
    draw % n
  }

  /** The index `random_pick` settles on, walking `probs` with the running sum
      `acc`: the first index whose cumulative probability exceeds `p`, or the
      last index when none does. */
  function PickIndex(probs: seq<real>, p: real, acc: real): (k: nat)
    ensures |probs| == 0 ==> k == 0
    ensures |probs| > 0 ==> k < |probs|
  {
    if |probs| <= 1 then 0
    else if p < acc + probs[0] then 0
    else 1 + PickIndex(probs[1..], p, acc + probs[0])
  }

  /** Sum of the first `k` probabilities. */
  function Cumulative(probs: seq<real>, k: nat): (sum: real)
    requires k <= |probs|
  {
    if k == 0 then 0.0 else Cumulative(probs, k - 1) + probs[k - 1]
  }

  /** Closed description of the pick: every index before it leaves `p` at or
      above the cumulative sum, and the pick itself is the first index that
      brings the sum above `p` (unless it is the last index). */
  lemma {:induction false} PickIndexIsFirstCrossing(probs: seq<real>, p: real, acc: real)
    requires |probs| > 0
    ensures var k := PickIndex(probs, p, acc);
      (forall j :: 0 < j <= k ==> acc + Cumulative(probs, j) <= p) &&
      (k < |probs| - 1 ==> p < acc + Cumulative(probs, k + 1))
  {
    if |probs| > 1 && !(p < acc + probs[0]) {
      var rest := probs[1..];
      PickIndexIsFirstCrossing(rest, p, acc + probs[0]);
      CumulativeShift(probs, PickIndex(probs, p, acc));
      forall j | 0 < j <= PickIndex(probs, p, acc)
        ensures acc + Cumulative(probs, j) <= p
      {
        CumulativeShift(probs, j - 1);
      }
    }
  }

  lemma {:induction false} CumulativeShift(probs: seq<real>, k: nat)
    requires 0 < |probs| && k < |probs|
    ensures Cumulative(probs, k + 1) == probs[0] + Cumulative(probs[1..], k)
  {
    if k > 0 {
      CumulativeShift(probs, k - 1);
    }
  }

  /** The epsilon-greedy coin of the training loop: `random_pick([0, 1], [e, 1 - e])`
      explores (index 0) exactly when the draw is below `e`. */
  lemma EpsilonCoin(e: real, p: real)
    ensures PickIndex([e, 1.0 - e], p, 0.0) == if p < e then 0 else 1
  {
  }

  /** `random_pick`. The draw of `random.uniform(0, 1)` is the parameter `p`. */
  method RandomPick<T>(items: seq<T>, probs: seq<real>, p: real) returns (item: T)
    requires |items| > 0
    ensures item in items
    ensures var n := if |items| < |probs| then |items| else |probs|;
      item == items[PickIndex(probs[..n], p, 0.0)]
  {
    var n := if |items| < |probs| then |items| else |probs|;
    ghost var ps := probs[..n];
    var cumulative := 0.0;
    item := items[0];
    var i := 0;
    while i < n
      invariant i <= n
      invariant i < n ==> i + PickIndex(ps[i..], p, cumulative) == PickIndex(ps, p, 0.0)
      invariant i == n ==> item == items[PickIndex(ps, p, 0.0)]
    {
      assert ps[i..][0] == probs[i];
      cumulative := cumulative + probs[i];
      item := items[i];
      if p < cumulative {
        break;
      }
      assert ps[i..][1..] == ps[i + 1..];
      i := i + 1;
    }
    assert item in items;
  }
}

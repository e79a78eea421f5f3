/** `Math.round(k / total * 100)` on integers: the progress percentage both download loops report. */
module Percent {

  /** `Math.round(k / total * 100)`, rounding halves up, in exact integer arithmetic. */
  function RoundPercent(k: nat, total: nat): nat
    requires total > 0
  {
    (200 * k + total) / (2 * total)
  }

  lemma MulMonotone(b: nat, x: nat, y: nat)
    requires x <= y
    ensures b * x <= b * y
  {
  }

  lemma DivAtLeast(a: nat, b: nat, c: nat)
    requires b > 0 && a >= b * c
    ensures a / b >= c
  {
    if a / b < c {
      assert a == b * (a / b) + a % b;
      assert b * (a / b) <= b * (c - 1) by {
        MulMonotone(b, a / b, c - 1);
      }
    }
  }

  lemma DivBelow(a: nat, b: nat, c: nat)
    requires b > 0 && a < b * (c + 1)
    ensures a / b <= c
  {
    assert b * (a / b) <= a;
    MulCancel(b, a / b, c + 1);
  }

  lemma MulCancel(b: nat, x: nat, y: nat)
    requires b > 0 && b * x < b * y
    ensures x < y
  {
    if x >= y {
      MulMonotone(b, y, x);
    }
  }

  lemma DivMonotone(a: nat, a': nat, b: nat)
    requires b > 0 && a <= a'
    ensures a / b <= a' / b
  {
    DivAtLeast(a', b, a / b);
  }

  /** The percentage of at most all chunks is at most 100, it grows with `k`, and it is 100
      exactly when at most half a percent of the chunks remain. */
  lemma RoundPercentFacts(k: nat, total: nat)
    requires 0 < total && k <= total
    ensures RoundPercent(k, total) <= 100
    ensures RoundPercent(k, total) == 100 <==> 200 * (total - k) <= total
    ensures forall j :: 0 <= j <= k ==> RoundPercent(j, total) <= RoundPercent(k, total)
  {
    DivBelow(200 * k + total, 2 * total, 100);
    if 200 * (total - k) <= total {
      DivAtLeast(200 * k + total, 2 * total, 100);
    } else {
      DivBelow(200 * k + total, 2 * total, 99);
    }
    forall j | 0 <= j <= k
      ensures RoundPercent(j, total) <= RoundPercent(k, total)
    {
      DivMonotone(200 * j + total, 200 * k + total, 2 * total);
    }
  }
}

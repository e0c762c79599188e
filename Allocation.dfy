/**
 * The allocation reconciler of `parseGeminiResponse`. Once a batch of
 * recommendations is known, either every recommendation carries a
 * non-negative `allocationPercentage` or all of them lose it; a total more
 * than 5 away from 100 clears them all, a total more than 0.1 (and at most 5)
 * away rescales each value by `100 / total` rounded to one decimal place, and
 * a total within 0.1 of 100 is left as it is.
 */
module Allocation {
  import opened Wrappers
  import opened StockExtraction

  function Abs(x: real): real {
    if x < 0.0 then -x else x
  }

  /** `parseFloat(x.toFixed(1))` on exact reals: round half up to one decimal place */
  function Round1(x: real): (r: real)
    ensures x - 0.05 < r <= x + 0.05
    ensures (r * 10.0).Floor as real == r * 10.0
    ensures x >= 0.0 ==> r >= 0.0
  {
    var n := (x * 10.0 + 0.5).Floor;
    assert (n as real / 10.0) * 10.0 == n as real;
    n as real / 10.0
  }

  /** A tenth within (x - 0.05, x + 0.05] is the rounded value: the contract of Round1 fixes it. */
  lemma Round1Unique(x: real, y: real)
    requires x - 0.05 < y <= x + 0.05
    requires (y * 10.0).Floor as real == y * 10.0
    ensures y == Round1(x)
  {
    var m := (y * 10.0).Floor;
    assert m as real <= x * 10.0 + 0.5 < m as real + 1.0;
    assert (x * 10.0 + 0.5).Floor == m;
  }

  /** `typeof s.allocationPercentage === 'number' && s.allocationPercentage >= 0` */
  predicate HasPercentage(s: Stock) {
    s.allocationPercentage.Some? && s.allocationPercentage.value >= 0.0
  }

  predicate AllHavePercentage(stocks: seq<Stock>) {
    forall i :: 0 <= i < |stocks| ==> HasPercentage(stocks[i])
  }

  predicate NoneHasPercentage(stocks: seq<Stock>) {
    forall i :: 0 <= i < |stocks| ==> stocks[i].allocationPercentage.None?
  }

  function AllocationOf(s: Stock): real {
    match s.allocationPercentage
    case Some(a) => a
    case None => 0.0
  }

  /** `reduce((sum, s) => sum + s.allocationPercentage!, 0)` */
  function Total(stocks: seq<Stock>): real {
    if stocks == [] then 0.0 else Total(stocks[..|stocks| - 1]) + AllocationOf(stocks[|stocks| - 1])
  }

  /** `delete s.allocationPercentage` */
  function WithoutAllocation(s: Stock): Stock {
    s.(allocationPercentage := None)
  }

  /** `s.allocationPercentage = parseFloat((s.allocationPercentage! * factor).toFixed(1))` */
  function RescaledOne(s: Stock, factor: real): Stock {
    s.(allocationPercentage := Some(Round1(AllocationOf(s) * factor)))
  }

  function Cleared(stocks: seq<Stock>): (r: seq<Stock>)
    ensures |r| == |stocks|
    ensures forall i :: 0 <= i < |stocks| ==> r[i] == WithoutAllocation(stocks[i])
  {
    seq(|stocks|, i requires 0 <= i < |stocks| => WithoutAllocation(stocks[i]))
  }

  function Rescaled(stocks: seq<Stock>, factor: real): (r: seq<Stock>)
    ensures |r| == |stocks|
    ensures forall i :: 0 <= i < |stocks| ==> r[i] == RescaledOne(stocks[i], factor)
  {
    seq(|stocks|, i requires 0 <= i < |stocks| => RescaledOne(stocks[i], factor))
  }

  /** The batch after reconciliation: count, order and every field but the allocation are kept. */
  function Reconciled(stocks: seq<Stock>): (r: seq<Stock>)
    ensures |r| == |stocks|
    ensures forall i :: 0 <= i < |stocks| ==> SameRecommendation(r[i], stocks[i])
  {
    if |stocks| == 0 then stocks
    else if !AllHavePercentage(stocks) then Cleared(stocks)
    else
      var total := Total(stocks);
      if Abs(total - 100.0) > 5.0 then Cleared(stocks)
      else if Abs(total - 100.0) > 0.1 then Rescaled(stocks, 100.0 / total)
      else stocks
  }

  // ---------------------------------------------------------------------------
  // The reconciler as the source runs it: loops over the batch

  method ClearAllocations(stocks: seq<Stock>) returns (r: seq<Stock>)
    ensures r == Cleared(stocks)
  {
    r := stocks;
    var i := 0;
    while i < |r|
      invariant 0 <= i <= |r| == |stocks|
      invariant forall j :: 0 <= j < i ==> r[j] == WithoutAllocation(stocks[j])
      invariant forall j :: i <= j < |r| ==> r[j] == stocks[j]
    {
      r := r[i := r[i].(allocationPercentage := None)];
      i := i + 1;
    }
  }

  method RescaleAllocations(stocks: seq<Stock>, factor: real) returns (r: seq<Stock>)
    ensures r == Rescaled(stocks, factor)
  {
    r := stocks;
    var i := 0;
    while i < |r|
      invariant 0 <= i <= |r| == |stocks|
      invariant forall j :: 0 <= j < i ==> r[j] == RescaledOne(stocks[j], factor)
      invariant forall j :: i <= j < |r| ==> r[j] == stocks[j]
    {
      var scaled := Round1(AllocationOf(r[i]) * factor);
      r := r[i := r[i].(allocationPercentage := Some(scaled))];
      i := i + 1;
    }
  }

  method ReconcileAllocations(stocks: seq<Stock>) returns (r: seq<Stock>)
    ensures r == Reconciled(stocks)
  {
    r := stocks;
    if |r| > 0 {
      var allStocksHavePercentage := true;
      var i := 0;
      while i < |r|
        invariant 0 <= i <= |r|
        invariant allStocksHavePercentage <==> forall j :: 0 <= j < i ==> HasPercentage(r[j])
      {
        allStocksHavePercentage := allStocksHavePercentage && HasPercentage(r[i]);
        i := i + 1;
      }
      if allStocksHavePercentage {
        var totalPercentage := 0.0;
        i := 0;
        while i < |r|
          invariant 0 <= i <= |r|
          invariant totalPercentage == Total(r[..i])
        {
          assert r[..i + 1][..i] == r[..i];
          totalPercentage := totalPercentage + r[i].allocationPercentage.value;
          i := i + 1;
        }
        assert r[..i] == r;
        if Abs(totalPercentage - 100.0) > 5.0 {
          r := ClearAllocations(r);
        } else if Abs(totalPercentage - 100.0) > 0.1 {
          var factor := 100.0 / totalPercentage;
          r := RescaleAllocations(r, factor);
        }
      } else {
        r := ClearAllocations(r);
      }
    }
  }

  // ---------------------------------------------------------------------------
  // Properties

  /** The same recommendation, its allocation aside */
  predicate SameRecommendation(a: Stock, b: Stock) {
    a.ticker == b.ticker && a.companyName == b.companyName && a.rationale == b.rationale
    && a.confidenceScore == b.confidenceScore
  }

  lemma {:induction false} TotalNonNegative(stocks: seq<Stock>)
    requires AllHavePercentage(stocks)
    ensures Total(stocks) >= 0.0
    decreases |stocks|
  {
    if stocks != [] {
      TotalNonNegative(stocks[..|stocks| - 1]);
    }
  }

  /** The total of two batches laid end to end is the sum of their totals. */
  lemma {:induction false} TotalConcat(a: seq<Stock>, b: seq<Stock>)
    ensures Total(a + b) == Total(a) + Total(b)
    decreases |b|
  {
    if b != [] {
      var b' := b[..|b| - 1];
      assert (a + b)[..|a + b| - 1] == a + b';
      assert (a + b)[|a + b| - 1] == b[|b| - 1];
      TotalConcat(a, b');
    } else {
      assert a + b == a;
    }
  }

  /** Afterwards either every recommendation has an allocation or none has. */
  lemma ReconciledAllOrNone(stocks: seq<Stock>)
    ensures AllHavePercentage(Reconciled(stocks)) || NoneHasPercentage(Reconciled(stocks))
  {
    if |stocks| > 0 && AllHavePercentage(stocks) {
      var total := Total(stocks);
      if Abs(total - 100.0) <= 5.0 && Abs(total - 100.0) > 0.1 {
        var factor := 100.0 / total;
        assert factor > 0.0;
        var r := Reconciled(stocks);
        forall i | 0 <= i < |r|
          ensures HasPercentage(r[i])
        {
          var a := AllocationOf(stocks[i]);
          assert a >= 0.0;
          assert a * factor >= 0.0;
          assert r[i] == RescaledOne(stocks[i], factor);
        }
      }
    }
  }

  /** A non-empty batch is cleared exactly when an allocation is missing or the total is more than 5 off. */
  lemma ReconciledClearsIff(stocks: seq<Stock>)
    requires |stocks| > 0
    ensures Reconciled(stocks) == Cleared(stocks)
        <==> !AllHavePercentage(stocks) || Abs(Total(stocks) - 100.0) > 5.0
  {
    if AllHavePercentage(stocks) && Abs(Total(stocks) - 100.0) <= 5.0 {
      var r := Reconciled(stocks);
      assert r[0].allocationPercentage.Some?;
      assert Cleared(stocks)[0].allocationPercentage.None?;
    }
  }

  /** The rescale tier is only entered with a total between 95 and 105, so `100 / total` is defined. */
  lemma RescaleTierTotal(stocks: seq<Stock>)
    requires |stocks| > 0 && AllHavePercentage(stocks)
    requires 0.1 < Abs(Total(stocks) - 100.0) <= 5.0
    ensures 95.0 <= Total(stocks) <= 105.0
    ensures Reconciled(stocks) == Rescaled(stocks, 100.0 / Total(stocks))
  {
  }

  /** A total within 0.1 of 100 leaves the batch untouched. */
  lemma KeepTierUnchanged(stocks: seq<Stock>)
    requires AllHavePercentage(stocks) && Abs(Total(stocks) - 100.0) <= 0.1
    ensures Reconciled(stocks) == stocks
  {
  }

  /** The total of a non-empty batch is the total of all but its last recommendation plus that one. */
  lemma TotalSnoc(stocks: seq<Stock>)
    requires stocks != []
    ensures Total(stocks) == Total(stocks[..|stocks| - 1]) + AllocationOf(stocks[|stocks| - 1])
  {
  }

  /** The total the batch would have if rescaled without rounding. */
  function ScaledTotal(stocks: seq<Stock>, factor: real): real {
    if stocks == [] then 0.0
    else ScaledTotal(stocks[..|stocks| - 1], factor) + AllocationOf(stocks[|stocks| - 1]) * factor
  }

  lemma {:induction false} ScaledTotalIsProduct(stocks: seq<Stock>, factor: real)
    ensures ScaledTotal(stocks, factor) == Total(stocks) * factor
    decreases |stocks|
  {
    if stocks != [] {
      var init, a := stocks[..|stocks| - 1], AllocationOf(stocks[|stocks| - 1]);
      ScaledTotalIsProduct(init, factor);
      assert (Total(init) + a) * factor == Total(init) * factor + a * factor;
    }
  }

  /** Rounding each rescaled value moves the total by at most 0.05 per recommendation. */
  lemma {:induction false} RescaledTotalNear(stocks: seq<Stock>, factor: real)
    ensures var t, bound := Total(Rescaled(stocks, factor)), 0.05 * |stocks| as real;
      ScaledTotal(stocks, factor) - bound <= t <= ScaledTotal(stocks, factor) + bound
    decreases |stocks|
  {
    if stocks != [] {
      var init, last := stocks[..|stocks| - 1], stocks[|stocks| - 1];
      var r := Rescaled(stocks, factor);
      RescaledTotalNear(init, factor);
      assert r[..|r| - 1] == Rescaled(init, factor);
      assert r[|r| - 1] == RescaledOne(last, factor);
      TotalSnoc(r);
    } else {
      assert Rescaled(stocks, factor) == [];
    }
  }

  lemma FactorScalesTo100(total: real)
    requires total != 0.0
    ensures total * (100.0 / total) == 100.0
  {
  }

  lemma WithinOf(t: real, scaled: real, bound: real)
    requires scaled - bound <= t <= scaled + bound && scaled == 100.0
    ensures Abs(t - 100.0) <= bound
  {
  }

  /** Rescaling by a factor that takes the total to 100 lands within 0.05 per recommendation of 100. */
  lemma RescaledNear100(stocks: seq<Stock>, factor: real)
    requires Total(stocks) * factor == 100.0
    ensures Abs(Total(Rescaled(stocks, factor)) - 100.0) <= 0.05 * |stocks| as real
  {
    RescaledTotalNear(stocks, factor);
    ScaledTotalIsProduct(stocks, factor);
    WithinOf(Total(Rescaled(stocks, factor)), ScaledTotal(stocks, factor), 0.05 * |stocks| as real);
  }

  lemma RescaleTierNear(stocks: seq<Stock>)
    requires |stocks| > 0 && AllHavePercentage(stocks)
    requires 0.1 < Abs(Total(stocks) - 100.0) <= 5.0
    ensures Abs(Total(Reconciled(stocks)) - 100.0) <= 0.05 * |stocks| as real
  {
    RescaleTierTotal(stocks);
    RescaledToTotalNear100(stocks);
  }

  lemma RescaledToTotalNear100(stocks: seq<Stock>)
    requires Total(stocks) != 0.0
    ensures Abs(Total(Rescaled(stocks, 100.0 / Total(stocks))) - 100.0) <= 0.05 * |stocks| as real
  {
    FactorScalesTo100(Total(stocks));
    RescaledNear100(stocks, 100.0 / Total(stocks));
  }

  /**
   * When a batch keeps its allocations, their total is within 0.1 of 100
   * (untouched batch) or within 0.05 per recommendation (rescaled batch).
   */
  lemma ReconciledTotal(stocks: seq<Stock>)
    requires |stocks| > 0
    ensures var r := Reconciled(stocks);
      AllHavePercentage(r) ==> Abs(Total(r) - 100.0) <= 0.1 || Abs(Total(r) - 100.0) <= 0.05 * |r| as real
  {
    var total := Total(stocks);
    if !AllHavePercentage(stocks) || Abs(total - 100.0) > 5.0 {
      assert Reconciled(stocks)[0] == WithoutAllocation(stocks[0]);
    } else if Abs(total - 100.0) > 0.1 {
      RescaleTierNear(stocks);
    } else {
      KeepTierUnchanged(stocks);
    }
  }

  function WithAllocation(a: real): Stock {
    Stock("T", "C", "R", None, Some(a))
  }

  lemma TotalOfFive(v: Stock, w: Stock, x: Stock, y: Stock, z: Stock)
    ensures Total([v, w, x, y, z]) == AllocationOf(v) + AllocationOf(w) + AllocationOf(x) + AllocationOf(y) + AllocationOf(z)
  {
    assert [v, w, x, y, z] == [v] + [w] + [x] + [y] + [z];
    TotalSingle(v);
    TotalSingle(w);
    TotalSingle(x);
    TotalSingle(y);
    TotalSingle(z);
    TotalConcat([v] + [w] + [x] + [y], [z]);
    TotalConcat([v] + [w] + [x], [y]);
    TotalConcat([v] + [w], [x]);
    TotalConcat([v], [w]);
  }

  lemma TotalSingle(x: Stock)
    ensures Total([x]) == AllocationOf(x)
  {
    assert [x][..0] == [];
  }

  lemma TotalOfTwo(x: Stock, y: Stock)
    ensures Total([x, y]) == AllocationOf(x) + AllocationOf(y)
  {
    assert [x, y] == [x] + [y];
    TotalConcat([x], [y]);
    TotalSingle(x);
    TotalSingle(y);
  }

  /**
   * The bound of ReconciledTotal cannot be tightened to 0.1: five allocations
   * totalling 99 rescale to 20.04 four times and 19.84, which round to 20.0
   * and 19.8 and total 99.8. No product lies near a rounding tie, so
   * `toFixed(1)` on binary doubles rounds each the same way.
   */
  lemma RescaledTotalCanMiss100ByMoreThanTenth()
    ensures var big, small := WithAllocation(19.8396), WithAllocation(19.6416);
      Total(Reconciled([big, big, big, big, small])) == 99.8
  {
    var big, small := WithAllocation(19.8396), WithAllocation(19.6416);
    var s := [big, big, big, big, small];
    TotalOfFive(big, big, big, big, small);
    assert Total(s) == 99.0;
    var factor := 100.0 / 99.0;
    assert Round1(19.8396 * factor) == 20.0 by {
      assert 19.8396 * factor * 10.0 + 0.5 == 200.9;
    }
    assert Round1(19.6416 * factor) == 19.8 by {
      assert 19.6416 * factor * 10.0 + 0.5 == 198.9;
    }
    var r := Reconciled(s);
    assert r == Rescaled(s, factor);
    var rb, rs := RescaledOne(big, factor), RescaledOne(small, factor);
    assert r == [rb, rb, rb, rb, rs];
    TotalOfFive(rb, rb, rb, rb, rs);
  }

  /** 60 + 50 = 110 is more than 5 away from 100: both allocations are cleared, not rescaled. */
  lemma SixtyPlusFiftyIsCleared()
    ensures var s := [WithAllocation(60.0), WithAllocation(50.0)];
      Reconciled(s) == Cleared(s) && NoneHasPercentage(Reconciled(s))
  {
    TotalOfTwo(WithAllocation(60.0), WithAllocation(50.0));
  }

  /** 60 + 10 = 70: both recommendations stay, both without allocation. */
  lemma SixtyPlusTenIsCleared()
    ensures var s := [WithAllocation(60.0), WithAllocation(10.0)];
      |Reconciled(s)| == 2 && NoneHasPercentage(Reconciled(s))
  {
    TotalOfTwo(WithAllocation(60.0), WithAllocation(10.0));
  }
}

/** The base fee market (economics/fees/src/eip1559.rs). */
module FeeMarkets {
  import opened Words
  import opened Arith
  import opened FeeSplits

  datatype FeeConfig = FeeConfig(target: u64, maxGas: u64, floor: u64, elasticity: u64, split: SplitConfig)

  datatype FeeError = ZeroElasticity | InvalidSplitRatios

  /** The change for gas `excess` away from the target. */
  function FeeDelta(c: FeeConfig, fee: nat, excess: nat): nat
    requires c.target > 0 && c.elasticity > 0
  {
    assert c.target * c.elasticity > 0;
    fee * excess / (c.target * c.elasticity)
  }

  function Raised(fee: u64, delta: nat, floor: u64): u64 {
    var moved := SaturatingAdd(fee, AsU64(Max(1, delta)));
    if moved < floor then floor else moved
  }

  function Lowered(fee: u64, delta: nat, floor: u64): u64 {
    var moved := SaturatingSub(fee, AsU64(delta));
    if moved < floor then floor else moved
  }

  /** `update_base_fee`. */
  function NextFee(c: FeeConfig, fee: u64, gas: u64): u64
    requires c.elasticity > 0 && (c.target > 0 || gas == c.target)
  {
    if gas == c.target then fee
    else if gas > c.target then Raised(fee, FeeDelta(c, fee, gas - c.target), c.floor)
    else Lowered(fee, FeeDelta(c, fee, c.target - gas), c.floor)
  }

  /** One `elasticity`-th of the fee, rounded down. */
  function Fraction(c: FeeConfig, fee: nat): (n: nat)
    requires c.elasticity > 0
    ensures n <= fee
  {
    MulMonotone(fee / c.elasticity, 1, c.elasticity);
    DivBounds(fee, c.elasticity);
    DivMonotone(0, fee, c.elasticity);
    fee / c.elasticity
  }

  /** The settings and blocks the market is meant for. */
  predicate Normal(c: FeeConfig, gas: u64) { c.elasticity > 0 && c.target > 0 && gas <= 2 * c.target }

  lemma DivScale(f: nat, t: nat, e: nat)
    requires t > 0 && e > 0
    ensures t * e > 0 && f * t / (t * e) == f / e
  {
    var q, r := f / e, f % e;
    MulMonotone(t, 1, e);
    MulMonotone(t, 0, r);
    MulMonotone(t, r + 1, e);
    MulStep(t, r);
    assert f * t == (t * e) * q + t * r by {
      assert f == e * q + r;
      assert (t * e) * q == t * (e * q);
      assert t * (e * q + r) == t * (e * q) + t * r;
    }
    DivModUnique(f * t, t * e, q, t * r);
  }

  /** Up to twice the target, one block moves the fee by at most a fraction `1 / elasticity`. */
  lemma DeltaBound(c: FeeConfig, fee: nat, excess: nat)
    requires c.target > 0 && c.elasticity > 0 && excess <= c.target
    ensures FeeDelta(c, fee, excess) <= Fraction(c, fee)
  {
    DivScale(fee, c.target, c.elasticity);
    MulMonotone(fee, excess, c.target);
    DivMonotone(fee * excess, fee * c.target, c.target * c.elasticity);
  }

  lemma DeltaMonotone(c: FeeConfig, f1: nat, f2: nat, x1: nat, x2: nat)
    requires c.target > 0 && c.elasticity > 0 && f1 <= f2 && x1 <= x2
    ensures FeeDelta(c, f1, x1) <= FeeDelta(c, f2, x2)
  {
    MulMonotone(f1, x1, x2);
    MulMonotone(x2, f1, f2);
    DivMonotone(f1 * x1, f2 * x2, c.target * c.elasticity);
  }

  /** The change grows no faster than the fee. */
  lemma DeltaLipschitz(c: FeeConfig, f1: nat, f2: nat, x: nat)
    requires c.target > 0 && c.elasticity > 0 && f1 <= f2 && x <= c.target
    ensures FeeDelta(c, f2, x) - FeeDelta(c, f1, x) <= f2 - f1
  {
    var k := c.target * c.elasticity;
    MulMonotone(c.target, 1, c.elasticity);
    MulMonotone(f2 - f1, x, k);
    assert f2 * x == f1 * x + (f2 - f1) * x;
    DivShift(f1 * x, f2 - f1, k);
    DivMonotone(f2 * x, f1 * x + (f2 - f1) * k, k);
  }

  lemma DivShift(a: nat, n: nat, k: nat)
    requires k > 0
    ensures (a + n * k) / k == a / k + n
  {
    assert a + n * k == k * (a / k + n) + a % k by {
      assert k * (a / k + n) == k * (a / k) + k * n;
    }
    DivModUnique(a + n * k, k, a / k + n, a % k);
  }

  lemma AsU64Small(x: nat)
    requires x <= U64_MAX
    ensures AsU64(x) == x
  {
    DivModUnique(x, U64_SIZE, 0, x);
  }

  lemma RaisedBounds(fee: u64, delta: nat, floor: u64, most: nat)
    requires floor <= fee && delta <= most <= fee
    ensures Raised(fee, delta, floor) == SaturatingAdd(fee, Max(1, delta))
    ensures fee <= Raised(fee, delta, floor) <= fee + Max(1, most)
    ensures Raised(fee, delta, floor) > fee || fee == U64_MAX
  {
    AsU64Small(Max(1, delta));
  }

  lemma LoweredBounds(fee: u64, delta: nat, floor: u64, most: nat)
    requires floor <= fee && delta <= most <= fee
    ensures Lowered(fee, delta, floor) == Max(floor, fee - delta)
    ensures fee - most <= Lowered(fee, delta, floor) <= fee
  {
    AsU64Small(delta);
  }

  /** One block: the floor holds, the fee moves the right way and by at most a fraction `1 / elasticity`. */
  lemma FeeStepBounded(c: FeeConfig, fee: u64, gas: u64)
    requires Normal(c, gas) && fee >= c.floor
    ensures var next := NextFee(c, fee, gas);
            && next >= c.floor
            && fee - Fraction(c, fee) <= next <= fee + Max(1, Fraction(c, fee))
            && (gas == c.target ==> next == fee)
            && (gas > c.target ==> next > fee || fee == U64_MAX)
            && (gas < c.target ==> next <= fee)
  {
    var most := Fraction(c, fee);
    if gas > c.target {
      DeltaBound(c, fee, gas - c.target);
      RaisedBounds(fee, FeeDelta(c, fee, gas - c.target), c.floor, most);
    } else if gas < c.target {
      DeltaBound(c, fee, c.target - gas);
      LoweredBounds(fee, FeeDelta(c, fee, c.target - gas), c.floor, most);
    }
  }

  /** Dividing by `k`: the quotient is the only such number. */
  lemma DeltaExact(c: FeeConfig, fee: nat, excess: nat)
    requires c.target > 0 && c.elasticity > 0
    ensures var d, k := FeeDelta(c, fee, excess), c.target * c.elasticity;
            d * k <= fee * excess < (d + 1) * k
  {
    var k := c.target * c.elasticity;
    MulMonotone(c.target, 1, c.elasticity);
    DivBounds(fee * excess, k);
    MulStep(k, FeeDelta(c, fee, excess));
  }

  /** The size of one step up to twice the target: the fee times the distance from the target, over target times
      elasticity, rounded down, but never less than one upwards, and never past the floor downwards. */
  lemma FeeStepExact(c: FeeConfig, fee: u64, gas: u64)
    requires Normal(c, gas) && fee >= c.floor
    ensures gas < c.target && NextFee(c, fee, gas) > c.floor ==>
      var d, k := fee - NextFee(c, fee, gas), c.target * c.elasticity;
      d * k <= fee * (c.target - gas) < (d + 1) * k
    ensures gas > c.target && Unsaturated(c, fee, gas) ==>
      var d, k := NextFee(c, fee, gas) - fee, c.target * c.elasticity;
      d >= 1 && fee * (gas - c.target) < (d + 1) * k && (d > 1 ==> d * k <= fee * (gas - c.target))
  {
    if gas < c.target {
      DeltaExact(c, fee, c.target - gas);
      DeltaBound(c, fee, c.target - gas);
      LoweredBounds(fee, FeeDelta(c, fee, c.target - gas), c.floor, Fraction(c, fee));
    } else if gas > c.target {
      var delta := FeeDelta(c, fee, gas - c.target);
      DeltaExact(c, fee, gas - c.target);
      DeltaBound(c, fee, gas - c.target);
      RaisedBounds(fee, delta, c.floor, Fraction(c, fee));
      MulMonotone(c.target * c.elasticity, delta + 1, Max(1, delta) + 1);
    }
  }

  // ---------- when a rise stays within the fraction ----------

  /** The block raises the fee by at most a fraction `1 / elasticity`, as documented. */
  predicate RiseWithin(c: FeeConfig, fee: u64, gas: u64)
    requires c.elasticity > 0 && c.target > 0
  {
    NextFee(c, fee, gas) <= fee + Fraction(c, fee)
  }

  /** The raise before it is forced into 64 bits. */
  function Rise(c: FeeConfig, fee: nat, gas: u64): nat
    requires c.elasticity > 0 && c.target > 0 && gas > c.target
  {
    Max(1, FeeDelta(c, fee, gas - c.target))
  }

  predicate Unsaturated(c: FeeConfig, fee: nat, gas: u64)
    requires c.elasticity > 0 && c.target > 0 && gas > c.target
  {
    fee + Rise(c, fee, gas) <= U64_MAX
  }

  /** What breaks the documented cap: the forced step of one below `elasticity`, or a raise of more than the
      fraction. */
  predicate Breaks(c: FeeConfig, fee: nat, gas: u64)
    requires c.elasticity > 0 && c.target > 0 && gas > c.target
  {
    fee < c.elasticity || FeeDelta(c, fee, gas - c.target) > Fraction(c, fee)
  }

  lemma FractionPositiveIff(c: FeeConfig, fee: nat)
    requires c.elasticity > 0
    ensures Fraction(c, fee) == 0 <==> fee < c.elasticity
  {
    if fee < c.elasticity {
      DivModUnique(fee, c.elasticity, 0, fee);
    } else {
      DivMonotone(c.elasticity, fee, c.elasticity);
      DivModUnique(c.elasticity, c.elasticity, 1, 0);
    }
  }

  lemma RaisedWithinIff(fee: u64, delta: nat, floor: u64, most: nat)
    requires floor <= fee
    ensures Raised(fee, delta, floor) <= fee + most <==> AsU64(Max(1, delta)) <= most || fee + most >= U64_MAX
    ensures fee + Max(1, delta) <= U64_MAX ==> (Raised(fee, delta, floor) <= fee + most <==> most >= 1 && delta <= most)
  {
    if fee + Max(1, delta) <= U64_MAX {
      AsU64Small(Max(1, delta));
    }
  }

  /** Exactly when one block keeps the cap, whatever its gas; and, without saturation, that it is exactly when
      nothing above breaks it. */
  lemma RiseWithinIff(c: FeeConfig, fee: u64, gas: u64)
    requires c.elasticity > 0 && c.target > 0 && fee >= c.floor
    ensures gas <= c.target ==> RiseWithin(c, fee, gas)
    ensures gas > c.target ==>
      (RiseWithin(c, fee, gas) <==> AsU64(Rise(c, fee, gas)) <= Fraction(c, fee) || fee + Fraction(c, fee) >= U64_MAX)
    ensures gas > c.target && Unsaturated(c, fee, gas) ==> (RiseWithin(c, fee, gas) <==> !Breaks(c, fee, gas))
  {
    if gas <= c.target {
      FeeStepBounded(c, fee, gas);
    } else {
      RaisedWithinIff(fee, FeeDelta(c, fee, gas - c.target), c.floor, Fraction(c, fee));
      FractionPositiveIff(c, fee);
    }
  }

  /** The cap holds at every fee the market can have. */
  ghost predicate CapHolds(c: FeeConfig, gas: u64)
    requires c.elasticity > 0 && c.target > 0
  {
    forall fee: u64 :: fee >= c.floor ==> RiseWithin(c, fee, gas)
  }

  /** The cap holds at every such fee that does not saturate. */
  ghost predicate UnsaturatedCapHolds(c: FeeConfig, gas: u64)
    requires c.elasticity > 0 && c.target > 0 && gas > c.target
  {
    forall fee: u64 :: fee >= c.floor && Unsaturated(c, fee, gas) ==> RiseWithin(c, fee, gas)
  }

  /** The least fee at or above the floor that breaks the cap. */
  ghost predicate FirstBreaking(c: FeeConfig, gas: u64, fee: nat)
    requires c.elasticity > 0 && c.target > 0 && gas > c.target
  {
    fee >= c.floor && Breaks(c, fee, gas) && forall f: nat :: c.floor <= f < fee ==> !Breaks(c, f, gas)
  }

  lemma UnsaturatedBelow(c: FeeConfig, f1: nat, f2: nat, gas: u64)
    requires c.elasticity > 0 && c.target > 0 && gas > c.target && f1 <= f2 && Unsaturated(c, f2, gas)
    ensures Unsaturated(c, f1, gas)
  {
    DeltaMonotone(c, f1, f2, gas - c.target, gas - c.target);
  }

  /** Up to twice the target, at or above `elasticity`, the raise is within the fraction, saturated or not. */
  lemma NormalRiseWithin(c: FeeConfig, fee: u64, gas: u64)
    requires Normal(c, gas) && gas > c.target && fee >= c.floor && fee >= c.elasticity
    ensures RiseWithin(c, fee, gas)
  {
    DeltaBound(c, fee, gas - c.target);
    FractionPositiveIff(c, fee);
    AsU64Small(Rise(c, fee, gas));
    RiseWithinIff(c, fee, gas);
  }

  /** Up to the target the cap always holds; up to twice the target exactly when the floor keeps fees at or
      above `elasticity`. */
  lemma CapHoldsIff(c: FeeConfig, gas: u64)
    requires Normal(c, gas)
    ensures CapHolds(c, gas) <==> gas <= c.target || c.floor >= c.elasticity
  {
    if gas <= c.target {
      forall fee: u64 | fee >= c.floor ensures RiseWithin(c, fee, gas) {
        RiseWithinIff(c, fee, gas);
      }
    } else if c.floor >= c.elasticity {
      forall fee: u64 | fee >= c.floor ensures RiseWithin(c, fee, gas) {
        NormalRiseWithin(c, fee, gas);
      }
    } else {
      DeltaBound(c, c.floor, gas - c.target);
      FractionPositiveIff(c, c.floor);
      RiseWithinIff(c, c.floor, gas);
    }
  }

  /** Past it, short of saturation, exactly when already the least fee that breaks the cap saturates. */
  lemma CapHoldsBeyondIff(c: FeeConfig, gas: u64, first: nat)
    requires c.elasticity > 0 && c.target > 0 && gas > c.target && FirstBreaking(c, gas, first)
    ensures UnsaturatedCapHolds(c, gas) <==> !Unsaturated(c, first, gas)
  {
    if Unsaturated(c, first, gas) {
      RiseWithinIff(c, first, gas);
    } else {
      forall fee: u64 | fee >= c.floor && Unsaturated(c, fee, gas) ensures RiseWithin(c, fee, gas) {
        if fee >= first {
          UnsaturatedBelow(c, first, fee, gas);
        }
        RiseWithinIff(c, fee, gas);
      }
    }
  }

  lemma FractionMonotone(c: FeeConfig, f1: nat, f2: nat)
    requires c.elasticity > 0 && f1 <= f2
    ensures Fraction(c, f1) <= Fraction(c, f2)
  {
    DivMonotone(f1, f2, c.elasticity);
  }

  lemma UnbrokenRiseWithin(c: FeeConfig, fee: u64, gas: u64)
    requires c.elasticity > 0 && c.target > 0 && gas > c.target && fee >= c.floor && !Breaks(c, fee, gas)
    ensures RiseWithin(c, fee, gas)
  {
    FractionPositiveIff(c, fee);
    AsU64Small(Rise(c, fee, gas));
    RiseWithinIff(c, fee, gas);
  }

  /** The same for all fees, saturating ones included: the cap holds if even its own bound saturates at the least
      fee that breaks it, and only then, unless the raise there is past 64 bits and the cast makes it smaller. */
  lemma CapHoldsAllIff(c: FeeConfig, gas: u64, first: nat)
    requires c.elasticity > 0 && c.target > 0 && gas > c.target && FirstBreaking(c, gas, first)
    ensures first + Fraction(c, first) >= U64_MAX ==> CapHolds(c, gas)
    ensures Rise(c, first, gas) <= U64_MAX ==> (CapHolds(c, gas) <==> first + Fraction(c, first) >= U64_MAX)
  {
    if first + Fraction(c, first) >= U64_MAX {
      forall fee: u64 | fee >= c.floor ensures RiseWithin(c, fee, gas) {
        if fee < first {
          UnbrokenRiseWithin(c, fee, gas);
        } else {
          FractionMonotone(c, first, fee);
          RiseWithinIff(c, fee, gas);
        }
      }
    } else if Rise(c, first, gas) <= U64_MAX {
      AsU64Small(Rise(c, first, gas));
      FractionPositiveIff(c, first);
      RiseWithinIff(c, first, gas);
    }
  }

  /** Past twice the target every multiple of `target * elasticity` meets `Breaks`; so at or above the floor and
      short of saturation the fee rises by more than the fraction. */
  lemma BeyondTwiceTarget(c: FeeConfig, gas: u64, k: nat)
    requires c.elasticity > 0 && c.target > 0 && gas > 2 * c.target && k > 0
    ensures var fee := c.target * c.elasticity * k;
            && Breaks(c, fee, gas)
            && (fee >= c.floor && Unsaturated(c, fee, gas) ==> !RiseWithin(c, fee, gas))
  {
    MultipleBreaks(c, gas, k);
    var fee := c.target * c.elasticity * k;
    if fee >= c.floor && Unsaturated(c, fee, gas) {
      RiseWithinIff(c, fee, gas);
    }
  }

  lemma MultipleBreaks(c: FeeConfig, gas: u64, k: nat)
    requires c.elasticity > 0 && c.target > 0 && gas > 2 * c.target && k > 0
    ensures Breaks(c, c.target * c.elasticity * k, gas)
  {
    var t, e, x := c.target, c.elasticity, gas - c.target;
    MulMonotone(t, 1, e);
    assert t * e * k == e * (t * k);
    DivModUnique(t * e * k, e, t * k, 0);
    assert t * e * k * x == (t * e) * (k * x);
    DivModUnique(t * e * k * x, t * e, k * x, 0);
    MulMonotone(k, t + 1, x);
    MulStep(k, t);
  }

  lemma {:induction false} FirstFrom(c: FeeConfig, gas: u64, low: nat, top: nat) returns (first: nat)
    requires c.elasticity > 0 && c.target > 0 && gas > c.target
    requires c.floor <= low <= top && Breaks(c, top, gas) && forall f: nat :: c.floor <= f < low ==> !Breaks(c, f, gas)
    ensures FirstBreaking(c, gas, first) && first <= top
    decreases top - low
  {
    if Breaks(c, low, gas) {
      first := low;
    } else {
      first := FirstFrom(c, gas, low + 1, top);
    }
  }

  /** So past twice the target there always is such a least fee. */
  lemma FirstBreakingExists(c: FeeConfig, gas: u64) returns (first: nat)
    requires c.elasticity > 0 && c.target > 0 && gas > 2 * c.target
    ensures FirstBreaking(c, gas, first)
  {
    var k := c.floor + 1;
    MulMonotone(c.target, 1, c.elasticity);
    MulMonotone(k, 1, c.target * c.elasticity);
    MultipleBreaks(c, gas, k);
    first := FirstFrom(c, gas, c.floor, c.target * c.elasticity * k);
  }

  lemma RaiseMonotone(f1: u64, f2: u64, d1: nat, d2: nat, floor: u64)
    requires floor <= f1 <= f2 && d1 <= d2 <= U64_MAX
    ensures f1 <= Raised(f1, d1, floor) <= Raised(f2, d2, floor)
  {
    AsU64Small(Max(1, d1));
    AsU64Small(Max(1, d2));
  }

  lemma LowerMonotone(f1: u64, f2: u64, d1: nat, d2: nat, floor: u64)
    requires floor <= f1 <= f2 && d1 <= f1 && d2 <= f2 && d2 - d1 <= f2 - f1
    ensures Lowered(f1, d1, floor) <= Lowered(f2, d2, floor)
  {
    LoweredBounds(f1, d1, floor, f1);
    LoweredBounds(f2, d2, floor, f2);
  }

  /** Fuller blocks and higher fees lead to higher fees, as long as the raise fits 64 bits. */
  lemma FeeMonotone(c: FeeConfig, f1: u64, f2: u64, g1: u64, g2: u64)
    requires c.elasticity > 0 && c.target > 0 && c.floor <= f1 <= f2 && g1 <= g2
    requires g2 > c.target ==> FeeDelta(c, f2, g2 - c.target) <= U64_MAX
    ensures NextFee(c, f1, g1) <= NextFee(c, f2, g2)
  {
    if g2 < c.target {
      DeltaMonotone(c, f1, f1, c.target - g2, c.target - g1);
      DeltaLipschitz(c, f1, f2, c.target - g2);
      DeltaBound(c, f1, c.target - g1);
      DeltaBound(c, f2, c.target - g2);
      LowerMonotone(f1, f2, FeeDelta(c, f1, c.target - g1), FeeDelta(c, f2, c.target - g2), c.floor);
    } else if g1 > c.target {
      DeltaMonotone(c, f1, f2, g1 - c.target, g2 - c.target);
      RaiseMonotone(f1, f2, FeeDelta(c, f1, g1 - c.target), FeeDelta(c, f2, g2 - c.target), c.floor);
    } else {
      FeeStepBounded(c, f1, g1);
      if g2 > c.target {
        RaiseMonotone(f2, f2, 0, FeeDelta(c, f2, g2 - c.target), c.floor);
      }
    }
  }

  /** Up to twice the target it always fits. */
  lemma NormalRaiseFits(c: FeeConfig, fee: u64, gas: u64)
    requires Normal(c, gas) && gas > c.target
    ensures FeeDelta(c, fee, gas - c.target) <= U64_MAX
  {
    DeltaBound(c, fee, gas - c.target);
  }

  /** A raise of exactly 2^64 is cast to nothing, so a fuller block leads to the lower fee. */
  lemma RaiseWrapsAway(split: SplitConfig)
    ensures var c := FeeConfig(1, 0, 0, 1, split);
            NextFee(c, 0x8000_0000_0000_0000, 3) == 0x8000_0000_0000_0000 < NextFee(c, 0x8000_0000_0000_0000, 2)
  {
    var c := FeeConfig(1, 0, 0, 1, split);
    assert FeeDelta(c, 0x8000_0000_0000_0000, 2) == U64_SIZE;
    assert FeeDelta(c, 0x8000_0000_0000_0000, 1) == 0x8000_0000_0000_0000;
  }

  ghost predicate NormalRun(c: FeeConfig, blocks: seq<u64>) {
    c.elasticity > 0 && c.target > 0 && forall i :: 0 <= i < |blocks| ==> blocks[i] <= 2 * c.target
  }

  /** The base fee after a run of blocks. */
  ghost function FeeAfter(c: FeeConfig, fee: u64, blocks: seq<u64>): u64
    requires NormalRun(c, blocks)
    decreases |blocks|
  {
    if |blocks| == 0 then fee else FeeAfter(c, NextFee(c, fee, blocks[0]), blocks[1..])
  }

  /** A chain whose blocks are all at least as full never has the lower fee, and the floor always holds. */
  lemma {:induction false} RunMonotone(c: FeeConfig, f1: u64, f2: u64, b1: seq<u64>, b2: seq<u64>)
    requires c.floor <= f1 <= f2 && |b1| == |b2|
    requires NormalRun(c, b2) && forall i :: 0 <= i < |b1| ==> b1[i] <= b2[i]
    ensures c.floor <= FeeAfter(c, f1, b1) <= FeeAfter(c, f2, b2)
    decreases |b1|
  {
    if b1 != [] {
      FeeStepBounded(c, f1, b1[0]);
      if b2[0] > c.target {
        NormalRaiseFits(c, f2, b2[0]);
      }
      FeeMonotone(c, f1, f2, b1[0], b2[0]);
      RunMonotone(c, NextFee(c, f1, b1[0]), NextFee(c, f2, b2[0]), b1[1..], b2[1..]);
    }
  }

  /** An empty block leaves the fee alone exactly at the floor or below `elasticity`; otherwise it lowers it. */
  lemma EmptyBlock(c: FeeConfig, fee: u64)
    requires Normal(c, 0) && fee >= c.floor
    ensures NextFee(c, fee, 0) == Max(c.floor, fee - Fraction(c, fee)) <= fee
    ensures NextFee(c, fee, 0) == fee <==> fee == c.floor || fee < c.elasticity
  {
    DivScale(fee, c.target, c.elasticity);
    DeltaBound(c, fee, c.target);
    LoweredBounds(fee, FeeDelta(c, fee, c.target), c.floor, Fraction(c, fee));
    if fee >= c.elasticity {
      DivMonotone(c.elasticity, fee, c.elasticity);
      DivModUnique(c.elasticity, c.elasticity, 1, 0);
    } else {
      DivModUnique(fee, c.elasticity, 0, fee);
    }
  }

  ghost function Empties(n: nat): seq<u64> { seq(n, _ => 0) }

  lemma EmptiesStep(c: FeeConfig, fee: u64, n: nat)
    requires Normal(c, 0) && n > 0
    ensures FeeAfter(c, fee, Empties(n)) == FeeAfter(c, NextFee(c, fee, 0), Empties(n - 1))
  {
    assert Empties(n)[1..] == Empties(n - 1);
  }

  /** From `n` empty blocks on, the fee no longer changes. */
  ghost predicate SettledAfter(c: FeeConfig, fee: u64, n: nat)
    requires Normal(c, 0)
  {
    forall k: nat :: k >= n ==> FeeAfter(c, fee, Empties(k)) == FeeAfter(c, fee, Empties(n))
  }

  lemma SettledStep(c: FeeConfig, fee: u64, n: nat)
    requires Normal(c, 0) && SettledAfter(c, NextFee(c, fee, 0), n)
    ensures SettledAfter(c, fee, n + 1)
  {
    EmptiesStep(c, fee, n + 1);
    forall k: nat | k >= n + 1 ensures FeeAfter(c, fee, Empties(k)) == FeeAfter(c, fee, Empties(n + 1)) {
      EmptiesStep(c, fee, k);
    }
  }

  /** Empty blocks settle the fee within `fee - floor` steps at the floor or below `elasticity`, for good. */
  lemma {:induction false} EmptyBlocksSettle(c: FeeConfig, fee: u64) returns (n: nat)
    requires Normal(c, 0) && fee >= c.floor
    ensures n <= fee - c.floor && SettledAfter(c, fee, n)
    ensures c.floor <= FeeAfter(c, fee, Empties(n)) <= Max(c.floor, c.elasticity - 1)
    decreases fee
  {
    EmptyBlock(c, fee);
    var next := NextFee(c, fee, 0);
    if next == fee {
      n := 0;
      forall k: nat ensures FeeAfter(c, fee, Empties(k)) == fee {
        StaysSettled(c, fee, k);
      }
    } else {
      n := EmptyBlocksSettle(c, next);
      SettledStep(c, fee, n);
      EmptiesStep(c, fee, n + 1);
      n := n + 1;
    }
  }

  lemma {:induction false} StaysSettled(c: FeeConfig, fee: u64, k: nat)
    requires Normal(c, 0) && NextFee(c, fee, 0) == fee
    ensures FeeAfter(c, fee, Empties(k)) == fee
  {
    if k > 0 {
      EmptiesStep(c, fee, k);
      StaysSettled(c, fee, k - 1);
    }
  }

  class FeeMarket {
    const config: FeeConfig
    var baseFee: u64

    ghost predicate Valid()
      reads this
    {
      config.elasticity > 0 && baseFee >= config.floor
    }

    constructor (config: FeeConfig, initial: u64)
      requires config.elasticity > 0
      ensures Valid() && this.config == config
      ensures baseFee == Max(initial, config.floor)
    {
      this.config := config;
      baseFee := if initial >= config.floor then initial else config.floor;
    }

    /** `FeeMarket::new`, with its refusals. */
    static method Create(config: FeeConfig, initial: u64) returns (market: FeeMarket?, error: Option<FeeError>)
      ensures error == if config.elasticity == 0 then Some(ZeroElasticity)
                       else if !config.split.Validate() then Some(InvalidSplitRatios) else None
      ensures market == null <==> error.Some?
      ensures market != null ==> fresh(market) && market.Valid() && market.config == config &&
                                 market.baseFee == Max(initial, config.floor)
    {
      if config.elasticity == 0 {
        return null, Some(ZeroElasticity);
      }
      if !config.split.Validate() {
        return null, Some(InvalidSplitRatios);
      }
      market := new FeeMarket(config, initial);
      error := None;
    }

    method UpdateBaseFee(gasUsed: u64)
      requires Valid() && (config.target > 0 || gasUsed == config.target)
      modifies this`baseFee
      ensures Valid() && baseFee == NextFee(config, old(baseFee), gasUsed)
    {
      if gasUsed == config.target {
        return;
      }
      if gasUsed > config.target {
        var delta := FeeDelta(config, baseFee, gasUsed - config.target);
        baseFee := SaturatingAdd(baseFee, AsU64(Max(1, delta)));
      } else {
        var delta := FeeDelta(config, baseFee, config.target - gasUsed);
        baseFee := SaturatingSub(baseFee, AsU64(delta));
      }
      if baseFee < config.floor {
        baseFee := config.floor;
      }
    }
  }
}

/** The four-way fee split and its epoch schedule (economics/fees/src/types.rs, split.rs). */
module FeeSplits {
  import opened Words
  import opened Arith

  // ---------- signed 64-bit arithmetic ----------

  const I64_HALF: nat := 0x8000_0000_0000_0000

  /** The two's complement reading of the low 64 bits. */
  function AsI64(x: int): int { (x + I64_HALF) % U64_SIZE - I64_HALF }

  function AsU64(x: int): u64 { x % U64_SIZE }

  /** Division rounding toward zero. (The one quotient that does not fit, the least number by -1, panics in the
      source; here it wraps.) */
  function TruncDiv(x: int, y: int): int
    requires y != 0
  {
    if x >= 0 then x / y else -((-x) / y)
  }

  lemma AsI64Small(x: int)
    requires 0 - I64_HALF <= x < I64_HALF
    ensures AsI64(x) == x
  {
    DivModUnique(x + I64_HALF, U64_SIZE, 0, x + I64_HALF);
  }

  // ---------- ratios ----------

  datatype SplitRatios = SplitRatios(burn: u64, validator: u64, treasury: u64, developer: u64) {
    function Sum(): nat { burn + validator + treasury + developer }

    /** `validate`; the 64-bit sum wraps. */
    predicate Validate() { Sum() % U64_SIZE == 10_000 }

    /** The ratios add up to all of the fee. */
    predicate Whole() { Sum() == 10_000 }
  }

  lemma ValidateIsWholeIff(r: SplitRatios)
    requires r.Validate()
    ensures r.Whole() <==> r.Sum() <= U64_MAX
  {
    if r.Sum() <= U64_MAX {
      DivModUnique(r.Sum(), U64_SIZE, 0, r.Sum());
    }
  }

  /** A wrapped sum that validates. */
  lemma WrappedValidate()
    ensures var r := SplitRatios(U64_MAX, 10_001, 0, 0); r.Validate() && !r.Whole()
  {
  }

  datatype SplitConfig = SplitConfig(launch: SplitRatios, maturity: SplitRatios, transitionEpochs: u64) {
    predicate Validate() { launch.Validate() && maturity.Validate() }
  }

  function Interpolate(launch: u64, maturity: u64, epoch: u64, transition: u64): u64
    requires AsI64(transition) != 0
  {
    var l, m := AsI64(launch), AsI64(maturity);
    AsU64(AsI64(l + AsI64(TruncDiv(AsI64(AsI64(m - l) * AsI64(epoch)), AsI64(transition)))))
  }

  lemma TransitionNonZero(t: u64)
    requires t > 0
    ensures AsI64(t) != 0
  {
    if t < I64_HALF {
      AsI64Small(t);
    } else {
      DivModUnique(t + I64_HALF, U64_SIZE, 1, t - I64_HALF);
    }
  }

  function Remainder(v: u64, t: u64, d: u64): u64 { WrapSub(WrapSub(WrapSub(10_000, v), t), d) }

  /** `split_at_epoch`. */
  function SplitAtEpoch(c: SplitConfig, epoch: u64): SplitRatios {
    if epoch >= c.transitionEpochs then c.maturity
    else
      TransitionNonZero(c.transitionEpochs);
      var v := Interpolate(c.launch.validator, c.maturity.validator, epoch, c.transitionEpochs);
      var t := Interpolate(c.launch.treasury, c.maturity.treasury, epoch, c.transitionEpochs);
      var d := Interpolate(c.launch.developer, c.maturity.developer, epoch, c.transitionEpochs);
      SplitRatios(Remainder(v, t, d), v, t, d)
  }

  // ---------- interpolation in plain integers ----------

  /** How far a ratio that changes by `delta` has moved after `e` of `t` epochs. */
  function Moved(delta: int, e: nat, t: nat): int
    requires t > 0
  {
    TruncDiv(delta * e, t)
  }

  lemma MovedBounds(delta: int, e: nat, t: nat)
    requires e <= t && t > 0
    ensures delta >= 0 ==> 0 <= Moved(delta, e, t) <= delta && t * Moved(delta, e, t) <= delta * e < t * Moved(delta, e, t) + t
    ensures delta <= 0 ==> delta <= Moved(delta, e, t) <= 0 && delta * e <= t * Moved(delta, e, t) < delta * e + t
  {
    var n := if delta >= 0 then delta else -delta;
    MulMonotone(n, e, t);
    MulMonotone(n, 0, e);
    DivMonotone(n * e, n * t, t);
    DivModUnique(n * t, t, n, 0);
    DivBounds(n * e, t);
    DivMonotone(0, n * e, t);
    if delta < 0 {
      assert delta * e == -(n * e);
      assert t * -(n * e / t) == -(t * (n * e / t));
    }
  }

  /** The divisor and the product of the interpolation fit signed 64 bits. */
  predicate Fits(l: u64, m: u64, epoch: u64, t: u64) {
    t < I64_HALF && 0 - I64_HALF <= (m - l) * epoch < I64_HALF
  }

  /** Then the machine arithmetic is the plain formula. */
  lemma InterpolatePlain(l: u64, m: u64, epoch: u64, t: u64)
    requires l <= 10_000 && m <= 10_000 && epoch < t && Fits(l, m, epoch, t)
    ensures AsI64(t) == t
    ensures Interpolate(l, m, epoch, t) == l + Moved(m - l, epoch, t)
  {
    AsI64Small(l);
    AsI64Small(m);
    AsI64Small(m - l);
    AsI64Small(epoch);
    AsI64Small(t);
    AsI64Small((m - l) * epoch);
    MovedBounds(m - l, epoch, t);
    NoWrapAround(l, m, Moved(m - l, epoch, t));
  }

  lemma QuotientBounds(n: nat, t: nat)
    requires t > 0
    ensures 0 <= n / t && t * (n / t) <= n < t * (n / t) + t
    ensures t >= 2 ==> 2 * (n / t) <= n
  {
    DivBounds(n, t);
    DivMonotone(0, n, t);
    if t >= 2 {
      MulMonotone(n / t, 2, t);
    }
  }

  lemma TruncBounds(x: int, t: nat)
    requires t > 0
    ensures t * TruncDiv(x, t) - t < x < t * TruncDiv(x, t) + t
    ensures t >= 2 ==> (x >= 0 ==> 0 <= 2 * TruncDiv(x, t) <= x) && (x <= 0 ==> x <= 2 * TruncDiv(x, t) <= 0)
  {
    if x >= 0 {
      QuotientBounds(x, t);
    } else {
      QuotientBounds(-x, t);
      assert t * -(-x / t) == -(t * (-x / t));
    }
  }

  lemma AsI64Far(x: int)
    requires AsI64(x) != x
    ensures 0 - I64_HALF <= AsI64(x) < I64_HALF
    ensures x - AsI64(x) >= U64_SIZE || AsI64(x) - x >= U64_SIZE
  {
    var k := (x + I64_HALF) / U64_SIZE;
    assert x - AsI64(x) == U64_SIZE * k;
    if k >= 1 {
      MulMonotone(U64_SIZE, 1, k);
    } else if k <= -1 {
      MulMonotone(U64_SIZE, k, -1);
    }
  }

  /** A wrapped product is too far off for the quotient to come out the same. */
  lemma WrappedQuotientDiffers(x: int, t: nat)
    requires 2 <= t < I64_HALF && AsI64(x) != x
    ensures TruncDiv(AsI64(x), t) != TruncDiv(x, t)
  {
    AsI64Far(x);
    TruncBounds(x, t);
    TruncBounds(AsI64(x), t);
  }

  lemma SmallResult(l: u64, m: u64, moved: int, other: int)
    requires l <= 10_000 && m <= 10_000 && ((0 <= moved <= m - l) || (m - l <= moved <= 0))
    requires 0 - I64_HALF <= 2 * other <= I64_HALF && other != moved
    ensures AsU64(AsI64(l + AsI64(other))) != l + moved
  {
    AsI64Small(other);
    AsI64Small(l + other);
    DivModUnique(l + other, U64_SIZE, if l + other >= 0 then 0 else -1, if l + other >= 0 then l + other else l + other + U64_SIZE);
  }

  lemma InterpolateWrapped(l: u64, m: u64, epoch: u64, t: u64)
    requires l <= 10_000 && m <= 10_000 && epoch < t < I64_HALF && !Fits(l, m, epoch, t)
    ensures AsI64(t) == t
    ensures Interpolate(l, m, epoch, t) != l + Moved(m - l, epoch, t)
  {
    AsI64Small(l);
    AsI64Small(m);
    AsI64Small(m - l);
    AsI64Small(epoch);
    AsI64Small(t);
    var x := (m - l) * epoch;
    assert epoch > 0;
    assert AsI64(x) != x by {
      assert 0 - I64_HALF <= AsI64(x) < I64_HALF;
    }
    AsI64Far(x);
    WrappedQuotientDiffers(x, t);
    TruncBounds(AsI64(x), t);
    MovedBounds(m - l, epoch, t);
    SmallResult(l, m, Moved(m - l, epoch, t), TruncDiv(AsI64(x), t));
  }

  /** For every length that is a positive signed number: exactly then. */
  lemma InterpolatePlainIff(l: u64, m: u64, epoch: u64, t: u64)
    requires l <= 10_000 && m <= 10_000 && epoch < t < I64_HALF
    ensures AsI64(t) != 0
    ensures Interpolate(l, m, epoch, t) == l + Moved(m - l, epoch, t) <==> Fits(l, m, epoch, t)
  {
    if Fits(l, m, epoch, t) {
      InterpolatePlain(l, m, epoch, t);
    } else {
      InterpolateWrapped(l, m, epoch, t);
    }
  }

  /** What a caller can check on the epoch alone. */
  lemma EarlyFits(l: u64, m: u64, epoch: u64, t: u64)
    requires l <= 10_000 && m <= 10_000 && t < I64_HALF && 10_000 * epoch < I64_HALF
    ensures Fits(l, m, epoch, t)
  {
    MulMonotone(epoch, m - l, 10_000);
    MulMonotone(epoch, -10_000, m - l);
  }

  lemma FitsEarlier(l: u64, m: u64, e1: u64, e2: u64, t: u64)
    requires e1 <= e2 && Fits(l, m, e2, t)
    ensures Fits(l, m, e1, t)
  {
    if m >= l {
      MulMonotone(m - l, e1, e2);
      MulMonotone(m - l, 0, e1);
    } else {
      MulMonotone(l - m, e1, e2);
      MulMonotone(l - m, 0, e1);
      assert (m - l) * e1 == -((l - m) * e1) && (m - l) * e2 == -((l - m) * e2);
    }
  }

  lemma NoWrapAround(l: u64, m: u64, moved: int)
    requires l <= 10_000 && m <= 10_000
    requires (0 <= moved <= m - l) || (m - l <= moved <= 0)
    ensures AsU64(AsI64(l + AsI64(moved))) == l + moved
  {
    AsI64Small(moved);
    AsI64Small(l + moved);
    DivModUnique(l + moved, U64_SIZE, 0, l + moved);
  }

  /** During the transition every product fits. */
  ghost predicate FitsAt(c: SplitConfig, epoch: u64) {
    epoch < c.transitionEpochs ==>
      && Fits(c.launch.validator, c.maturity.validator, epoch, c.transitionEpochs)
      && Fits(c.launch.treasury, c.maturity.treasury, epoch, c.transitionEpochs)
      && Fits(c.launch.developer, c.maturity.developer, epoch, c.transitionEpochs)
  }

  ghost predicate Fitting(c: SplitConfig, epoch: u64) {
    c.launch.Whole() && c.maturity.Whole() && FitsAt(c, epoch)
  }

  /** Each non-burn ratio stays between its launch and maturity values. */
  lemma RatioBetween(l: u64, m: u64, epoch: u64, t: u64)
    requires l <= 10_000 && m <= 10_000 && epoch < t && Fits(l, m, epoch, t)
    ensures AsI64(t) != 0
    ensures l <= m ==> l <= Interpolate(l, m, epoch, t) <= m
    ensures m <= l ==> m <= Interpolate(l, m, epoch, t) <= l
    ensures epoch == 0 ==> Interpolate(l, m, epoch, t) == l
  {
    InterpolatePlain(l, m, epoch, t);
    MovedBounds(m - l, epoch, t);
  }

  lemma MovedMonotone(delta: int, e1: nat, e2: nat, t: nat)
    requires e1 <= e2 && t > 0
    ensures delta >= 0 ==> Moved(delta, e1, t) <= Moved(delta, e2, t)
    ensures delta <= 0 ==> Moved(delta, e1, t) >= Moved(delta, e2, t)
  {
    var n := if delta >= 0 then delta else -delta;
    MulMonotone(n, e1, e2);
    DivMonotone(n * e1, n * e2, t);
    if delta < 0 {
      assert delta * e1 == -(n * e1) && delta * e2 == -(n * e2);
    }
  }

  /** Each non-burn ratio only moves one way. */
  lemma RatioMonotone(l: u64, m: u64, e1: u64, e2: u64, t: u64)
    requires l <= 10_000 && m <= 10_000 && e1 <= e2 < t && Fits(l, m, e2, t)
    ensures AsI64(t) != 0
    ensures l <= m ==> Interpolate(l, m, e1, t) <= Interpolate(l, m, e2, t)
    ensures m <= l ==> Interpolate(l, m, e1, t) >= Interpolate(l, m, e2, t)
  {
    FitsEarlier(l, m, e1, e2, t);
    InterpolatePlain(l, m, e1, t);
    InterpolatePlain(l, m, e2, t);
    MovedMonotone(m - l, e1, e2, t);
  }

  // ---------- when the burn share underflows ----------

  /** The burn share left by three ratios that move by `x`, `y`, `z` in all. */
  function BurnAt(burn: int, x: int, y: int, z: int, e: nat, t: nat): int
    requires t > 0
  {
    burn - Moved(x, e, t) - Moved(y, e, t) - Moved(z, e, t)
  }

  /** One ratio rises by `c` while two fall, and burn starts or ends at nothing with no slack. */
  predicate Tight(b0: int, b1: int, c: int, x: int, y: int) {
    && c > 0 && x < 0 && y < 0
    && ((b0 >= 1 && b1 == 0) || (b0 == 0 && c > -x && c > -y))
  }

  predicate Unsafe(b0: int, b1: int, x: int, y: int, z: int) {
    Tight(b0, b1, x, y, z) || Tight(b0, b1, y, x, z) || Tight(b0, b1, z, x, y)
  }

  function Falling(x: int): nat { if x < 0 then 1 else 0 }

  /** What rounding toward zero can add to a falling ratio. */
  function Slack(x: int, t: nat): int { if x < 0 then t - 1 else 0 }

  lemma MovedSlack(x: int, e: nat, t: nat)
    requires e < t
    ensures t * Moved(x, e, t) <= x * e + Slack(x, t)
  {
    MovedBounds(x, e, t);
  }

  lemma SlackSum(b0: nat, b1: nat, x: int, y: int, z: int, e: nat, t: nat, p: int, q: int, r: int)
    requires b1 == b0 - x - y - z && e < t
    requires t * p <= x * e + Slack(x, t) && t * q <= y * e + Slack(y, t) && t * r <= z * e + Slack(z, t)
    ensures t * (b0 - p - q - r) >= b0 * (t - e) + b1 * e - Slack(x, t) - Slack(y, t) - Slack(z, t)
  {
    assert t * (b0 - p - q - r) == t * b0 - t * p - t * q - t * r;
    assert b1 * e == b0 * e - x * e - y * e - z * e;
    assert b0 * (t - e) == t * b0 - b0 * e;
  }

  /** Rounding costs burn less than one unit per falling ratio. */
  lemma BurnBound(b0: nat, b1: nat, x: int, y: int, z: int, e: nat, t: nat)
    requires b1 == b0 - x - y - z && e < t
    ensures t * BurnAt(b0, x, y, z, e, t) >= b0 * (t - e) + b1 * e - Slack(x, t) - Slack(y, t) - Slack(z, t)
  {
    MovedSlack(x, e, t);
    MovedSlack(y, e, t);
    MovedSlack(z, e, t);
    SlackSum(b0, b1, x, y, z, e, t, Moved(x, e, t), Moved(y, e, t), Moved(z, e, t));
  }

  lemma NotNegative(t: nat, n: int, b0: nat, b1: nat, e: nat, slack: int)
    requires e < t && t * n >= b0 * (t - e) + b1 * e - slack
    requires slack <= t - 1 || (slack <= 2 * t - 2 && b0 >= 1 && b1 >= 1)
    ensures n >= 0
  {
    var least := if slack <= t - 1 then 0 else 1;
    MulMonotone(t - e, least, b0);
    MulMonotone(e, least, b1);
    if n <= -1 {
      MulMonotone(t, n, -1);
    }
  }

  /** With at most one falling ratio, or with burn never below one, burn stays within range. */
  lemma BurnSafeBySlack(b0: nat, b1: nat, x: int, y: int, z: int, e: nat, t: nat)
    requires b1 == b0 - x - y - z && e < t
    requires Falling(x) + Falling(y) + Falling(z) <= 1 || (Falling(x) + Falling(y) + Falling(z) == 2 && b0 >= 1 && b1 >= 1)
    ensures BurnAt(b0, x, y, z, e, t) >= 0
  {
    BurnBound(b0, b1, x, y, z, e, t);
    NotNegative(t, BurnAt(b0, x, y, z, e, t), b0, b1, e, Slack(x, t) + Slack(y, t) + Slack(z, t));
  }

  lemma MovedCovered(c: int, x: int, e: nat, t: nat)
    requires t > 0 && 0 <= c <= -x
    ensures Moved(c, e, t) <= -Moved(x, e, t)
  {
    MulMonotone(e, c, -x);
    DivMonotone(c * e, -x * e, t);
    assert x * e == -(-x * e);
  }

  /** If nothing rises, or the one that rises is outweighed by one that falls, burn cannot drop. */
  lemma BurnSafeByCover(b0: nat, c: int, x: int, y: int, e: nat, t: nat)
    requires e < t && x <= 0 && y <= 0 && (c <= 0 || c <= -x || c <= -y)
    ensures BurnAt(b0, c, x, y, e, t) >= 0
  {
    MovedBounds(c, e, t);
    MovedBounds(x, e, t);
    MovedBounds(y, e, t);
    if 0 < c <= -x {
      MovedCovered(c, x, e, t);
    } else if 0 < c {
      MovedCovered(c, y, e, t);
    }
  }

  lemma SafeBurn(b0: nat, b1: nat, x: int, y: int, z: int, e: nat, t: nat)
    requires b1 == b0 - x - y - z && e < t && !Unsafe(b0, b1, x, y, z)
    ensures BurnAt(b0, x, y, z, e, t) >= 0
  {
    var n := Falling(x) + Falling(y) + Falling(z);
    if n <= 1 || (n == 2 && b0 >= 1 && b1 >= 1) {
      BurnSafeBySlack(b0, b1, x, y, z, e, t);
    } else if x >= 0 || n == 3 {
      BurnSafeByCover(b0, x, y, z, e, t);
    } else if y >= 0 {
      BurnSafeByCover(b0, y, x, z, e, t);
    } else {
      BurnSafeByCover(b0, z, x, y, e, t);
    }
  }

  lemma MovedExact(delta: int, e: nat, t: nat, q: int, r: int)
    requires t > 0 && 0 <= r < t && (if delta >= 0 then delta * e else -delta * e) == t * q + r
    ensures Moved(delta, e, t) == if delta >= 0 then q else -q
  {
    DivModUnique(t * q + r, t, q, r);
    assert delta < 0 ==> delta * e == -(-delta * e);
  }

  /** In the tight case a transition of exactly `c` epochs underflows in its second or last epoch. */
  lemma TightUnderflows(b0: nat, b1: nat, c: int, x: int, y: int) returns (e: nat, t: nat)
    requires b1 == b0 - c - x - y && b0 <= 10_000 && c <= 10_000 && Tight(b0, b1, c, x, y)
    ensures e < t <= 10_000 && BurnAt(b0, c, x, y, e, t) < 0
  {
    t := c;
    if b0 == 0 && c > -x && c > -y {
      e := 1;
      MovedExact(c, 1, c, 1, 0);
      MovedExact(x, 1, c, 0, -x);
      MovedExact(y, 1, c, 0, -y);
    } else {
      e := c - 1;
      assert c * (c - 1) == c * (c - 1) + 0;
      MovedExact(c, c - 1, c, c - 1, 0);
      assert -x * (c - 1) == c * (-x - 1) + (c + x);
      assert -y * (c - 1) == c * (-y - 1) + (c + y);
      MovedExact(x, c - 1, c, -x - 1, c + x);
      MovedExact(y, c - 1, c, -y - 1, c + y);
    }
  }

  ghost predicate UnsafeRatios(launch: SplitRatios, maturity: SplitRatios) {
    Unsafe(launch.burn, maturity.burn, maturity.validator - launch.validator,
           maturity.treasury - launch.treasury, maturity.developer - launch.developer)
  }

  /** The burn share of `c` at `epoch` before it is forced into 64 bits. */
  ghost function TrueBurn(c: SplitConfig, epoch: nat): int
    requires c.transitionEpochs > 0
  {
    BurnAt(c.launch.burn, c.maturity.validator - c.launch.validator, c.maturity.treasury - c.launch.treasury,
           c.maturity.developer - c.launch.developer, epoch, c.transitionEpochs)
  }

  lemma WrapSubExact(x: u64, y: u64)
    ensures WrapSub(x, y) == if x >= y then x - y else x - y + U64_SIZE
  {
    if x >= y {
      DivModUnique(x - y, U64_SIZE, 0, x - y);
    } else {
      DivModUnique(x - y, U64_SIZE, -1, x - y + U64_SIZE);
    }
  }

  lemma WrapSubThree(total: u64, a: u64, b: u64, c: u64)
    requires a + b + c <= total
    ensures WrapSub(WrapSub(WrapSub(total, a), b), c) == total - a - b - c
  {
    WrapSubExact(total, a);
    WrapSubExact(total - a, b);
    WrapSubExact(total - a - b, c);
  }

  /** The remainder completes any three ratios to 10,000 if and only if they leave something. */
  lemma RemainderWholeIff(v: u64, t: u64, d: u64)
    ensures SplitRatios(Remainder(v, t, d), v, t, d).Whole() <==> v + t + d <= 10_000
  {
    if v + t + d <= 10_000 {
      WrapSubThree(10_000, v, t, d);
    }
  }

  lemma RemainderValidates(v: u64, t: u64, d: u64)
    ensures SplitRatios(Remainder(v, t, d), v, t, d).Validate()
  {
    WrapSubExact(10_000, v);
    WrapSubExact(WrapSub(10_000, v), t);
    WrapSubExact(WrapSub(WrapSub(10_000, v), t), d);
  }

  /** For every configuration and epoch: what `split_at_epoch` returns still validates, because the sum wraps;
      and during a transition it is whole if and only if the three interpolated ratios leave something. */
  lemma SplitValidates(c: SplitConfig, epoch: u64)
    requires c.maturity.Validate()
    ensures var s := SplitAtEpoch(c, epoch);
            && s.Validate()
            && (epoch < c.transitionEpochs ==> (s.Whole() <==> s.validator + s.treasury + s.developer <= 10_000))
  {
    if epoch < c.transitionEpochs {
      var s := SplitAtEpoch(c, epoch);
      RemainderValidates(s.validator, s.treasury, s.developer);
      RemainderWholeIff(s.validator, s.treasury, s.developer);
    }
  }

  /** The interpolated ratio in plain integers. */
  function PlainRatio(l: u64, m: u64, epoch: u64, t: u64): u64
    requires l <= 10_000 && m <= 10_000 && epoch < t
  {
    MovedBounds(m - l, epoch, t);
    l + Moved(m - l, epoch, t)
  }

  lemma RatioPlain(l: u64, m: u64, epoch: u64, t: u64)
    requires l <= 10_000 && m <= 10_000 && epoch < t && Fits(l, m, epoch, t)
    ensures AsI64(t) != 0
    ensures Interpolate(l, m, epoch, t) == PlainRatio(l, m, epoch, t)
  {
    InterpolatePlain(l, m, epoch, t);
  }

  ghost function PlainSplit(c: SplitConfig, epoch: u64): SplitRatios
    requires c.launch.Whole() && c.maturity.Whole() && epoch < c.transitionEpochs
  {
    var v := PlainRatio(c.launch.validator, c.maturity.validator, epoch, c.transitionEpochs);
    var t := PlainRatio(c.launch.treasury, c.maturity.treasury, epoch, c.transitionEpochs);
    var d := PlainRatio(c.launch.developer, c.maturity.developer, epoch, c.transitionEpochs);
    SplitRatios(Remainder(v, t, d), v, t, d)
  }

  lemma SplitIsPlain(c: SplitConfig, epoch: u64)
    requires Fitting(c, epoch) && epoch < c.transitionEpochs
    ensures SplitAtEpoch(c, epoch) == PlainSplit(c, epoch)
  {
    RatioPlain(c.launch.validator, c.maturity.validator, epoch, c.transitionEpochs);
    RatioPlain(c.launch.treasury, c.maturity.treasury, epoch, c.transitionEpochs);
    RatioPlain(c.launch.developer, c.maturity.developer, epoch, c.transitionEpochs);
  }

  lemma TrueBurnIsRemainder(c: SplitConfig, epoch: u64)
    requires c.launch.Whole() && c.maturity.Whole() && epoch < c.transitionEpochs
    ensures var s := PlainSplit(c, epoch); TrueBurn(c, epoch) == 10_000 - s.validator - s.treasury - s.developer
  {
  }

  lemma PlainWholeIff(c: SplitConfig, epoch: u64)
    requires c.launch.Whole() && c.maturity.Whole() && epoch < c.transitionEpochs
    ensures PlainSplit(c, epoch).Whole() <==> TrueBurn(c, epoch) >= 0
  {
    var s := PlainSplit(c, epoch);
    TrueBurnIsRemainder(c, epoch);
    RemainderWholeIff(s.validator, s.treasury, s.developer);
  }

  /** During the transition the ratios add up exactly when the burn share has not gone negative. */
  lemma WholeIffBurnNotNegative(c: SplitConfig, epoch: u64)
    requires Fitting(c, epoch) && epoch < c.transitionEpochs
    ensures SplitAtEpoch(c, epoch).Whole() <==> TrueBurn(c, epoch) >= 0
  {
    SplitIsPlain(c, epoch);
    PlainWholeIff(c, epoch);
  }

  /** `split_at_epoch` returns ratios that add up, at every epoch of every transition whose products fit. */
  ghost predicate AlwaysWhole(launch: SplitRatios, maturity: SplitRatios) {
    forall t: u64, epoch: u64 :: Fitting(SplitConfig(launch, maturity, t), epoch) ==>
      SplitAtEpoch(SplitConfig(launch, maturity, t), epoch).Whole()
  }

  lemma SafeRatiosWhole(c: SplitConfig, epoch: u64)
    requires Fitting(c, epoch) && !UnsafeRatios(c.launch, c.maturity)
    ensures SplitAtEpoch(c, epoch).Whole()
  {
    if epoch < c.transitionEpochs {
      var l, m := c.launch, c.maturity;
      SafeBurn(l.burn, m.burn, m.validator - l.validator, m.treasury - l.treasury, m.developer - l.developer,
               epoch, c.transitionEpochs);
      WholeIffBurnNotNegative(c, epoch);
    }
  }

  lemma UnsafeRatiosBreak(launch: SplitRatios, maturity: SplitRatios) returns (epoch: u64, t: u64)
    requires launch.Whole() && maturity.Whole() && UnsafeRatios(launch, maturity)
    ensures var c := SplitConfig(launch, maturity, t); Fitting(c, epoch) && !SplitAtEpoch(c, epoch).Whole()
  {
    var b0, b1 := launch.burn, maturity.burn;
    var x, y, z := maturity.validator - launch.validator, maturity.treasury - launch.treasury,
                   maturity.developer - launch.developer;
    if Tight(b0, b1, x, y, z) {
      epoch, t := TightUnderflows(b0, b1, x, y, z);
    } else if Tight(b0, b1, y, x, z) {
      epoch, t := TightUnderflows(b0, b1, y, x, z);
    } else {
      epoch, t := TightUnderflows(b0, b1, z, x, y);
    }
    EarlyFits(launch.validator, maturity.validator, epoch, t);
    EarlyFits(launch.treasury, maturity.treasury, epoch, t);
    EarlyFits(launch.developer, maturity.developer, epoch, t);
    WholeIffBurnNotNegative(SplitConfig(launch, maturity, t), epoch);
  }

  lemma HalfwayBurn(burn: int, up: int, down: int, e: nat, t: nat)
    requires up == t == 2 && down == -1 && e == 1
    ensures BurnAt(burn, up, down, down, e, t) == burn - 1
  {
    MovedExact(up, e, t, 1, 0);
    MovedExact(down, e, t, 0, 1);
  }

  /** Two epochs from (0, 0, 5000, 5000) to (0, 2, 4999, 4999), in the second. */
  predicate Halfway(c: SplitConfig, epoch: u64) {
    && c.launch == SplitRatios(0, 0, 5000, 5000) && c.maturity == SplitRatios(0, 2, 4999, 4999)
    && c.transitionEpochs == 2 && epoch == 1
  }

  lemma HalfwayFits(c: SplitConfig, epoch: u64)
    requires Halfway(c, epoch)
    ensures Fitting(c, epoch) && c.Validate()
  {
    EarlyFits(0, 2, epoch, 2);
    EarlyFits(5000, 4999, epoch, 2);
  }

  lemma HalfwayOverdrawn(c: SplitConfig, epoch: u64)
    requires Halfway(c, epoch)
    ensures TrueBurn(c, epoch) < 0
  {
    HalfwayBurn(c.launch.burn, 2, -1, epoch, 2);
  }

  lemma OverdrawnNotWhole(c: SplitConfig, epoch: u64)
    requires Fitting(c, epoch) && epoch < c.transitionEpochs && TrueBurn(c, epoch) < 0
    ensures !SplitAtEpoch(c, epoch).Whole()
  {
    WholeIffBurnNotNegative(c, epoch);
  }

  /** This schedule is validated, and yet its ratios overdraw in its second epoch. */
  lemma UnsafeSchedule(c: SplitConfig, epoch: u64)
    requires Halfway(c, epoch)
    ensures c.Validate() && !SplitAtEpoch(c, epoch).Whole()
  {
    HalfwayFits(c, epoch);
    HalfwayOverdrawn(c, epoch);
    OverdrawnNotWhole(c, epoch);
  }

  /** Ratios always add up, unless one non-burn ratio rises against two that fall and burn starts or ends at
      nothing with no slack. */
  lemma AlwaysWholeIff(launch: SplitRatios, maturity: SplitRatios)
    requires launch.Whole() && maturity.Whole()
    ensures AlwaysWhole(launch, maturity) <==> !UnsafeRatios(launch, maturity)
  {
    if UnsafeRatios(launch, maturity) {
      var epoch, t := UnsafeRatiosBreak(launch, maturity);
    } else {
      forall t: u64, epoch: u64 | Fitting(SplitConfig(launch, maturity, t), epoch)
        ensures SplitAtEpoch(SplitConfig(launch, maturity, t), epoch).Whole()
      {
        SafeRatiosWhole(SplitConfig(launch, maturity, t), epoch);
      }
    }
  }

  /** A schedule runs from launch to maturity, each party's ratio staying between its own two. */
  lemma SplitRunsBetween(c: SplitConfig, epoch: u64)
    requires Fitting(c, epoch)
    ensures epoch >= c.transitionEpochs ==> SplitAtEpoch(c, epoch) == c.maturity
    ensures epoch == 0 < c.transitionEpochs ==> SplitAtEpoch(c, epoch) == c.launch
    ensures var s, l, m := SplitAtEpoch(c, epoch), c.launch, c.maturity;
            && (l.validator <= s.validator <= m.validator || m.validator <= s.validator <= l.validator)
            && (l.treasury <= s.treasury <= m.treasury || m.treasury <= s.treasury <= l.treasury)
            && (l.developer <= s.developer <= m.developer || m.developer <= s.developer <= l.developer)
  {
    if epoch < c.transitionEpochs {
      var l, m, t := c.launch, c.maturity, c.transitionEpochs;
      RatioBetween(l.validator, m.validator, epoch, t);
      RatioBetween(l.treasury, m.treasury, epoch, t);
      RatioBetween(l.developer, m.developer, epoch, t);
      if epoch == 0 {
        WrapSubThree(10_000, l.validator, l.treasury, l.developer);
      }
    }
  }

  /** Keeping one basis point of burn at both ends is enough. */
  lemma BurningIsSafe(launch: SplitRatios, maturity: SplitRatios)
    requires launch.Whole() && maturity.Whole() && launch.burn >= 1 && maturity.burn >= 1
    ensures AlwaysWhole(launch, maturity)
  {
    AlwaysWholeIff(launch, maturity);
  }

  // ---------- transitions of any length ----------

  lemma InterpolateSame(l: u64, epoch: u64, t: u64)
    requires l <= 10_000 && t > 0
    ensures AsI64(t) != 0
    ensures Interpolate(l, l, epoch, t) == l
  {
    TransitionNonZero(t);
    AsI64Small(l);
    AsI64Small(0);
    assert 0 * AsI64(epoch) == 0;
    NoWrapAround(l, l, 0);
  }

  /** A length of 2^64 - 1 is cast to -1, so a ratio that should move overshoots the other way. */
  lemma LongestOvershoots(l: u64, m: u64)
    requires l <= 10_000 && m <= 10_000 && l != m
    ensures AsI64(U64_MAX) != 0
    ensures Interpolate(l, m, 10_001, U64_MAX) > 10_000
  {
    AsI64Small(l);
    AsI64Small(m);
    AsI64Small(m - l);
    AsI64Small(10_001);
    assert AsI64(U64_MAX) == -1;
    var x := (m - l) * 10_001;
    AsI64Small(x);
    assert TruncDiv(x, -1) == -x;
    AsI64Small(-x);
    AsI64Small(l - x);
    DivModUnique(l - x, U64_SIZE, if l - x >= 0 then 0 else -1, if l - x >= 0 then l - x else l - x + U64_SIZE);
  }

  /** Over every transition length a 64-bit word can hold, ratios always add up if and only if nothing moves. */
  lemma AnyLengthIff(launch: SplitRatios, maturity: SplitRatios)
    requires launch.Whole() && maturity.Whole()
    ensures (forall t: u64, epoch: u64 :: SplitAtEpoch(SplitConfig(launch, maturity, t), epoch).Whole()) <==> launch == maturity
  {
    if launch == maturity {
      forall t: u64, epoch: u64 ensures SplitAtEpoch(SplitConfig(launch, maturity, t), epoch).Whole() {
        NothingMoves(launch, epoch, t);
      }
    } else {
      SomethingOvershoots(launch, maturity);
    }
  }

  lemma NothingMoves(r: SplitRatios, epoch: u64, t: u64)
    requires r.Whole()
    ensures SplitAtEpoch(SplitConfig(r, r, t), epoch).Whole()
  {
    if epoch < t {
      InterpolateSame(r.validator, epoch, t);
      InterpolateSame(r.treasury, epoch, t);
      InterpolateSame(r.developer, epoch, t);
      RemainderWholeIff(r.validator, r.treasury, r.developer);
    }
  }

  lemma SomethingOvershoots(launch: SplitRatios, maturity: SplitRatios)
    requires launch.Whole() && maturity.Whole() && launch != maturity
    ensures !SplitAtEpoch(SplitConfig(launch, maturity, U64_MAX), 10_001).Whole()
  {
    if launch.validator != maturity.validator {
      LongestOvershoots(launch.validator, maturity.validator);
    } else if launch.treasury != maturity.treasury {
      LongestOvershoots(launch.treasury, maturity.treasury);
    } else {
      LongestOvershoots(launch.developer, maturity.developer);
    }
  }

  // ---------- splitting a fee ----------

  datatype SplitResult = SplitResult(burn: u64, validator: u64, treasury: u64, developer: u64) {
    function Sum(): nat { burn + validator + treasury + developer }
  }

  function Share(total: u64, bps: u64): u64 { AsU64(total * bps / 10_000) }

  function SplitFee(r: SplitRatios, total: u64): SplitResult {
    var v, t, d := Share(total, r.validator), Share(total, r.treasury), Share(total, r.developer);
    SplitResult(WrapSub(WrapSub(WrapSub(total, v), t), d), v, t, d)
  }

  lemma ShareExact(total: u64, bps: u64)
    requires bps <= 10_000
    ensures Share(total, bps) <= total
    ensures 10_000 * Share(total, bps) <= total * bps < 10_000 * Share(total, bps) + 10_000
  {
    MulMonotone(total, bps, 10_000);
    DivMonotone(total * bps, total * 10_000, 10_000);
    DivModUnique(total * 10_000, 10_000, total, 0);
    DivBounds(total * bps, 10_000);
    DivMonotone(0, total * bps, 10_000);
    DivModUnique(total * bps / 10_000, U64_SIZE, 0, total * bps / 10_000);
  }

  lemma BurnRemainder(total: nat, v: nat, t: nat, d: nat, a: int, b: int, c: int)
    requires v + t + d <= 10_000
    requires 10_000 * a <= total * v < 10_000 * a + 10_000
    requires 10_000 * b <= total * t < 10_000 * b + 10_000
    requires 10_000 * c <= total * d < 10_000 * c + 10_000
    ensures a + b + c <= total
    ensures total * (10_000 - v - t - d) <= 10_000 * (total - a - b - c) < total * (10_000 - v - t - d) + 30_000
  {
    assert total * (10_000 - v - t - d) == total * 10_000 - total * v - total * t - total * d;
    MulMonotone(total, 0, 10_000 - v - t - d);
  }

  /** As long as the three ratios leave something, the fee is paid out exactly, no party but burn gets more than
      its share, and burn gets less than three units more than what is left. */
  lemma SplitFeePays(r: SplitRatios, total: u64)
    requires r.validator + r.treasury + r.developer <= 10_000
    ensures var s := SplitFee(r, total);
            var rest := 10_000 - r.validator - r.treasury - r.developer;
            && s.Sum() == total
            && 10_000 * s.validator <= total * r.validator < 10_000 * s.validator + 10_000
            && 10_000 * s.treasury <= total * r.treasury < 10_000 * s.treasury + 10_000
            && 10_000 * s.developer <= total * r.developer < 10_000 * s.developer + 10_000
            && total * rest <= 10_000 * s.burn < total * rest + 30_000
  {
    ShareExact(total, r.validator);
    ShareExact(total, r.treasury);
    ShareExact(total, r.developer);
    var a, b, c := Share(total, r.validator), Share(total, r.treasury), Share(total, r.developer);
    BurnRemainder(total, r.validator, r.treasury, r.developer, a, b, c);
    WrapSubThree(total, a, b, c);
  }

  /** With whole ratios: exactly the fee, and to each party its share. */
  lemma SplitFeeFair(r: SplitRatios, total: u64)
    requires r.Whole()
    ensures var s := SplitFee(r, total);
            && s.Sum() == total
            && 10_000 * s.validator <= total * r.validator < 10_000 * s.validator + 10_000
            && 10_000 * s.treasury <= total * r.treasury < 10_000 * s.treasury + 10_000
            && 10_000 * s.developer <= total * r.developer < 10_000 * s.developer + 10_000
            && total * r.burn <= 10_000 * s.burn < total * r.burn + 30_000
  {
    SplitFeePays(r, total);
    assert r.burn == 10_000 - r.validator - r.treasury - r.developer;
  }

  lemma ShareOfTenThousand(bps: u64)
    ensures Share(10_000, bps) == bps
  {
    DivModUnique(10_000 * bps, 10_000, bps, 0);
    DivModUnique(bps, U64_SIZE, 0, bps);
  }

  /** Ratios that overdraw do not conserve a fee of 10,000. */
  lemma OverdrawnLoses(r: SplitRatios)
    requires r.validator + r.treasury + r.developer > 10_000
    ensures SplitFee(r, 10_000).Sum() > 10_000
  {
    ShareOfTenThousand(r.validator);
    ShareOfTenThousand(r.treasury);
    ShareOfTenThousand(r.developer);
  }

  /** Any ratios conserve every fee if and only if the three leave something. */
  lemma SplitFeeConservesIff(r: SplitRatios)
    ensures (forall total: u64 :: SplitFee(r, total).Sum() == total) <==> r.validator + r.treasury + r.developer <= 10_000
  {
    if r.validator + r.treasury + r.developer <= 10_000 {
      forall total: u64 ensures SplitFee(r, total).Sum() == total {
        SplitFeePays(r, total);
      }
    } else {
      OverdrawnLoses(r);
    }
  }

  /** Validated ratios whose three parts leave something have not wrapped. */
  lemma ValidatedWholeIff(r: SplitRatios)
    requires r.Validate()
    ensures r.Whole() <==> r.validator + r.treasury + r.developer <= 10_000
  {
  }

  /** Hence of any validated schedule, at any epoch: every fee is conserved if and only if the ratios in force
      are whole. */
  lemma EpochConservesIff(c: SplitConfig, epoch: u64)
    requires c.maturity.Validate()
    ensures (forall total: u64 :: SplitFee(SplitAtEpoch(c, epoch), total).Sum() == total)
            <==> SplitAtEpoch(c, epoch).Whole()
  {
    SplitValidates(c, epoch);
    SplitFeeConservesIff(SplitAtEpoch(c, epoch));
    ValidatedWholeIff(SplitAtEpoch(c, epoch));
  }

  /** Every fee is conserved at every epoch of every transition whose products fit. */
  ghost predicate AlwaysConserves(launch: SplitRatios, maturity: SplitRatios) {
    forall t: u64, epoch: u64, total: u64 :: Fitting(SplitConfig(launch, maturity, t), epoch) ==>
      SplitFee(SplitAtEpoch(SplitConfig(launch, maturity, t), epoch), total).Sum() == total
  }

  /** It is, if and only if the ratios are outside the unsafe family. */
  lemma AlwaysConservesIff(launch: SplitRatios, maturity: SplitRatios)
    requires launch.Whole() && maturity.Whole()
    ensures AlwaysConserves(launch, maturity) <==> !UnsafeRatios(launch, maturity)
  {
    if UnsafeRatios(launch, maturity) {
      var epoch, t := UnsafeRatiosBreak(launch, maturity);
      EpochConservesIff(SplitConfig(launch, maturity, t), epoch);
    } else {
      forall t: u64, epoch: u64, total: u64 | Fitting(SplitConfig(launch, maturity, t), epoch)
        ensures SplitFee(SplitAtEpoch(SplitConfig(launch, maturity, t), epoch), total).Sum() == total
      {
        SafeRatiosWhole(SplitConfig(launch, maturity, t), epoch);
        SplitFeeFair(SplitAtEpoch(SplitConfig(launch, maturity, t), epoch), total);
      }
    }
  }

  /** `with_config` and `split_fee` together: a validated schedule outside the unsafe family pays out every
      fee in full at every epoch. */
  lemma EveryFeeConserved(c: SplitConfig, epoch: u64, total: u64)
    requires c.Validate() && c.launch.Sum() <= U64_MAX && c.maturity.Sum() <= U64_MAX
    requires FitsAt(c, epoch) && !UnsafeRatios(c.launch, c.maturity)
    ensures SplitFee(SplitAtEpoch(c, epoch), total).Sum() == total
  {
    ValidateIsWholeIff(c.launch);
    ValidateIsWholeIff(c.maturity);
    SafeRatiosWhole(c, epoch);
    SplitFeeFair(SplitAtEpoch(c, epoch), total);
  }

  const DEFAULT_SPLIT := SplitConfig(SplitRatios(1000, 0, 4500, 4500), SplitRatios(2500, 2500, 2500, 2500), 1825)

  /** The default schedule, in which one ratio rises against two that fall, is safe because it always burns. */
  lemma DefaultSplitConserves(epoch: u64, total: u64)
    ensures SplitAtEpoch(DEFAULT_SPLIT, epoch).Whole()
    ensures SplitFee(SplitAtEpoch(DEFAULT_SPLIT, epoch), total).Sum() == total
  {
    if epoch < 1825 {
      EarlyFits(0, 2500, epoch, 1825);
      EarlyFits(4500, 2500, epoch, 1825);
    }
    SafeRatiosWhole(DEFAULT_SPLIT, epoch);
    SplitFeeFair(SplitAtEpoch(DEFAULT_SPLIT, epoch), total);
  }
}

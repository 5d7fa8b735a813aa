/** Round-robin proposing within a height (`proposer_index` of consensus/bft/src/state_machine.rs). */
module ProposerRotation {
  import opened Arith
  import opened Words
  import opened BftTypes
  import opened Machines

  /** Over the N rounds from `r` on every validator index proposes, and none twice. */
  ghost predicate EachOnce(validators: seq<ValidatorId>, h: Height, r: Round) {
    && (forall i :: 0 <= i < |validators| ==> Proposes(validators, h, r, i))
    && (forall t: Round, u: Round :: r <= t < u < r + |validators| ==>
          ProposerIndex(validators, h, t) != ProposerIndex(validators, h, u))
  }

  ghost predicate Proposes(validators: seq<ValidatorId>, h: Height, r: Round, i: nat) {
    exists t: Round :: r <= t < r + |validators| && ProposerIndex(validators, h, t) == i
  }

  /** The sum of height and round wraps strictly inside the window. */
  predicate WrapsInside(h: Height, r: Round, n: nat) { h + r < U64_SIZE < h + r + n }

  lemma TurnOf(x: nat, n: nat, i: nat) returns (k: nat)
    requires i < n
    ensures k < n && (x + k) % n == i
  {
    var d, s := x / n, x % n;
    assert x == n * d + s;
    if i >= s {
      k := i - s;
      DivModUnique(x + k, n, d, i);
    } else {
      k := i + n - s;
      MulStep(n, d);
      DivModUnique(x + k, n, d + 1, i);
    }
  }

  /** Counting up from any `x` modulo N takes every index once. */
  lemma CountingIsExact(validators: seq<ValidatorId>, h: Height, r: Round, x: nat)
    requires |validators| > 0 && r + |validators| <= U32_SIZE
    requires forall t: Round :: r <= t < r + |validators| ==> ProposerIndex(validators, h, t) == (x + (t - r)) % |validators|
    ensures EachOnce(validators, h, r)
  {
    var n := |validators|;
    forall i | 0 <= i < n ensures Proposes(validators, h, r, i) {
      var k := TurnOf(x, n, i);
      var t: Round := r + k;
      assert ProposerIndex(validators, h, t) == i;
    }
    forall t: Round, u: Round | r <= t < u < r + n
      ensures ProposerIndex(validators, h, t) != ProposerIndex(validators, h, u)
    {
      if (x + (t - r)) % n == (x + (u - r)) % n {
        ModUnique(x + (t - r), x + (u - r), n);
      }
    }
  }

  lemma WrappedSum(h: Height, t: Round)
    ensures WrapAdd(h, t) == if h + t < U64_SIZE then h + t else h + t - U64_SIZE
  {
  }

  lemma ModOfMultiple(x: nat, n: nat)
    requires n > 0 && U64_SIZE % n == 0 && x >= U64_SIZE
    ensures (x - U64_SIZE) % n == x % n
  {
    var q := U64_SIZE / n;
    assert U64_SIZE == n * q;
    var y := x - U64_SIZE;
    assert x == n * (y / n + q) + y % n;
    DivModUnique(x, n, y / n + q, y % n);
  }

  lemma RotatesWithoutWrap(validators: seq<ValidatorId>, h: Height, r: Round)
    requires |validators| > 0 && r + |validators| <= U32_SIZE
    requires !WrapsInside(h, r, |validators|) || U64_SIZE % |validators| == 0
    ensures EachOnce(validators, h, r)
  {
    var n := |validators|;
    var x := if h + r < U64_SIZE then h + r else h + r - U64_SIZE;
    forall t: Round | r <= t < r + n
      ensures ProposerIndex(validators, h, t) == (x + (t - r)) % n
    {
      WrappedSum(h, t);
      if h + r < U64_SIZE <= h + t {
        ModOfMultiple(h + t, n);
      }
    }
    CountingIsExact(validators, h, r, x);
  }

  lemma ModBelow(n: nat, d: nat)
    requires n > 0 && 0 < d < n && U64_SIZE >= n
    ensures (U64_SIZE - d) % n != U64_SIZE % n
    ensures U64_SIZE % n > 0 ==> (U64_SIZE - 1) % n == U64_SIZE % n - 1
  {
    if (U64_SIZE - d) % n == U64_SIZE % n {
      ModUnique(U64_SIZE - d, U64_SIZE, n);
    }
    if U64_SIZE % n > 0 {
      DivModUnique(U64_SIZE - 1, n, U64_SIZE / n, U64_SIZE % n - 1);
    }
  }

  /** After a wrap inside the window one index is met twice or never. */
  lemma WrapBreaksRotation(validators: seq<ValidatorId>, h: Height, r: Round)
    requires |validators| > 0 && r + |validators| <= U32_SIZE
    requires WrapsInside(h, r, |validators|) && U64_SIZE % |validators| != 0
    ensures !EachOnce(validators, h, r)
  {
    var n := |validators|;
    var s, j := U64_SIZE % n, U64_SIZE - (h + r);
    if s <= n - j {
      TwiceAroundWrap(validators, h, r, s, j);
    } else {
      forall t: Round | r <= t < r + n ensures ProposerIndex(validators, h, t) != s {
        MissedAroundWrap(validators, h, r, s, j, t);
      }
      assert !Proposes(validators, h, r, s);
    }
  }

  lemma TwiceAroundWrap(validators: seq<ValidatorId>, h: Height, r: Round, s: nat, j: nat)
    requires |validators| > 0 && r + |validators| <= U32_SIZE && h + r + j == U64_SIZE
    requires 0 < j < |validators| && s == U64_SIZE % |validators| && 0 < s <= |validators| - j
    ensures !EachOnce(validators, h, r)
  {
    var n := |validators|;
    var t: Round, u: Round := r + j - 1, r + j + s - 1;
    ModBelow(n, 1);
    WrappedSum(h, t);
    WrappedSum(h, u);
    DivModUnique(s - 1, n, 0, s - 1);
    assert ProposerIndex(validators, h, t) == ProposerIndex(validators, h, u);
  }

  lemma MissedAroundWrap(validators: seq<ValidatorId>, h: Height, r: Round, s: nat, j: nat, t: Round)
    requires |validators| > 0 && r + |validators| <= U32_SIZE && h + r + j == U64_SIZE
    requires 0 < j < |validators| && s == U64_SIZE % |validators| && s > |validators| - j
    requires r <= t < r + |validators|
    ensures ProposerIndex(validators, h, t) != s
  {
    var n := |validators|;
    WrappedSum(h, t);
    if h + t < U64_SIZE {
      ModBelow(n, U64_SIZE - (h + t));
    } else {
      var k := h + t - U64_SIZE;
      DivModUnique(k, n, 0, k);
    }
  }

  /** In N consecutive rounds of a height every validator index proposes exactly once, if and only if the
      64-bit sum of height and round does not wrap inside them or N divides 2^64. */
  lemma ProposerRotatesIff(validators: seq<ValidatorId>, h: Height, r: Round)
    requires |validators| > 0 && r + |validators| <= U32_SIZE
    ensures EachOnce(validators, h, r) <==> !WrapsInside(h, r, |validators|) || U64_SIZE % |validators| == 0
  {
    if !WrapsInside(h, r, |validators|) || U64_SIZE % |validators| == 0 {
      RotatesWithoutWrap(validators, h, r);
    } else {
      WrapBreaksRotation(validators, h, r);
    }
  }

  lemma NextRemainder(x: nat, n: nat)
    requires n > 0
    ensures (x + 1) % n == (x % n + 1) % n
  {
    if x % n + 1 < n {
      DivModUnique(x + 1, n, x / n, x % n + 1);
      DivModUnique(x % n + 1, n, 0, x % n + 1);
    } else {
      MulStep(n, x / n);
      DivModUnique(x + 1, n, x / n + 1, 0);
      DivModUnique(n, n, 1, 0);
    }
  }

  /** The first validator opens, and each next round or height is the next validator's turn. */
  lemma NextInTurn(validators: seq<ValidatorId>, h: Height, r: Round)
    requires |validators| > 0 && h + r + 1 < U64_SIZE
    ensures ProposerIndex(validators, 0, 0) == 0
    ensures r + 1 < U32_SIZE ==> ProposerIndex(validators, h, r + 1) == (ProposerIndex(validators, h, r) + 1) % |validators|
    ensures h + 1 < U64_SIZE ==> ProposerIndex(validators, h + 1, r) == (ProposerIndex(validators, h, r) + 1) % |validators|
  {
    var n := |validators|;
    DivModUnique(0, n, 0, 0);
    NextRemainder(h + r, n);
    WrappedSum(h, r);
    if r + 1 < U32_SIZE {
      WrappedSum(h, r + 1);
    }
    if h + 1 < U64_SIZE {
      WrappedSum(h + 1, r);
    }
  }
}

/** Stake-weighted proposer selection (runtime/validator-set/src/manager.rs). */
module Proposers {
  import opened Words
  import opened Arith
  import opened Staking

  datatype Share = Share(pubkey: PublicKey, power: u64)

  function Total(list: seq<Share>): nat { if list == [] then 0 else list[0].power + Total(list[1..]) }

  /** `total_power`: the 64-bit sum wraps. */
  function WrappedTotal(list: seq<Share>): u64 { Total(list) % U64_SIZE }

  /** The selection loop: the first share whose running total passes the slot; the sum wraps. */
  function Pick(list: seq<Share>, slot: u64, cumulative: u64): Option<PublicKey> {
    if list == [] then None
    else
      var c := WrapAdd(cumulative, list[0].power);
      if slot < c then Some(list[0].pubkey) else Pick(list[1..], slot, c)
  }

  /** `get_proposer` on the active validators in key order. */
  function ProposerAt(list: seq<Share>, height: u64): Option<PublicKey> {
    if list == [] || WrappedTotal(list) == 0 then None
    else
      var r := Pick(list, height % WrappedTotal(list), 0);
      if r.Some? then r else Some(list[|list| - 1].pubkey)
  }

  ghost predicate DistinctKeys(list: seq<Share>) {
    forall i, j :: 0 <= i < j < |list| ==> list[i].pubkey != list[j].pubkey
  }

  // ---------- which slots a validator owns ----------

  lemma {:induction false} TotalSplit(list: seq<Share>, i: nat)
    requires i < |list|
    ensures Total(list[..i + 1]) == Total(list[..i]) + list[i].power
    ensures Total(list[..i + 1]) <= Total(list)
  {
    if i == 0 {
      assert list[..1] == [list[0]] && list[..0] == [] && list[..1][1..] == [];
    } else {
      TotalSplit(list[1..], i - 1);
      assert list[..i + 1][1..] == list[1..][..i] && list[..i][1..] == list[1..][..i - 1];
    }
  }

  /** Without wrapping, validator `i` is picked exactly on the slots between the totals before and
      after it. */
  lemma {:induction false} PickOwns(list: seq<Share>, slot: u64, cumulative: u64, i: nat)
    requires DistinctKeys(list) && i < |list|
    requires cumulative <= slot && cumulative + Total(list) <= U64_MAX
    ensures Pick(list, slot, cumulative) == Some(list[i].pubkey)
            <==> cumulative + Total(list[..i]) <= slot < cumulative + Total(list[..i + 1])
    ensures slot < cumulative + Total(list) ==> Pick(list, slot, cumulative).Some?
    decreases |list|
  {
    var rest, c := list[1..], cumulative + list[0].power;
    TotalSplit(list, i);
    TotalSplit(list, 0);
    assert list[..0] == [];
    if i == 0 {
      PickFromTail(rest, slot, c, list[0].pubkey);
      if slot >= c && rest != [] {
        PickOwns(rest, slot, c, 0);
      }
    } else {
      assert list[..i][0] == list[0] && list[..i][1..] == rest[..i - 1];
      assert list[..i + 1][1..] == rest[..i];
      if slot >= c {
        PickOwns(rest, slot, c, i - 1);
      }
    }
  }

  lemma {:induction false} PickFromTail(list: seq<Share>, slot: u64, cumulative: u64, k: PublicKey)
    requires forall i :: 0 <= i < |list| ==> list[i].pubkey != k
    ensures Pick(list, slot, cumulative) != Some(k)
    decreases |list|
  {
    if list != [] {
      PickFromTail(list[1..], slot, WrapAdd(cumulative, list[0].power), k);
    }
  }

  /** The fallback after the loop is never taken while the total fits 64 bits. */
  lemma FallbackUnreachable(list: seq<Share>, height: u64)
    requires DistinctKeys(list) && 0 < Total(list) <= U64_MAX
    ensures WrappedTotal(list) == Total(list) && Pick(list, height % Total(list), 0).Some?
  {
    PickOwns(list, height % Total(list), 0, 0);
  }

  // ---------- counting ----------

  /** How many heights in [h, h + n) leave a remainder in [a, b) modulo `t`. */
  function InRange(h: nat, n: nat, t: nat, a: nat, b: nat): nat
    requires t > 0
  {
    if n == 0 then 0 else InRange(h, n - 1, t, a, b) + if a <= (h + n - 1) % t < b then 1 else 0
  }

  lemma {:induction false} InRangeFromZero(n: nat, t: nat, a: nat, b: nat)
    requires n <= t && t > 0 && a <= b <= t
    ensures InRange(0, n, t, a, b) == if n <= a then 0 else if n <= b then n - a else b - a
  {
    if n > 0 {
      InRangeFromZero(n - 1, t, a, b);
      DivModUnique(n - 1, t, 0, n - 1);
    }
  }

  lemma {:induction false} InRangeShift(h: nat, n: nat, t: nat, a: nat, b: nat)
    requires t > 0
    ensures InRange(h + 1, n, t, a, b) + (if a <= h % t < b then 1 else 0)
            == InRange(h, n, t, a, b) + (if a <= (h + n) % t < b then 1 else 0)
  {
    if n > 0 {
      InRangeShift(h, n - 1, t, a, b);
    }
  }

  /** A full turn meets every remainder once, wherever it starts. */
  lemma {:induction false} InRangeFullTurn(h: nat, t: nat, a: nat, b: nat)
    requires t > 0 && a <= b <= t
    ensures InRange(h, t, t, a, b) == b - a
    decreases h
  {
    if h == 0 {
      InRangeFromZero(t, t, a, b);
    } else {
      InRangeFullTurn(h - 1, t, a, b);
      InRangeShift(h - 1, t, t, a, b);
      ModPeriod(h - 1, t);
    }
  }

  /** How often `k` proposes in the heights [h, h + n). */
  function Turns(list: seq<Share>, h: nat, n: nat, k: PublicKey): nat
    requires h + n <= U64_SIZE
  {
    if n == 0 then 0 else Turns(list, h, n - 1, k) + if ProposerAt(list, h + n - 1) == Some(k) then 1 else 0
  }

  lemma {:induction false} TurnsInRange(list: seq<Share>, h: nat, n: nat, i: nat)
    requires DistinctKeys(list) && 0 < Total(list) <= U64_MAX && i < |list| && h + n <= U64_SIZE
    ensures Turns(list, h, n, list[i].pubkey) == InRange(h, n, Total(list), Total(list[..i]), Total(list[..i + 1]))
    decreases n
  {
    if n > 0 {
      TurnsInRange(list, h, n - 1, i);
      FallbackUnreachable(list, h + n - 1);
      PickOwns(list, (h + n - 1) % Total(list), 0, i);
    }
  }

  /** Exact proportionality: in any `total` consecutive heights each active validator proposes
      exactly as often as its voting power says. */
  lemma Proportional(list: seq<Share>, h: nat, i: nat)
    requires DistinctKeys(list) && Total(list) <= U64_MAX && i < |list| && h + Total(list) <= U64_SIZE
    ensures Turns(list, h, Total(list), list[i].pubkey) == list[i].power
  {
    TotalSplit(list, i);
    if Total(list) > 0 {
      TurnsInRange(list, h, Total(list), i);
      InRangeFullTurn(h, Total(list), Total(list[..i]), Total(list[..i + 1]));
    }
  }

  // ---------- when the total does not fit ----------

  /** The turns of the first `m` validators together. */
  function TurnsOfFirst(list: seq<Share>, m: nat, h: nat, n: nat): nat
    requires m <= |list| && h + n <= U64_SIZE
  {
    if m == 0 then 0 else TurnsOfFirst(list, m - 1, h, n) + Turns(list, h, n, list[m - 1].pubkey)
  }

  lemma {:induction false} TurnsOneHeight(list: seq<Share>, m: nat, h: nat, n: nat)
    requires DistinctKeys(list) && m <= |list| && n > 0 && h + n <= U64_SIZE
    ensures TurnsOfFirst(list, m, h, n) ==
            TurnsOfFirst(list, m, h, n - 1)
            + if exists i :: 0 <= i < m && ProposerAt(list, h + n - 1) == Some(list[i].pubkey) then 1 else 0
    decreases m
  {
    if m > 0 {
      TurnsOneHeight(list, m - 1, h, n);
      var p := ProposerAt(list, h + n - 1);
      if p == Some(list[m - 1].pubkey) {
        assert forall i :: 0 <= i < m - 1 ==> p != Some(list[i].pubkey);
      }
    }
  }

  /** One proposer per height, so together they cannot have more turns than heights. */
  lemma {:induction false} TurnsBounded(list: seq<Share>, h: nat, n: nat)
    requires DistinctKeys(list) && h + n <= U64_SIZE
    ensures TurnsOfFirst(list, |list|, h, n) <= n
    decreases n
  {
    if n == 0 {
      NoTurns(list, |list|, h);
    } else {
      TurnsBounded(list, h, n - 1);
      TurnsOneHeight(list, |list|, h, n);
    }
  }

  lemma {:induction false} NoTurns(list: seq<Share>, m: nat, h: nat)
    requires m <= |list| && h <= U64_SIZE
    ensures TurnsOfFirst(list, m, h, 0) == 0
  {
    if m > 0 {
      NoTurns(list, m - 1, h);
    }
  }

  lemma {:induction false} TurnsAddUp(list: seq<Share>, m: nat, h: nat, n: nat)
    requires m <= |list| && h + n <= U64_SIZE
    requires forall i :: 0 <= i < |list| ==> Turns(list, h, n, list[i].pubkey) == list[i].power
    ensures TurnsOfFirst(list, m, h, n) == Total(list[..m])
  {
    if m > 0 {
      TurnsAddUp(list, m - 1, h, n);
      TotalSplit(list, m - 1);
    } else {
      assert list[..0] == [];
    }
  }

  lemma TooMuchPower(list: seq<Share>) returns (i: nat)
    requires DistinctKeys(list) && Total(list) > U64_MAX
    ensures i < |list| && Turns(list, 0, WrappedTotal(list), list[i].pubkey) != list[i].power
  {
    var t := WrappedTotal(list);
    assert list[..|list|] == list;
    TurnsBounded(list, 0, t);
    if forall i :: 0 <= i < |list| ==> Turns(list, 0, t, list[i].pubkey) == list[i].power {
      TurnsAddUp(list, |list|, 0, t);
      assert false;
    }
    i :| 0 <= i < |list| && Turns(list, 0, t, list[i].pubkey) != list[i].power;
  }

  /** Every active validator gets exactly its power in turns, over each window of the turn length
      that the code computes. */
  ghost predicate IsProportional(list: seq<Share>) {
    forall h: nat, i :: h + WrappedTotal(list) <= U64_SIZE && 0 <= i < |list| ==>
      Turns(list, h, WrappedTotal(list), list[i].pubkey) == list[i].power
  }

  /** Selection is proportional exactly when the total power fits 64 bits. */
  lemma ProportionalIff(list: seq<Share>)
    requires DistinctKeys(list)
    ensures IsProportional(list) <==> Total(list) <= U64_MAX
  {
    if Total(list) <= U64_MAX {
      forall h: nat, i | h + WrappedTotal(list) <= U64_SIZE && 0 <= i < |list|
        ensures Turns(list, h, WrappedTotal(list), list[i].pubkey) == list[i].power
      {
        Proportional(list, h, i);
      }
    } else {
      var i := TooMuchPower(list);
      assert 0 + WrappedTotal(list) <= U64_SIZE;
    }
  }
}

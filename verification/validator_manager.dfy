/** The validator set manager (runtime/validator-set/src/manager.rs): the operations callers have,
    without the raw mutable accessors. */
module ValidatorManagers {
  import opened Words
  import opened Staking
  import opened ValidatorSets
  import opened Proposers

  class ValidatorSetManager {
    const activeSetCap: nat
    const minStake: u64
    var validators: Validators
    var currentEpoch: u64

    /** Every validator is filed under its own key, and no more are active than the cap allows. */
    ghost predicate Valid()
      reads this
    {
      && (forall k :: k in validators ==> validators[k].pubkey == k)
      && |WithStatus(validators, Active)| <= activeSetCap
    }

    constructor (cap: nat, minStake: u64)
      ensures Valid() && activeSetCap == cap && this.minStake == minStake
      ensures validators == map[] && currentEpoch == 0
    {
      activeSetCap, this.minStake := cap, minStake;
      validators, currentEpoch := map[], 0;
      new;
      assert WithStatus(validators, Active) == {};
    }

    /** `active_count`, walking the map in any order. */
    method ActiveCount() returns (n: nat)
      ensures n == |WithStatus(validators, Active)|
    {
      n := 0;
      var todo := validators.Keys;
      while todo != {}
        invariant todo <= validators.Keys && n == |WithStatus(validators, Active) - todo|
        decreases |todo|
      {
        var k :| k in todo;
        CountedOneMore(WithStatus(validators, Active), todo, k);
        if validators[k].status == Active {
          n := n + 1;
        }
        todo := todo - {k};
      }
      assert WithStatus(validators, Active) - {} == WithStatus(validators, Active);
    }

    /** A newcomer is active if there is room, and waits otherwise. */
    method RegisterValidator(k: PublicKey, stake: u64, commissionRate: nat, height: u64)
      returns (error: Option<ValidatorSetError>, status: Status)
      requires Valid()
      modifies this`validators
      ensures Valid()
      ensures error == (if k in old(validators) then Some(AlreadyRegistered(k))
                        else if stake < minStake then Some(InsufficientStake(stake, minStake)) else None)
      ensures error.Some? ==> validators == old(validators)
      ensures error.None? ==>
        && validators == old(validators)[k := ValidatorInfo(k, stake, commissionRate, status, 10_000, height)]
        && status == (if |WithStatus(old(validators), Active)| < activeSetCap then Active else Standby)
    {
      status := Standby;
      if k in validators {
        return Some(AlreadyRegistered(k)), status;
      }
      if stake < minStake {
        return Some(InsufficientStake(stake, minStake)), status;
      }
      var n := ActiveCount();
      status := if n < activeSetCap then Active else Standby;
      var info := ValidatorInfo(k, stake, commissionRate, status, 10_000, height);
      InsertCount(validators, k, info);
      validators := validators[k := info];
      return None, status;
    }

    method DeregisterValidator(k: PublicKey) returns (removed: Option<ValidatorInfo>)
      requires Valid()
      modifies this`validators
      ensures Valid()
      ensures removed == (if k in old(validators) then Some(old(validators)[k]) else None)
      ensures validators == old(validators) - {k}
    {
      if k !in validators {
        assert validators - {k} == validators;
        return None;
      }
      removed := Some(validators[k]);
      RemoveCount(validators, k);
      validators := validators - {k};
    }

    method UpdateStake(k: PublicKey, stake: u64) returns (error: Option<ValidatorSetError>)
      requires Valid()
      modifies this`validators
      ensures Valid()
      ensures error == (if k in old(validators) then None else Some(NotFound(k)))
      ensures validators == if k in old(validators) then old(validators)[k := old(validators)[k].(stake := stake)] else old(validators)
    {
      if k !in validators {
        return Some(NotFound(k));
      }
      InsertCount(validators, k, validators[k].(stake := stake));
      validators := validators[k := validators[k].(stake := stake)];
      return None;
    }

    /** Jailing is unconditional. */
    method JailValidator(k: PublicKey) returns (error: Option<ValidatorSetError>)
      requires Valid()
      modifies this`validators
      ensures Valid()
      ensures error == (if k in old(validators) then None else Some(NotFound(k)))
      ensures validators == if k in old(validators) then SetStatus(old(validators), k, Jailed) else old(validators)
    {
      if k !in validators {
        return Some(NotFound(k));
      }
      InsertCount(validators, k, validators[k].(status := Jailed));
      validators := SetStatus(validators, k, Jailed);
      return None;
    }

    /** Leaving jail leads to standby, never straight back to active. */
    method UnjailValidator(k: PublicKey) returns (error: Option<ValidatorSetError>)
      requires Valid()
      modifies this`validators
      ensures Valid()
      ensures error == (if k !in old(validators) then Some(NotFound(k))
                        else if old(validators)[k].status != Jailed then Some(NotJailed) else None)
      ensures validators == if error.None? then SetStatus(old(validators), k, Standby) else old(validators)
    {
      if k !in validators {
        return Some(NotFound(k));
      }
      if validators[k].status != Jailed {
        return Some(NotJailed);
      }
      InsertCount(validators, k, validators[k].(status := Standby));
      validators := SetStatus(validators, k, Standby);
      return None;
    }

    /** `epoch_rotation`: the cap is met or everyone eligible is active, and the active are the
        strongest. */
    method EpochRotation(pool: StakingPool)
      returns (swaps: seq<(PublicKey, PublicKey)>, ghost up: set<PublicKey>, ghost down: set<PublicKey>)
      requires Valid()
      modifies this`validators, this`currentEpoch
      ensures Valid()
      ensures OnlyRotated(old(validators), validators)
      ensures Settled(validators, PowerIn(pool.Value()), activeSetCap)
      ensures |WithStatus(validators, Active)| ==
        Min(activeSetCap, |WithStatus(old(validators), Active)| + |WithStatus(old(validators), Standby)|)
      ensures SwapsOk(old(validators), validators, swaps, up, down)
      ensures RightRotation(old(validators), validators, swaps, PowerIn(pool.Value()), activeSetCap)
      ensures Settled(old(validators), PowerIn(pool.Value()), activeSetCap) ==> validators == old(validators) && swaps == []
      ensures currentEpoch == WrapAdd(old(currentEpoch), 1)
    {
      var ws;
      ws, swaps, up, down := Rotate(validators, pool, activeSetCap);
      KeysKept(validators, ws);
      validators := ws;
      currentEpoch := WrapAdd(currentEpoch, 1);
    }

    /** `get_proposer`: selection from the active validators in key order. */
    method GetProposer(height: u64, pool: StakingPool) returns (r: Option<PublicKey>, ghost list: seq<Share>)
      ensures IsListing(list, WithStatus(validators, Active), PowerIn(pool.Value()))
      ensures r == ProposerAt(list, height)
      ensures r.Some? ==> r.value in WithStatus(validators, Active)
    {
      var active := ListShares(WithStatus(validators, Active), pool);
      list := active;
      PickIsListed(active, height);
      if active == [] {
        return None, list;
      }
      var total := SumShares(active);
      if total == 0 {
        return None, list;
      }
      var slot := height % total;
      r := PickLoop(active, slot);
      if r.None? {
        r := Some(active[|active| - 1].pubkey);
      }
    }
  }

  lemma CountedOneMore(active: set<PublicKey>, todo: set<PublicKey>, k: PublicKey)
    requires k in todo
    ensures |active - (todo - {k})| == |active - todo| + if k in active then 1 else 0
  {
    if k in active {
      assert active - (todo - {k}) == (active - todo) + {k};
    } else {
      assert active - (todo - {k}) == active - todo;
    }
  }

  lemma InsertCount(vs: Validators, k: PublicKey, info: ValidatorInfo)
    ensures WithStatus(vs[k := info], Active) == if info.status == Active then WithStatus(vs, Active) + {k} else WithStatus(vs, Active) - {k}
    ensures |WithStatus(vs[k := info], Active)| <= |WithStatus(vs, Active)| + (if info.status == Active && k !in WithStatus(vs, Active) then 1 else 0)
  {
    var a := WithStatus(vs, Active);
    assert WithStatus(vs[k := info], Active) == if info.status == Active then a + {k} else a - {k};
    if k in a {
      assert a + {k} == a && a == (a - {k}) + {k};
    } else {
      assert a - {k} == a;
    }
  }

  lemma RemoveCount(vs: Validators, k: PublicKey)
    ensures |WithStatus(vs - {k}, Active)| <= |WithStatus(vs, Active)|
  {
    var a := WithStatus(vs, Active);
    assert WithStatus(vs - {k}, Active) == a - {k};
    if k in a {
      assert a == (a - {k}) + {k};
    } else {
      assert a - {k} == a;
    }
  }

  lemma KeysKept(vs: Validators, ws: Validators)
    requires OnlyRotated(vs, ws) && forall k :: k in vs ==> vs[k].pubkey == k
    ensures forall k :: k in ws ==> ws[k].pubkey == k
  {
    forall k | k in ws
      ensures ws[k].pubkey == k
    {
      assert ws[k] == vs[k].(status := ws[k].status);
    }
  }

  // ---------- the list the proposer is picked from ----------

  /** `list` is `keys` in increasing order, each with its power. */
  ghost predicate IsListing(list: seq<Share>, keys: set<PublicKey>, power: Power) {
    && (forall i, j :: 0 <= i < j < |list| ==> list[i].pubkey < list[j].pubkey)
    && (forall i :: 0 <= i < |list| ==> list[i].pubkey in keys && list[i].power == power(list[i].pubkey))
    && (forall k :: k in keys ==> exists i :: 0 <= i < |list| && list[i].pubkey == k)
  }

  lemma ListingDistinct(list: seq<Share>, keys: set<PublicKey>, power: Power)
    requires IsListing(list, keys, power)
    ensures DistinctKeys(list)
  {
  }

  /** For a validator set whose powers add up to no more than 64 bits, every active validator
      proposes exactly its power's worth of any `Total` consecutive heights. */
  lemma ActiveProposeInProportion(list: seq<Share>, keys: set<PublicKey>, power: Power, h: nat, k: PublicKey)
    requires IsListing(list, keys, power) && k in keys
    requires Total(list) <= U64_MAX && h + Total(list) <= U64_SIZE
    ensures Turns(list, h, Total(list), k) == power(k)
  {
    ListingDistinct(list, keys, power);
    var i :| 0 <= i < |list| && list[i].pubkey == k;
    Proportional(list, h, i);
  }

  lemma {:induction false} PickListed(list: seq<Share>, slot: u64, c: u64)
    ensures var r := Pick(list, slot, c); r.Some? ==> exists i :: 0 <= i < |list| && list[i].pubkey == r.value
    decreases |list|
  {
    if list != [] {
      PickListed(list[1..], slot, WrapAdd(c, list[0].power));
      var r := Pick(list[1..], slot, WrapAdd(c, list[0].power));
      if r.Some? {
        var i :| 0 <= i < |list[1..]| && list[1..][i].pubkey == r.value;
        assert list[i + 1].pubkey == r.value;
      }
    }
  }

  lemma PickIsListed(list: seq<Share>, height: u64)
    ensures var r := ProposerAt(list, height); r.Some? ==> exists i :: 0 <= i < |list| && list[i].pubkey == r.value
  {
    if list != [] && WrappedTotal(list) != 0 {
      PickListed(list, height % WrappedTotal(list), 0);
    }
  }

  ghost predicate AllBelow(list: seq<Share>, keys: set<PublicKey>) {
    forall i, k :: 0 <= i < |list| && k in keys ==> list[i].pubkey < k
  }

  /** The smallest key with its power. */
  method NextShare(keys: set<PublicKey>, pool: StakingPool, ghost power: Power) returns (s: Share)
    requires keys != {} && power == PowerIn(pool.Value())
    ensures s.pubkey in keys && s.power == power(s.pubkey) && AllBelow([s], keys - {s.pubkey})
  {
    var k := Smallest(keys);
    var p := pool.GetVotingPower(k);
    s := Share(k, p);
  }

  lemma SetMinusStep(keys: set<PublicKey>, todo: set<PublicKey>, k: PublicKey)
    requires k in todo && todo <= keys
    ensures keys - (todo - {k}) == keys - todo + {k}
  {
  }

  method ListShares(keys: set<PublicKey>, pool: StakingPool) returns (list: seq<Share>)
    ensures IsListing(list, keys, PowerIn(pool.Value()))
  {
    list := [];
    var todo := keys;
    ghost var power, done := PowerIn(pool.Value()), {};
    while todo != {}
      invariant todo <= keys && done == keys - todo
      invariant IsListing(list, done, power) && AllBelow(list, todo)
      decreases |todo|
    {
      var s := NextShare(todo, pool, power);
      ListingExtends(list, done, power, s);
      SetMinusStep(keys, todo, s.pubkey);
      BelowExtends(list, todo, s);
      list := list + [s];
      todo := todo - {s.pubkey};
      done := done + {s.pubkey};
    }
    assert done == keys;
  }

  lemma BelowExtends(list: seq<Share>, todo: set<PublicKey>, s: Share)
    requires AllBelow(list, todo) && AllBelow([s], todo - {s.pubkey})
    ensures AllBelow(list + [s], todo - {s.pubkey})
  {
    assert [s][0] == s;
  }

  lemma ListingExtends(list: seq<Share>, keys: set<PublicKey>, power: Power, s: Share)
    requires IsListing(list, keys, power) && s.power == power(s.pubkey)
    requires forall i :: 0 <= i < |list| ==> list[i].pubkey < s.pubkey
    ensures IsListing(list + [s], keys + {s.pubkey}, power)
  {
    var more := list + [s];
    forall k | k in keys + {s.pubkey}
      ensures exists i :: 0 <= i < |more| && more[i].pubkey == k
    {
      if k == s.pubkey {
        assert more[|list|].pubkey == k;
      } else {
        var i :| 0 <= i < |list| && list[i].pubkey == k;
        assert more[i].pubkey == k;
      }
    }
  }

  method Smallest(keys: set<PublicKey>) returns (k: PublicKey)
    requires keys != {}
    ensures k in keys && forall j :: j in keys ==> k <= j
  {
    k :| k in keys;
    var todo := keys - {k};
    while todo != {}
      invariant k in keys && todo <= keys && forall j :: j in keys && j !in todo ==> k <= j
      decreases |todo|
    {
      var j :| j in todo;
      if j < k {
        k := j;
      }
      todo := todo - {j};
    }
  }

  method SumShares(list: seq<Share>) returns (total: u64)
    ensures total == WrappedTotal(list)
  {
    total := 0;
    var i := |list|;
    while i > 0
      invariant 0 <= i <= |list| && total == WrappedTotal(list[i..])
    {
      i := i - 1;
      assert list[i..][1..] == list[i + 1..];
      total := WrapAdd(list[i].power, total);
    }
    assert list[0..] == list;
  }

  method PickLoop(list: seq<Share>, slot: u64) returns (r: Option<PublicKey>)
    ensures r == Pick(list, slot, 0)
  {
    var cumulative: u64 := 0;
    var i := 0;
    assert list[0..] == list;
    while i < |list|
      invariant 0 <= i <= |list| && Pick(list[i..], slot, cumulative) == Pick(list, slot, 0)
    {
      assert list[i..][1..] == list[i + 1..];
      cumulative := WrapAdd(cumulative, list[i].power);
      if slot < cumulative {
        return Some(list[i].pubkey);
      }
      i := i + 1;
    }
    return None;
  }
}

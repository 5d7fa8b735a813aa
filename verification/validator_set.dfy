/** Registration, epoch rotation and jailing (runtime/validator-set/src/rotation.rs, manager.rs).

    Public keys are ordered; only their order matters, so they are numbers. A hash map's values
    come in no particular order, so what is collected from one is a set. */
module ValidatorSets {
  import opened Words
  import opened Staking

  datatype Status = Active | Standby | Jailed

  datatype ValidatorInfo = ValidatorInfo(
    pubkey: PublicKey,
    stake: u64,
    commissionRate: nat,
    status: Status,
    performanceScore: nat,
    joinHeight: u64)

  datatype ValidatorSetError =
    | AlreadyRegistered(pubkey: PublicKey)
    | NotFound(pubkey: PublicKey)
    | InsufficientStake(have: u64, need: u64)
    | NotJailed

  type Validators = map<PublicKey, ValidatorInfo>

  type Power = PublicKey -> nat

  function WithStatus(vs: Validators, s: Status): set<PublicKey> { set k | k in vs && vs[k].status == s }

  function SetStatus(vs: Validators, k: PublicKey, s: Status): Validators
    requires k in vs
  {
    vs[k := vs[k].(status := s)]
  }

  // ---------- ranking ----------

  datatype Ranked = Ranked(pubkey: PublicKey, effectiveStake: u64)

  /** More stake first, then the smaller key. */
  predicate Outranks(a: Ranked, b: Ranked) {
    a.effectiveStake > b.effectiveStake || (a.effectiveStake == b.effectiveStake && a.pubkey < b.pubkey)
  }

  /** `ranked` lists exactly `keys` with their power, each outranking the next ones. */
  ghost predicate IsRanking(ranked: seq<Ranked>, keys: set<PublicKey>, power: Power) {
    && (forall i, j :: 0 <= i < j < |ranked| ==> Outranks(ranked[i], ranked[j]))
    && (forall i :: 0 <= i < |ranked| ==> ranked[i].pubkey in keys && ranked[i].effectiveStake == power(ranked[i].pubkey))
    && (forall k :: k in keys ==> exists i :: 0 <= i < |ranked| && ranked[i].pubkey == k)
  }

  ghost function PowerIn(p: Pool): Power { k => VotingPower(p, k) }

  /** `sort_by_stake`, as selection of the strongest remaining validator. */
  method SortByStake(keys: set<PublicKey>, pool: StakingPool) returns (ranked: seq<Ranked>)
    ensures IsRanking(ranked, keys, PowerIn(pool.Value()))
    ensures |ranked| == |keys|
  {
    ranked := [];
    var todo := keys;
    ghost var power := PowerIn(pool.Value());
    while todo != {}
      invariant todo <= keys && |ranked| + |todo| == |keys|
      invariant IsRanking(ranked, keys - todo, power)
      invariant forall i, k :: 0 <= i < |ranked| && k in todo ==> Outranks(ranked[i], Ranked(k, power(k)))
      decreases |todo|
    {
      var best := Strongest(todo, pool);
      RankingExtends(ranked, keys - todo, power, best);
      assert keys - (todo - {best.pubkey}) == keys - todo + {best.pubkey};
      ranked := ranked + [best];
      todo := todo - {best.pubkey};
    }
    assert keys - {} == keys;
  }

  lemma RankingExtends(ranked: seq<Ranked>, keys: set<PublicKey>, power: Power, r: Ranked)
    requires IsRanking(ranked, keys, power) && r.effectiveStake == power(r.pubkey)
    requires forall i :: 0 <= i < |ranked| ==> Outranks(ranked[i], r)
    ensures IsRanking(ranked + [r], keys + {r.pubkey}, power)
  {
    var more := ranked + [r];
    forall k | k in keys + {r.pubkey}
      ensures exists i :: 0 <= i < |more| && more[i].pubkey == k
    {
      if k == r.pubkey {
        assert more[|ranked|].pubkey == k;
      } else {
        var i :| 0 <= i < |ranked| && ranked[i].pubkey == k;
        assert more[i].pubkey == k;
      }
    }
  }

  method Strongest(keys: set<PublicKey>, pool: StakingPool) returns (best: Ranked)
    requires keys != {}
    ensures best.pubkey in keys && best.effectiveStake == PowerIn(pool.Value())(best.pubkey)
    ensures forall k :: k in keys && k != best.pubkey ==> Outranks(best, Ranked(k, PowerIn(pool.Value())(k)))
  {
    var first :| first in keys;
    var p := pool.GetVotingPower(first);
    best := Ranked(first, p);
    var todo := keys - {first};
    while todo != {}
      invariant todo <= keys && best.pubkey in keys - todo
      invariant best.effectiveStake == PowerIn(pool.Value())(best.pubkey)
      invariant forall k :: k in keys - todo && k != best.pubkey ==> Outranks(best, Ranked(k, PowerIn(pool.Value())(k)))
      decreases |todo|
    {
      var k :| k in todo;
      var q := pool.GetVotingPower(k);
      if Outranks(Ranked(k, q), best) {
        best := Ranked(k, q);
      }
      todo := todo - {k};
    }
  }

  /** A set of validators has only one ranking, so rotation does not depend on map order. */
  lemma {:induction false} RankingUnique(a: seq<Ranked>, b: seq<Ranked>, keys: set<PublicKey>, power: Power)
    requires IsRanking(a, keys, power) && IsRanking(b, keys, power)
    ensures a == b
    decreases |keys|
  {
    if a == [] || b == [] {
      RankingEmpty(a, keys, power);
      RankingEmpty(b, keys, power);
    } else {
      var k := a[0].pubkey;
      assert a[0] == b[0] by { RankingHead(a, b, keys, power); }
      assert a[1..] == b[1..] by {
        assert IsRanking(a[1..], keys - {k}, power) by { RankingTail(a, keys, power); }
        assert IsRanking(b[1..], keys - {k}, power) by { RankingTail(b, keys, power); }
        assert k in keys;
        RankingUnique(a[1..], b[1..], keys - {k}, power);
      }
      SameParts(a, b);
    }
  }

  lemma SameParts<T>(a: seq<T>, b: seq<T>)
    requires a != [] && b != [] && a[0] == b[0] && a[1..] == b[1..]
    ensures a == b
  {
    assert a == [a[0]] + a[1..] && b == [b[0]] + b[1..];
  }

  lemma RankingEmpty(a: seq<Ranked>, keys: set<PublicKey>, power: Power)
    requires IsRanking(a, keys, power)
    ensures a == [] <==> keys == {}
  {
    if a != [] {
      assert a[0].pubkey in keys;
    }
  }

  lemma RankingHead(a: seq<Ranked>, b: seq<Ranked>, keys: set<PublicKey>, power: Power)
    requires IsRanking(a, keys, power) && IsRanking(b, keys, power) && a != [] && b != []
    ensures a[0] == b[0]
  {
    var i :| 0 <= i < |b| && b[i].pubkey == a[0].pubkey;
    var j :| 0 <= j < |a| && a[j].pubkey == b[0].pubkey;
    assert b[i] == a[0] && a[j] == b[0];
    assert i > 0 ==> Outranks(b[0], b[i]);
    assert j > 0 ==> Outranks(a[0], a[j]);
  }

  lemma RankingTail(a: seq<Ranked>, keys: set<PublicKey>, power: Power)
    requires IsRanking(a, keys, power) && a != []
    ensures IsRanking(a[1..], keys - {a[0].pubkey}, power)
  {
    forall k | k in keys - {a[0].pubkey}
      ensures exists i :: 0 <= i < |a[1..]| && a[1..][i].pubkey == k
    {
      var i :| 0 <= i < |a| && a[i].pubkey == k;
      assert a[1..][i - 1].pubkey == k;
    }
    forall i | 0 <= i < |a[1..]|
      ensures a[1..][i].pubkey in keys - {a[0].pubkey}
    {
      assert Outranks(a[0], a[i + 1]);
    }
  }

  // ---------- rotation ----------

  /** Nobody waits who is stronger than someone active. */
  ghost predicate Dominates(a: set<PublicKey>, b: set<PublicKey>, power: Power) {
    forall x, y :: x in a && y in b ==> power(x) >= power(y)
  }

  /** Only statuses may differ, and nobody enters or leaves jail. */
  ghost predicate OnlyRotated(vs: Validators, ws: Validators) {
    && ws.Keys == vs.Keys
    && forall k :: k in vs ==>
         ws[k] == vs[k].(status := ws[k].status) && (ws[k].status == Jailed <==> vs[k].status == Jailed)
  }

  /** There is nothing for a rotation to do. */
  ghost predicate Settled(vs: Validators, power: Power, cap: nat) {
    && Dominates(WithStatus(vs, Active), WithStatus(vs, Standby), power)
    && (|WithStatus(vs, Active)| >= cap || WithStatus(vs, Standby) == {})
  }

  /** The swaps so far: `up` came from standby and `down` from active, once each, and neither can
      move back. `a0`, `s0` are the active and standby sets at the start, `a`, `s` those now. */
  ghost predicate Exchanged(
    a0: set<PublicKey>, s0: set<PublicKey>, a: set<PublicKey>, s: set<PublicKey>,
    up: set<PublicKey>, down: set<PublicKey>, power: Power)
  {
    && up <= s0 && down <= a0 && |up| == |down|
    && a == a0 - down + up && s == s0 - up + down
    && Dominates(a, down, power) && Dominates(up, s, power)
  }

  /** An exchange promotes someone who was never demoted, and demotes someone never promoted. */
  lemma NeverBack(
    a0: set<PublicKey>, s0: set<PublicKey>, a: set<PublicKey>, s: set<PublicKey>,
    up: set<PublicKey>, down: set<PublicKey>, power: Power, strong: PublicKey, weak: PublicKey)
    requires Exchanged(a0, s0, a, s, up, down, power)
    requires strong in s && weak in a && power(strong) > power(weak)
    ensures strong in s0 - up && weak in a0 - down
  {
    assert strong !in down && weak !in up;
  }

  lemma ExchangedSets(
    a0: set<PublicKey>, s0: set<PublicKey>, up: set<PublicKey>, down: set<PublicKey>, strong: PublicKey, weak: PublicKey)
    requires a0 !! s0 && up <= s0 && down <= a0 && strong in s0 - up && weak in a0 - down
    ensures a0 - down + up - {weak} + {strong} == a0 - (down + {weak}) + (up + {strong})
    ensures s0 - up + down - {strong} + {weak} == s0 - (up + {strong}) + (down + {weak})
  {
  }

  lemma ExchangedDominates(
    a: set<PublicKey>, s: set<PublicKey>, up: set<PublicKey>, down: set<PublicKey>,
    power: Power, strong: PublicKey, weak: PublicKey)
    requires Dominates(a, down, power) && Dominates(up, s, power)
    requires strong in s && weak in a && power(strong) > power(weak)
    requires Dominates({strong}, s, power) && Dominates(a, {weak}, power)
    ensures Dominates(a - {weak} + {strong}, down + {weak}, power)
    ensures Dominates(up + {strong}, s - {strong} + {weak}, power)
  {
    assert forall y :: y in down ==> power(strong) > power(weak) >= power(y);
    assert forall x :: x in up ==> power(x) >= power(strong) > power(weak);
    assert forall x :: x in a ==> x in a && weak in {weak} && power(x) >= power(weak);
    assert forall y :: y in s ==> strong in {strong} && power(strong) >= power(y);
  }

  lemma ExchangeOnce(
    a0: set<PublicKey>, s0: set<PublicKey>, a: set<PublicKey>, s: set<PublicKey>,
    up: set<PublicKey>, down: set<PublicKey>, power: Power, strong: PublicKey, weak: PublicKey)
    requires Exchanged(a0, s0, a, s, up, down, power) && a0 !! s0
    requires strong in s && weak in a && power(strong) > power(weak)
    requires Dominates({strong}, s, power) && Dominates(a, {weak}, power)
    ensures strong in s0 - up && weak in a0 - down
    ensures Exchanged(a0, s0, a - {weak} + {strong}, s - {strong} + {weak}, up + {strong}, down + {weak}, power)
  {
    NeverBack(a0, s0, a, s, up, down, power, strong, weak);
    ExchangedSets(a0, s0, up, down, strong, weak);
    ExchangedDominates(a, s, up, down, power, strong, weak);
  }

  lemma StatusAfter(vs: Validators, k: PublicKey, s: Status, t: Status)
    requires k in vs
    ensures WithStatus(SetStatus(vs, k, s), t) == if s == t then WithStatus(vs, t) + {k} else WithStatus(vs, t) - {k}
  {
  }

  lemma OnlyRotatedTwice(vs: Validators, ws: Validators, xs: Validators)
    requires OnlyRotated(vs, ws) && OnlyRotated(ws, xs)
    ensures OnlyRotated(vs, xs)
  {
    forall k | k in vs
      ensures xs[k] == vs[k].(status := xs[k].status) && (xs[k].status == Jailed <==> vs[k].status == Jailed)
    {
      assert ws[k] == vs[k].(status := ws[k].status) && xs[k] == ws[k].(status := xs[k].status);
    }
  }

  function Swap(ws: Validators, strong: PublicKey, weak: PublicKey): Validators
    requires strong in ws && weak in ws
  {
    SetStatus(SetStatus(ws, weak, Standby), strong, Active)
  }

  lemma SwapSets(ws: Validators, strong: PublicKey, weak: PublicKey)
    requires strong in WithStatus(ws, Standby) && weak in WithStatus(ws, Active)
    ensures WithStatus(Swap(ws, strong, weak), Active) == WithStatus(ws, Active) - {weak} + {strong}
    ensures WithStatus(Swap(ws, strong, weak), Standby) == WithStatus(ws, Standby) - {strong} + {weak}
    ensures OnlyRotated(ws, Swap(ws, strong, weak))
  {
    StatusAfter(ws, weak, Standby, Active);
    StatusAfter(ws, weak, Standby, Standby);
    StatusAfter(SetStatus(ws, weak, Standby), strong, Active, Active);
    StatusAfter(SetStatus(ws, weak, Standby), strong, Active, Standby);
  }

  lemma OneFewer(s: set<PublicKey>, up: set<PublicKey>, k: PublicKey)
    requires k in s - up
    ensures |s - (up + {k})| < |s - up|
  {
    assert s - up == s - (up + {k}) + {k};
  }

  /** More power, or as much and the smaller key. */
  ghost predicate Above(power: Power, x: PublicKey, y: PublicKey) {
    power(x) > power(y) || (power(x) == power(y) && x < y)
  }

  ghost predicate FirstOf(keys: set<PublicKey>, k: PublicKey, power: Power) {
    k in keys && forall x :: x in keys && x != k ==> Above(power, k, x)
  }

  ghost predicate LastOf(keys: set<PublicKey>, k: PublicKey, power: Power) {
    k in keys && forall x :: x in keys && x != k ==> Above(power, x, k)
  }

  ghost predicate AllAbove(a: set<PublicKey>, b: set<PublicKey>, power: Power) {
    forall x, y :: x in a && y in b ==> Above(power, x, y)
  }

  method Weakest(keys: set<PublicKey>, pool: StakingPool, ghost power: Power) returns (r: Ranked)
    requires keys != {} && power == PowerIn(pool.Value())
    ensures r.effectiveStake == power(r.pubkey) && LastOf(keys, r.pubkey, power) && Dominates(keys, {r.pubkey}, power)
  {
    var ranked := SortByStake(keys, pool);
    r := ranked[|ranked| - 1];
    RankingEnds(ranked, keys, power);
  }

  method StrongestOf(keys: set<PublicKey>, pool: StakingPool, ghost power: Power) returns (r: Ranked)
    requires keys != {} && power == PowerIn(pool.Value())
    ensures r.effectiveStake == power(r.pubkey) && FirstOf(keys, r.pubkey, power) && Dominates({r.pubkey}, keys, power)
  {
    var ranked := SortByStake(keys, pool);
    r := ranked[0];
    RankingEnds(ranked, keys, power);
  }

  lemma RankingEnds(ranked: seq<Ranked>, keys: set<PublicKey>, power: Power)
    requires IsRanking(ranked, keys, power) && ranked != []
    ensures Dominates({ranked[0].pubkey}, keys, power) && Dominates(keys, {ranked[|ranked| - 1].pubkey}, power)
    ensures FirstOf(keys, ranked[0].pubkey, power) && LastOf(keys, ranked[|ranked| - 1].pubkey, power)
  {
    var last := |ranked| - 1;
    forall k | k in keys
      ensures k != ranked[0].pubkey ==> Above(power, ranked[0].pubkey, k)
      ensures k != ranked[last].pubkey ==> Above(power, k, ranked[last].pubkey)
    {
      var i :| 0 <= i < |ranked| && ranked[i].pubkey == k;
      assert i > 0 ==> Outranks(ranked[0], ranked[i]);
      assert i < last ==> Outranks(ranked[i], ranked[last]);
    }
  }

  /** `swaps` lists each promoted and each demoted validator once. */
  ghost predicate Records(swaps: seq<(PublicKey, PublicKey)>, up: set<PublicKey>, down: set<PublicKey>) {
    && |swaps| == |up|
    && (forall k :: k in up <==> exists i :: 0 <= i < |swaps| && swaps[i].0 == k)
    && (forall k :: k in down <==> exists i :: 0 <= i < |swaps| && swaps[i].1 == k)
  }

  lemma RecordsGrow(swaps: seq<(PublicKey, PublicKey)>, up: set<PublicKey>, down: set<PublicKey>, s: (PublicKey, PublicKey))
    requires Records(swaps, up, down) && s.0 !in up
    ensures Records(swaps + [s], up + {s.0}, down + {s.1})
  {
    var more := swaps + [s];
    assert more[|swaps|] == s;
    assert forall i :: 0 <= i < |swaps| ==> more[i] == swaps[i];
  }

  /** Who is active once `swaps` are made, and who stands by. */
  function ActiveAfter(a0: set<PublicKey>, swaps: seq<(PublicKey, PublicKey)>): set<PublicKey> {
    if swaps == [] then a0
    else ActiveAfter(a0, swaps[..|swaps| - 1]) - {swaps[|swaps| - 1].1} + {swaps[|swaps| - 1].0}
  }

  function StandbyAfter(s0: set<PublicKey>, swaps: seq<(PublicKey, PublicKey)>): set<PublicKey> {
    if swaps == [] then s0
    else StandbyAfter(s0, swaps[..|swaps| - 1]) - {swaps[|swaps| - 1].0} + {swaps[|swaps| - 1].1}
  }

  /** `swap` brings in the first of the standbys for the last of the actives, who has less power. */
  ghost predicate RightSwap(a: set<PublicKey>, s: set<PublicKey>, swap: (PublicKey, PublicKey), power: Power) {
    FirstOf(s, swap.0, power) && LastOf(a, swap.1, power) && power(swap.0) > power(swap.1)
  }

  /** Each swap was the right one when it was made. */
  ghost predicate RightSwaps(a0: set<PublicKey>, s0: set<PublicKey>, swaps: seq<(PublicKey, PublicKey)>, power: Power) {
    swaps != [] ==>
      var init := swaps[..|swaps| - 1];
      RightSwaps(a0, s0, init, power)
      && RightSwap(ActiveAfter(a0, init), StandbyAfter(s0, init), swaps[|swaps| - 1], power)
  }

  /** The right swaps so far lead from `a0`, `s0` to `a`, `s`. */
  ghost predicate Swapped(
    a0: set<PublicKey>, s0: set<PublicKey>, a: set<PublicKey>, s: set<PublicKey>, swaps: seq<(PublicKey, PublicKey)>, power: Power)
  {
    RightSwaps(a0, s0, swaps, power) && a == ActiveAfter(a0, swaps) && s == StandbyAfter(s0, swaps)
  }

  lemma {:induction false} SwappedOnce(
    a0: set<PublicKey>, s0: set<PublicKey>, a: set<PublicKey>, s: set<PublicKey>, swaps: seq<(PublicKey, PublicKey)>, power: Power,
    swap: (PublicKey, PublicKey))
    requires Swapped(a0, s0, a, s, swaps, power) && RightSwap(a, s, swap, power)
    ensures Swapped(a0, s0, a - {swap.1} + {swap.0}, s - {swap.0} + {swap.1}, swaps + [swap], power)
  {
    assert (swaps + [swap])[..|swaps|] == swaps;
  }

  /** The swaps so far, seen on the sets: the right ones, recorded, and none if there was none to make. */
  ghost predicate SwapsMade(
    a0: set<PublicKey>, s0: set<PublicKey>, a: set<PublicKey>, s: set<PublicKey>, swaps: seq<(PublicKey, PublicKey)>,
    up: set<PublicKey>, down: set<PublicKey>, power: Power)
  {
    && Exchanged(a0, s0, a, s, up, down, power) && Swapped(a0, s0, a, s, swaps, power) && Records(swaps, up, down)
    && (Dominates(a0, s0, power) ==> swaps == [])
  }

  lemma {:induction false} OneMoreSwap(
    a0: set<PublicKey>, s0: set<PublicKey>, a: set<PublicKey>, s: set<PublicKey>, swaps: seq<(PublicKey, PublicKey)>,
    up: set<PublicKey>, down: set<PublicKey>, power: Power, swap: (PublicKey, PublicKey))
    requires a0 !! s0 && SwapsMade(a0, s0, a, s, swaps, up, down, power)
    requires RightSwap(a, s, swap, power) && Dominates({swap.0}, s, power) && Dominates(a, {swap.1}, power)
    ensures SwapsMade(a0, s0, a - {swap.1} + {swap.0}, s - {swap.0} + {swap.1}, swaps + [swap], up + {swap.0}, down + {swap.1}, power)
    ensures |s0 - (up + {swap.0})| < |s0 - up|
  {
    ExchangeOnce(a0, s0, a, s, up, down, power, swap.0, swap.1);
    OneFewer(s0, up, swap.0);
    RecordsGrow(swaps, up, down, swap);
    SwappedOnce(a0, s0, a, s, swaps, power, swap);
    NotSettledBefore(a0, s0, a, s, swaps, power, swap);
  }

  lemma NotSettledBefore(
    a0: set<PublicKey>, s0: set<PublicKey>, a: set<PublicKey>, s: set<PublicKey>, swaps: seq<(PublicKey, PublicKey)>, power: Power,
    swap: (PublicKey, PublicKey))
    requires Swapped(a0, s0, a, s, swaps, power) && RightSwap(a, s, swap, power)
    requires Dominates(a0, s0, power) ==> swaps == []
    ensures !Dominates(a0, s0, power)
  {
  }

  lemma SwapStatuses(vs: Validators, ws: Validators, strong: PublicKey, weak: PublicKey)
    requires OnlyRotated(vs, ws) && strong in WithStatus(ws, Standby) && weak in WithStatus(ws, Active)
    ensures OnlyRotated(vs, Swap(ws, strong, weak))
    ensures WithStatus(Swap(ws, strong, weak), Active) == WithStatus(ws, Active) - {weak} + {strong}
    ensures WithStatus(Swap(ws, strong, weak), Standby) == WithStatus(ws, Standby) - {strong} + {weak}
  {
    SwapSets(ws, strong, weak);
    OnlyRotatedTwice(vs, ws, Swap(ws, strong, weak));
  }

  /** The swap loop of `rotate`. It ends because every swap uses up one of the original standbys. */
  method SwapLoop(vs: Validators, pool: StakingPool, ghost power: Power)
    returns (ws: Validators, swaps: seq<(PublicKey, PublicKey)>, ghost up: set<PublicKey>, ghost down: set<PublicKey>)
    requires power == PowerIn(pool.Value())
    ensures OnlyRotated(vs, ws) && Records(swaps, up, down)
    ensures Exchanged(WithStatus(vs, Active), WithStatus(vs, Standby), WithStatus(ws, Active), WithStatus(ws, Standby), up, down, power)
    ensures Swapped(WithStatus(vs, Active), WithStatus(vs, Standby), WithStatus(ws, Active), WithStatus(ws, Standby), swaps, power)
    ensures Dominates(WithStatus(ws, Active), WithStatus(ws, Standby), power)
    ensures Dominates(WithStatus(vs, Active), WithStatus(vs, Standby), power) ==> ws == vs && swaps == []
  {
    ws, swaps, up, down := vs, [], {}, {};
    var active, standby := WithStatus(ws, Active), WithStatus(ws, Standby);
    ghost var a0, s0 := active, standby;
    assert a0 !! s0;
    NoSwapsYet(a0, s0, power);
    while true
      invariant active == WithStatus(ws, Active) && standby == WithStatus(ws, Standby)
      invariant OnlyRotated(vs, ws) && (swaps == [] ==> ws == vs)
      invariant SwapsMade(a0, s0, active, standby, swaps, up, down, power)
      decreases |s0 - up|
    {
      var found := FindSwap(active, standby, pool, power);
      if found.None? {
        break;
      }
      var strong, weak := found.value.0, found.value.1;
      OneMoreSwap(a0, s0, active, standby, swaps, up, down, power, (strong, weak));
      SwapStatuses(vs, ws, strong, weak);
      ws := Swap(ws, strong, weak);
      swaps := swaps + [(strong, weak)];
      up, down := up + {strong}, down + {weak};
      active, standby := WithStatus(ws, Active), WithStatus(ws, Standby);
    }
  }

  lemma NoSwapsYet(a0: set<PublicKey>, s0: set<PublicKey>, power: Power)
    ensures SwapsMade(a0, s0, a0, s0, [], {}, {}, power)
  {
  }

  /** The strongest standby and the weakest active, if the former is strictly stronger. */
  method FindSwap(active: set<PublicKey>, standby: set<PublicKey>, pool: StakingPool, ghost power: Power)
    returns (swap: Option<(PublicKey, PublicKey)>)
    requires power == PowerIn(pool.Value())
    ensures swap.None? <==> Dominates(active, standby, power)
    ensures swap.Some? ==>
      && RightSwap(active, standby, swap.value, power)
      && Dominates({swap.value.0}, standby, power) && Dominates(active, {swap.value.1}, power)
  {
    if active == {} || standby == {} {
      return None;
    }
    var weak := Weakest(active, pool, power);
    var strong := StrongestOf(standby, pool, power);
    if strong.effectiveStake > weak.effectiveStake {
      return Some((strong.pubkey, weak.pubkey));
    }
    SettledAt(active, standby, power, strong.pubkey, weak.pubkey);
    return None;
  }

  lemma SettledAt(a: set<PublicKey>, s: set<PublicKey>, power: Power, strong: PublicKey, weak: PublicKey)
    requires Dominates({strong}, s, power) && Dominates(a, {weak}, power) && power(strong) <= power(weak)
    ensures Dominates(a, s, power)
  {
    assert forall x :: x in a ==> power(x) >= power(weak);
    assert forall y :: y in s ==> power(strong) >= power(y);
  }

  // ---------- filling free slots ----------

  function Firsts(ranked: seq<Ranked>, n: nat): set<PublicKey>
    requires n <= |ranked|
  {
    set i | 0 <= i < n :: ranked[i].pubkey
  }

  lemma FirstsOneMore(ranked: seq<Ranked>, keys: set<PublicKey>, power: Power, n: nat)
    requires IsRanking(ranked, keys, power) && n < |ranked|
    ensures Firsts(ranked, n + 1) == Firsts(ranked, n) + {ranked[n].pubkey}
    ensures ranked[n].pubkey in keys - Firsts(ranked, n)
  {
    assert forall i :: 0 <= i < n ==> Outranks(ranked[i], ranked[n]);
  }

  /** The first of a ranking are above the rest. */
  lemma FirstsAbove(ranked: seq<Ranked>, keys: set<PublicKey>, power: Power, n: nat)
    requires IsRanking(ranked, keys, power) && n <= |ranked|
    ensures AllAbove(Firsts(ranked, n), keys - Firsts(ranked, n), power)
  {
    forall x, y | x in Firsts(ranked, n) && y in keys - Firsts(ranked, n)
      ensures Above(power, x, y)
    {
      var i :| 0 <= i < n && ranked[i].pubkey == x;
      var j :| 0 <= j < |ranked| && ranked[j].pubkey == y;
      assert j >= n;
      assert Outranks(ranked[i], ranked[j]);
    }
  }

  lemma StillDominates(a: set<PublicKey>, s: set<PublicKey>, f: set<PublicKey>, power: Power)
    requires Dominates(a, s, power) && f <= s && AllAbove(f, s - f, power)
    ensures Dominates(a + f, s - f, power)
  {
  }

  lemma PromoteOne(ws: Validators, xs: Validators, k: PublicKey)
    requires OnlyRotated(ws, xs) && k in WithStatus(xs, Standby)
    ensures OnlyRotated(ws, SetStatus(xs, k, Active))
    ensures WithStatus(SetStatus(xs, k, Active), Active) == WithStatus(xs, Active) + {k}
    ensures WithStatus(SetStatus(xs, k, Active), Standby) == WithStatus(xs, Standby) - {k}
  {
    StatusAfter(xs, k, Active, Active);
    StatusAfter(xs, k, Active, Standby);
    OnlyRotatedTwice(ws, xs, SetStatus(xs, k, Active));
  }

  /** `xs` is `ws` with the standbys `f` promoted. */
  ghost predicate Promoted(ws: Validators, xs: Validators, f: set<PublicKey>) {
    && OnlyRotated(ws, xs) && f <= WithStatus(ws, Standby)
    && WithStatus(xs, Active) == WithStatus(ws, Active) + f
    && WithStatus(xs, Standby) == WithStatus(ws, Standby) - f
  }

  lemma SetsOneMore(a: set<PublicKey>, s: set<PublicKey>, f: set<PublicKey>, k: PublicKey)
    ensures a + f + {k} == a + (f + {k}) && s - f - {k} == s - (f + {k})
  {
  }

  lemma PromotedOneMore(ws: Validators, xs: Validators, f: set<PublicKey>, k: PublicKey)
    requires Promoted(ws, xs, f) && k in WithStatus(ws, Standby) && k !in f
    ensures k in xs && Promoted(ws, SetStatus(xs, k, Active), f + {k})
  {
    assert k in WithStatus(xs, Standby);
    PromoteOne(ws, xs, k);
    SetsOneMore(WithStatus(ws, Active), WithStatus(ws, Standby), f, k);
  }

  /** `ws` with the first `n` of a ranking promoted. */
  function PromoteAll(ws: Validators, ranked: seq<Ranked>, n: nat): (xs: Validators)
    requires n <= |ranked| && forall i :: 0 <= i < |ranked| ==> ranked[i].pubkey in ws
    ensures xs.Keys == ws.Keys
  {
    if n == 0 then ws else SetStatus(PromoteAll(ws, ranked, n - 1), ranked[n - 1].pubkey, Active)
  }

  /** `xs` is `ws` with `f` promoted, the first `n` of the ranking. */
  ghost predicate FirstsPromoted(ws: Validators, xs: Validators, ranked: seq<Ranked>, n: nat, f: set<PublicKey>)
    requires n <= |ranked|
  {
    Promoted(ws, xs, f) && f == Firsts(ranked, n) && |f| == n
  }

  lemma NonePromoted(ws: Validators, ranked: seq<Ranked>)
    ensures FirstsPromoted(ws, ws, ranked, 0, {})
  {
  }

  lemma FirstsPromotedOneMore(ws: Validators, xs: Validators, ranked: seq<Ranked>, power: Power, n: nat, f: set<PublicKey>)
    requires n < |ranked| && IsRanking(ranked, WithStatus(ws, Standby), power) && FirstsPromoted(ws, xs, ranked, n, f)
    ensures var k := ranked[n].pubkey;
            k in xs && FirstsPromoted(ws, SetStatus(xs, k, Active), ranked, n + 1, f + {k})
  {
    FirstsOneMore(ranked, WithStatus(ws, Standby), power, n);
    PromotedOneMore(ws, xs, f, ranked[n].pubkey);
  }

  lemma {:induction false} AllPromoted(ws: Validators, ranked: seq<Ranked>, power: Power, n: nat) returns (f: set<PublicKey>)
    requires n <= |ranked| && IsRanking(ranked, WithStatus(ws, Standby), power)
    ensures FirstsPromoted(ws, PromoteAll(ws, ranked, n), ranked, n, f)
    decreases n
  {
    if n == 0 {
      f := {};
      NonePromoted(ws, ranked);
    } else {
      f := AllPromoted(ws, ranked, power, n - 1);
      FirstsPromotedOneMore(ws, PromoteAll(ws, ranked, n - 1), ranked, power, n - 1, f);
      f := f + {ranked[n - 1].pubkey};
    }
  }

  method PromoteFirsts(ws: Validators, ranked: seq<Ranked>, n: nat) returns (xs: Validators)
    requires n <= |ranked| && forall i :: 0 <= i < |ranked| ==> ranked[i].pubkey in ws
    ensures xs == PromoteAll(ws, ranked, n)
  {
    xs := ws;
    for i := 0 to n
      invariant xs == PromoteAll(ws, ranked, i)
    {
      xs := SetStatus(xs, ranked[i].pubkey, Active);
    }
  }

  /** Promotes the strongest standbys into the free slots. */
  method Fill(ws: Validators, pool: StakingPool, cap: nat, ghost power: Power) returns (xs: Validators)
    requires power == PowerIn(pool.Value())
    requires Dominates(WithStatus(ws, Active), WithStatus(ws, Standby), power)
    ensures OnlyRotated(ws, xs) && Settled(xs, power, cap)
    ensures WithStatus(ws, Active) <= WithStatus(xs, Active)
    ensures AllAbove(WithStatus(xs, Active) - WithStatus(ws, Active), WithStatus(xs, Standby), power)
    ensures |WithStatus(xs, Active)| == Seats(ws, cap)
    ensures Settled(ws, power, cap) ==> xs == ws
  {
    xs := ws;
    var active, standby := WithStatus(ws, Active), WithStatus(ws, Standby);
    if |active| < cap {
      var ranked := SortByStake(standby, pool);
      var n := Min(cap - |active|, |ranked|);
      FirstsAbove(ranked, standby, power, n);
      ghost var f := AllPromoted(ws, ranked, power, n);
      xs := PromoteFirsts(ws, ranked, n);
      Filled(ws, xs, power, cap, f);
    }
  }

  lemma Filled(ws: Validators, xs: Validators, power: Power, cap: nat, f: set<PublicKey>)
    requires var a, s := WithStatus(ws, Active), WithStatus(ws, Standby);
             && Promoted(ws, xs, f) && Dominates(a, s, power) && AllAbove(f, s - f, power)
             && |a| < cap && |f| == Min(cap - |a|, |s|)
    ensures Settled(xs, power, cap) && |WithStatus(xs, Active)| == Seats(ws, cap)
    ensures WithStatus(ws, Active) <= WithStatus(xs, Active)
    ensures AllAbove(WithStatus(xs, Active) - WithStatus(ws, Active), WithStatus(xs, Standby), power)
  {
    var a, s := WithStatus(ws, Active), WithStatus(ws, Standby);
    assert a !! s;
    assert a + f - a == f;
    StillDominates(a, s, f, power);
    FillCounts(a, s, f, cap);
  }

  lemma FillCounts(active: set<PublicKey>, standby: set<PublicKey>, f: set<PublicKey>, cap: nat)
    requires active !! standby && f <= standby && |active| < cap && |f| == Min(cap - |active|, |standby|)
    ensures |active + f| == Min(cap, |active| + |standby|)
    ensures |active + f| >= cap || standby - f == {}
  {
    assert |active + f| == |active| + |f|;
    if |f| == |standby| {
      assert |standby - f| == 0;
    }
  }

  /** How many are active after a rotation. */
  function Seats(vs: Validators, cap: nat): nat {
    Max(|WithStatus(vs, Active)|, Min(cap, |WithStatus(vs, Active)| + |WithStatus(vs, Standby)|))
  }

  /** Each swap promotes a standby who stays active, and demotes an active, nobody twice. */
  ghost predicate SwapsOk(vs: Validators, ws: Validators, swaps: seq<(PublicKey, PublicKey)>, up: set<PublicKey>, down: set<PublicKey>) {
    && Records(swaps, up, down) && |up| == |down|
    && up <= WithStatus(vs, Standby) && up <= WithStatus(ws, Active) && down <= WithStatus(vs, Active)
    && |swaps| <= |WithStatus(vs, Standby)|
  }

  lemma RotationComposes(
    vs: Validators, mid: Validators, ws: Validators, swaps: seq<(PublicKey, PublicKey)>,
    up: set<PublicKey>, down: set<PublicKey>, power: Power, cap: nat)
    requires OnlyRotated(vs, mid) && OnlyRotated(mid, ws) && Records(swaps, up, down)
    requires Exchanged(WithStatus(vs, Active), WithStatus(vs, Standby), WithStatus(mid, Active), WithStatus(mid, Standby), up, down, power)
    requires WithStatus(mid, Active) <= WithStatus(ws, Active)
    ensures OnlyRotated(vs, ws) && SwapsOk(vs, ws, swaps, up, down) && Seats(mid, cap) == Seats(vs, cap)
  {
    OnlyRotatedTwice(vs, mid, ws);
    var a0, s0, a, s := WithStatus(vs, Active), WithStatus(vs, Standby), WithStatus(mid, Active), WithStatus(mid, Standby);
    assert a0 !! s0;
    ExchangedCounts(a0, s0, a, s, up, down, power);
    assert up <= a;
  }

  /** The swaps are the right ones, made until no standby has more power than an active; and the rest of the seats
      went to the standbys above all others. */
  ghost predicate RightRotation(vs: Validators, ws: Validators, swaps: seq<(PublicKey, PublicKey)>, power: Power, cap: nat) {
    var a0, s0 := WithStatus(vs, Active), WithStatus(vs, Standby);
    var a, s := ActiveAfter(a0, swaps), StandbyAfter(s0, swaps);
    && OnlyRotated(vs, ws)
    && RightSwaps(a0, s0, swaps, power) && Dominates(a, s, power)
    && a <= WithStatus(ws, Active) && |WithStatus(ws, Active)| == Seats(vs, cap)
    && WithStatus(ws, Active) + WithStatus(ws, Standby) == a + s
    && AllAbove(WithStatus(ws, Active) - a, WithStatus(ws, Standby), power)
  }

  lemma SameNonJailed(vs: Validators, ws: Validators)
    requires OnlyRotated(vs, ws)
    ensures WithStatus(ws, Active) + WithStatus(ws, Standby) == WithStatus(vs, Active) + WithStatus(vs, Standby)
  {
    forall k ensures k in WithStatus(ws, Active) + WithStatus(ws, Standby) <==> k in WithStatus(vs, Active) + WithStatus(vs, Standby) {
      assert k in vs <==> k in ws.Keys;
    }
  }

  /** `rotate`. The result holds the strongest non-jailed validators, as many as the cap allows (or
      as were active already); nobody is jailed or freed; no swap is undone by another; and there
      is nothing left for a second rotation to do. */
  method Rotate(vs: Validators, pool: StakingPool, cap: nat)
    returns (ws: Validators, swaps: seq<(PublicKey, PublicKey)>, ghost up: set<PublicKey>, ghost down: set<PublicKey>)
    ensures OnlyRotated(vs, ws)
    ensures Settled(ws, PowerIn(pool.Value()), cap)
    ensures |WithStatus(ws, Active)| == Seats(vs, cap)
    ensures SwapsOk(vs, ws, swaps, up, down)
    ensures RightRotation(vs, ws, swaps, PowerIn(pool.Value()), cap)
    ensures Settled(vs, PowerIn(pool.Value()), cap) ==> ws == vs && swaps == []
  {
    ghost var power := PowerIn(pool.Value());
    var mid;
    mid, swaps, up, down := SwapLoop(vs, pool, power);
    ws := Fill(mid, pool, cap, power);
    RotationComposes(vs, mid, ws, swaps, up, down, power, cap);
    SameNonJailed(mid, ws);
  }

  // ---------- the outcome is determined ----------

  lemma SwapUnique(a: set<PublicKey>, s: set<PublicKey>, x: (PublicKey, PublicKey), y: (PublicKey, PublicKey), power: Power)
    requires RightSwap(a, s, x, power) && RightSwap(a, s, y, power)
    ensures x == y
  {
  }

  lemma {:induction false} RightPrefix(a0: set<PublicKey>, s0: set<PublicKey>, swaps: seq<(PublicKey, PublicKey)>, power: Power, n: nat)
    requires RightSwaps(a0, s0, swaps, power) && n < |swaps|
    ensures RightSwap(ActiveAfter(a0, swaps[..n]), StandbyAfter(s0, swaps[..n]), swaps[n], power)
    decreases |swaps|
  {
    var last := |swaps| - 1;
    if n < last {
      RightPrefix(a0, s0, swaps[..last], power, n);
      assert swaps[..last][..n] == swaps[..n];
    }
  }

  lemma {:induction false} SwapsAgree(
    a0: set<PublicKey>, s0: set<PublicKey>, x: seq<(PublicKey, PublicKey)>, y: seq<(PublicKey, PublicKey)>, power: Power, n: nat)
    requires RightSwaps(a0, s0, x, power) && RightSwaps(a0, s0, y, power) && n <= |x| && n <= |y|
    ensures x[..n] == y[..n]
    decreases n
  {
    if n > 0 {
      SwapsAgree(a0, s0, x, y, power, n - 1);
      RightPrefix(a0, s0, x, power, n - 1);
      RightPrefix(a0, s0, y, power, n - 1);
      SwapUnique(ActiveAfter(a0, x[..n - 1]), StandbyAfter(s0, x[..n - 1]), x[n - 1], y[n - 1], power);
      assert x[..n] == x[..n - 1] + [x[n - 1]] && y[..n] == y[..n - 1] + [y[n - 1]];
    }
  }

  lemma NoRightSwap(a: set<PublicKey>, s: set<PublicKey>, swap: (PublicKey, PublicKey), power: Power)
    requires Dominates(a, s, power)
    ensures !RightSwap(a, s, swap, power)
  {
  }

  /** Right swaps end at the first point where none is left to make. */
  lemma {:induction false} NoMoreSwaps(
    a0: set<PublicKey>, s0: set<PublicKey>, x: seq<(PublicKey, PublicKey)>, y: seq<(PublicKey, PublicKey)>, power: Power)
    requires RightSwaps(a0, s0, x, power) && RightSwaps(a0, s0, y, power)
    requires Dominates(ActiveAfter(a0, x), StandbyAfter(s0, x), power)
    ensures |y| <= |x|
  {
    if |y| > |x| {
      SwapsAgree(a0, s0, x, y, power, |x|);
      assert y[..|x|] == x;
      NoRightSwap(ActiveAfter(a0, x), StandbyAfter(s0, x), y[|x|], power);
      RightPrefix(a0, s0, y, power, |x|);
      assert false;
    }
  }

  lemma {:induction false} SwapsDetermined(
    a0: set<PublicKey>, s0: set<PublicKey>, x: seq<(PublicKey, PublicKey)>, y: seq<(PublicKey, PublicKey)>, power: Power)
    requires RightSwaps(a0, s0, x, power) && RightSwaps(a0, s0, y, power)
    requires Dominates(ActiveAfter(a0, x), StandbyAfter(s0, x), power) && Dominates(ActiveAfter(a0, y), StandbyAfter(s0, y), power)
    ensures x == y
  {
    NoMoreSwaps(a0, s0, x, y, power);
    NoMoreSwaps(a0, s0, y, x, power);
    SwapsAgree(a0, s0, x, y, power, |x|);
    assert x[..|x|] == x && y[..|y|] == y;
  }

  lemma NotBothAbove(power: Power, x: PublicKey, y: PublicKey)
    ensures !(Above(power, x, y) && Above(power, y, x))
  {
  }

  /** Two choices of equally many, each above all it leaves, are the same. */
  lemma ChoiceDetermined(all: set<PublicKey>, f: set<PublicKey>, g: set<PublicKey>, power: Power)
    requires f <= all && g <= all && |f| == |g| && AllAbove(f, all - f, power) && AllAbove(g, all - g, power)
    ensures f == g
  {
    if f <= g {
      SameSize(f, g);
    } else if g <= f {
      SameSize(g, f);
    } else {
      var x, y :| x in f && x !in g && y in g && y !in f;
      NotBothAbove(power, x, y);
      assert false;
    }
  }

  lemma ActivesDetermined(
    a: set<PublicKey>, s: set<PublicKey>, x: set<PublicKey>, xs: set<PublicKey>, y: set<PublicKey>, ys: set<PublicKey>, power: Power)
    requires a !! s && a <= x && a <= y && |x| == |y| && x !! xs && y !! ys
    requires x + xs == a + s == y + ys && AllAbove(x - a, xs, power) && AllAbove(y - a, ys, power)
    ensures x == y && xs == ys
  {
    var f, g := x - a, y - a;
    assert x == a + f && y == a + g && xs == s - f && ys == s - g;
    assert |x| == |a| + |f| && |y| == |a| + |g|;
    ChoiceDetermined(s, f, g, power);
  }

  lemma StatusDetermined(vs: Validators, ws: Validators, xs: Validators)
    requires OnlyRotated(vs, ws) && OnlyRotated(vs, xs)
    requires WithStatus(ws, Active) == WithStatus(xs, Active) && WithStatus(ws, Standby) == WithStatus(xs, Standby)
    ensures ws == xs
  {
    forall k | k in vs ensures k in ws && k in xs && ws[k] == xs[k] {
      assert k in ws.Keys && k in xs.Keys;
      assert k in WithStatus(ws, Active) <==> k in WithStatus(xs, Active);
      assert k in WithStatus(ws, Standby) <==> k in WithStatus(xs, Standby);
    }
  }

  lemma {:induction false} AfterDisjoint(a0: set<PublicKey>, s0: set<PublicKey>, swaps: seq<(PublicKey, PublicKey)>, power: Power)
    requires a0 !! s0 && RightSwaps(a0, s0, swaps, power)
    ensures ActiveAfter(a0, swaps) !! StandbyAfter(s0, swaps)
    decreases |swaps|
  {
    if swaps != [] {
      AfterDisjoint(a0, s0, swaps[..|swaps| - 1], power);
    }
  }

  /** There is only one right rotation: swaps and statuses follow from the powers, the cap and who was active. */
  lemma RotationDetermined(
    vs: Validators, ws: Validators, xs: Validators, x: seq<(PublicKey, PublicKey)>, y: seq<(PublicKey, PublicKey)>, power: Power, cap: nat)
    requires RightRotation(vs, ws, x, power, cap) && RightRotation(vs, xs, y, power, cap)
    ensures ws == xs && x == y
  {
    var a0, s0 := WithStatus(vs, Active), WithStatus(vs, Standby);
    assert a0 !! s0;
    SwapsDetermined(a0, s0, x, y, power);
    AfterDisjoint(a0, s0, x, power);
    ActivesDetermined(ActiveAfter(a0, x), StandbyAfter(s0, x), WithStatus(ws, Active), WithStatus(ws, Standby),
                      WithStatus(xs, Active), WithStatus(xs, Standby), power);
    StatusDetermined(vs, ws, xs);
  }

  lemma ExchangedCounts(
    a0: set<PublicKey>, s0: set<PublicKey>, a: set<PublicKey>, s: set<PublicKey>,
    up: set<PublicKey>, down: set<PublicKey>, power: Power)
    requires Exchanged(a0, s0, a, s, up, down, power) && a0 !! s0
    ensures |a| == |a0| && |s| == |s0| && |up| <= |s0|
  {
    assert |a0 - down| == |a0| - |down| && |s0 - up| == |s0| - |up|;
  }

  // ---------- optimality ----------

  ghost function PowerSum(keys: set<PublicKey>, power: Power): nat {
    if keys == {} then 0
    else
      var k :| k in keys;
      power(k) + PowerSum(keys - {k}, power)
  }

  lemma {:induction false} PowerSumRemove(keys: set<PublicKey>, power: Power, k: PublicKey)
    requires k in keys
    ensures PowerSum(keys, power) == power(k) + PowerSum(keys - {k}, power)
    decreases |keys|
  {
    var j :| j in keys && PowerSum(keys, power) == power(j) + PowerSum(keys - {j}, power);
    if j != k {
      PowerSumRemove(keys - {j}, power, k);
      PowerSumRemove(keys - {k}, power, j);
      assert keys - {j} - {k} == keys - {k} - {j};
    }
  }

  /** A settled active set has the most voting power any set of its size could have: nothing chosen
      from the non-jailed validators beats it. */
  lemma {:induction false} SettledIsOptimal(a: set<PublicKey>, s: set<PublicKey>, t: set<PublicKey>, power: Power)
    requires Dominates(a, s, power) && a !! s && t <= a + s && |t| == |a|
    ensures PowerSum(t, power) <= PowerSum(a, power)
    decreases |t - a|
  {
    if t - a == {} {
      assert t <= a;
      SameSize(t, a);
    } else {
      var x :| x in t - a;
      assert a - t != {} by {
        UnevenSets(a, t, x);
      }
      var y :| y in a - t;
      var u := t - {x} + {y};
      assert t - a == (u - a) + {x} && x !in u - a;
      SettledIsOptimal(a, s, u, power);
      PowerSumRemove(t, power, x);
      PowerSumRemove(u, power, y);
      assert u - {y} == t - {x};
    }
  }

  lemma UnevenSets(a: set<PublicKey>, t: set<PublicKey>, x: PublicKey)
    requires |a| == |t| && x in t && x !in a
    ensures a - t != {}
  {
    assert a == (a - t) + (a * t) && t == (t - a) + (a * t);
    assert |a| == |a - t| + |a * t| && |t| == |t - a| + |a * t|;
    assert x in t - a;
  }

  lemma SameSize(a: set<PublicKey>, b: set<PublicKey>)
    requires a <= b && |a| == |b|
    ensures a == b
  {
    assert b == a + (b - a) && |b| == |a| + |b - a|;
  }
}

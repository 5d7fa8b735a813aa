/** Stakes, delegations and lock tiers (economics/staking/src/pool.rs, tiers.rs).

    Stake and delegation entries differ only in whose they are, so both are `Entry<O>`: the owner
    is a staker, or a (delegator, validator) pair. */
module Staking {
  import opened Words
  import opened Arith
  import opened MapSums

  type PublicKey = nat

  datatype LockTier = NoLock | ThirtyDay | NinetyDay | OneEightyDay | ThreeSixtyDay | Delegator | Permanent {
    function VoteWeight(): nat {
      match this
      case NoLock => 0
      case ThirtyDay => 100
      case NinetyDay => 200
      case OneEightyDay => 300
      case ThreeSixtyDay => 500
      case Delegator => 1000
      case Permanent => 1500
    }

    function LockDuration(): Option<u64> {
      match this
      case NoLock => Some(0)
      case ThirtyDay => Some(30)
      case NinetyDay => Some(90)
      case OneEightyDay => Some(180)
      case ThreeSixtyDay => Some(360)
      case Delegator => Some(0)
      case Permanent => None
    }
  }

  datatype Entry<O> = Entry(owner: O, amount: u64, tier: LockTier, start: u64, unlock: Option<u64>)

  datatype StakingError =
    | ZeroAmount
    | Overflow
    | NoStakeFound
    | NoDelegationFound
    | InsufficientBalance(have: u64, need: u64)

  type Book<O> = map<O, seq<Entry<O>>>

  predicate IsUnlocked(unlock: Option<u64>, epoch: u64) { unlock.Some? && epoch >= unlock.value }

  function TotalOf<O>(es: seq<Entry<O>>): nat { if es == [] then 0 else es[0].amount + TotalOf(es[1..]) }

  function UnlockedOf<O>(es: seq<Entry<O>>, epoch: u64): nat {
    if es == [] then 0
    else (if IsUnlocked(es[0].unlock, epoch) then es[0].amount else 0) + UnlockedOf(es[1..], epoch)
  }

  /** The entries that are locked (or unlocked) at `epoch`, in order. */
  function Filter<O>(es: seq<Entry<O>>, epoch: u64, unlocked: bool): seq<Entry<O>> {
    if es == [] then []
    else (if IsUnlocked(es[0].unlock, epoch) == unlocked then [es[0]] else []) + Filter(es[1..], epoch, unlocked)
  }

  function PermanentOf<O>(es: seq<Entry<O>>): seq<Entry<O>> {
    if es == [] then [] else (if es[0].unlock.None? then [es[0]] else []) + PermanentOf(es[1..])
  }

  // ---------- taking from unlocked entries, first in first out ----------

  /** What is left of `es` once `amount` has been taken from its unlocked entries in order. */
  function Withdraw<O>(es: seq<Entry<O>>, amount: nat, epoch: u64): seq<Entry<O>>
    decreases |es|
  {
    if amount == 0 || es == [] then es
    else if !IsUnlocked(es[0].unlock, epoch) then [es[0]] + Withdraw(es[1..], amount, epoch)
    else if es[0].amount <= amount then Withdraw(es[1..], amount - es[0].amount, epoch)
    else [es[0].(amount := es[0].amount - amount)] + es[1..]
  }

  lemma {:induction false} ConsFacts<O>(x: Entry<O>, rest: seq<Entry<O>>, epoch: u64)
    ensures TotalOf([x] + rest) == x.amount + TotalOf(rest)
    ensures UnlockedOf([x] + rest, epoch) == (if IsUnlocked(x.unlock, epoch) then x.amount else 0) + UnlockedOf(rest, epoch)
  {
    assert ([x] + rest)[1..] == rest;
  }

  lemma {:induction false} ConsFilter<O>(x: Entry<O>, rest: seq<Entry<O>>, epoch: u64, unlocked: bool)
    ensures IsUnlocked(x.unlock, epoch) == unlocked ==> Filter([x] + rest, epoch, unlocked) == [x] + Filter(rest, epoch, unlocked)
    ensures IsUnlocked(x.unlock, epoch) != unlocked ==> Filter([x] + rest, epoch, unlocked) == Filter(rest, epoch, unlocked)
  {
    assert ([x] + rest)[1..] == rest;
  }

  lemma {:induction false} ConsPermanent<O>(x: Entry<O>, rest: seq<Entry<O>>)
    ensures PermanentOf([x] + rest) == (if x.unlock.None? then [x] else []) + PermanentOf(rest)
  {
    assert ([x] + rest)[1..] == rest;
  }

  /** Exactly the amount goes, all of it from unlocked entries. */
  lemma {:induction false} WithdrawTakes<O>(es: seq<Entry<O>>, amount: nat, epoch: u64)
    requires amount <= UnlockedOf(es, epoch)
    ensures TotalOf(Withdraw(es, amount, epoch)) + amount == TotalOf(es)
    ensures UnlockedOf(Withdraw(es, amount, epoch), epoch) + amount == UnlockedOf(es, epoch)
    decreases |es|
  {
    if amount != 0 && es != [] {
      if !IsUnlocked(es[0].unlock, epoch) {
        WithdrawTakes(es[1..], amount, epoch);
        ConsFacts(es[0], Withdraw(es[1..], amount, epoch), epoch);
      } else if es[0].amount <= amount {
        WithdrawTakes(es[1..], amount - es[0].amount, epoch);
      } else {
        ConsFacts(es[0].(amount := es[0].amount - amount), es[1..], epoch);
      }
    }
  }

  /** Locked entries stay, amount and order included; so do permanent ones at any epoch. */
  lemma {:induction false} WithdrawKeepsLocked<O>(es: seq<Entry<O>>, amount: nat, epoch: u64)
    ensures Filter(Withdraw(es, amount, epoch), epoch, false) == Filter(es, epoch, false)
    ensures PermanentOf(Withdraw(es, amount, epoch)) == PermanentOf(es)
    decreases |es|
  {
    if amount != 0 && es != [] {
      var x, rest := es[0], es[1..];
      assert es == [x] + rest;
      ConsFilter(x, rest, epoch, false);
      ConsPermanent(x, rest);
      if !IsUnlocked(x.unlock, epoch) {
        WithdrawKeepsLocked(rest, amount, epoch);
        ConsFilter(x, Withdraw(rest, amount, epoch), epoch, false);
        ConsPermanent(x, Withdraw(rest, amount, epoch));
      } else if x.amount <= amount {
        WithdrawKeepsLocked(rest, amount - x.amount, epoch);
      } else {
        var y := x.(amount := x.amount - amount);
        ConsFilter(y, rest, epoch, false);
        ConsPermanent(y, rest);
      }
    }
  }

  /** Paying `amount` out of a queue of entries: whole entries from the front, then part of one. */
  function PayFromFront<O>(queue: seq<Entry<O>>, amount: nat): seq<Entry<O>>
    decreases |queue|
  {
    if amount == 0 || queue == [] then queue
    else if queue[0].amount <= amount then PayFromFront(queue[1..], amount - queue[0].amount)
    else [queue[0].(amount := queue[0].amount - amount)] + queue[1..]
  }

  /** First in, first out: the unlocked entries, as a queue, pay from the front, wherever locked
      entries stand between them. */
  lemma {:induction false} WithdrawIsFifo<O>(es: seq<Entry<O>>, amount: nat, epoch: u64)
    ensures Filter(Withdraw(es, amount, epoch), epoch, true) == PayFromFront(Filter(es, epoch, true), amount)
    decreases |es|
  {
    if amount != 0 && es != [] {
      var x, rest := es[0], es[1..];
      assert es == [x] + rest;
      ConsFilter(x, rest, epoch, true);
      if !IsUnlocked(x.unlock, epoch) {
        WithdrawIsFifo(rest, amount, epoch);
        ConsFilter(x, Withdraw(rest, amount, epoch), epoch, true);
      } else if x.amount <= amount {
        WithdrawIsFifo(rest, amount - x.amount, epoch);
        assert Filter(es, epoch, true)[1..] == Filter(rest, epoch, true);
      } else {
        ConsFilter(x.(amount := x.amount - amount), rest, epoch, true);
        assert Filter(es, epoch, true)[1..] == Filter(rest, epoch, true);
      }
    }
  }

  /** Taking `a` and then `b` is taking `a + b`. */
  lemma {:induction false} WithdrawAdds<O>(es: seq<Entry<O>>, a: nat, b: nat, epoch: u64)
    ensures Withdraw(Withdraw(es, a, epoch), b, epoch) == Withdraw(es, a + b, epoch)
    decreases |es|
  {
    if a != 0 && b != 0 && es != [] {
      if !IsUnlocked(es[0].unlock, epoch) {
        WithdrawAdds(es[1..], a, b, epoch);
        var mid := Withdraw(es, a, epoch);
        assert mid[0] == es[0] && mid[1..] == Withdraw(es[1..], a, epoch);
      } else if es[0].amount <= a {
        WithdrawAdds(es[1..], a - es[0].amount, b, epoch);
      } else {
        var mid := Withdraw(es, a, epoch);
        assert mid[0] == es[0].(amount := es[0].amount - a) && mid[1..] == es[1..];
      }
    }
  }

  lemma {:induction false} WithdrawLeavesSome<O>(es: seq<Entry<O>>, amount: nat, epoch: u64)
    requires amount < UnlockedOf(es, epoch)
    ensures Withdraw(es, amount, epoch) != []
  {
    WithdrawTakes(es, amount, epoch);
  }

  /** The loop has `amount` left to take from `left[i..]` and is on course for the answer. */
  ghost predicate OnCourse<O>(es: seq<Entry<O>>, need: nat, epoch: u64, left: seq<Entry<O>>, i: nat, amount: nat) {
    && i <= |left|
    && amount <= UnlockedOf(left[i..], epoch)
    && left[..i] + Withdraw(left[i..], amount, epoch) == Withdraw(es, need, epoch)
  }

  lemma {:induction false} CourseSkip<O>(es: seq<Entry<O>>, need: nat, epoch: u64, left: seq<Entry<O>>, i: nat, amount: nat)
    requires OnCourse(es, need, epoch, left, i, amount) && amount > 0 && i < |left| && !IsUnlocked(left[i].unlock, epoch)
    ensures OnCourse(es, need, epoch, left, i + 1, amount)
  {
    assert left[i..][1..] == left[i + 1..] && left[..i + 1] == left[..i] + [left[i]];
  }

  lemma {:induction false} CourseRemove<O>(es: seq<Entry<O>>, need: nat, epoch: u64, left: seq<Entry<O>>, i: nat, amount: nat)
    requires OnCourse(es, need, epoch, left, i, amount) && amount > 0 && i < |left|
    requires IsUnlocked(left[i].unlock, epoch) && left[i].amount <= amount
    ensures OnCourse(es, need, epoch, left[..i] + left[i + 1..], i, amount - left[i].amount)
  {
    var after := left[..i] + left[i + 1..];
    assert left[i..][1..] == left[i + 1..] == after[i..] && after[..i] == left[..i];
  }

  lemma {:induction false} CourseShrink<O>(es: seq<Entry<O>>, need: nat, epoch: u64, left: seq<Entry<O>>, i: nat, amount: nat)
    requires OnCourse(es, need, epoch, left, i, amount) && amount > 0 && i < |left|
    requires IsUnlocked(left[i].unlock, epoch) && left[i].amount > amount
    ensures OnCourse(es, need, epoch, left[i := left[i].(amount := left[i].amount - amount)], i, 0)
  {
    var smaller := left[i].(amount := left[i].amount - amount);
    var after := left[i := smaller];
    assert left[i..][1..] == left[i + 1..] && after[i..] == [smaller] + left[i + 1..] && after[..i] == left[..i];
  }

  /** The removal loop that `unstake` and `undelegate` share: index `i`, removing in place. */
  method TakeUnlocked<O>(es: seq<Entry<O>>, need: u64, epoch: u64) returns (left: seq<Entry<O>>, removed: u64)
    requires need <= UnlockedOf(es, epoch)
    ensures left == Withdraw(es, need, epoch) && removed == need
  {
    left := es;
    var amount: u64 := need;
    removed := 0;
    var i := 0;
    assert es[0..] == es;
    while amount > 0 && i < |left|
      invariant 0 <= i <= |left| && removed + amount == need
      invariant OnCourse(es, need, epoch, left, i, amount)
      decreases |left| - i, amount
    {
      if IsUnlocked(left[i].unlock, epoch) {
        if left[i].amount <= amount {
          CourseRemove(es, need, epoch, left, i, amount);
          amount := amount - left[i].amount;
          removed := removed + left[i].amount;
          left := left[..i] + left[i + 1..];
        } else {
          CourseShrink(es, need, epoch, left, i, amount);
          left := left[i := left[i].(amount := left[i].amount - amount)];
          removed := removed + amount;
          amount := 0;
        }
      } else {
        CourseSkip(es, need, epoch, left, i, amount);
        i := i + 1;
      }
    }
    assert left[..i] + left[i..] == left;
  }

  method SumUnlocked<O>(es: seq<Entry<O>>, epoch: u64) returns (sum: u64)
    ensures sum == UnlockedOf(es, epoch) % U64_SIZE
  {
    sum := 0;
    var i := |es|;
    while i > 0
      invariant 0 <= i <= |es| && sum == UnlockedOf(es[i..], epoch) % U64_SIZE
    {
      i := i - 1;
      assert es[i..][1..] == es[i + 1..];
      if IsUnlocked(es[i].unlock, epoch) {
        sum := WrapAdd(sum, es[i].amount);
      }
    }
  }

  // ---------- the pool ----------

  datatype Pool = Pool(
    total: u64,
    stakes: Book<PublicKey>,
    delegations: Book<(PublicKey, PublicKey)>,
    epoch: u64)

  datatype Done = Done(pool: Pool, error: Option<StakingError>)

  const EMPTY_POOL := Pool(0, map[], map[], 0)

  function EntriesOf<O>(book: Book<O>, o: O): seq<Entry<O>> { if o in book then book[o] else [] }

  function NewEntry<O>(o: O, amount: u64, tier: LockTier, epoch: u64): Entry<O> {
    Entry(o, amount, tier, epoch,
          match tier.LockDuration() case Some(d) => Some(WrapAdd(epoch, d)) case None => None)
  }

  function Push<O>(book: Book<O>, o: O, e: Entry<O>): Book<O> { book[o := EntriesOf(book, o) + [e]] }

  /** A key with no entries left is dropped. */
  function SetEntries<O>(book: Book<O>, o: O, es: seq<Entry<O>>): Book<O> { if es == [] then book - {o} else book[o := es] }

  /** `stake`: the entry goes in before the total is checked. */
  function Stake(p: Pool, staker: PublicKey, amount: u64, tier: LockTier): Done {
    if amount == 0 then Done(p, Some(ZeroAmount))
    else
      var q := p.(stakes := Push(p.stakes, staker, NewEntry(staker, amount, tier, p.epoch)));
      if p.total + amount > U64_MAX then Done(q, Some(Overflow)) else Done(q.(total := p.total + amount), None)
  }

  function Delegate(p: Pool, delegator: PublicKey, validator: PublicKey, amount: u64, tier: LockTier): Done {
    if amount == 0 then Done(p, Some(ZeroAmount))
    else
      var o := (delegator, validator);
      var q := p.(delegations := Push(p.delegations, o, NewEntry(o, amount, tier, p.epoch)));
      if p.total + amount > U64_MAX then Done(q, Some(Overflow)) else Done(q.(total := p.total + amount), None)
  }

  /** The check both withdrawals make; the 64-bit sum of unlocked amounts wraps. */
  function WithdrawError<O>(book: Book<O>, o: O, amount: u64, epoch: u64, missing: StakingError): Option<StakingError> {
    if amount == 0 then Some(ZeroAmount)
    else if o !in book then Some(missing)
    else
      var have := UnlockedOf(book[o], epoch) % U64_SIZE;
      if have < amount then Some(InsufficientBalance(have, amount)) else None
  }

  function WithdrawFrom<O>(book: Book<O>, o: O, amount: u64, epoch: u64): Book<O> {
    SetEntries(book, o, Withdraw(EntriesOf(book, o), amount, epoch))
  }

  function Unstake(p: Pool, staker: PublicKey, amount: u64): Done {
    var error := WithdrawError(p.stakes, staker, amount, p.epoch, NoStakeFound);
    if error.Some? then Done(p, error)
    else Done(p.(stakes := WithdrawFrom(p.stakes, staker, amount, p.epoch), total := WrapSub(p.total, amount)), None)
  }

  function Undelegate(p: Pool, delegator: PublicKey, validator: PublicKey, amount: u64): Done {
    var o := (delegator, validator);
    var error := WithdrawError(p.delegations, o, amount, p.epoch, NoDelegationFound);
    if error.Some? then Done(p, error)
    else Done(p.(delegations := WithdrawFrom(p.delegations, o, amount, p.epoch), total := WrapSub(p.total, amount)), None)
  }

  // ---------- voting power ----------

  /** One entry's power; the cast back to 64 bits truncates. */
  function EntryPower<O>(e: Entry<O>): u64 { (e.amount * e.tier.VoteWeight() / 1000) % U64_SIZE }

  function PowerOf<O>(es: seq<Entry<O>>): nat { if es == [] then 0 else EntryPower(es[0]) + PowerOf(es[1..]) }

  function DelegatedTo(book: Book<(PublicKey, PublicKey)>, pk: PublicKey): Book<(PublicKey, PublicKey)> {
    map o | o in book && o.1 == pk :: book[o]
  }

  ghost function DelegatedPower(book: Book<(PublicKey, PublicKey)>, pk: PublicKey): nat {
    SumBy(DelegatedTo(book, pk), PowerOf<(PublicKey, PublicKey)>)
  }

  lemma DelegatedPowerRemove(book: Book<(PublicKey, PublicKey)>, pk: PublicKey, o: (PublicKey, PublicKey))
    requires o in book
    ensures DelegatedPower(book, pk) == DelegatedPower(book - {o}, pk) + if o.1 == pk then PowerOf(book[o]) else 0
  {
    if o.1 == pk {
      SumRemove(DelegatedTo(book, pk), PowerOf<(PublicKey, PublicKey)>, o);
      assert DelegatedTo(book, pk) - {o} == DelegatedTo(book - {o}, pk);
    } else {
      assert DelegatedTo(book, pk) == DelegatedTo(book - {o}, pk);
    }
  }

  function Saturate(n: nat): u64 { if n <= U64_MAX then n else U64_MAX }

  /** Own stake plus everything delegated to the key, capped at 64 bits. */
  ghost function VotingPower(p: Pool, pk: PublicKey): u64 {
    Saturate(PowerOf(EntriesOf(p.stakes, pk)) + DelegatedPower(p.delegations, pk))
  }

  lemma SaturateAdds(n: nat, x: u64)
    ensures SaturatingAdd(Saturate(n), x) == Saturate(n + x)
  {
  }

  lemma {:induction false} PowerFrom<O>(es: seq<Entry<O>>, i: nat)
    requires i < |es|
    ensures PowerOf(es[i..]) == EntryPower(es[i]) + PowerOf(es[i + 1..])
  {
    assert es[i..][1..] == es[i + 1..];
  }

  /** Adding an entry list's power with saturation at every step saturates only the sum. */
  method AddPower<O>(power: u64, es: seq<Entry<O>>, ghost exact: nat) returns (r: u64)
    requires power == Saturate(exact)
    ensures r == Saturate(exact + PowerOf(es))
  {
    r := power;
    var i := 0;
    assert es[0..] == es;
    ghost var sum: nat := exact;
    while i < |es|
      invariant 0 <= i <= |es| && r == Saturate(sum) && sum + PowerOf(es[i..]) == exact + PowerOf(es)
    {
      PowerFrom(es, i);
      SaturateAdds(sum, EntryPower(es[i]));
      sum := sum + EntryPower(es[i]);
      r := SaturatingAdd(r, EntryPower(es[i]));
      i := i + 1;
    }
  }

  /** The delegations part of `get_voting_power`. */
  method AddDelegatedPower(power: u64, book: Book<(PublicKey, PublicKey)>, pk: PublicKey, ghost exact: nat) returns (r: u64)
    requires power == Saturate(exact)
    ensures r == Saturate(exact + DelegatedPower(book, pk))
  {
    r := power;
    var todo := book;
    ghost var sofar: nat := exact;
    ghost var goal: nat := exact + DelegatedPower(book, pk);
    while todo != map[]
      invariant r == Saturate(sofar) && sofar + DelegatedPower(todo, pk) == goal
      decreases |todo|
    {
      var o :| o in todo;
      DelegatedPowerRemove(todo, pk, o);
      if o.1 == pk {
        r := AddPower(r, todo[o], sofar);
        sofar := sofar + PowerOf(todo[o]);
      }
      todo := todo - {o};
    }
  }

  class StakingPool {
    var total: u64
    var stakes: Book<PublicKey>
    var delegations: Book<(PublicKey, PublicKey)>
    var epoch: u64

    ghost function Value(): Pool
      reads this
    {
      Pool(total, stakes, delegations, epoch)
    }

    constructor ()
      ensures Value() == EMPTY_POOL
    {
      total, stakes, delegations, epoch := 0, map[], map[], 0;
    }

    method SetEpoch(e: u64)
      modifies this
      ensures Value() == old(Value()).(epoch := e)
    {
      epoch := e;
    }

    method StakeTokens(staker: PublicKey, amount: u64, tier: LockTier) returns (error: Option<StakingError>)
      modifies this
      ensures Done(Value(), error) == Stake(old(Value()), staker, amount, tier)
    {
      if amount == 0 {
        return Some(ZeroAmount);
      }
      stakes := Push(stakes, staker, NewEntry(staker, amount, tier, epoch));
      if total + amount > U64_MAX {
        return Some(Overflow);
      }
      total := total + amount;
      return None;
    }

    method UnstakeTokens(staker: PublicKey, amount: u64) returns (error: Option<StakingError>)
      modifies this
      ensures Done(Value(), error) == Unstake(old(Value()), staker, amount)
    {
      if amount == 0 {
        return Some(ZeroAmount);
      }
      if staker !in stakes {
        return Some(NoStakeFound);
      }
      var unlocked := SumUnlocked(stakes[staker], epoch);
      if unlocked < amount {
        return Some(InsufficientBalance(unlocked, amount));
      }
      var left, removed := TakeUnlocked(stakes[staker], amount, epoch);
      total := WrapSub(total, removed);
      stakes := SetEntries(stakes, staker, left);
      return None;
    }

    method DelegateTokens(delegator: PublicKey, validator: PublicKey, amount: u64, tier: LockTier)
      returns (error: Option<StakingError>)
      modifies this
      ensures Done(Value(), error) == Delegate(old(Value()), delegator, validator, amount, tier)
    {
      if amount == 0 {
        return Some(ZeroAmount);
      }
      var o := (delegator, validator);
      delegations := Push(delegations, o, NewEntry(o, amount, tier, epoch));
      if total + amount > U64_MAX {
        return Some(Overflow);
      }
      total := total + amount;
      return None;
    }

    method UndelegateTokens(delegator: PublicKey, validator: PublicKey, amount: u64) returns (error: Option<StakingError>)
      modifies this
      ensures Done(Value(), error) == Undelegate(old(Value()), delegator, validator, amount)
    {
      if amount == 0 {
        return Some(ZeroAmount);
      }
      var o := (delegator, validator);
      if o !in delegations {
        return Some(NoDelegationFound);
      }
      var unlocked := SumUnlocked(delegations[o], epoch);
      if unlocked < amount {
        return Some(InsufficientBalance(unlocked, amount));
      }
      var left, removed := TakeUnlocked(delegations[o], amount, epoch);
      total := WrapSub(total, removed);
      delegations := SetEntries(delegations, o, left);
      return None;
    }

    /** `get_voting_power`, walking the delegations in any order. */
    method GetVotingPower(pk: PublicKey) returns (power: u64)
      ensures power == VotingPower(Value(), pk)
    {
      power := AddPower(0, EntriesOf(stakes, pk), 0);
      power := AddDelegatedPower(power, delegations, pk, PowerOf(EntriesOf(stakes, pk)));
    }
  }

  // ---------- conservation ----------

  ghost function Staked(p: Pool): nat {
    SumBy(p.stakes, TotalOf<PublicKey>) + SumBy(p.delegations, TotalOf<(PublicKey, PublicKey)>)
  }

  /** The running total is the sum of all entries. */
  ghost predicate Conserves(p: Pool) { p.total == Staked(p) }

  lemma {:induction false} TotalPush<O>(es: seq<Entry<O>>, e: Entry<O>)
    ensures TotalOf(es + [e]) == TotalOf(es) + e.amount
  {
    if es != [] {
      assert (es + [e])[1..] == es[1..] + [e];
      TotalPush(es[1..], e);
    }
  }

  lemma {:induction false} PermanentPush<O>(es: seq<Entry<O>>, e: Entry<O>)
    ensures PermanentOf(es + [e]) == PermanentOf(es) + if e.unlock.None? then [e] else []
  {
    if es != [] {
      assert (es + [e])[1..] == es[1..] + [e];
      PermanentPush(es[1..], e);
    }
  }

  lemma PushAdds<O>(book: Book<O>, o: O, e: Entry<O>)
    ensures SumBy(Push(book, o, e), TotalOf<O>) == SumBy(book, TotalOf<O>) + e.amount
  {
    SumUpdate(book, TotalOf<O>, o, EntriesOf(book, o) + [e]);
    TotalPush(EntriesOf(book, o), e);
  }

  lemma WithdrawSubtracts<O>(book: Book<O>, o: O, amount: u64, epoch: u64)
    requires o in book && amount <= UnlockedOf(book[o], epoch)
    ensures SumBy(WithdrawFrom(book, o, amount, epoch), TotalOf<O>) + amount == SumBy(book, TotalOf<O>)
  {
    var left := Withdraw(book[o], amount, epoch);
    WithdrawTakes(book[o], amount, epoch);
    SumRemove(book, TotalOf<O>, o);
    if left != [] {
      SumUpdate(book, TotalOf<O>, o, left);
    }
  }

  /** A stake keeps the total right exactly when the total still fits 64 bits; otherwise it
      reports Overflow with the entry already in. */
  lemma StakeConservesIff(p: Pool, staker: PublicKey, amount: u64, tier: LockTier)
    requires Conserves(p) && amount > 0
    ensures var r := Stake(p, staker, amount, tier);
            && Staked(r.pool) == Staked(p) + amount
            && (Conserves(r.pool) <==> p.total + amount <= U64_MAX)
            && (r.error == Some(Overflow) <==> p.total + amount > U64_MAX)
  {
    PushAdds(p.stakes, staker, NewEntry(staker, amount, tier, p.epoch));
  }

  lemma DelegateConservesIff(p: Pool, delegator: PublicKey, validator: PublicKey, amount: u64, tier: LockTier)
    requires Conserves(p) && amount > 0
    ensures var r := Delegate(p, delegator, validator, amount, tier);
            && Staked(r.pool) == Staked(p) + amount
            && (Conserves(r.pool) <==> p.total + amount <= U64_MAX)
            && (r.error == Some(Overflow) <==> p.total + amount > U64_MAX)
  {
    var o := (delegator, validator);
    PushAdds(p.delegations, o, NewEntry(o, amount, tier, p.epoch));
  }

  lemma UnstakeConserves(p: Pool, staker: PublicKey, amount: u64)
    requires Conserves(p)
    ensures var r := Unstake(p, staker, amount);
            && Conserves(r.pool)
            && Staked(r.pool) + (if r.error.None? then amount else 0) == Staked(p)
  {
    if Unstake(p, staker, amount).error.None? {
      WithdrawSubtracts(p.stakes, staker, amount, p.epoch);
    }
  }

  lemma UndelegateConserves(p: Pool, delegator: PublicKey, validator: PublicKey, amount: u64)
    requires Conserves(p)
    ensures var r := Undelegate(p, delegator, validator, amount);
            && Conserves(r.pool)
            && Staked(r.pool) + (if r.error.None? then amount else 0) == Staked(p)
  {
    if Undelegate(p, delegator, validator, amount).error.None? {
      WithdrawSubtracts(p.delegations, (delegator, validator), amount, p.epoch);
    }
  }

  // ---------- additivity ----------

  lemma ModSubtract(x: nat, a: nat)
    requires a <= x % U64_SIZE
    ensures a <= x && (x - a) % U64_SIZE == x % U64_SIZE - a
  {
    DivModUnique(x - a, U64_SIZE, x / U64_SIZE, x % U64_SIZE - a);
  }

  lemma WrapSubTwice(x: u64, a: u64, b: u64)
    requires a + b <= U64_MAX
    ensures WrapSub(WrapSub(x, a), b) == WrapSub(x, a + b)
  {
  }

  /** Withdrawing `a` and then `b` from one owner's entries, up to the bookkeeping of the map. */
  lemma WithdrawFromAdds<O>(book: Book<O>, o: O, a: u64, b: u64, epoch: u64, missing: StakingError)
    requires a > 0 && b > 0 && a + b <= U64_MAX
    requires WithdrawError(book, o, a + b, epoch, missing).None?
    ensures WithdrawError(book, o, a, epoch, missing).None?
    ensures WithdrawError(WithdrawFrom(book, o, a, epoch), o, b, epoch, missing).None?
    ensures WithdrawFrom(WithdrawFrom(book, o, a, epoch), o, b, epoch) == WithdrawFrom(book, o, a + b, epoch)
  {
    var es := book[o];
    ModSubtract(UnlockedOf(es, epoch), a);
    ModSubtract(UnlockedOf(es, epoch), a + b);
    WithdrawTakes(es, a, epoch);
    WithdrawLeavesSome(es, a, epoch);
    WithdrawAdds(es, a, b, epoch);
    var left := Withdraw(es, a + b, epoch);
    assert SetEntries(WithdrawFrom(book, o, a, epoch), o, left) == SetEntries(book, o, left);
  }

  /** Unstaking `a` and then `b` leaves exactly the pool that unstaking `a + b` leaves. */
  lemma UnstakeAdds(p: Pool, staker: PublicKey, a: u64, b: u64)
    requires a > 0 && b > 0 && a + b <= U64_MAX
    requires Unstake(p, staker, a + b).error.None?
    ensures var first := Unstake(p, staker, a);
            && first.error.None?
            && Unstake(first.pool, staker, b) == Unstake(p, staker, a + b)
  {
    WithdrawFromAdds(p.stakes, staker, a, b, p.epoch, NoStakeFound);
    WrapSubTwice(p.total, a, b);
  }

  lemma UndelegateAdds(p: Pool, delegator: PublicKey, validator: PublicKey, a: u64, b: u64)
    requires a > 0 && b > 0 && a + b <= U64_MAX
    requires Undelegate(p, delegator, validator, a + b).error.None?
    ensures var first := Undelegate(p, delegator, validator, a);
            && first.error.None?
            && Undelegate(first.pool, delegator, validator, b) == Undelegate(p, delegator, validator, a + b)
  {
    WithdrawFromAdds(p.delegations, (delegator, validator), a, b, p.epoch, NoDelegationFound);
    WrapSubTwice(p.total, a, b);
  }

  // ---------- every run ----------

  datatype Op =
    | OpEpoch(epoch: u64)
    | OpStake(staker: PublicKey, amount: u64, tier: LockTier)
    | OpUnstake(staker: PublicKey, amount: u64)
    | OpDelegate(delegator: PublicKey, validator: PublicKey, amount: u64, tier: LockTier)
    | OpUndelegate(delegator: PublicKey, validator: PublicKey, amount: u64)

  function Perform(p: Pool, op: Op): Done {
    match op
    case OpEpoch(e) => Done(p.(epoch := e), None)
    case OpStake(s, n, t) => Stake(p, s, n, t)
    case OpUnstake(s, n) => Unstake(p, s, n)
    case OpDelegate(d, v, n, t) => Delegate(p, d, v, n, t)
    case OpUndelegate(d, v, n) => Undelegate(p, d, v, n)
  }

  /** The pool after `ops`, and whether any of them reported Overflow. */
  function Run(p: Pool, ops: seq<Op>): (Pool, bool) {
    if ops == [] then (p, false)
    else
      var before := Run(p, ops[..|ops| - 1]);
      var r := Perform(before.0, ops[|ops| - 1]);
      (r.pool, before.1 || r.error == Some(Overflow))
  }

  /** What a successful operation puts in, or takes out. */
  function Amount(op: Op): int {
    match op
    case OpEpoch(_) => 0
    case OpStake(_, n, _) => n
    case OpUnstake(_, n) => 0 - n
    case OpDelegate(_, _, n, _) => n
    case OpUndelegate(_, _, n) => 0 - n
  }

  /** What was put in minus what was taken out, according to the answers given. */
  function Flow(p: Pool, ops: seq<Op>): int {
    if ops == [] then 0
    else
      var op := ops[|ops| - 1];
      Flow(p, ops[..|ops| - 1])
      + if Perform(Run(p, ops[..|ops| - 1]).0, op).error.None? then Amount(op) else 0
  }

  lemma PerformConserves(p: Pool, op: Op)
    requires Conserves(p) && Perform(p, op).error != Some(Overflow)
    ensures var r := Perform(p, op);
            Conserves(r.pool) && r.pool.total == p.total + if r.error.None? then Amount(op) else 0
  {
    match op
    case OpEpoch(e) =>
    case OpStake(s, n, t) => if n > 0 { StakeConservesIff(p, s, n, t); }
    case OpUnstake(s, n) => UnstakeConserves(p, s, n);
    case OpDelegate(d, v, n, t) => if n > 0 { DelegateConservesIff(p, d, v, n, t); }
    case OpUndelegate(d, v, n) => UndelegateConserves(p, d, v, n);
  }

  /** Stake conservation: over every run in which no call reported Overflow, the total is the sum
      of all stake and delegation entries, and has moved by exactly what went in and out. */
  lemma {:induction false} RunConserves(p: Pool, ops: seq<Op>)
    requires Conserves(p) && !Run(p, ops).1
    ensures Conserves(Run(p, ops).0)
    ensures Run(p, ops).0.total == p.total + Flow(p, ops)
    decreases |ops|
  {
    if ops != [] {
      RunConserves(p, ops[..|ops| - 1]);
      PerformConserves(Run(p, ops[..|ops| - 1]).0, ops[|ops| - 1]);
    }
  }

  // ---------- the exact condition over runs ----------

  /** The amount an operation has entered without adding it to the total, having reported Overflow. */
  function LostBy(p: Pool, op: Op): nat {
    match op
    case OpStake(_, n, _) => if Perform(p, op).error == Some(Overflow) then n else 0
    case OpDelegate(_, _, n, _) => if Perform(p, op).error == Some(Overflow) then n else 0
    case _ => 0
  }

  function Lost(p: Pool, ops: seq<Op>): nat {
    if ops == [] then 0 else Lost(p, ops[..|ops| - 1]) + LostBy(Run(p, ops[..|ops| - 1]).0, ops[|ops| - 1])
  }

  /** Entries and total differ by what was lost, up to wrapping. */
  ghost predicate Accounted(p: Pool, lost: nat) { (Staked(p) - p.total - lost) % U64_SIZE == 0 }

  lemma WrapSubKeeps(staked: nat, total: u64, n: u64, lost: nat)
    requires n <= staked
    ensures (staked - total - lost) % U64_SIZE == (staked - n - WrapSub(total, n) - lost) % U64_SIZE
  {
  }

  lemma StakeAccounted(p: Pool, staker: PublicKey, amount: u64, tier: LockTier, lost: nat)
    requires Accounted(p, lost)
    ensures Accounted(Stake(p, staker, amount, tier).pool, lost + LostBy(p, OpStake(staker, amount, tier)))
  {
    if amount > 0 {
      PushAdds(p.stakes, staker, NewEntry(staker, amount, tier, p.epoch));
    }
  }

  lemma DelegateAccounted(p: Pool, delegator: PublicKey, validator: PublicKey, amount: u64, tier: LockTier, lost: nat)
    requires Accounted(p, lost)
    ensures Accounted(Delegate(p, delegator, validator, amount, tier).pool, lost + LostBy(p, OpDelegate(delegator, validator, amount, tier)))
  {
    if amount > 0 {
      PushAdds(p.delegations, (delegator, validator), NewEntry((delegator, validator), amount, tier, p.epoch));
    }
  }

  lemma UnstakeAccounted(p: Pool, staker: PublicKey, amount: u64, lost: nat)
    requires Accounted(p, lost)
    ensures Accounted(Unstake(p, staker, amount).pool, lost)
  {
    if Unstake(p, staker, amount).error.None? {
      ModSubtract(UnlockedOf(p.stakes[staker], p.epoch), amount);
      WithdrawSubtracts(p.stakes, staker, amount, p.epoch);
      WrapSubKeeps(Staked(p), p.total, amount, lost);
    }
  }

  lemma UndelegateAccounted(p: Pool, delegator: PublicKey, validator: PublicKey, amount: u64, lost: nat)
    requires Accounted(p, lost)
    ensures Accounted(Undelegate(p, delegator, validator, amount).pool, lost)
  {
    if Undelegate(p, delegator, validator, amount).error.None? {
      ModSubtract(UnlockedOf(p.delegations[(delegator, validator)], p.epoch), amount);
      WithdrawSubtracts(p.delegations, (delegator, validator), amount, p.epoch);
      WrapSubKeeps(Staked(p), p.total, amount, lost);
    }
  }

  /** From a conserving pool, whatever the calls answered: entries and total differ by exactly what overflowing
      calls entered, up to wrapping. */
  lemma {:induction false} RunAccounted(p: Pool, ops: seq<Op>)
    requires Conserves(p)
    ensures Accounted(Run(p, ops).0, Lost(p, ops))
    decreases |ops|
  {
    if ops != [] {
      var init := ops[..|ops| - 1];
      RunAccounted(p, init);
      var q, lost := Run(p, init).0, Lost(p, init);
      match ops[|ops| - 1]
      case OpEpoch(e) =>
      case OpStake(s, n, t) => StakeAccounted(q, s, n, t, lost);
      case OpUnstake(s, n) => UnstakeAccounted(q, s, n, lost);
      case OpDelegate(d, v, n, t) => DelegateAccounted(q, d, v, n, t, lost);
      case OpUndelegate(d, v, n) => UndelegateAccounted(q, d, v, n, lost);
    }
  }

  lemma SameResidue(staked: nat, total: u64, lost: nat)
    requires (staked - total - lost) % U64_SIZE == 0
    ensures staked == total <==> staked <= U64_MAX && lost % U64_SIZE == 0
  {
  }

  lemma AccountedConservesIff(p: Pool, lost: nat)
    requires Accounted(p, lost)
    ensures Conserves(p) <==> Staked(p) <= U64_MAX && lost % U64_SIZE == 0
  {
    SameResidue(Staked(p), p.total, lost);
  }

  /** Stake conservation, exactly: after any run from a conserving pool the total is the sum of all entries if
      and only if that sum fits 64 bits and what overflowing calls entered is a multiple of 2^64. */
  lemma RunConservesIff(p: Pool, ops: seq<Op>)
    requires Conserves(p)
    ensures Conserves(Run(p, ops).0) <==> Staked(Run(p, ops).0) <= U64_MAX && Lost(p, ops) % U64_SIZE == 0
  {
    RunAccounted(p, ops);
    AccountedConservesIff(Run(p, ops).0, Lost(p, ops));
  }

  /** Everything the operations would put in. */
  function Deposits(ops: seq<Op>): nat {
    if ops == [] then 0
    else
      var n := Amount(ops[|ops| - 1]);
      Deposits(ops[..|ops| - 1]) + if n > 0 then n else 0
  }

  /** What a caller can check first: if all deposits fit on top of the total, nothing overflows. */
  lemma {:induction false} RoomForAll(p: Pool, ops: seq<Op>)
    requires Conserves(p) && p.total + Deposits(ops) <= U64_MAX
    ensures !Run(p, ops).1 && Conserves(Run(p, ops).0) && Run(p, ops).0.total <= p.total + Deposits(ops)
    decreases |ops|
  {
    if ops != [] {
      var q, op := Run(p, ops[..|ops| - 1]).0, ops[|ops| - 1];
      RoomForAll(p, ops[..|ops| - 1]);
      assert Perform(q, op).error != Some(Overflow);
      PerformConserves(q, op);
    }
  }

  /** One more unit than the total has room for, in one deposit or, from nothing, in two. */
  function OneTooMany(p: Pool): seq<Op> {
    if p.total > 0 then [OpStake(0, U64_MAX - p.total + 1, NoLock)] else [OpStake(0, U64_MAX, NoLock), OpStake(0, 1, NoLock)]
  }

  lemma RunOne(p: Pool, op: Op)
    ensures Run(p, [op]).0 == Perform(p, op).pool
  {
    assert [op][..0] == [];
  }

  lemma RunTwo(p: Pool, a: Op, b: Op)
    ensures Run(p, [a, b]).0 == Perform(Perform(p, a).pool, b).pool
  {
    RunOne(p, a);
    assert [a, b][..1] == [a];
  }

  lemma OneTooManyCosts(p: Pool)
    ensures Deposits(OneTooMany(p)) == U64_MAX - p.total + 1
  {
    var ops := OneTooMany(p);
    if p.total > 0 {
      assert ops[..0] == [];
    } else {
      assert ops[..1] == [ops[0]] && ops[..1][..0] == [];
      assert Deposits(ops[..1]) == U64_MAX;
    }
  }

  lemma OneTooManyUnbalances(p: Pool)
    requires Conserves(p)
    ensures !Conserves(Run(p, OneTooMany(p)).0)
  {
    if p.total > 0 {
      var n := U64_MAX - p.total + 1;
      StakeConservesIff(p, 0, n, NoLock);
      RunOne(p, OpStake(0, n, NoLock));
    } else {
      StakeConservesIff(p, 0, U64_MAX, NoLock);
      var q := Stake(p, 0, U64_MAX, NoLock).pool;
      StakeConservesIff(q, 0, 1, NoLock);
      RunTwo(p, OpStake(0, U64_MAX, NoLock), OpStake(0, 1, NoLock));
    }
  }

  /** Every run whose deposits come to at most `d` keeps the total right. */
  ghost predicate ConservesUpTo(p: Pool, d: nat) {
    forall ops :: Deposits(ops) <= d ==> Conserves(Run(p, ops).0)
  }

  /** It does, if and only if there is room for `d` on top of the opening total. */
  lemma ConservesUpToIff(p: Pool, d: nat)
    requires Conserves(p)
    ensures ConservesUpTo(p, d) <==> p.total + d <= U64_MAX
  {
    if p.total + d <= U64_MAX {
      forall ops | Deposits(ops) <= d ensures Conserves(Run(p, ops).0) {
        RoomForAll(p, ops);
      }
    } else {
      OneTooManyCosts(p);
      OneTooManyUnbalances(p);
    }
  }

  /** After an Overflow the books no longer balance: here a total of 2^64 - 1 meets one more unit. */
  lemma OverflowUnbalances(staker: PublicKey)
    ensures var p := Stake(EMPTY_POOL, staker, U64_MAX, NoLock).pool;
            var q := Stake(p, staker, 1, NoLock);
            Conserves(p) && q.error == Some(Overflow) && Staked(q.pool) == q.pool.total + 1
  {
    assert Conserves(EMPTY_POOL);
    StakeConservesIff(EMPTY_POOL, staker, U64_MAX, NoLock);
    StakeConservesIff(Stake(EMPTY_POOL, staker, U64_MAX, NoLock).pool, staker, 1, NoLock);
  }

  lemma PushKeepsPermanent<O>(book: Book<O>, o: O, e: Entry<O>, k: O)
    ensures PermanentOf(EntriesOf(book, k)) <= PermanentOf(EntriesOf(Push(book, o, e), k))
  {
    PermanentPush(EntriesOf(book, o), e);
  }

  lemma WithdrawFromKeepsPermanent<O>(book: Book<O>, o: O, amount: u64, epoch: u64, k: O)
    ensures PermanentOf(EntriesOf(book, k)) == PermanentOf(EntriesOf(WithdrawFrom(book, o, amount, epoch), k))
  {
    WithdrawKeepsLocked(EntriesOf(book, o), amount, epoch);
  }

  lemma {:induction false} PerformKeepsStakes(p: Pool, op: Op, s: PublicKey)
    ensures PermanentOf(EntriesOf(p.stakes, s)) <= PermanentOf(EntriesOf(Perform(p, op).pool.stakes, s))
  {
    match op
    case OpStake(k, n, t) => PushKeepsPermanent(p.stakes, k, NewEntry(k, n, t, p.epoch), s);
    case OpUnstake(k, n) => WithdrawFromKeepsPermanent(p.stakes, k, n, p.epoch, s);
    case _ => assert Perform(p, op).pool.stakes == p.stakes;
  }

  lemma {:induction false} PerformKeepsDelegations(p: Pool, op: Op, o: (PublicKey, PublicKey))
    ensures PermanentOf(EntriesOf(p.delegations, o)) <= PermanentOf(EntriesOf(Perform(p, op).pool.delegations, o))
  {
    match op
    case OpDelegate(d, v, n, t) => PushKeepsPermanent(p.delegations, (d, v), NewEntry((d, v), n, t, p.epoch), o);
    case OpUndelegate(d, v, n) => WithdrawFromKeepsPermanent(p.delegations, (d, v), n, p.epoch, o);
    case _ => assert Perform(p, op).pool.delegations == p.delegations;
  }

  /** Permanent entries are for ever: over every run each owner's permanent entries stay, amount
      and order included, and only new ones join behind them. */
  lemma {:induction false} PermanentForever(p: Pool, ops: seq<Op>, s: PublicKey, o: (PublicKey, PublicKey))
    ensures PermanentOf(EntriesOf(p.stakes, s)) <= PermanentOf(EntriesOf(Run(p, ops).0.stakes, s))
    ensures PermanentOf(EntriesOf(p.delegations, o)) <= PermanentOf(EntriesOf(Run(p, ops).0.delegations, o))
    decreases |ops|
  {
    if ops != [] {
      PermanentForever(p, ops[..|ops| - 1], s, o);
      PerformKeepsStakes(Run(p, ops[..|ops| - 1]).0, ops[|ops| - 1], s);
      PerformKeepsDelegations(Run(p, ops[..|ops| - 1]).0, ops[|ops| - 1], o);
    }
  }

  // ---------- what the tiers promise ----------

  /** Days (epochs) until a tier unlocks; `Permanent` never does. */
  function DaysLocked(tier: LockTier): nat {
    match tier
    case NoLock => 0
    case ThirtyDay => 30
    case NinetyDay => 90
    case OneEightyDay => 180
    case ThreeSixtyDay => 360
    case Delegator => 0
    case Permanent => 0
  }

  /** An amount put in under `tier` at `epoch` can be taken out at `later`. */
  predicate Released(tier: LockTier, epoch: nat, later: nat) {
    tier != Permanent && later >= epoch + DaysLocked(tier)
  }

  lemma {:induction false} UnlockedPush<O>(es: seq<Entry<O>>, e: Entry<O>, epoch: u64)
    ensures UnlockedOf(es + [e], epoch) == UnlockedOf(es, epoch) + if IsUnlocked(e.unlock, epoch) then e.amount else 0
  {
    if es != [] {
      assert (es + [e])[1..] == es[1..] + [e];
      UnlockedPush(es[1..], e, epoch);
    }
  }

  /** A stake can be taken out from the day its tier promises, and not before. */
  lemma StakeUnlocks(p: Pool, staker: PublicKey, amount: u64, tier: LockTier, later: u64)
    requires amount > 0 && p.epoch + DaysLocked(tier) <= U64_MAX
    ensures var q := Stake(p, staker, amount, tier).pool;
            && UnlockedOf(EntriesOf(q.stakes, staker), later)
               == UnlockedOf(EntriesOf(p.stakes, staker), later) + (if Released(tier, p.epoch, later) then amount else 0)
            && (forall s :: s != staker ==> EntriesOf(q.stakes, s) == EntriesOf(p.stakes, s))
            && q.delegations == p.delegations
  {
    UnlockedPush(EntriesOf(p.stakes, staker), NewEntry(staker, amount, tier, p.epoch), later);
  }

  lemma DelegateUnlocks(p: Pool, delegator: PublicKey, validator: PublicKey, amount: u64, tier: LockTier, later: u64)
    requires amount > 0 && p.epoch + DaysLocked(tier) <= U64_MAX
    ensures var q, o := Delegate(p, delegator, validator, amount, tier).pool, (delegator, validator);
            && UnlockedOf(EntriesOf(q.delegations, o), later)
               == UnlockedOf(EntriesOf(p.delegations, o), later) + (if Released(tier, p.epoch, later) then amount else 0)
            && (forall x :: x != o ==> EntriesOf(q.delegations, x) == EntriesOf(p.delegations, x))
            && q.stakes == p.stakes
  {
    var o := (delegator, validator);
    UnlockedPush(EntriesOf(p.delegations, o), NewEntry(o, amount, tier, p.epoch), later);
  }

  /** Past that, the 64-bit sum of epoch and duration wraps, and the stake is unlocked at once. */
  lemma WrappedLockOpens(p: Pool, staker: PublicKey, amount: u64, tier: LockTier)
    requires amount > 0 && tier != Permanent && p.epoch + DaysLocked(tier) > U64_MAX
    ensures UnlockedOf(EntriesOf(Stake(p, staker, amount, tier).pool.stakes, staker), p.epoch)
            == UnlockedOf(EntriesOf(p.stakes, staker), p.epoch) + amount
  {
    UnlockedPush(EntriesOf(p.stakes, staker), NewEntry(staker, amount, tier, p.epoch), p.epoch);
  }

  /** The entries that no epoch before `until` unlocks; permanent ones for `until` past all epochs. */
  function Held<O>(es: seq<Entry<O>>, until: nat): seq<Entry<O>> {
    if es == [] then []
    else (if es[0].unlock.None? || es[0].unlock.value >= until then [es[0]] else []) + Held(es[1..], until)
  }

  lemma {:induction false} HeldCons<O>(x: Entry<O>, rest: seq<Entry<O>>, until: nat)
    ensures Held([x] + rest, until) == (if x.unlock.None? || x.unlock.value >= until then [x] else []) + Held(rest, until)
  {
    assert ([x] + rest)[1..] == rest;
  }

  lemma {:induction false} HeldPush<O>(es: seq<Entry<O>>, e: Entry<O>, until: nat)
    ensures Held(es + [e], until) == Held(es, until) + if e.unlock.None? || e.unlock.value >= until then [e] else []
  {
    if es != [] {
      assert (es + [e])[1..] == es[1..] + [e];
      HeldPush(es[1..], e, until);
    }
  }

  lemma {:induction false} WithdrawKeepsHeld<O>(es: seq<Entry<O>>, amount: nat, epoch: u64, until: nat)
    requires epoch < until
    ensures Held(Withdraw(es, amount, epoch), until) == Held(es, until)
    decreases |es|
  {
    if amount > 0 && es != [] {
      var x, rest := es[0], es[1..];
      assert es == [x] + rest;
      HeldCons(x, rest, until);
      if !IsUnlocked(x.unlock, epoch) {
        WithdrawKeepsHeld(rest, amount, epoch, until);
        HeldCons(x, Withdraw(rest, amount, epoch), until);
      } else if x.amount <= amount {
        WithdrawKeepsHeld(rest, amount - x.amount, epoch, until);
      } else {
        HeldCons(x.(amount := x.amount - amount), rest, until);
      }
    }
  }

  lemma PushKeepsHeld<O>(book: Book<O>, o: O, e: Entry<O>, k: O, until: nat)
    ensures Held(EntriesOf(book, k), until) <= Held(EntriesOf(Push(book, o, e), k), until)
  {
    HeldPush(EntriesOf(book, o), e, until);
  }

  lemma WithdrawFromKeepsHeld<O>(book: Book<O>, o: O, amount: u64, epoch: u64, k: O, until: nat)
    requires epoch < until
    ensures Held(EntriesOf(WithdrawFrom(book, o, amount, epoch), k), until) == Held(EntriesOf(book, k), until)
  {
    WithdrawKeepsHeld(EntriesOf(book, o), amount, epoch, until);
  }

  /** The run's epochs all come before `until`. */
  ghost predicate Before(p: Pool, ops: seq<Op>, until: nat) {
    p.epoch < until && forall i :: 0 <= i < |ops| && ops[i].OpEpoch? ==> ops[i].epoch < until
  }

  lemma {:induction false} PerformHoldsStakes(p: Pool, op: Op, s: PublicKey, until: nat)
    requires p.epoch < until
    ensures Held(EntriesOf(p.stakes, s), until) <= Held(EntriesOf(Perform(p, op).pool.stakes, s), until)
  {
    match op
    case OpStake(k, n, t) => PushKeepsHeld(p.stakes, k, NewEntry(k, n, t, p.epoch), s, until);
    case OpUnstake(k, n) => WithdrawFromKeepsHeld(p.stakes, k, n, p.epoch, s, until);
    case _ => assert Perform(p, op).pool.stakes == p.stakes;
  }

  lemma {:induction false} PerformHoldsDelegations(p: Pool, op: Op, o: (PublicKey, PublicKey), until: nat)
    requires p.epoch < until
    ensures Held(EntriesOf(p.delegations, o), until) <= Held(EntriesOf(Perform(p, op).pool.delegations, o), until)
  {
    match op
    case OpDelegate(d, v, n, t) => PushKeepsHeld(p.delegations, (d, v), NewEntry((d, v), n, t, p.epoch), o, until);
    case OpUndelegate(d, v, n) => WithdrawFromKeepsHeld(p.delegations, (d, v), n, p.epoch, o, until);
    case _ => assert Perform(p, op).pool.delegations == p.delegations;
  }

  /** Locks hold: no run whose epochs come before `until` touches an entry locked until then. */
  lemma {:induction false} LocksHold(p: Pool, ops: seq<Op>, s: PublicKey, o: (PublicKey, PublicKey), until: nat)
    requires Before(p, ops, until)
    ensures Run(p, ops).0.epoch < until
    ensures Held(EntriesOf(p.stakes, s), until) <= Held(EntriesOf(Run(p, ops).0.stakes, s), until)
    ensures Held(EntriesOf(p.delegations, o), until) <= Held(EntriesOf(Run(p, ops).0.delegations, o), until)
    decreases |ops|
  {
    if ops != [] {
      var init, op := ops[..|ops| - 1], ops[|ops| - 1];
      LocksHold(p, init, s, o, until);
      var q := Run(p, init).0;
      PerformHoldsStakes(q, op, s, until);
      PerformHoldsDelegations(q, op, o, until);
      PerformEpoch(q, op);
    }
  }

  lemma PerformEpoch(p: Pool, op: Op)
    ensures Perform(p, op).pool.epoch == if op.OpEpoch? then op.epoch else p.epoch
  {
  }

  /** When `tier`, entered at `epoch`, unlocks; past all epochs for a permanent one. */
  function Until(tier: LockTier, epoch: nat): nat {
    if tier == Permanent then U64_SIZE else epoch + DaysLocked(tier)
  }

  /** The entry a deposit makes. */
  function Deposit<O>(o: O, amount: u64, tier: LockTier, epoch: nat): Entry<O>
    requires epoch + DaysLocked(tier) <= U64_MAX
  {
    Entry(o, amount, tier, epoch, if tier == Permanent then None else Some(epoch + DaysLocked(tier)))
  }

  lemma NewEntryIsDeposit<O>(o: O, amount: u64, tier: LockTier, epoch: u64)
    requires epoch + DaysLocked(tier) <= U64_MAX
    ensures NewEntry(o, amount, tier, epoch) == Deposit(o, amount, tier, epoch)
  {
  }

  lemma StakeEnters(p: Pool, staker: PublicKey, amount: u64, tier: LockTier)
    requires amount > 0 && p.epoch + DaysLocked(tier) <= U64_MAX
    ensures EntriesOf(Stake(p, staker, amount, tier).pool.stakes, staker)
            == EntriesOf(p.stakes, staker) + [Deposit(staker, amount, tier, p.epoch)]
  {
    NewEntryIsDeposit(staker, amount, tier, p.epoch);
  }

  lemma DelegationEnters(p: Pool, delegator: PublicKey, validator: PublicKey, amount: u64, tier: LockTier)
    requires amount > 0 && p.epoch + DaysLocked(tier) <= U64_MAX
    ensures var o := (delegator, validator);
            EntriesOf(Delegate(p, delegator, validator, amount, tier).pool.delegations, o)
            == EntriesOf(p.delegations, o) + [Deposit(o, amount, tier, p.epoch)]
  {
    NewEntryIsDeposit((delegator, validator), amount, tier, p.epoch);
  }

  lemma DepositHeld<O>(es: seq<Entry<O>>, o: O, amount: u64, tier: LockTier, epoch: nat)
    requires epoch + DaysLocked(tier) <= U64_MAX
    ensures Held(es + [Deposit(o, amount, tier, epoch)], Until(tier, epoch))
            == Held(es, Until(tier, epoch)) + [Deposit(o, amount, tier, epoch)]
  {
    HeldPush(es, Deposit(o, amount, tier, epoch), Until(tier, epoch));
  }

  /** What is staked under a tier stays, whole, through every run that does not reach its day; for a permanent
      stake, through every run. */
  lemma StakeIsHeld(p: Pool, staker: PublicKey, amount: u64, tier: LockTier, ops: seq<Op>)
    requires amount > 0 && p.epoch + DaysLocked(tier) <= U64_MAX
    requires Before(Stake(p, staker, amount, tier).pool, ops, Until(tier, p.epoch))
    ensures var r := Run(Stake(p, staker, amount, tier).pool, ops).0;
            Held(EntriesOf(p.stakes, staker), Until(tier, p.epoch)) + [Deposit(staker, amount, tier, p.epoch)]
            <= Held(EntriesOf(r.stakes, staker), Until(tier, p.epoch))
  {
    StakeEnters(p, staker, amount, tier);
    DepositHeld(EntriesOf(p.stakes, staker), staker, amount, tier, p.epoch);
    LocksHold(Stake(p, staker, amount, tier).pool, ops, staker, (0, 0), Until(tier, p.epoch));
  }

  lemma DelegationIsHeld(p: Pool, delegator: PublicKey, validator: PublicKey, amount: u64, tier: LockTier, ops: seq<Op>)
    requires amount > 0 && p.epoch + DaysLocked(tier) <= U64_MAX
    requires Before(Delegate(p, delegator, validator, amount, tier).pool, ops, Until(tier, p.epoch))
    ensures var r, o := Run(Delegate(p, delegator, validator, amount, tier).pool, ops).0, (delegator, validator);
            Held(EntriesOf(p.delegations, o), Until(tier, p.epoch)) + [Deposit(o, amount, tier, p.epoch)]
            <= Held(EntriesOf(r.delegations, o), Until(tier, p.epoch))
  {
    var o := (delegator, validator);
    DelegationEnters(p, delegator, validator, amount, tier);
    DepositHeld(EntriesOf(p.delegations, o), o, amount, tier, p.epoch);
    LocksHold(Delegate(p, delegator, validator, amount, tier).pool, ops, 0, o, Until(tier, p.epoch));
  }

  /** Which withdrawals succeed, and why the others do not. */
  lemma UnstakeOutcome(p: Pool, staker: PublicKey, amount: u64)
    ensures var e, have := Unstake(p, staker, amount).error, UnlockedOf(EntriesOf(p.stakes, staker), p.epoch) % U64_SIZE;
            && (e.None? <==> amount > 0 && staker in p.stakes && amount <= have)
            && (e == Some(ZeroAmount) <==> amount == 0)
            && (e == Some(NoStakeFound) <==> amount > 0 && staker !in p.stakes)
            && (amount > 0 && staker in p.stakes && have < amount ==> e == Some(InsufficientBalance(have, amount)))
  {
  }

  lemma UndelegateOutcome(p: Pool, delegator: PublicKey, validator: PublicKey, amount: u64)
    ensures var o := (delegator, validator);
            var e, have := Undelegate(p, delegator, validator, amount).error, UnlockedOf(EntriesOf(p.delegations, o), p.epoch) % U64_SIZE;
            && (e.None? <==> amount > 0 && o in p.delegations && amount <= have)
            && (e == Some(ZeroAmount) <==> amount == 0)
            && (e == Some(NoDelegationFound) <==> amount > 0 && o !in p.delegations)
            && (amount > 0 && o in p.delegations && have < amount ==> e == Some(InsufficientBalance(have, amount)))
  {
  }

  /** Thousandths of a vote per unit. */
  function Weight(tier: LockTier): nat {
    match tier
    case NoLock => 0
    case ThirtyDay => 100
    case NinetyDay => 200
    case OneEightyDay => 300
    case ThreeSixtyDay => 500
    case Delegator => 1000
    case Permanent => 1500
  }

  lemma {:induction false} PowerPush<O>(es: seq<Entry<O>>, e: Entry<O>)
    ensures PowerOf(es + [e]) == PowerOf(es) + EntryPower(e)
  {
    if es != [] {
      assert (es + [e])[1..] == es[1..] + [e];
      PowerPush(es[1..], e);
    }
  }

  /** What a stake, or a delegation, adds to the power behind a key: its tier's weight, rounded down, cast to 64 bits. */
  lemma StakePower(p: Pool, staker: PublicKey, amount: u64, tier: LockTier)
    requires amount > 0
    ensures PowerOf(EntriesOf(Stake(p, staker, amount, tier).pool.stakes, staker))
            == PowerOf(EntriesOf(p.stakes, staker)) + amount * Weight(tier) / 1000 % U64_SIZE
  {
    PowerPush(EntriesOf(p.stakes, staker), NewEntry(staker, amount, tier, p.epoch));
  }

  lemma DelegatedPowerSet(book: Book<(PublicKey, PublicKey)>, o: (PublicKey, PublicKey), es: seq<Entry<(PublicKey, PublicKey)>>, pk: PublicKey)
    ensures DelegatedPower(book[o := es], pk) + (if o.1 == pk then PowerOf(EntriesOf(book, o)) else 0)
            == DelegatedPower(book, pk) + if o.1 == pk then PowerOf(es) else 0
  {
    DelegatedPowerRemove(book[o := es], pk, o);
    assert book[o := es] - {o} == book - {o};
    if o in book {
      DelegatedPowerRemove(book, pk, o);
    } else {
      assert book - {o} == book;
    }
  }

  lemma DelegationPower(p: Pool, delegator: PublicKey, validator: PublicKey, amount: u64, tier: LockTier, pk: PublicKey)
    requires amount > 0
    ensures DelegatedPower(Delegate(p, delegator, validator, amount, tier).pool.delegations, pk)
            == DelegatedPower(p.delegations, pk) + if pk == validator then amount * Weight(tier) / 1000 % U64_SIZE else 0
  {
    var o := (delegator, validator);
    var e := NewEntry(o, amount, tier, p.epoch);
    PowerPush(EntriesOf(p.delegations, o), e);
    DelegatedPowerSet(p.delegations, o, EntriesOf(p.delegations, o) + [e], pk);
  }
}

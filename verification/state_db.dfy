/** Account balances and nonces (runtime/state/src/accounts.rs, state_db.rs). */
module StateDb {
  import opened Words
  import opened MapSums

  type Address = Bytes32

  datatype Account = Account(balance: u64, nonce: u64)

  datatype StateError =
    | AccountNotFound
    | InvalidNonce(expected: u64, got: u64)
    | InsufficientBalance(needed: u64, available: u64)
    | Overflow

  datatype Transaction = Transaction(from: Address, to: Address, amount: u64, nonce: u64, signature: seq<byte>, data: seq<byte>)

  datatype Receipt = Receipt(txHash: Bytes32, success: bool, feePaid: u64, error: Option<StateError>)

  type Accounts = map<Address, Account>

  const EMPTY_ACCOUNT := Account(0, 0)

  function Lookup(m: Accounts, a: Address): Account { if a in m then m[a] else EMPTY_ACCOUNT }

  /** `increment_nonce`; the 64-bit counter wraps. */
  function IncrementNonce(a: Account): Account { a.(nonce := WrapAdd(a.nonce, 1)) }

  function Balance(a: Account): nat { a.balance }

  ghost function Supply(m: Accounts): nat { SumBy(m, Balance) }

  datatype Transferred = Transferred(accounts: Accounts, error: Option<StateError>)

  /** Why a transfer is turned down before anything is written. */
  function Refusal(m: Accounts, from: Address, amount: u64, nonce: u64): Option<StateError> {
    if from !in m then Some(AccountNotFound)
    else if m[from].nonce != nonce then Some(InvalidNonce(m[from].nonce, nonce))
    else if m[from].balance < amount then Some(InsufficientBalance(amount, m[from].balance))
    else None
  }

  /** The receiver's balance would not fit 64 bits. */
  predicate CreditOverflows(m: Accounts, from: Address, to: Address, amount: u64) {
    from != to && Lookup(m, to).balance + amount > U64_MAX
  }

  function Debited(m: Accounts, from: Address, amount: u64): Accounts
    requires from in m && m[from].balance >= amount
  {
    m[from := IncrementNonce(m[from].(balance := m[from].balance - amount))]
  }

  /** What `apply_transfer` leaves behind; a failed credit comes after the debit. */
  function Transfer(m: Accounts, from: Address, to: Address, amount: u64, nonce: u64): Transferred {
    if Refusal(m, from, amount, nonce).Some? then Transferred(m, Refusal(m, from, amount, nonce))
    else if from == to then Transferred(m[from := IncrementNonce(m[from])], None)
    else
      var m1 := Debited(m, from, amount);
      var receiver := Lookup(m1, to);
      if receiver.balance + amount > U64_MAX then Transferred(m1[to := receiver], Some(Overflow))
      else Transferred(m1[to := receiver.(balance := receiver.balance + amount)], None)
  }

  class StateDB {
    var accounts: Accounts

    constructor ()
      ensures accounts == map[]
    {
      accounts := map[];
    }

    method ApplyTransfer(from: Address, to: Address, amount: u64, expectedNonce: u64) returns (error: Option<StateError>)
      modifies this
      ensures Transferred(accounts, error) == Transfer(old(accounts), from, to, amount, expectedNonce)
    {
      if from !in accounts {
        return Some(AccountNotFound);
      }
      var sender := accounts[from];
      if sender.nonce != expectedNonce {
        return Some(InvalidNonce(sender.nonce, expectedNonce));
      }
      if sender.balance < amount {
        return Some(InsufficientBalance(amount, sender.balance));
      }
      if from == to {
        accounts := accounts[from := IncrementNonce(sender)];
        return None;
      }
      accounts := accounts[from := sender.(balance := sender.balance - amount)];
      accounts := accounts[from := IncrementNonce(accounts[from])];
      if to !in accounts {
        accounts := accounts[to := EMPTY_ACCOUNT];
      }
      if accounts[to].balance + amount > U64_MAX {
        return Some(Overflow);
      }
      accounts := accounts[to := accounts[to].(balance := accounts[to].balance + amount)];
      return None;
    }

    /** `apply_block`: every transaction gets a receipt, and a failed one stops nothing. */
    method ApplyBlock(txs: seq<Transaction>, hashOf: Transaction -> Bytes32) returns (receipts: seq<Receipt>)
      modifies this
      ensures Executed(accounts, receipts) == Execute(old(accounts), txs, hashOf)
    {
      receipts := [];
      ghost var start := accounts;
      for i := 0 to |txs|
        invariant Executed(accounts, receipts) == Execute(start, txs[..i], hashOf)
      {
        assert txs[..i + 1][..i] == txs[..i];
        var tx := txs[i];
        var error := ApplyTransfer(tx.from, tx.to, tx.amount, tx.nonce);
        receipts := receipts + [Receipt(hashOf(tx), error.None?, 0, error)];
      }
      assert txs[..|txs|] == txs;
    }

    /** `total_supply`: the 64-bit sum, in whatever order the map is walked. */
    method TotalSupply() returns (total: u64)
      ensures total == Supply(accounts) % U64_SIZE
      ensures Supply(accounts) <= U64_MAX ==> total == Supply(accounts)
    {
      total := 0;
      var todo := accounts;
      while todo != map[]
        invariant todo.Keys <= accounts.Keys
        invariant total == (Supply(accounts) - Supply(todo)) % U64_SIZE
        decreases |todo|
      {
        var k :| k in todo;
        SumRemove(todo, Balance, k);
        ModAdd(Supply(accounts) - Supply(todo), todo[k].balance);
        total := WrapAdd(total, todo[k].balance);
        todo := todo - {k};
      }
    }
  }

  lemma ModAdd(x: int, y: nat)
    ensures (x % U64_SIZE + y) % U64_SIZE == (x + y) % U64_SIZE
  {
  }

  datatype Executed = Executed(accounts: Accounts, receipts: seq<Receipt>)

  function Execute(m: Accounts, txs: seq<Transaction>, hashOf: Transaction -> Bytes32): (r: Executed)
    ensures |r.receipts| == |txs|
  {
    if txs == [] then Executed(m, [])
    else
      var before := Execute(m, txs[..|txs| - 1], hashOf);
      var tx := txs[|txs| - 1];
      var t := Transfer(before.accounts, tx.from, tx.to, tx.amount, tx.nonce);
      Executed(t.accounts, before.receipts + [Receipt(hashOf(tx), t.error.None?, 0, t.error)])
  }

  // ---------- one transfer ----------

  /** Money moves but is not made: the supply is kept exactly when the credit does not overflow,
      and an overflowing one destroys the amount. */
  lemma TransferSupply(m: Accounts, from: Address, to: Address, amount: u64, nonce: u64)
    ensures var r := Transfer(m, from, to, amount, nonce);
            && (r.error == Some(Overflow) <==>
                  Refusal(m, from, amount, nonce).None? && CreditOverflows(m, from, to, amount))
            && (r.error != Some(Overflow) ==> Supply(r.accounts) == Supply(m))
            && (r.error == Some(Overflow) ==> Supply(r.accounts) + amount == Supply(m))
  {
    if Refusal(m, from, amount, nonce).None? {
      if from == to {
        SumUpdate(m, Balance, from, IncrementNonce(m[from]));
      } else {
        var m1 := Debited(m, from, amount);
        SumUpdate(m, Balance, from, IncrementNonce(m[from].(balance := m[from].balance - amount)));
        assert Supply(m1) + amount == Supply(m);
        var receiver := Lookup(m1, to);
        if receiver.balance + amount > U64_MAX {
          SumUpdate(m1, Balance, to, receiver);
        } else {
          SumUpdate(m1, Balance, to, receiver.(balance := receiver.balance + amount));
        }
      }
    }
  }

  /** Failure is atomic exactly when it is not the late overflow. */
  lemma FailureAtomicIff(m: Accounts, from: Address, to: Address, amount: u64, nonce: u64)
    requires Transfer(m, from, to, amount, nonce).error.Some?
    ensures Transfer(m, from, to, amount, nonce).accounts == m
            <==> !(Refusal(m, from, amount, nonce).None? && CreditOverflows(m, from, to, amount))
  {
    var r := Transfer(m, from, to, amount, nonce);
    if Refusal(m, from, amount, nonce).None? && CreditOverflows(m, from, to, amount) {
      assert r.accounts[from].nonce != m[from].nonce;
    }
  }

  /** While the whole supply fits 64 bits no single credit can overflow. */
  lemma NoOverflowWithinSupply(m: Accounts, from: Address, to: Address, amount: u64, nonce: u64)
    requires Supply(m) <= U64_MAX
    ensures Transfer(m, from, to, amount, nonce).error != Some(Overflow)
  {
    if Refusal(m, from, amount, nonce).None? && from != to {
      SumAtLeast(m, Balance, from);
      if to in m {
        SumAtLeastTwo(m, Balance, from, to);
      }
    }
  }

  /** What a payment takes: a known sender, the sender's own nonce, enough money, and room at the receiver, who
      need not exist yet. */
  predicate CanPay(m: Accounts, from: Address, to: Address, amount: u64, nonce: u64) {
    && from in m && m[from].nonce == nonce && m[from].balance >= amount
    && (from == to || to !in m || m[to].balance + amount <= U64_MAX)
  }

  /** Which transfers succeed, and why the others do not. */
  lemma TransferOutcome(m: Accounts, from: Address, to: Address, amount: u64, nonce: u64)
    ensures var e := Transfer(m, from, to, amount, nonce).error;
            && (e.None? <==> CanPay(m, from, to, amount, nonce))
            && (e == Some(AccountNotFound) <==> from !in m)
            && (e.Some? && e.value.InvalidNonce? <==> from in m && m[from].nonce != nonce)
            && (e.Some? && e.value.InsufficientBalance? <==>
                  from in m && m[from].nonce == nonce && m[from].balance < amount)
            && (e == Some(Overflow) <==>
                  && from in m && m[from].nonce == nonce && m[from].balance >= amount
                  && from != to && to in m && m[to].balance + amount > U64_MAX)
  {
  }

  /** The exact effect of a successful transfer on every account. */
  lemma TransferEffect(m: Accounts, from: Address, to: Address, amount: u64, nonce: u64, a: Address)
    requires Transfer(m, from, to, amount, nonce).error.None?
    ensures var n := Transfer(m, from, to, amount, nonce).accounts;
            && nonce == Lookup(m, from).nonce
            && Lookup(n, a).balance == Lookup(m, a).balance
                 - (if a == from then amount else 0) + (if a == to then amount else 0)
            && Lookup(n, a).nonce == (if a == from then WrapAdd(nonce, 1) else Lookup(m, a).nonce)
            && (a !in {from, to} ==> (a in n <==> a in m))
  {
  }

  // ---------- every run of blocks ----------

  /** Supply conservation and atomic failure, over any sequence of transactions (and so over any
      sequence of blocks): nothing is created or lost, no credit overflows, and each failed
      transaction changes no account. */
  lemma {:induction false} RunConserves(m: Accounts, txs: seq<Transaction>, hashOf: Transaction -> Bytes32)
    requires Supply(m) <= U64_MAX
    ensures Supply(Execute(m, txs, hashOf).accounts) == Supply(m)
    ensures forall i :: 0 <= i < |txs| ==> Execute(m, txs, hashOf).receipts[i].error != Some(Overflow)
    decreases |txs|
  {
    if txs != [] {
      var last := |txs| - 1;
      RunConserves(m, txs[..last], hashOf);
      var before, tx := Execute(m, txs[..last], hashOf).accounts, txs[last];
      TransferSupply(before, tx.from, tx.to, tx.amount, tx.nonce);
      NoOverflowWithinSupply(before, tx.from, tx.to, tx.amount, tx.nonce);
    }
  }

  /** The amounts debited by transactions whose credit then overflowed. */
  function Destroyed(m: Accounts, txs: seq<Transaction>, hashOf: Transaction -> Bytes32): nat {
    if txs == [] then 0
    else
      var last := |txs| - 1;
      Destroyed(m, txs[..last], hashOf)
      + if Execute(m, txs, hashOf).receipts[last].error == Some(Overflow) then txs[last].amount else 0
  }

  /** From every state: the supply falls by exactly what late overflows destroyed. */
  lemma {:induction false} RunDestroys(m: Accounts, txs: seq<Transaction>, hashOf: Transaction -> Bytes32)
    ensures Supply(Execute(m, txs, hashOf).accounts) + Destroyed(m, txs, hashOf) == Supply(m)
    decreases |txs|
  {
    if txs != [] {
      var last := |txs| - 1;
      RunDestroys(m, txs[..last], hashOf);
      var before, tx := Execute(m, txs[..last], hashOf).accounts, txs[last];
      TransferSupply(before, tx.from, tx.to, tx.amount, tx.nonce);
    }
  }

  lemma {:induction false} ExecuteLast(m: Accounts, txs: seq<Transaction>, tx: Transaction, hashOf: Transaction -> Bytes32)
    ensures var t := Transfer(Execute(m, txs, hashOf).accounts, tx.from, tx.to, tx.amount, tx.nonce);
            Execute(m, txs + [tx], hashOf)
            == Executed(t.accounts, Execute(m, txs, hashOf).receipts + [Receipt(hashOf(tx), t.error.None?, 0, t.error)])
  {
    assert (txs + [tx])[..|txs|] == txs;
  }

  /** Applying `b` after `a` is applying `a + b`, receipts included. */
  ghost predicate Composes(m: Accounts, a: seq<Transaction>, b: seq<Transaction>, hashOf: Transaction -> Bytes32) {
    var mid, all := Execute(m, a, hashOf), Execute(m, a + b, hashOf);
    && all.accounts == Execute(mid.accounts, b, hashOf).accounts
    && all.receipts == mid.receipts + Execute(mid.accounts, b, hashOf).receipts
  }

  lemma {:induction false} ComposesOneMore(
    m: Accounts, a: seq<Transaction>, init: seq<Transaction>, tx: Transaction, hashOf: Transaction -> Bytes32)
    requires Composes(m, a, init, hashOf)
    ensures Composes(m, a, init + [tx], hashOf)
  {
    ExecuteLast(m, a + init, tx, hashOf);
    ExecuteLast(Execute(m, a, hashOf).accounts, init, tx, hashOf);
    assert a + (init + [tx]) == (a + init) + [tx];
  }

  /** Blocks applied one after the other are one long block. */
  lemma {:induction false} BlocksCompose(m: Accounts, a: seq<Transaction>, b: seq<Transaction>, hashOf: Transaction -> Bytes32)
    ensures Composes(m, a, b, hashOf)
    decreases |b|
  {
    if b == [] {
      assert a + b == a;
    } else {
      var init, tx := b[..|b| - 1], b[|b| - 1];
      BlocksCompose(m, a, init, hashOf);
      ComposesOneMore(m, a, init, tx, hashOf);
      assert b == init + [tx];
    }
  }

  /** Every receipt of a block: it names its transaction, and reports success exactly when that could pay in the
      state the earlier ones left. */
  lemma {:induction false} ReceiptsTell(m: Accounts, txs: seq<Transaction>, hashOf: Transaction -> Bytes32, i: nat)
    requires i < |txs|
    ensures var r, tx := Execute(m, txs, hashOf).receipts[i], txs[i];
            && r.txHash == hashOf(tx) && r.feePaid == 0 && (r.success <==> r.error.None?)
            && (r.success <==> CanPay(Execute(m, txs[..i], hashOf).accounts, tx.from, tx.to, tx.amount, tx.nonce))
  {
    var tx := txs[i];
    BlocksCompose(m, txs[..i + 1], txs[i + 1..], hashOf);
    assert txs == txs[..i + 1] + txs[i + 1..];
    ExecuteLast(m, txs[..i], tx, hashOf);
    assert txs[..i + 1] == txs[..i] + [tx];
    TransferOutcome(Execute(m, txs[..i], hashOf).accounts, tx.from, tx.to, tx.amount, tx.nonce);
  }

  // ---------- exactly when no run can lose money ----------

  function Positive(m: Accounts): set<Address> { set a | a in m && m[a].balance > 0 }

  lemma {:induction false} SomePositive(m: Accounts) returns (a: Address)
    requires Supply(m) > 0
    ensures a in Positive(m)
    decreases |m|
  {
    a :| a in m;
    SumRemove(m, Balance, a);
    if m[a].balance == 0 {
      a := SomePositive(m - {a});
    }
  }

  lemma TwoPositive(m: Accounts) returns (a: Address, b: Address)
    requires Supply(m) > U64_MAX
    ensures a != b && a in Positive(m) && b in Positive(m)
  {
    a := SomePositive(m);
    SumRemove(m, Balance, a);
    b := SomePositive(m - {a});
  }

  /** All that `b` has, sent to `a`. */
  function Sweep(m: Accounts, a: Address, b: Address): Transaction
    requires b in m
  {
    Transaction(b, a, m[b].balance, m[b].nonce, [], [])
  }

  /** Sweeping one positive account onto another loses money or leaves one fewer. */
  lemma SweepLoses(m: Accounts, a: Address, b: Address, hashOf: Transaction -> Bytes32)
    requires a != b && a in Positive(m) && b in Positive(m)
    ensures var n := Execute(m, [Sweep(m, a, b)], hashOf).accounts;
            Supply(n) < Supply(m) || (Supply(n) == Supply(m) && |Positive(n)| < |Positive(m)|)
  {
    var tx := Sweep(m, a, b);
    ExecuteLast(m, [], tx, hashOf);
    assert [] + [tx] == [tx];
    TransferSupply(m, b, a, tx.amount, tx.nonce);
    var n := Transfer(m, b, a, tx.amount, tx.nonce).accounts;
    if Supply(n) == Supply(m) {
      assert Positive(n) == Positive(m) - {b};
    }
  }

  /** Money enough to overflow can be gathered until it does. */
  lemma {:induction false} SomeRunLoses(m: Accounts, hashOf: Transaction -> Bytes32) returns (txs: seq<Transaction>)
    requires Supply(m) > U64_MAX
    ensures Supply(Execute(m, txs, hashOf).accounts) != Supply(m)
    decreases |Positive(m)|
  {
    var a, b := TwoPositive(m);
    SweepLoses(m, a, b, hashOf);
    var first := [Sweep(m, a, b)];
    var n := Execute(m, first, hashOf).accounts;
    if Supply(n) < Supply(m) {
      txs := first;
    } else {
      var rest := SomeRunLoses(n, hashOf);
      BlocksCompose(m, first, rest, hashOf);
      txs := first + rest;
    }
  }

  /** No sequence of transactions changes the supply, if and only if the supply fits 64 bits. */
  lemma RunConservesIff(m: Accounts, hashOf: Transaction -> Bytes32)
    ensures (forall txs :: Supply(Execute(m, txs, hashOf).accounts) == Supply(m)) <==> Supply(m) <= U64_MAX
  {
    if Supply(m) <= U64_MAX {
      forall txs ensures Supply(Execute(m, txs, hashOf).accounts) == Supply(m) {
        RunConserves(m, txs, hashOf);
      }
    } else {
      var txs := SomeRunLoses(m, hashOf);
    }
  }

  lemma {:induction false} FailedTransactionChangesNothing(
    m: Accounts, txs: seq<Transaction>, tx: Transaction, hashOf: Transaction -> Bytes32)
    requires Supply(m) <= U64_MAX
    requires !Execute(m, txs + [tx], hashOf).receipts[|txs|].success
    ensures Execute(m, txs + [tx], hashOf).accounts == Execute(m, txs, hashOf).accounts
  {
    ExecuteLast(m, txs, tx, hashOf);
    RunConserves(m, txs, hashOf);
    var before := Execute(m, txs, hashOf).accounts;
    NoOverflowWithinSupply(before, tx.from, tx.to, tx.amount, tx.nonce);
    FailureAtomicIff(before, tx.from, tx.to, tx.amount, tx.nonce);
    TransferSupply(before, tx.from, tx.to, tx.amount, tx.nonce);
  }

  /** A late credit overflow: the sender pays and spends a nonce, nobody receives. */
  lemma OverflowDestroys(a: Address, b: Address)
    requires a != b
    ensures var m: Accounts := map[a := Account(1, 0), b := Account(U64_MAX, 0)];
            var r := Transfer(m, a, b, 1, 0);
            r.error == Some(Overflow) && r.accounts[a] == Account(0, 1) && r.accounts[b] == m[b]
  {
  }

  // ---------- nonces ----------

  /** The transaction got past every check: it succeeded, or its credit overflowed too late. */
  predicate UsedNonce(r: Receipt) { r.success || r.error == Some(Overflow) }

  /** The nonces of the transactions of `a` that got past every check, in order. */
  function UsedNonces(m: Accounts, txs: seq<Transaction>, hashOf: Transaction -> Bytes32, a: Address): seq<u64> {
    if txs == [] then []
    else
      var last := |txs| - 1;
      UsedNonces(m, txs[..last], hashOf, a)
      + if txs[last].from == a && UsedNonce(Execute(m, txs, hashOf).receipts[last]) then [txs[last].nonce] else []
  }

  /** The nonces of the successful transactions of `a`, in order. */
  function SpentNonces(m: Accounts, txs: seq<Transaction>, hashOf: Transaction -> Bytes32, a: Address): seq<u64> {
    if txs == [] then []
    else
      var last := |txs| - 1;
      SpentNonces(m, txs[..last], hashOf, a)
      + if txs[last].from == a && Execute(m, txs, hashOf).receipts[last].success then [txs[last].nonce] else []
  }

  /** How many transactions of `a` ended in a late overflow. */
  function LateOverflows(m: Accounts, txs: seq<Transaction>, hashOf: Transaction -> Bytes32, a: Address): nat {
    if txs == [] then 0
    else
      var last := |txs| - 1;
      LateOverflows(m, txs[..last], hashOf, a)
      + if txs[last].from == a && Execute(m, txs, hashOf).receipts[last].error == Some(Overflow) then 1 else 0
  }

  lemma WrapAddMore(x: u64, n: nat)
    ensures WrapAdd((x + n) % U64_SIZE, 1) == (x + n + 1) % U64_SIZE
  {
  }

  /** A transfer past every check moves the sender's nonce by one and nobody else's; any other moves none. */
  lemma TransferNonce(m: Accounts, from: Address, to: Address, amount: u64, nonce: u64, a: Address)
    ensures var r := Transfer(m, from, to, amount, nonce);
            if r.error.None? || r.error == Some(Overflow)
            then && nonce == Lookup(m, from).nonce
                 && Lookup(r.accounts, a).nonce == if a == from then WrapAdd(nonce, 1) else Lookup(m, a).nonce
            else r.accounts == m
  {
  }

  /** From every state: the nonces a sender uses up are its starting nonce and upwards, without gap or
      repeat, and its nonce ends just past them (counting modulo 2^64). */
  lemma {:induction false} NoncesConsecutive(m: Accounts, txs: seq<Transaction>, hashOf: Transaction -> Bytes32, a: Address)
    ensures var used := UsedNonces(m, txs, hashOf, a);
            && (forall i :: 0 <= i < |used| ==> used[i] == (Lookup(m, a).nonce + i) % U64_SIZE)
            && Lookup(Execute(m, txs, hashOf).accounts, a).nonce == (Lookup(m, a).nonce + |used|) % U64_SIZE
    decreases |txs|
  {
    if txs != [] {
      var last := |txs| - 1;
      NoncesConsecutive(m, txs[..last], hashOf, a);
      var before, tx := Execute(m, txs[..last], hashOf).accounts, txs[last];
      TransferNonce(before, tx.from, tx.to, tx.amount, tx.nonce, a);
      WrapAddMore(Lookup(m, a).nonce, |UsedNonces(m, txs[..last], hashOf, a)|);
    }
  }

  lemma ModEqualIff(x: nat, i: nat, j: nat)
    requires i <= j
    ensures (x + i) % U64_SIZE == (x + j) % U64_SIZE <==> (j - i) % U64_SIZE == 0
  {
  }

  /** No replay, from every state: no nonce is accepted twice until 2^64 of them have been. */
  lemma {:induction false} NoReplay(m: Accounts, txs: seq<Transaction>, hashOf: Transaction -> Bytes32, a: Address, i: nat, j: nat)
    requires i < j < |UsedNonces(m, txs, hashOf, a)|
    ensures UsedNonces(m, txs, hashOf, a)[i] == UsedNonces(m, txs, hashOf, a)[j] <==> (j - i) % U64_SIZE == 0
  {
    NoncesConsecutive(m, txs, hashOf, a);
    ModEqualIff(Lookup(m, a).nonce, i, j);
  }

  /** The nonce of `a` is its start plus its successes. */
  ghost predicate OnTrack(m: Accounts, txs: seq<Transaction>, hashOf: Transaction -> Bytes32, a: Address) {
    Lookup(Execute(m, txs, hashOf).accounts, a).nonce
    == (Lookup(m, a).nonce + |SpentNonces(m, txs, hashOf, a)|) % U64_SIZE
  }

  /** It is so at every point of the run. */
  ghost predicate GapFree(m: Accounts, txs: seq<Transaction>, hashOf: Transaction -> Bytes32, a: Address) {
    forall k :: 0 <= k <= |txs| ==> OnTrack(m, txs[..k], hashOf, a)
  }

  lemma {:induction false} UsedOrLost(m: Accounts, txs: seq<Transaction>, hashOf: Transaction -> Bytes32, a: Address)
    ensures |UsedNonces(m, txs, hashOf, a)| == |SpentNonces(m, txs, hashOf, a)| + LateOverflows(m, txs, hashOf, a)
    ensures LateOverflows(m, txs, hashOf, a) == 0 ==> SpentNonces(m, txs, hashOf, a) == UsedNonces(m, txs, hashOf, a)
    decreases |txs|
  {
    if txs != [] {
      UsedOrLost(m, txs[..|txs| - 1], hashOf, a);
    }
  }

  /** The first late overflow, if there is one. */
  lemma {:induction false} FirstLate(m: Accounts, txs: seq<Transaction>, hashOf: Transaction -> Bytes32, a: Address) returns (k: nat)
    requires LateOverflows(m, txs, hashOf, a) > 0
    ensures k <= |txs| && LateOverflows(m, txs[..k], hashOf, a) == 1
    decreases |txs|
  {
    var init := txs[..|txs| - 1];
    if LateOverflows(m, init, hashOf, a) > 0 {
      k := FirstLate(m, init, hashOf, a);
      assert txs[..k] == init[..k];
    } else {
      k := |txs|;
      assert txs[..k] == txs;
    }
  }

  lemma {:induction false} NoLateBefore(m: Accounts, txs: seq<Transaction>, hashOf: Transaction -> Bytes32, a: Address, k: nat)
    requires k <= |txs| && LateOverflows(m, txs, hashOf, a) == 0
    ensures LateOverflows(m, txs[..k], hashOf, a) == 0
    decreases |txs|
  {
    if k < |txs| {
      NoLateBefore(m, txs[..|txs| - 1], hashOf, a, k);
      assert txs[..|txs| - 1][..k] == txs[..k];
    } else {
      assert txs[..k] == txs;
    }
  }

  lemma {:induction false} OnTrackIff(m: Accounts, txs: seq<Transaction>, hashOf: Transaction -> Bytes32, a: Address)
    ensures OnTrack(m, txs, hashOf, a) <==> LateOverflows(m, txs, hashOf, a) % U64_SIZE == 0
  {
    NoncesConsecutive(m, txs, hashOf, a);
    UsedOrLost(m, txs, hashOf, a);
    ModEqualIff(Lookup(m, a).nonce, |SpentNonces(m, txs, hashOf, a)|, |UsedNonces(m, txs, hashOf, a)|);
  }

  /** The successes alone are gap-free exactly when none of the sender's transactions ended in a late
      overflow; and then they are all the nonces used, the starting one and upwards. */
  lemma {:induction false} SuccessesGapFreeIff(m: Accounts, txs: seq<Transaction>, hashOf: Transaction -> Bytes32, a: Address)
    ensures GapFree(m, txs, hashOf, a) <==> LateOverflows(m, txs, hashOf, a) == 0
    ensures GapFree(m, txs, hashOf, a) ==> SpentNonces(m, txs, hashOf, a) == UsedNonces(m, txs, hashOf, a)
    ensures GapFree(m, txs, hashOf, a) ==>
      forall i :: 0 <= i < |SpentNonces(m, txs, hashOf, a)| ==>
        SpentNonces(m, txs, hashOf, a)[i] == (Lookup(m, a).nonce + i) % U64_SIZE
  {
    UsedOrLost(m, txs, hashOf, a);
    NoncesConsecutive(m, txs, hashOf, a);
    if LateOverflows(m, txs, hashOf, a) > 0 {
      var k := FirstLate(m, txs, hashOf, a);
      OnTrackIff(m, txs[..k], hashOf, a);
    } else {
      forall k | 0 <= k <= |txs| ensures OnTrack(m, txs[..k], hashOf, a) {
        NoLateBefore(m, txs, hashOf, a, k);
        OnTrackIff(m, txs[..k], hashOf, a);
      }
    }
  }
}

/** The transaction pool (mempool/src/pool.rs, types.rs, validation.rs).

    The pool keeps three redundant structures: transactions by sender, the set of known hashes and a count.
    The hash and the signature check are parameters. */
module Mempools {
  import opened MapSums
  import opened Words
  import StateDb

  type Transaction = StateDb.Transaction
  type HashOf = Transaction -> Bytes32
  type Verifier = Transaction -> bool

  datatype Limits = Limits(maxSize: nat, maxPerAccount: nat)

  datatype MempoolError = InvalidTransaction | InvalidSignature | PoolFull | DuplicateTransaction

  datatype Pending = Pending(tx: Transaction, addedAt: nat, priority: u64)

  type Senders = map<Bytes32, seq<Pending>>

  datatype Pool = Pool(bySender: Senders, known: set<Bytes32>, total: nat)

  const EMPTY_POOL := Pool(map[], {}, 0)

  // ---------- the operations on values ----------

  function Entries(m: Senders, sender: Bytes32): seq<Pending> { if sender in m then m[sender] else [] }

  /** `x` filed at the end of its sender's list. */
  function File(m: Senders, x: Pending): Senders { m[x.tx.from := Entries(m, x.tx.from) + [x]] }

  predicate WellFormed(tx: Transaction) { (exists i :: 0 <= i < 32 && tx.from[i] != 0) && tx.signature != [] }

  /** Why `add_transaction` refuses `tx`, in the order of its checks. */
  function Refusal(p: Pool, limits: Limits, tx: Transaction, hash: HashOf, verifies: Verifier): Option<MempoolError> {
    if !WellFormed(tx) then Some(InvalidTransaction)
    else if !verifies(tx) then Some(InvalidSignature)
    else if p.total >= limits.maxSize then Some(PoolFull)
    else if hash(tx) in p.known then Some(DuplicateTransaction)
    else if |Entries(p.bySender, tx.from)| >= limits.maxPerAccount then Some(PoolFull)
    else None
  }

  /** `add_transaction`. Reaching the per-account check files an empty list for a new sender. */
  function Add(p: Pool, limits: Limits, tx: Transaction, hash: HashOf, verifies: Verifier): Pool {
    match Refusal(p, limits, tx, hash, verifies)
    case None =>
      Pool(File(p.bySender, Pending(tx, p.total, tx.amount)), p.known + {hash(tx)}, p.total + 1)
    case Some(PoolFull) =>
      if p.total >= limits.maxSize then p else p.(bySender := p.bySender[tx.from := Entries(p.bySender, tx.from)])
    case Some(_) => p
  }

  /** The entries whose hash is not in `gone`, in order. */
  function Retain(txs: seq<Pending>, gone: set<Bytes32>, hash: HashOf): seq<Pending> {
    if txs == [] then []
    else (if hash(txs[0].tx) in gone then [] else [txs[0]]) + Retain(txs[1..], gone, hash)
  }

  ghost function Length(): seq<Pending> -> nat { txs => |txs| }

  ghost function Stored(m: Senders): nat { SumBy(m, Length()) }

  /** Every sender's list after removal, without the senders left with nothing. */
  ghost function RetainAll(m: Senders, gone: set<Bytes32>, hash: HashOf): Senders {
    map s | s in m && Retain(m[s], gone, hash) != [] :: Retain(m[s], gone, hash)
  }

  /** `remove_committed`. */
  ghost function RemoveCommitted(p: Pool, gone: set<Bytes32>, hash: HashOf): Pool {
    Pool(RetainAll(p.bySender, gone, hash), p.known - gone, Stored(RetainAll(p.bySender, gone, hash)))
  }

  // ---------- the invariant ----------

  ghost predicate IsStored(m: Senders, x: Pending) { exists s :: s in m && x in m[s] }

  ghost predicate Distinct(txs: seq<Pending>, hash: HashOf) {
    forall i, j :: 0 <= i < j < |txs| ==> hash(txs[i].tx) != hash(txs[j].tx)
  }

  ghost predicate AllDistinct(m: Senders, hash: HashOf) {
    forall s :: s in m ==> Distinct(m[s], hash)
  }

  ghost predicate Bounded(m: Senders, most: nat) {
    forall s :: s in m ==> |m[s]| <= most
  }

  /** Different senders hold different hashes. */
  ghost predicate Apart(m: Senders, hash: HashOf) {
    forall s, s', x, y :: s in m && s' in m && s != s' && x in m[s] && y in m[s'] ==> hash(x.tx) != hash(y.tx)
  }

  ghost predicate Holds(m: Senders, h: Bytes32, hash: HashOf) {
    exists s, x: Pending :: s in m && x in m[s] && hash(x.tx) == h
  }

  /** The known hashes are exactly those of the stored transactions. */
  ghost predicate Indexed(m: Senders, known: set<Bytes32>, hash: HashOf) {
    && (forall s, x :: s in m && x in m[s] ==> hash(x.tx) in known)
    && (forall h :: h in known ==> Holds(m, h, hash))
  }

  ghost predicate Checked(x: Pending, sender: Bytes32, verifies: Verifier) {
    x.tx.from == sender && WellFormed(x.tx) && verifies(x.tx) && x.priority == x.tx.amount
  }

  /** Every transaction passed the checks and is filed under its sender. */
  ghost predicate Filed(m: Senders, verifies: Verifier) {
    forall s, x :: s in m && x in m[s] ==> Checked(x, s, verifies)
  }

  ghost predicate Agrees(p: Pool, limits: Limits, hash: HashOf, verifies: Verifier) {
    && Indexed(p.bySender, p.known, hash)
    && Apart(p.bySender, hash)
    && AllDistinct(p.bySender, hash)
    && Filed(p.bySender, verifies)
    && p.total == Stored(p.bySender) <= limits.maxSize
    && Bounded(p.bySender, limits.maxPerAccount)
  }

  lemma {:induction false} RetainExact(txs: seq<Pending>, gone: set<Bytes32>, hash: HashOf)
    ensures forall x :: x in Retain(txs, gone, hash) <==> x in txs && hash(x.tx) !in gone
    ensures |Retain(txs, gone, hash)| <= |txs|
    ensures Distinct(txs, hash) ==> Distinct(Retain(txs, gone, hash), hash)
  {
    if txs != [] {
      var rest := txs[1..];
      RetainExact(rest, gone, hash);
      assert forall x :: x in txs <==> x == txs[0] || x in rest;
      if Distinct(txs, hash) {
        RetainDistinct(txs, gone, hash);
      }
    }
  }

  lemma RetainDistinct(txs: seq<Pending>, gone: set<Bytes32>, hash: HashOf)
    requires txs != [] && Distinct(txs, hash)
    requires Distinct(txs[1..], hash) ==> Distinct(Retain(txs[1..], gone, hash), hash)
    requires forall x :: x in Retain(txs[1..], gone, hash) <==> x in txs[1..] && hash(x.tx) !in gone
    ensures Distinct(Retain(txs, gone, hash), hash)
  {
    var kept, rest := Retain(txs, gone, hash), Retain(txs[1..], gone, hash);
    assert Distinct(txs[1..], hash);
    if hash(txs[0].tx) in gone {
      assert kept == rest;
    } else {
      forall j | 0 <= j < |rest| ensures hash(txs[0].tx) != hash(rest[j].tx) {
        assert rest[j] in txs[1..];
      }
      assert kept[1..] == rest;
    }
  }

  // ---------- every operation keeps it ----------

  lemma FileMembers(m: Senders, x: Pending, s: Bytes32, y: Pending)
    requires s in File(m, x)
    ensures y in File(m, x)[s] <==> (s == x.tx.from && y == x) || (s in m && y in m[s])
  {
  }

  lemma FileIndexed(m: Senders, known: set<Bytes32>, hash: HashOf, x: Pending)
    requires Indexed(m, known, hash)
    ensures Indexed(File(m, x), known + {hash(x.tx)}, hash)
  {
    var m' := File(m, x);
    forall s, y: Pending | s in m' && y in m'[s] ensures hash(y.tx) in known + {hash(x.tx)} {
      FileMembers(m, x, s, y);
    }
    forall h | h in known + {hash(x.tx)} ensures Holds(m', h, hash) {
      if h in known {
        var s, y: Pending :| s in m && y in m[s] && hash(y.tx) == h;
        FileMembers(m, x, s, y);
      } else {
        FileMembers(m, x, x.tx.from, x);
      }
    }
  }

  lemma FileApart(m: Senders, known: set<Bytes32>, hash: HashOf, x: Pending)
    requires Indexed(m, known, hash) && Apart(m, hash) && hash(x.tx) !in known
    ensures Apart(File(m, x), hash)
  {
    var m' := File(m, x);
    forall s, s', y: Pending, z: Pending | s in m' && s' in m' && s != s' && y in m'[s] && z in m'[s'] ensures hash(y.tx) != hash(z.tx) {
      FileMembers(m, x, s, y);
      FileMembers(m, x, s', z);
    }
  }

  lemma FileDistinct(m: Senders, known: set<Bytes32>, hash: HashOf, x: Pending)
    requires Indexed(m, known, hash) && hash(x.tx) !in known
    requires AllDistinct(m, hash)
    ensures AllDistinct(File(m, x), hash)
  {
    var txs := Entries(m, x.tx.from);
    forall i | 0 <= i < |txs| ensures hash(txs[i].tx) != hash(x.tx) {
      assert txs[i] in txs;
    }
    assert Distinct(txs + [x], hash);
  }

  lemma FileFiled(m: Senders, x: Pending, verifies: Verifier)
    requires Filed(m, verifies) && Checked(x, x.tx.from, verifies)
    ensures Filed(File(m, x), verifies)
  {
    var m' := File(m, x);
    forall s, y: Pending | s in m' && y in m'[s] ensures Checked(y, s, verifies) {
      FileMembers(m, x, s, y);
    }
  }

  /** All of `n` is stored in `m` under the same senders. */
  ghost predicate Within(n: Senders, m: Senders) {
    forall s, x :: s in n && x in n[s] ==> s in m && x in m[s]
  }

  lemma WithinKeeps(n: Senders, m: Senders, hash: HashOf, verifies: Verifier)
    requires Within(n, m) && Apart(m, hash) && Filed(m, verifies)
    ensures Apart(n, hash) && Filed(n, verifies)
  {
    forall s, s', y: Pending, z: Pending | s in n && s' in n && s != s' && y in n[s] && z in n[s'] ensures hash(y.tx) != hash(z.tx) {
      assert y in m[s] && z in m[s'];
    }
  }

  /** Filing an empty list for a new sender stores nothing. */
  lemma TouchIndexed(m: Senders, known: set<Bytes32>, hash: HashOf, sender: Bytes32)
    requires Indexed(m, known, hash) && sender !in m
    ensures Indexed(m[sender := []], known, hash)
  {
    forall h | h in known ensures Holds(m[sender := []], h, hash) {
      var s, y: Pending :| s in m && y in m[s] && hash(y.tx) == h;
      assert y in m[sender := []][s];
    }
  }

  lemma TouchStores(m: Senders, sender: Bytes32, hash: HashOf, most: nat)
    requires sender !in m && AllDistinct(m, hash) && Bounded(m, most)
    ensures var n := m[sender := []];
            Within(n, m) && AllDistinct(n, hash) && Bounded(n, most) && Stored(n) == Stored(m)
  {
    SumUpdate(m, Length(), sender, []);
  }

  lemma TouchAgrees(p: Pool, limits: Limits, hash: HashOf, verifies: Verifier, sender: Bytes32)
    requires Agrees(p, limits, hash, verifies) && sender !in p.bySender
    ensures Agrees(p.(bySender := p.bySender[sender := []]), limits, hash, verifies)
  {
    TouchIndexed(p.bySender, p.known, hash, sender);
    TouchStores(p.bySender, sender, hash, limits.maxPerAccount);
    WithinKeeps(p.bySender[sender := []], p.bySender, hash, verifies);
  }

  /** Every `add_transaction`, accepted or refused, keeps the three structures in agreement. */
  lemma AddAgrees(p: Pool, limits: Limits, tx: Transaction, hash: HashOf, verifies: Verifier)
    requires Agrees(p, limits, hash, verifies)
    ensures Agrees(Add(p, limits, tx, hash, verifies), limits, hash, verifies)
  {
    match Refusal(p, limits, tx, hash, verifies)
    case None => AcceptAgrees(p, limits, tx, hash, verifies);
    case Some(PoolFull) =>
      if tx.from in p.bySender {
        assert p.bySender[tx.from := p.bySender[tx.from]] == p.bySender;
      } else {
        TouchAgrees(p, limits, hash, verifies, tx.from);
      }
    case Some(_) =>
  }

  lemma AcceptAgrees(p: Pool, limits: Limits, tx: Transaction, hash: HashOf, verifies: Verifier)
    requires Agrees(p, limits, hash, verifies) && Refusal(p, limits, tx, hash, verifies).None?
    ensures Agrees(Add(p, limits, tx, hash, verifies), limits, hash, verifies)
  {
    var m, x := p.bySender, Pending(tx, p.total, tx.amount);
    FileIndexed(m, p.known, hash, x);
    FileApart(m, p.known, hash, x);
    FileDistinct(m, p.known, hash, x);
    FileFiled(m, x, verifies);
    FileCounted(m, x, limits.maxPerAccount);
  }

  lemma FileCounted(m: Senders, x: Pending, most: nat)
    requires Bounded(m, most) && |Entries(m, x.tx.from)| < most
    ensures Bounded(File(m, x), most) && Stored(File(m, x)) == Stored(m) + 1
  {
    SumUpdate(m, Length(), x.tx.from, Entries(m, x.tx.from) + [x]);
  }

  /** Which transactions are admitted: well formed, signed, not in the pool yet, and within both limits. */
  lemma AdmittedIff(p: Pool, limits: Limits, tx: Transaction, hash: HashOf, verifies: Verifier)
    requires Agrees(p, limits, hash, verifies)
    ensures Refusal(p, limits, tx, hash, verifies).None? <==>
      && (exists i :: 0 <= i < 32 && tx.from[i] != 0) && tx.signature != [] && verifies(tx)
      && Stored(p.bySender) < limits.maxSize
      && |Entries(p.bySender, tx.from)| < limits.maxPerAccount
      && !Holds(p.bySender, hash(tx), hash)
  {
  }

  /** An admitted transaction is the one thing that changes, stamped with the count and ranked by its amount; a
      refused one changes nobody's list. */
  lemma AddEffect(p: Pool, limits: Limits, tx: Transaction, hash: HashOf, verifies: Verifier, s: Bytes32)
    ensures Entries(Add(p, limits, tx, hash, verifies).bySender, s)
            == Entries(p.bySender, s)
               + if s == tx.from && Refusal(p, limits, tx, hash, verifies).None? then [Pending(tx, p.total, tx.amount)] else []
  {
  }

  /** Why the others are refused, in the order of the checks. */
  lemma RefusalTells(p: Pool, limits: Limits, tx: Transaction, hash: HashOf, verifies: Verifier)
    ensures var e := Refusal(p, limits, tx, hash, verifies);
            && (e == Some(InvalidTransaction) <==> (forall i :: 0 <= i < 32 ==> tx.from[i] == 0) || tx.signature == [])
            && (e == Some(InvalidSignature) <==> WellFormed(tx) && !verifies(tx))
            && (e == Some(DuplicateTransaction) <==>
                  WellFormed(tx) && verifies(tx) && p.total < limits.maxSize && hash(tx) in p.known)
            && (e == Some(PoolFull) <==>
                  && WellFormed(tx) && verifies(tx)
                  && (p.total >= limits.maxSize
                      || (hash(tx) !in p.known && |Entries(p.bySender, tx.from)| >= limits.maxPerAccount)))
  {
  }

  lemma RemoveIndexed(p: Pool, gone: set<Bytes32>, hash: HashOf)
    requires Indexed(p.bySender, p.known, hash)
    ensures var q := RemoveCommitted(p, gone, hash); Indexed(q.bySender, q.known, hash)
  {
    var m, q := p.bySender, RemoveCommitted(p, gone, hash);
    forall s, x | s in q.bySender && x in q.bySender[s] ensures hash(x.tx) in q.known {
      RetainExact(m[s], gone, hash);
    }
    forall h | h in q.known ensures Holds(q.bySender, h, hash) {
      var s, x: Pending :| s in m && x in m[s] && hash(x.tx) == h;
      RetainExact(m[s], gone, hash);
      assert x in q.bySender[s];
    }
  }

  lemma RemoveAgrees(p: Pool, limits: Limits, gone: set<Bytes32>, hash: HashOf, verifies: Verifier)
    requires Agrees(p, limits, hash, verifies)
    ensures Agrees(RemoveCommitted(p, gone, hash), limits, hash, verifies)
  {
    var m, n := p.bySender, RetainAll(p.bySender, gone, hash);
    RemoveIndexed(p, gone, hash);
    RetainAllShrinks(m, gone, hash);
    WithinKeeps(n, m, hash, verifies);
    SumShrinks(m, n);
  }

  /** Exactly the entries with a listed hash leave the pool. */
  lemma RemoveExact(p: Pool, gone: set<Bytes32>, hash: HashOf, s: Bytes32, x: Pending)
    ensures var q := RemoveCommitted(p, gone, hash);
            x in Entries(q.bySender, s) <==> x in Entries(p.bySender, s) && hash(x.tx) !in gone
  {
    RetainExact(Entries(p.bySender, s), gone, hash);
  }

  lemma RetainAllShrinks(m: Senders, gone: set<Bytes32>, hash: HashOf)
    requires AllDistinct(m, hash)
    ensures var n := RetainAll(m, gone, hash);
            Within(n, m) && AllDistinct(n, hash) && forall s :: s in n ==> |n[s]| <= |m[s]|
  {
    var n := RetainAll(m, gone, hash);
    forall s | s in n
      ensures forall x :: x in n[s] ==> x in m[s]
      ensures |n[s]| <= |m[s]| && Distinct(n[s], hash)
    {
      RetainExact(m[s], gone, hash);
    }
  }

  lemma {:induction false} SumShrinks(m: Senders, n: Senders)
    requires forall s :: s in n ==> s in m && |n[s]| <= |m[s]|
    ensures Stored(n) <= Stored(m)
    decreases |n|
  {
    if n.Keys != {} {
      var k :| k in n;
      SumRemove(n, Length(), k);
      SumRemove(m, Length(), k);
      SumShrinks(m - {k}, n - {k});
    }
  }

  /** Any run of operations. */
  datatype Op = AddOp(tx: Transaction) | RemoveOp(hashes: set<Bytes32>) | ClearOp

  ghost function Run(p: Pool, ops: seq<Op>, limits: Limits, hash: HashOf, verifies: Verifier): Pool
    decreases |ops|
  {
    if ops == [] then p
    else
      var q := match ops[0]
               case AddOp(tx) => Add(p, limits, tx, hash, verifies)
               case RemoveOp(hashes) => RemoveCommitted(p, hashes, hash)
               case ClearOp => EMPTY_POOL;
      Run(q, ops[1..], limits, hash, verifies)
  }

  /** From an empty pool, the three structures agree after every run. */
  lemma {:induction false} RunAgrees(p: Pool, ops: seq<Op>, limits: Limits, hash: HashOf, verifies: Verifier)
    requires Agrees(p, limits, hash, verifies)
    ensures Agrees(Run(p, ops, limits, hash, verifies), limits, hash, verifies)
    decreases |ops|
  {
    if ops != [] {
      match ops[0]
      case AddOp(tx) =>
        AddAgrees(p, limits, tx, hash, verifies);
        RunAgrees(Add(p, limits, tx, hash, verifies), ops[1..], limits, hash, verifies);
      case RemoveOp(hashes) =>
        RemoveAgrees(p, limits, hashes, hash, verifies);
        RunAgrees(RemoveCommitted(p, hashes, hash), ops[1..], limits, hash, verifies);
      case ClearOp =>
        RunAgrees(EMPTY_POOL, ops[1..], limits, hash, verifies);
    }
  }

  // ---------- the hashes count the transactions ----------

  ghost function HashesOf(txs: seq<Pending>, hash: HashOf): set<Bytes32> {
    set i | 0 <= i < |txs| :: hash(txs[i].tx)
  }

  lemma {:induction false} HashesCount(txs: seq<Pending>, hash: HashOf)
    requires Distinct(txs, hash)
    ensures |HashesOf(txs, hash)| == |txs|
  {
    if txs != [] {
      var last := |txs| - 1;
      HashesCount(txs[..last], hash);
      assert HashesOf(txs, hash) == HashesOf(txs[..last], hash) + {hash(txs[last].tx)};
    }
  }

  lemma HashesKnown(m: Senders, known: set<Bytes32>, hash: HashOf, k: Bytes32)
    requires Indexed(m, known, hash) && k in m
    ensures HashesOf(m[k], hash) <= known
  {
    assert forall i :: 0 <= i < |m[k]| ==> m[k][i] in m[k];
  }

  lemma RestHashes(m: Senders, hash: HashOf, k: Bytes32, s: Bytes32, x: Pending)
    requires Apart(m, hash) && k in m && s in m && x in m[s] && s != k
    ensures hash(x.tx) !in HashesOf(m[k], hash)
  {
    assert forall i :: 0 <= i < |m[k]| ==> m[k][i] in m[k];
  }

  lemma RestHolds(m: Senders, hash: HashOf, k: Bytes32, h: Bytes32)
    requires k in m && Holds(m, h, hash) && h !in HashesOf(m[k], hash)
    ensures Holds(m - {k}, h, hash)
  {
    var s, x: Pending :| s in m && x in m[s] && hash(x.tx) == h;
    assert x in (m - {k})[s];
  }

  lemma RestIndexed(m: Senders, known: set<Bytes32>, hash: HashOf, k: Bytes32)
    requires Indexed(m, known, hash) && Apart(m, hash) && k in m
    ensures Indexed(m - {k}, known - HashesOf(m[k], hash), hash)
  {
    var n, here := m - {k}, HashesOf(m[k], hash);
    forall h | h in known - here ensures Holds(n, h, hash) {
      RestHolds(m, hash, k, h);
    }
    forall s, x: Pending | s in n && x in n[s] ensures hash(x.tx) in known - here {
      assert x in m[s];
      RestHashes(m, hash, k, s, x);
    }
  }

  lemma RestApart(m: Senders, hash: HashOf, k: Bytes32)
    requires Apart(m, hash) && AllDistinct(m, hash)
    ensures Apart(m - {k}, hash) && AllDistinct(m - {k}, hash)
  {
  }

  lemma EmptyKnown(m: Senders, known: set<Bytes32>, hash: HashOf)
    requires Indexed(m, known, hash) && m.Keys == {}
    ensures known == {}
  {
  }

  lemma KnownSplits(m: Senders, known: set<Bytes32>, hash: HashOf, k: Bytes32)
    requires Indexed(m, known, hash) && k in m && Distinct(m[k], hash)
    ensures |known| == |known - HashesOf(m[k], hash)| + |m[k]|
  {
    HashesKnown(m, known, hash, k);
    HashesCount(m[k], hash);
  }

  /** When the structures agree, there are as many known hashes as stored transactions. */
  lemma {:induction false} KnownCounts(m: Senders, known: set<Bytes32>, hash: HashOf)
    requires Indexed(m, known, hash) && Apart(m, hash) && AllDistinct(m, hash)
    ensures |known| == Stored(m)
    decreases |m|
  {
    if m.Keys == {} {
      EmptyKnown(m, known, hash);
    } else {
      var k :| k in m;
      SumRemove(m, Length(), k);
      KnownSplits(m, known, hash, k);
      RestIndexed(m, known, hash, k);
      RestApart(m, hash, k);
      KnownCounts(m - {k}, known - HashesOf(m[k], hash), hash);
    }
  }

  // ---------- picking by priority ----------

  /** Higher priority first, then the earlier stamp. */
  predicate Before(x: Pending, y: Pending) {
    x.priority > y.priority || (x.priority == y.priority && x.addedAt < y.addedAt)
  }

  ghost predicate Sorted(txs: seq<Pending>) {
    forall i, j :: 0 <= i < j < |txs| ==> !Before(txs[j], txs[i])
  }

  /** Stable insertion, as a stable sort places the next element. */
  function Insert(x: Pending, txs: seq<Pending>): seq<Pending> {
    if txs == [] || Before(x, txs[0]) then [x] + txs else [txs[0]] + Insert(x, txs[1..])
  }

  lemma {:induction false} InsertSorted(x: Pending, txs: seq<Pending>)
    requires Sorted(txs)
    ensures Sorted(Insert(x, txs)) && multiset(Insert(x, txs)) == multiset(txs) + multiset{x}
  {
    if !(txs == [] || Before(x, txs[0])) {
      var rest := Insert(x, txs[1..]);
      InsertSorted(x, txs[1..]);
      assert txs == [txs[0]] + txs[1..];
      forall j | 0 <= j < |rest| ensures !Before(rest[j], txs[0]) {
        assert rest[j] in multiset(rest);
        assert rest[j] == x || rest[j] in txs[1..];
      }
    }
  }

  method Sort(txs: seq<Pending>) returns (sorted: seq<Pending>)
    ensures Sorted(sorted) && multiset(sorted) == multiset(txs)
  {
    sorted := [];
    for i := 0 to |txs|
      invariant Sorted(sorted) && multiset(sorted) == multiset(txs[..i])
    {
      InsertSorted(txs[i], sorted);
      assert txs[..i + 1] == txs[..i] + [txs[i]];
      sorted := Insert(txs[i], sorted);
    }
    assert txs[..|txs|] == txs;
  }

  lemma {:induction false} OnceInDistinct(txs: seq<Pending>, hash: HashOf, x: Pending)
    requires Distinct(txs, hash)
    ensures multiset(txs)[x] <= 1
  {
    if txs != [] {
      var last := |txs| - 1;
      OnceInDistinct(txs[..last], hash, x);
      assert txs == txs[..last] + [txs[last]];
      assert txs[last] !in txs[..last];
    }
  }

  lemma TwiceInSequence(txs: seq<Pending>, i: nat, j: nat)
    requires i < j < |txs| && txs[i] == txs[j]
    ensures multiset(txs)[txs[i]] >= 2
  {
    assert txs == txs[..j] + [txs[j]] + txs[j + 1..];
    assert txs[i] in txs[..j];
  }

  lemma DistinctPermuted(a: seq<Pending>, b: seq<Pending>, hash: HashOf)
    requires Distinct(a, hash) && multiset(a) == multiset(b)
    ensures Distinct(b, hash)
  {
    forall i, j | 0 <= i < j < |b| ensures hash(b[i].tx) != hash(b[j].tx) {
      assert b[i] in multiset(a) && b[j] in multiset(a);
      var p, q :| 0 <= p < |a| && 0 <= q < |a| && a[p] == b[i] && a[q] == b[j];
      if b[i] == b[j] {
        OnceInDistinct(a, hash, b[i]);
        TwiceInSequence(b, i, j);
      }
    }
  }

  /** `picked` is a best selection of at most `max` stored transactions: sorted, without repeats, and
      nothing left behind goes before anything taken. */
  ghost predicate BestOf(picked: seq<Pending>, m: Senders, max: nat, hash: HashOf) {
    && |picked| == (if Stored(m) <= max then Stored(m) else max)
    && Sorted(picked)
    && Distinct(picked, hash)
    && (forall x :: x in picked ==> IsStored(m, x))
    && (forall x, y :: x in picked && y !in picked && IsStored(m, y) ==> !Before(y, x))
  }

  ghost predicate StoredOutside(m: Senders, rest: Senders, x: Pending) { exists s :: s in m && s !in rest && x in m[s] }

  /** `all` lists every stored transaction of `m` outside `rest` once. */
  ghost predicate Collected(all: seq<Pending>, m: Senders, rest: Senders, hash: HashOf) {
    && Distinct(all, hash)
    && |all| + Stored(rest) == Stored(m)
    && (forall x :: x in all <==> StoredOutside(m, rest, x))
    && (forall s :: s in rest ==> s in m && rest[s] == m[s])
  }

  lemma CollectDistinct(all: seq<Pending>, m: Senders, rest: Senders, hash: HashOf, k: Bytes32)
    requires Collected(all, m, rest, hash) && k in rest && Apart(m, hash) && Distinct(m[k], hash)
    ensures Distinct(all + m[k], hash)
  {
    forall i, j | 0 <= i < |all| && 0 <= j < |m[k]| ensures hash(all[i].tx) != hash(m[k][j].tx) {
      assert m[k][j] in m[k];
      assert StoredOutside(m, rest, all[i]);
    }
  }

  lemma CollectMembers(m: Senders, rest: Senders, k: Bytes32, x: Pending)
    requires k in rest && k in m
    ensures StoredOutside(m, rest - {k}, x) <==> StoredOutside(m, rest, x) || x in m[k]
  {
    if StoredOutside(m, rest, x) {
      var s :| s in m && s !in rest && x in m[s];
      assert s !in rest - {k};
    }
  }

  lemma CollectOne(all: seq<Pending>, m: Senders, rest: Senders, hash: HashOf, k: Bytes32)
    requires Collected(all, m, rest, hash) && k in rest && Apart(m, hash) && Distinct(m[k], hash)
    ensures Collected(all + m[k], m, rest - {k}, hash)
  {
    SumRemove(rest, Length(), k);
    CollectDistinct(all, m, rest, hash, k);
    forall x ensures x in all + m[k] <==> StoredOutside(m, rest - {k}, x) {
      CollectMembers(m, rest, k, x);
    }
  }

  lemma StoredAnywhere(m: Senders, x: Pending)
    ensures StoredOutside(m, map[], x) <==> IsStored(m, x)
  {
    if IsStored(m, x) {
      var s :| s in m && x in m[s];
      assert StoredOutside(m, map[], x);
    }
    if StoredOutside(m, map[], x) {
      var s :| s in m && x in m[s];
      assert IsStored(m, x);
    }
  }

  lemma SortedIsStored(all: seq<Pending>, sorted: seq<Pending>, m: Senders, hash: HashOf, x: Pending)
    requires Collected(all, m, map[], hash) && multiset(sorted) == multiset(all)
    ensures x in sorted <==> IsStored(m, x)
  {
    assert x in multiset(sorted) <==> x in multiset(all);
    StoredAnywhere(m, x);
  }

  lemma FrontIsBest(all: seq<Pending>, sorted: seq<Pending>, m: Senders, max: nat, hash: HashOf)
    requires Collected(all, m, map[], hash) && Sorted(sorted) && multiset(sorted) == multiset(all)
    ensures BestOf(sorted[..if |sorted| <= max then |sorted| else max], m, max, hash)
  {
    assert |sorted| == |multiset(sorted)| == |multiset(all)| == |all|;
    var picked := sorted[..if |sorted| <= max then |sorted| else max];
    DistinctPermuted(all, sorted, hash);
    forall x | x in picked ensures IsStored(m, x) {
      SortedIsStored(all, sorted, m, hash, x);
    }
    forall x, y | x in picked && y !in picked && IsStored(m, y) ensures !Before(y, x) {
      SortedIsStored(all, sorted, m, hash, y);
      var i, j :| 0 <= i < |picked| && picked[i] == x && 0 <= j < |sorted| && sorted[j] == y;
      assert j >= |picked|;
    }
  }

  function Transactions(txs: seq<Pending>): seq<Transaction> {
    seq(|txs|, i requires 0 <= i < |txs| => txs[i].tx)
  }

  function Listed(hashes: seq<Bytes32>): set<Bytes32> { set h | h in hashes }

  /** The lists of the senders outside `todo` are already cut down. */
  ghost predicate PartlyRetained(m: Senders, before: Senders, todo: set<Bytes32>, gone: set<Bytes32>, hash: HashOf) {
    && m.Keys == before.Keys
    && forall s :: s in m ==> m[s] == if s in todo then before[s] else Retain(before[s], gone, hash)
  }

  /** Part of the way through, with the count right. */
  ghost predicate Dropping(m: Senders, total: nat, before: Senders, todo: set<Bytes32>, gone: set<Bytes32>, hash: HashOf) {
    todo <= m.Keys && total == Stored(m) && PartlyRetained(m, before, todo, gone, hash)
  }

  lemma RetainOne(m: Senders, total: nat, before: Senders, todo: set<Bytes32>, gone: set<Bytes32>, hash: HashOf, s: Bytes32)
    requires Dropping(m, total, before, todo, gone, hash) && s in todo
    ensures var kept := Retain(m[s], gone, hash);
            && |kept| <= |m[s]| <= total
            && Dropping(m[s := kept], total - (|m[s]| - |kept|), before, todo - {s}, gone, hash)
  {
    RetainExact(m[s], gone, hash);
    SumUpdate(m, Length(), s, Retain(m[s], gone, hash));
    SumAtLeast(m, Length(), s);
  }

  function NonEmpty(m: Senders): Senders { map s | s in m && m[s] != [] :: m[s] }

  lemma AllRetained(m: Senders, before: Senders, gone: set<Bytes32>, hash: HashOf)
    requires PartlyRetained(m, before, {}, gone, hash)
    ensures NonEmpty(m) == RetainAll(before, gone, hash)
  {
  }

  lemma {:induction false} SumDropEmpty(m: Senders)
    ensures Stored(NonEmpty(m)) == Stored(m)
    decreases |m|
  {
    if m.Keys != {} {
      var k :| k in m;
      SumDropEmpty(m - {k});
      SumRemove(m, Length(), k);
      assert NonEmpty(m) - {k} == NonEmpty(m - {k});
      if m[k] != [] {
        SumRemove(NonEmpty(m), Length(), k);
      } else {
        assert NonEmpty(m) - {k} == NonEmpty(m);
      }
    }
  }

  // ---------- the pool ----------

  class TransactionPool {
    const limits: Limits
    const hash: HashOf
    const verifies: Verifier
    var bySender: Senders
    var known: set<Bytes32>
    var total: nat

    ghost function Value(): Pool
      reads this
    {
      Pool(bySender, known, total)
    }

    ghost predicate Valid()
      reads this
    {
      Agrees(Value(), limits, hash, verifies)
    }

    constructor (limits: Limits, hash: HashOf, verifies: Verifier)
      ensures Valid() && Value() == EMPTY_POOL
      ensures this.limits == limits && this.hash == hash && this.verifies == verifies
    {
      this.limits, this.hash, this.verifies := limits, hash, verifies;
      bySender, known, total := map[], {}, 0;
    }

    method AddTransaction(tx: Transaction) returns (error: Option<MempoolError>)
      requires Valid()
      modifies this
      ensures Valid() && error == Refusal(old(Value()), limits, tx, hash, verifies)
      ensures Value() == Add(old(Value()), limits, tx, hash, verifies)
    {
      AddAgrees(Value(), limits, tx, hash, verifies);
      error := Admit(tx);
    }

    /** The body of `add_transaction`. */
    method Admit(tx: Transaction) returns (error: Option<MempoolError>)
      modifies this
      ensures error == Refusal(old(Value()), limits, tx, hash, verifies)
      ensures Value() == Add(old(Value()), limits, tx, hash, verifies)
    {
      if !WellFormed(tx) {
        return Some(InvalidTransaction);
      }
      if !verifies(tx) {
        return Some(InvalidSignature);
      }
      if total >= limits.maxSize {
        return Some(PoolFull);
      }
      var h := hash(tx);
      if h in known {
        return Some(DuplicateTransaction);
      }
      if tx.from !in bySender {
        bySender := bySender[tx.from := []];
      }
      if |bySender[tx.from]| >= limits.maxPerAccount {
        return Some(PoolFull);
      }
      bySender := bySender[tx.from := bySender[tx.from] + [Pending(tx, total, tx.amount)]];
      known := known + {h};
      total := total + 1;
      return None;
    }

    method RemoveCommittedTransactions(hashes: seq<Bytes32>)
      requires Valid()
      modifies this
      ensures Valid() && Value() == RemoveCommitted(old(Value()), Listed(hashes), hash)
    {
      RemoveAgrees(Value(), limits, Listed(hashes), hash, verifies);
      Drop(hashes);
    }

    /** The body of `remove_committed`. */
    method Drop(hashes: seq<Bytes32>)
      requires total == Stored(bySender)
      modifies this
      ensures Value() == RemoveCommitted(old(Value()), Listed(hashes), hash)
    {
      DropEntries(Listed(hashes));
      for i := 0 to |hashes|
        invariant known == old(known) - Listed(hashes[..i])
        invariant bySender == RetainAll(old(bySender), Listed(hashes), hash) && total == Stored(bySender)
      {
        known := known - {hashes[i]};
        assert Listed(hashes[..i + 1]) == Listed(hashes[..i]) + {hashes[i]};
      }
      assert hashes[..|hashes|] == hashes;
    }

    method DropEntries(gone: set<Bytes32>)
      requires total == Stored(bySender)
      modifies this`bySender, this`total
      ensures bySender == RetainAll(old(bySender), gone, hash) && total == Stored(bySender)
    {
      ghost var before := bySender;
      var todo := bySender.Keys;
      while todo != {}
        invariant Dropping(bySender, total, before, todo, gone, hash)
        decreases |todo|
      {
        var s :| s in todo;
        var kept := Retain(bySender[s], gone, hash);
        RetainOne(bySender, total, before, todo, gone, hash, s);
        total := total - (|bySender[s]| - |kept|);
        bySender := bySender[s := kept];
        todo := todo - {s};
      }
      SumDropEmpty(bySender);
      AllRetained(bySender, before, gone, hash);
      bySender := NonEmpty(bySender);
    }

    method GetPendingOrdered(max: nat) returns (txs: seq<Transaction>, ghost picked: seq<Pending>)
      requires Valid()
      ensures txs == Transactions(picked) && BestOf(picked, bySender, max, hash)
    {
      var all: seq<Pending>, rest := [], bySender;
      while rest.Keys != {}
        invariant Collected(all, bySender, rest, hash)
        decreases |rest|
      {
        var s :| s in rest.Keys;
        CollectOne(all, bySender, rest, hash, s);
        all := all + rest[s];
        rest := rest - {s};
      }
      assert rest == map[];
      var sorted := Sort(all);
      FrontIsBest(all, sorted, bySender, max, hash);
      var front := sorted[..if |sorted| <= max then |sorted| else max];
      txs, picked := Transactions(front), front;
    }

    method Contains(h: Bytes32) returns (found: bool)
      requires Valid()
      ensures found <==> Holds(bySender, h, hash)
    {
      found := h in known;
    }

    method Clear()
      modifies this
      ensures Valid() && Value() == EMPTY_POOL
    {
      bySender, known, total := map[], {}, 0;
    }
  }
}

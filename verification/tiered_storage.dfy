/** Hot LRU cache over warm and cold stores (runtime/storage/src/lru_cache.rs, tiered.rs).

    The stores are maps whose I/O succeeds; locks mean that operations run one at a time. */
module TieredStores {
  import opened Words

  // ---------- recency lists ----------

  function Drop<K(==)>(s: seq<K>, k: K): (r: seq<K>) {
    if s == [] then [] else (if s[0] == k then [] else [s[0]]) + Drop(s[1..], k)
  }

  function DropAll<K(==)>(s: seq<K>, ks: seq<K>): seq<K>
    decreases |ks|
  {
    if ks == [] then s else DropAll(Drop(s, ks[0]), ks[1..])
  }

  ghost predicate Distinct<K>(s: seq<K>) { forall i, j :: 0 <= i < j < |s| ==> s[i] != s[j] }

  lemma {:induction false} DropConcat<K>(a: seq<K>, b: seq<K>, k: K)
    ensures Drop(a + b, k) == Drop(a, k) + Drop(b, k)
  {
    if a == [] {
      assert a + b == b;
    } else {
      assert (a + b)[1..] == a[1..] + b;
      DropConcat(a[1..], b, k);
    }
  }

  /** What `Drop` removes and what it keeps. */
  lemma {:induction false} DropFacts<K>(s: seq<K>, k: K)
    ensures k !in Drop(s, k)
    ensures forall x :: x in Drop(s, k) <==> x in s && x != k
    ensures k !in s ==> Drop(s, k) == s
    ensures |Drop(s, k)| <= |s| && (k in s ==> |Drop(s, k)| < |s|)
  {
    if s != [] {
      DropFacts(s[1..], k);
      assert s == [s[0]] + s[1..];
    }
  }

  lemma {:induction false} DropDistinct<K>(s: seq<K>, k: K)
    requires Distinct(s)
    ensures Distinct(Drop(s, k))
  {
    if s != [] {
      DropDistinct(s[1..], k);
      DropFacts(s[1..], k);
      assert s[0] !in s[1..] by {
        assert forall i :: 0 <= i < |s[1..]| ==> s[1..][i] == s[i + 1] && s[0] != s[i + 1];
      }
      assert s[0] !in Drop(s[1..], k);
    }
  }

  lemma DropPrefix<K>(a: seq<K>, b: seq<K>, k: K)
    requires a <= b
    ensures Drop(a, k) <= Drop(b, k)
  {
    assert b == a + b[|a|..];
    DropConcat(a, b[|a|..], k);
  }

  // ---------- the hot cache ----------

  datatype Entry<K, V> = Entry(key: K, value: V)

  /** Most recently used first. */
  function Keys<K, V>(es: seq<Entry<K, V>>): (ks: seq<K>)
    ensures |ks| == |es|
    ensures forall i :: 0 <= i < |es| ==> ks[i] == es[i].key
  {
    seq(|es|, i requires 0 <= i < |es| => es[i].key)
  }

  function Without<K(==), V>(es: seq<Entry<K, V>>, k: K): seq<Entry<K, V>> {
    if es == [] then [] else (if es[0].key == k then [] else [es[0]]) + Without(es[1..], k)
  }

  lemma {:induction false} WithoutKeys<K, V>(es: seq<Entry<K, V>>, k: K)
    ensures Keys(Without(es, k)) == Drop(Keys(es), k)
  {
    if es != [] {
      WithoutKeys(es[1..], k);
      assert Keys(es)[1..] == Keys(es[1..]);
    }
  }

  lemma {:induction false} WithoutEntry<K, V>(es: seq<Entry<K, V>>, k: K, e: Entry<K, V>)
    ensures e in Without(es, k) <==> e in es && e.key != k
  {
    if es != [] {
      WithoutEntry(es[1..], k, e);
      assert es == [es[0]] + es[1..];
    }
  }

  function Find<K(==), V>(es: seq<Entry<K, V>>, k: K): (r: Option<V>)
    ensures r.Some? <==> k in Keys(es)
    ensures r.Some? ==> Entry(k, r.value) in es
  {
    if es == [] then None
    else if es[0].key == k then Some(es[0].value)
    else
      assert Keys(es)[1..] == Keys(es[1..]);
      assert Keys(es) == [es[0].key] + Keys(es[1..]);
      Find(es[1..], k)
  }

  /** Moves `k` to the front with value `v`. */
  function Touch<K(==), V>(es: seq<Entry<K, V>>, k: K, v: V): seq<Entry<K, V>> { [Entry(k, v)] + Without(es, k) }

  function HotGet<K(==), V>(es: seq<Entry<K, V>>, k: K): seq<Entry<K, V>> {
    match Find(es, k)
    case Some(v) => Touch(es, k, v)
    case None => es
  }

  /** The entry a `put` of a new key pushes out of a full cache. */
  function Evicted<K(==), V>(es: seq<Entry<K, V>>, cap: nat, k: K): Option<Entry<K, V>> {
    if k !in Keys(es) && |es| >= cap && es != [] then Some(es[|es| - 1]) else None
  }

  function HotPut<K(==), V>(es: seq<Entry<K, V>>, cap: nat, k: K, v: V): seq<Entry<K, V>> {
    if Evicted(es, cap, k).Some? then Touch(es[..|es| - 1], k, v) else Touch(es, k, v)
  }

  class HotCache<K(==), V(==)> {
    const capacity: nat
    var entries: seq<Entry<K, V>>

    ghost predicate Valid()
      reads this
    {
      Distinct(Keys(entries)) && |entries| <= capacity && capacity > 0
    }

    constructor (capacity: nat)
      requires capacity > 0
      ensures Valid() && this.capacity == capacity && entries == []
    {
      this.capacity := capacity;
      entries := [];
    }

    /** A hit makes the key the most recently used. */
    method Get(k: K) returns (r: Option<V>)
      requires Valid()
      modifies this
      ensures Valid()
      ensures r == Find(old(entries), k) && entries == HotGet(old(entries), k)
    {
      r := Find(entries, k);
      if r.Some? {
        TouchDistinct(entries, k, r.value);
        entries := Touch(entries, k, r.value);
      }
    }

    /** Returns what the eviction callback is given. */
    method Put(k: K, v: V) returns (evicted: Option<Entry<K, V>>)
      requires Valid()
      modifies this
      ensures Valid()
      ensures evicted == Evicted(old(entries), capacity, k) && entries == HotPut(old(entries), capacity, k, v)
    {
      evicted := None;
      if k in Keys(entries) {
        TouchDistinct(entries, k, v);
        entries := Touch(entries, k, v);
        return;
      }
      if |entries| >= capacity {
        evicted := Some(entries[|entries| - 1]);
        assert Keys(entries[..|entries| - 1]) == Keys(entries)[..|entries| - 1];
        entries := entries[..|entries| - 1];
      }
      TouchDistinct(entries, k, v);
      entries := Touch(entries, k, v);
    }

    method Remove(k: K) returns (r: Option<V>)
      requires Valid()
      modifies this
      ensures Valid()
      ensures r == Find(old(entries), k) && entries == Without(old(entries), k)
    {
      r := Find(entries, k);
      WithoutKeys(entries, k);
      DropFacts(Keys(entries), k);
      DropDistinct(Keys(entries), k);
      entries := Without(entries, k);
    }
  }

  /** A put keeps keys distinct and the cache within capacity, and the rest in order. */
  lemma HotPutKeys<K, V>(es: seq<Entry<K, V>>, cap: nat, k: K, v: V)
    requires Distinct(Keys(es)) && |es| <= cap && cap > 0
    ensures var r := HotPut(es, cap, k, v);
            Distinct(Keys(r)) && |r| <= cap && Keys(r) <= [k] + Drop(Keys(es), k)
  {
    var kept := if Evicted(es, cap, k).Some? then es[..|es| - 1] else es;
    assert Keys(kept) <= Keys(es);
    TouchDistinct(kept, k, v);
    DropPrefix(Keys(kept), Keys(es), k);
  }

  lemma HotPutEntries<K, V>(es: seq<Entry<K, V>>, cap: nat, k: K, v: V, e: Entry<K, V>)
    requires e in HotPut(es, cap, k, v)
    ensures e == Entry(k, v) || (e in es && e.key != k)
  {
    var kept := if Evicted(es, cap, k).Some? then es[..|es| - 1] else es;
    WithoutEntry(kept, k, e);
    assert e in kept ==> e in es;
  }

  lemma TouchDistinct<K, V>(es: seq<Entry<K, V>>, k: K, v: V)
    requires Distinct(Keys(es))
    ensures Distinct(Keys(Touch(es, k, v)))
    ensures Keys(Touch(es, k, v)) == [k] + Drop(Keys(es), k)
    ensures |Touch(es, k, v)| <= |es| + 1 && (k in Keys(es) ==> |Touch(es, k, v)| <= |es|)
  {
    WithoutKeys(es, k);
    DropFacts(Keys(es), k);
    DropDistinct(Keys(es), k);
    assert Keys(Touch(es, k, v)) == [k] + Keys(Without(es, k));
  }

  // ---------- the three tiers ----------

  datatype Tiers<K, V> = Tiers(capacity: nat, hot: seq<Entry<K, V>>, warm: map<K, V>, cold: map<K, V>)

  /** What is stored once the cache is ignored. */
  function Durable<K, V>(t: Tiers<K, V>): map<K, V> { t.cold + t.warm }

  /** The cache never holds anything the stores would not answer. */
  ghost predicate Coherent<K, V>(t: Tiers<K, V>) {
    && t.capacity > 0 && |t.hot| <= t.capacity && Distinct(Keys(t.hot))
    && Backed(t.hot, Durable(t))
  }

  ghost predicate Backed<K, V>(es: seq<Entry<K, V>>, m: map<K, V>) {
    forall e :: e in es ==> MapGet(m, e.key) == Some(e.value)
  }

  lemma WithoutBacked<K, V>(es: seq<Entry<K, V>>, m: map<K, V>, k: K)
    requires Backed(es, m)
    ensures Backed(Without(es, k), m)
  {
    forall e | e in Without(es, k)
      ensures MapGet(m, e.key) == Some(e.value)
    {
      WithoutEntry(es, k, e);
    }
  }

  /** A write to the hot tier, with the eviction callback writing back to the warm one. */
  function PutHot<K(==), V>(t: Tiers<K, V>, k: K, v: V): Tiers<K, V> {
    match Evicted(t.hot, t.capacity, k)
    case Some(e) => t.(hot := HotPut(t.hot, t.capacity, k, v), warm := t.warm[e.key := e.value])
    case None => t.(hot := HotPut(t.hot, t.capacity, k, v))
  }

  function MapGet<K, V>(m: map<K, V>, k: K): Option<V> { if k in m then Some(m[k]) else None }

  function Or<V>(a: Option<V>, b: Option<V>): Option<V> { if a.Some? then a else b }

  function GetStep<K(==), V>(t: Tiers<K, V>, k: K): (Tiers<K, V>, Option<V>) {
    if Find(t.hot, k).Some? then (t.(hot := HotGet(t.hot, k)), Find(t.hot, k))
    else if k in t.warm then (PutHot(t, k, t.warm[k]), Some(t.warm[k]))
    else if k in t.cold then (PutHot(t, k, t.cold[k]), Some(t.cold[k]))
    else (t, None)
  }

  function PutStep<K(==), V>(t: Tiers<K, V>, k: K, v: V): Tiers<K, V> { PutHot(t.(warm := t.warm[k := v]), k, v) }

  function RemoveStep<K(==), V>(t: Tiers<K, V>, k: K): (Tiers<K, V>, Option<V>) {
    (t.(hot := Without(t.hot, k), warm := t.warm - {k}, cold := t.cold - {k}),
     Or(Find(t.hot, k), Or(MapGet(t.warm, k), MapGet(t.cold, k))))
  }

  function ArchiveStep<K(==), V>(t: Tiers<K, V>, k: K): (Tiers<K, V>, bool) {
    if k in t.warm then (t.(warm := t.warm - {k}, cold := t.cold[k := t.warm[k]]), true) else (t, false)
  }

  function Uncache<K(==), V>(t: Tiers<K, V>, k: K): Tiers<K, V> { t.(hot := Without(t.hot, k)) }

  /** One turn of the loop in `archive_keys`. */
  function ArchiveOne<K(==), V>(t: Tiers<K, V>, k: K): Tiers<K, V> { ArchiveStep(Uncache(t, k), k).0 }

  function ArchiveAll<K(==), V>(t: Tiers<K, V>, ks: seq<K>): Tiers<K, V> {
    if ks == [] then t else ArchiveOne(ArchiveAll(t, ks[..|ks| - 1]), ks[|ks| - 1])
  }

  class TieredStorage<K(==), V(==)> {
    const hot: HotCache<K, V>
    var warm: map<K, V>
    var cold: map<K, V>

    ghost function Value(): Tiers<K, V>
      reads this, hot
    {
      Tiers(hot.capacity, hot.entries, warm, cold)
    }

    /** `new` opens what the two directories already hold; the cache starts empty. */
    constructor (capacity: nat, warm: map<K, V>, cold: map<K, V>)
      requires capacity > 0
      ensures fresh(hot) && Value() == Tiers(capacity, [], warm, cold)
      ensures Represents(Value(), Plain(cold + warm, []))
    {
      hot := new HotCache(capacity);
      this.warm, this.cold := warm, cold;
    }

    /** The cache write together with its eviction callback. */
    method PutInHot(k: K, v: V)
      requires hot.Valid()
      modifies this`warm, hot
      ensures hot.Valid() && Value() == PutHot(old(Value()), k, v)
    {
      var evicted := hot.Put(k, v);
      if evicted.Some? {
        warm := warm[evicted.value.key := evicted.value.value];
      }
    }

    /** `get`: the stored value, whichever tier has it; the stored map does not change. */
    method Get(k: K) returns (r: Option<V>)
      requires Coherent(Value())
      modifies this`warm, hot
      ensures Coherent(Value()) && (Value(), r) == GetStep(old(Value()), k)
      ensures r == MapGet(old(Durable(Value())), k) && Durable(Value()) == old(Durable(Value()))
    {
      GetRefines(Value(), k);
      r := hot.Get(k);
      if r.Some? {
        return;
      }
      if k in warm {
        r := Some(warm[k]);
        PutInHot(k, warm[k]);
        return;
      }
      if k in cold {
        r := Some(cold[k]);
        PutInHot(k, cold[k]);
        return;
      }
      r := None;
    }

    /** `put`: the stored map gains exactly this binding. */
    method Put(k: K, v: V)
      requires Coherent(Value())
      modifies this`warm, hot
      ensures Coherent(Value()) && Value() == PutStep(old(Value()), k, v)
      ensures Durable(Value()) == old(Durable(Value()))[k := v]
    {
      PutRefines(Value(), k, v);
      warm := warm[k := v];
      PutInHot(k, v);
    }

    /** `remove`: the key leaves every tier; its value is returned. */
    method Remove(k: K) returns (r: Option<V>)
      requires Coherent(Value())
      modifies this`warm, this`cold, hot
      ensures Coherent(Value()) && (Value(), r) == RemoveStep(old(Value()), k)
      ensures r == MapGet(old(Durable(Value())), k) && Durable(Value()) == old(Durable(Value())) - {k}
    {
      RemoveRefines(Value(), k);
      var hotVal := hot.Remove(k);
      var warmVal, coldVal := MapGet(warm, k), MapGet(cold, k);
      warm := warm - {k};
      cold := cold - {k};
      r := Or(hotVal, Or(warmVal, coldVal));
    }

    /** `archive_key`: warm to cold, invisible to readers. */
    method ArchiveKey(k: K) returns (moved: bool)
      requires Coherent(Value())
      modifies this`warm, this`cold
      ensures Coherent(Value()) && (Value(), moved) == ArchiveStep(old(Value()), k)
      ensures Durable(Value()) == old(Durable(Value()))
    {
      ArchiveRefines(Value(), k);
      if k in warm {
        var v := warm[k];
        warm := warm - {k};
        cold := cold[k := v];
        return true;
      }
      return false;
    }

    /** One turn of the loop in `archive_keys`. */
    method EvictAndArchive(k: K) returns (moved: bool)
      requires Coherent(Value())
      modifies this`warm, this`cold, hot
      ensures Coherent(Value()) && Value() == ArchiveOne(old(Value()), k)
      ensures Durable(Value()) == old(Durable(Value()))
      ensures moved <==> k in old(warm)
    {
      UncacheCoherent(Value(), k);
      var _ := hot.Remove(k);
      moved := ArchiveKey(k);
    }

    /** `archive_keys`: as above for each key, dropping it from the cache. */
    method ArchiveKeys(ks: seq<K>) returns (count: nat)
      requires Coherent(Value())
      modifies this`warm, this`cold, hot
      ensures Coherent(Value()) && Value() == ArchiveAll(old(Value()), ks)
      ensures Durable(Value()) == old(Durable(Value()))
      ensures count == |old(warm).Keys * ToSet(ks)|
    {
      ghost var start := Value();
      count := 0;
      ArchivedNone(start, ks);
      for i := 0 to |ks|
        invariant Coherent(Value()) && Durable(Value()) == Durable(start)
        invariant ArchivedUpTo(start, Value(), ks, i, count)
      {
        ArchivedOneMore(start, Value(), ks, i, count);
        var moved := EvictAndArchive(ks[i]);
        if moved {
          count := count + 1;
        }
      }
      assert ks[..|ks|] == ks;
    }
  }

  // ---------- each operation against the map ----------

  /** Writing back an entry the stores already agree with changes nothing readers can see. */
  lemma WriteBackInvisible<K, V>(cold: map<K, V>, warm: map<K, V>, k: K, v: V)
    requires MapGet(cold + warm, k) == Some(v)
    ensures cold + warm[k := v] == cold + warm
  {
  }

  lemma PutHotRefines<K, V>(t: Tiers<K, V>, k: K, v: V)
    requires t.capacity > 0 && |t.hot| <= t.capacity && Distinct(Keys(t.hot))
    requires MapGet(Durable(t), k) == Some(v)
    requires forall e :: e in t.hot && e.key != k ==> MapGet(Durable(t), e.key) == Some(e.value)
    ensures Coherent(PutHot(t, k, v)) && Durable(PutHot(t, k, v)) == Durable(t)
    ensures Keys(PutHot(t, k, v).hot) <= [k] + Drop(Keys(t.hot), k)
  {
    HotPutKeys(t.hot, t.capacity, k, v);
    forall e | e in HotPut(t.hot, t.capacity, k, v)
      ensures MapGet(Durable(t), e.key) == Some(e.value)
    {
      HotPutEntries(t.hot, t.capacity, k, v, e);
    }
    var e := Evicted(t.hot, t.capacity, k);
    if e.Some? {
      assert e.value in t.hot && e.value.key in Keys(t.hot);
      WriteBackInvisible(t.cold, t.warm, e.value.key, e.value.value);
    }
  }

  lemma CoherentFind<K, V>(t: Tiers<K, V>, k: K)
    requires Coherent(t)
    ensures Find(t.hot, k).Some? ==> Find(t.hot, k) == MapGet(Durable(t), k)
  {
  }

  lemma TouchRefines<K, V>(t: Tiers<K, V>, k: K, v: V)
    requires Coherent(t) && Find(t.hot, k) == Some(v)
    ensures Coherent(t.(hot := Touch(t.hot, k, v)))
    ensures Keys(Touch(t.hot, k, v)) == [k] + Drop(Keys(t.hot), k)
  {
    CoherentFind(t, k);
    TouchDistinct(t.hot, k, v);
    WithoutBacked(t.hot, Durable(t), k);
  }

  lemma GetRefines<K, V>(t: Tiers<K, V>, k: K)
    requires Coherent(t)
    ensures Coherent(GetStep(t, k).0) && Durable(GetStep(t, k).0) == Durable(t)
    ensures GetStep(t, k).1 == MapGet(Durable(t), k)
    ensures Keys(GetStep(t, k).0.hot) <= if k in Durable(t) then [k] + Drop(Keys(t.hot), k) else Keys(t.hot)
  {
    CoherentFind(t, k);
    match Find(t.hot, k)
    case Some(v) => TouchRefines(t, k, v);
    case None =>
      if k in t.warm {
        PutHotRefines(t, k, t.warm[k]);
      } else if k in t.cold {
        PutHotRefines(t, k, t.cold[k]);
      }
  }

  /** A put may find an outdated value cached; it is replaced before anyone reads it. */
  lemma PutRefines<K, V>(t: Tiers<K, V>, k: K, v: V)
    requires Coherent(t)
    ensures Coherent(PutStep(t, k, v)) && Durable(PutStep(t, k, v)) == Durable(t)[k := v]
    ensures Keys(PutStep(t, k, v).hot) <= [k] + Drop(Keys(t.hot), k)
  {
    var w := t.(warm := t.warm[k := v]);
    assert Durable(w) == Durable(t)[k := v];
    PutHotRefines(w, k, v);
  }

  lemma RemoveRefines<K, V>(t: Tiers<K, V>, k: K)
    requires Coherent(t)
    ensures Coherent(RemoveStep(t, k).0) && Durable(RemoveStep(t, k).0) == Durable(t) - {k}
    ensures RemoveStep(t, k).1 == MapGet(Durable(t), k)
    ensures Keys(RemoveStep(t, k).0.hot) == Drop(Keys(t.hot), k)
  {
    CoherentFind(t, k);
    UncacheCoherent(t, k);
    assert Durable(RemoveStep(t, k).0) == Durable(t) - {k};
    forall e | e in Without(t.hot, k)
      ensures MapGet(Durable(t) - {k}, e.key) == Some(e.value)
    {
      WithoutEntry(t.hot, k, e);
    }
  }

  lemma ArchiveRefines<K, V>(t: Tiers<K, V>, k: K)
    requires Coherent(t)
    ensures Coherent(ArchiveStep(t, k).0) && Durable(ArchiveStep(t, k).0) == Durable(t)
    ensures ArchiveStep(t, k).0.hot == t.hot
  {
  }

  lemma UncacheCoherent<K, V>(t: Tiers<K, V>, k: K)
    requires Coherent(t)
    ensures Coherent(Uncache(t, k)) && Durable(Uncache(t, k)) == Durable(t)
    ensures Keys(Without(t.hot, k)) == Drop(Keys(t.hot), k)
  {
    WithoutKeys(t.hot, k);
    WithoutBacked(t.hot, Durable(t), k);
    DropFacts(Keys(t.hot), k);
    DropDistinct(Keys(t.hot), k);
  }

  lemma {:induction false} DropAllLast<K>(s: seq<K>, ks: seq<K>, k: K)
    ensures DropAll(s, ks + [k]) == Drop(DropAll(s, ks), k)
    decreases |ks|
  {
    if ks != [] {
      assert (ks + [k])[1..] == ks[1..] + [k];
      DropAllLast(Drop(s, ks[0]), ks[1..], k);
    }
  }

  lemma {:induction false} ArchiveAllRefines<K, V>(t: Tiers<K, V>, ks: seq<K>)
    requires Coherent(t)
    ensures var r := ArchiveAll(t, ks);
            Coherent(r) && Durable(r) == Durable(t) && Keys(r.hot) == DropAll(Keys(t.hot), ks)
    decreases |ks|
  {
    if ks != [] {
      var init, k := ks[..|ks| - 1], ks[|ks| - 1];
      ArchiveAllRefines(t, init);
      var mid := ArchiveAll(t, init);
      UncacheCoherent(mid, k);
      ArchiveRefines(Uncache(mid, k), k);
      assert ks == init + [k];
      DropAllLast(Keys(t.hot), init, k);
    }
  }

  function ToSet<K>(ks: seq<K>): set<K> { set k | k in ks }

  lemma ToSetLast<K>(init: seq<K>, k: K)
    ensures ToSet(init + [k]) == ToSet(init) + {k}
  {
  }

  lemma CountOneMore<K>(w: set<K>, s: set<K>, k: K)
    ensures |w * (s + {k})| == |w * s| + if k in w - s then 1 else 0
  {
    if k in w - s {
      assert w * (s + {k}) == w * s + {k};
    } else {
      assert w * (s + {k}) == w * s;
    }
  }

  /** Exactly the listed keys leave the warm tier. */
  lemma {:induction false} ArchiveAllWarm<K, V>(t: Tiers<K, V>, ks: seq<K>)
    ensures ArchiveAll(t, ks).warm == t.warm - ToSet(ks)
    decreases |ks|
  {
    if ks == [] {
      assert ToSet(ks) == {};
    } else {
      var init, k := ks[..|ks| - 1], ks[|ks| - 1];
      ArchiveAllWarm(t, init);
      assert ks == init + [k];
      ToSetLast(init, k);
      assert ArchiveAll(t, ks).warm == ArchiveAll(t, init).warm - {k};
    }
  }

  /** One more key archived, and one more counted exactly when it was still warm. */
  lemma {:induction false} ArchiveAllLast<K, V>(t: Tiers<K, V>, init: seq<K>, k: K)
    ensures ArchiveAll(t, init + [k]) == ArchiveOne(ArchiveAll(t, init), k)
    ensures |t.warm.Keys * ToSet(init + [k])| == |t.warm.Keys * ToSet(init)| + if k in ArchiveAll(t, init).warm then 1 else 0
  {
    assert (init + [k])[..|init|] == init;
    ArchiveAllWarm(t, init);
    ToSetLast(init, k);
    CountOneMore(t.warm.Keys, ToSet(init), k);
  }

  /** `now` is the state, and `count` the tally, after the first `i` keys. */
  ghost predicate ArchivedUpTo<K, V>(start: Tiers<K, V>, now: Tiers<K, V>, ks: seq<K>, i: nat, count: nat) {
    i <= |ks| && now == ArchiveAll(start, ks[..i]) && count == |start.warm.Keys * ToSet(ks[..i])|
  }

  lemma {:induction false} ArchivedNone<K, V>(start: Tiers<K, V>, ks: seq<K>)
    ensures ArchivedUpTo(start, start, ks, 0, 0)
  {
    assert ks[..0] == [] && start.warm.Keys * ToSet<K>([]) == {};
  }

  lemma {:induction false} ArchivedOneMore<K, V>(start: Tiers<K, V>, now: Tiers<K, V>, ks: seq<K>, i: nat, count: nat)
    requires i < |ks| && ArchivedUpTo(start, now, ks, i, count)
    ensures ArchivedUpTo(start, ArchiveOne(now, ks[i]), ks, i + 1, count + if ks[i] in now.warm then 1 else 0)
  {
    assert ks[..i + 1] == ks[..i] + [ks[i]];
    ArchiveAllLast(start, ks[..i], ks[i]);
  }

  // ---------- every run ----------

  datatype Op<K, V> = Get(k: K) | Put(k: K, v: V) | Remove(k: K) | ArchiveKey(k: K) | ArchiveKeys(ks: seq<K>)

  /** The reference: one map, and the keys in order of last use since they were removed or archived. */
  datatype Plain<K, V> = Plain(contents: map<K, V>, recent: seq<K>)

  function PlainStep<K(==), V>(p: Plain<K, V>, op: Op<K, V>): (Plain<K, V>, Option<V>) {
    match op
    case Get(k) =>
      (if k in p.contents then p.(recent := [k] + Drop(p.recent, k)) else p, MapGet(p.contents, k))
    case Put(k, v) => (Plain(p.contents[k := v], [k] + Drop(p.recent, k)), None)
    case Remove(k) => (Plain(p.contents - {k}, Drop(p.recent, k)), MapGet(p.contents, k))
    case ArchiveKey(_) => (p, None)
    case ArchiveKeys(ks) => (p.(recent := DropAll(p.recent, ks)), None)
  }

  function TierStep<K(==), V>(t: Tiers<K, V>, op: Op<K, V>): (Tiers<K, V>, Option<V>) {
    match op
    case Get(k) => GetStep(t, k)
    case Put(k, v) => (PutStep(t, k, v), None)
    case Remove(k) => RemoveStep(t, k)
    case ArchiveKey(k) => (ArchiveStep(t, k).0, None)
    case ArchiveKeys(ks) => (ArchiveAll(t, ks), None)
  }

  function RunPlain<K(==), V>(p: Plain<K, V>, ops: seq<Op<K, V>>): (Plain<K, V>, seq<Option<V>>)
    decreases |ops|
  {
    if ops == [] then (p, [])
    else
      var one := PlainStep(p, ops[0]);
      var rest := RunPlain(one.0, ops[1..]);
      (rest.0, [one.1] + rest.1)
  }

  function RunTiers<K(==), V>(t: Tiers<K, V>, ops: seq<Op<K, V>>): (Tiers<K, V>, seq<Option<V>>)
    decreases |ops|
  {
    if ops == [] then (t, [])
    else
      var one := TierStep(t, ops[0]);
      var rest := RunTiers(one.0, ops[1..]);
      (rest.0, [one.1] + rest.1)
  }

  /** The tiers hold the map, and the cache holds its most recently used keys, most recent first. */
  ghost predicate Represents<K, V>(t: Tiers<K, V>, p: Plain<K, V>) {
    Coherent(t) && Durable(t) == p.contents && Keys(t.hot) <= p.recent
  }

  lemma {:induction false} DropAllPrefix<K>(s: seq<K>, r: seq<K>, ks: seq<K>)
    requires s <= r
    ensures DropAll(s, ks) <= DropAll(r, ks)
    decreases |ks|
  {
    if ks != [] {
      DropPrefix(s, r, ks[0]);
      DropAllPrefix(Drop(s, ks[0]), Drop(r, ks[0]), ks[1..]);
    }
  }

  lemma StepRefines<K, V>(t: Tiers<K, V>, p: Plain<K, V>, op: Op<K, V>)
    requires Represents(t, p)
    ensures TierStep(t, op).1 == PlainStep(p, op).1
    ensures Represents(TierStep(t, op).0, PlainStep(p, op).0)
  {
    match op
    case Get(k) =>
      GetRefines(t, k);
      DropPrefix(Keys(t.hot), p.recent, k);
    case Put(k, v) =>
      PutRefines(t, k, v);
      DropPrefix(Keys(t.hot), p.recent, k);
    case Remove(k) =>
      RemoveRefines(t, k);
      DropPrefix(Keys(t.hot), p.recent, k);
    case ArchiveKey(k) =>
      ArchiveRefines(t, k);
    case ArchiveKeys(ks) =>
      ArchiveAllRefines(t, ks);
      DropAllPrefix(Keys(t.hot), p.recent, ks);
  }

  /** Over every run of operations the tiers answer as one plain map, no eviction, promotion or
      archiving ever shows, and the cache is at most `capacity` keys long and is always the front
      of the list of keys by last use. */
  lemma {:induction false} StorageIsAMap<K, V>(t: Tiers<K, V>, p: Plain<K, V>, ops: seq<Op<K, V>>)
    requires Represents(t, p)
    ensures RunTiers(t, ops).1 == RunPlain(p, ops).1
    ensures Represents(RunTiers(t, ops).0, RunPlain(p, ops).0)
    decreases |ops|
  {
    if ops != [] {
      StepRefines(t, p, ops[0]);
      StorageIsAMap(TierStep(t, ops[0]).0, PlainStep(p, ops[0]).0, ops[1..]);
    }
  }

  /** A key is evicted only from a full cache, and it is the least recently used of those in it. */
  lemma EvictsLeastRecent<K, V>(t: Tiers<K, V>, p: Plain<K, V>, k: K, e: Entry<K, V>)
    requires Represents(t, p) && Evicted(t.hot, t.capacity, k) == Some(e)
    ensures |t.hot| == t.capacity <= |p.recent| && p.recent[t.capacity - 1] == e.key
    ensures forall i :: 0 <= i < |t.hot| && t.hot[i].key != e.key ==> t.hot[i].key in p.recent[..t.capacity - 1]
  {
    assert Keys(t.hot)[t.capacity - 1] == e.key;
    forall i | 0 <= i < |t.hot| && t.hot[i].key != e.key
      ensures t.hot[i].key in p.recent[..t.capacity - 1]
    {
      assert p.recent[i] == Keys(t.hot)[i] == t.hot[i].key;
    }
  }

  // ---------- what is where ----------

  /** The first `n` keys, or all if there are fewer. */
  function Front<K>(ks: seq<K>, n: nat): seq<K> { if |ks| <= n then ks else ks[..n] }

  lemma TouchFinds<K, V>(es: seq<Entry<K, V>>, k: K, v: V)
    ensures Find(Touch(es, k, v), k) == Some(v)
  {
  }

  /** Without room, the last key makes way. */
  lemma EvictingKeys<K, V>(es: seq<Entry<K, V>>, cap: nat, k: K, v: V)
    requires Distinct(Keys(es)) && |es| == cap && cap > 0 && k !in Keys(es)
    ensures Keys(Touch(es[..|es| - 1], k, v)) == Front([k] + Drop(Keys(es), k), cap)
  {
    var kept := es[..|es| - 1];
    assert Keys(kept) == Keys(es)[..|es| - 1];
    DropFacts(Keys(es), k);
    DropFacts(Keys(kept), k);
    TouchDistinct(kept, k, v);
  }

  lemma RoomyKeys<K, V>(es: seq<Entry<K, V>>, cap: nat, k: K, v: V)
    requires Distinct(Keys(es)) && |es| <= cap && (|es| < cap || k in Keys(es))
    ensures Keys(Touch(es, k, v)) == Front([k] + Drop(Keys(es), k), cap)
  {
    TouchDistinct(es, k, v);
    DropFacts(Keys(es), k);
  }

  /** A put makes its key the most recent of the cache, which then holds exactly the most recent that fit. */
  lemma HotPutExact<K, V>(es: seq<Entry<K, V>>, cap: nat, k: K, v: V)
    requires Distinct(Keys(es)) && |es| <= cap && cap > 0
    ensures Keys(HotPut(es, cap, k, v)) == Front([k] + Drop(Keys(es), k), cap)
    ensures Find(HotPut(es, cap, k, v), k) == Some(v)
  {
    if Evicted(es, cap, k).Some? {
      EvictingKeys(es, cap, k, v);
      TouchFinds(es[..|es| - 1], k, v);
    } else {
      RoomyKeys(es, cap, k, v);
      TouchFinds(es, k, v);
    }
  }

  /** A key read from any tier is cached as the most recent; a key stored nowhere changes nothing. */
  lemma GetCaches<K, V>(t: Tiers<K, V>, k: K)
    requires Coherent(t)
    ensures var hot := GetStep(t, k).0.hot;
            Keys(hot) == if k in Durable(t) then Front([k] + Drop(Keys(t.hot), k), t.capacity) else Keys(t.hot)
  {
    CoherentFind(t, k);
    match Find(t.hot, k)
    case Some(v) => RoomyKeys(t.hot, t.capacity, k, v);
    case None =>
      if k in Durable(t) {
        HotPutExact(t.hot, t.capacity, k, Durable(t)[k]);
      }
  }

  /** A written key is cached as the most recent, and is in the warm store. */
  lemma PutCaches<K, V>(t: Tiers<K, V>, k: K, v: V)
    requires Coherent(t)
    ensures var r := PutStep(t, k, v);
            && Keys(r.hot) == Front([k] + Drop(Keys(t.hot), k), t.capacity)
            && Find(r.hot, k) == Some(v) && MapGet(r.warm, k) == Some(v) && r.cold == t.cold
  {
    HotPutExact(t.hot, t.capacity, k, v);
    match Evicted(t.hot, t.capacity, k)
    case Some(e) => assert e.key == Keys(t.hot)[|t.hot| - 1];
    case None =>
  }

  /** What a cache write pushes out goes to the warm store, and nothing else about the stores changes. */
  lemma EvictedGoesWarm<K, V>(t: Tiers<K, V>, k: K, v: V)
    ensures var r := PutHot(t, k, v);
            && r.cold == t.cold
            && r.warm == (if |t.hot| > 0 && |t.hot| >= t.capacity && k !in Keys(t.hot)
                          then t.warm[t.hot[|t.hot| - 1].key := t.hot[|t.hot| - 1].value] else t.warm)
  {
  }
}

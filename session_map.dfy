/**
 * The single-threaded meaning of the session store: every operation of
 * `HashSessionStore` as a function from the key-to-value mapping before the
 * call to the mapping after it and the value the caller gets back.
 *
 * The store keeps one independently locked cell per key; once the locks are
 * set aside, that is a plain `map<K, V>`, one entry per distinct key.
 */
module SessionMap {

  datatype Option<+T> = None | Some(value: T)

  /** The store after an operation, and what the operation returned. */
  datatype Outcome<K, V, R> = Outcome(store: map<K, V>, result: R)

  /** `find`: a copy of the value stored under `k`, or `None`. */
  function Find<K, V>(m: map<K, V>, k: K): (r: Option<V>)
  {
    if k in m then Some(m[k]) else None
  }

  /** The empty store, as `HashSessionStore::new` creates it. */
  function Empty<K, V>(): (m: map<K, V>)
    ensures m.Keys == {}
  {
    map[]
  }

  /**
   * `insert`: adds `k` only when it is absent; an entry already present is
   * never overwritten, and no other key is touched.
   */
  function Insert<K, V>(m: map<K, V>, k: K, v: V): (r: map<K, V>)
    ensures k in m ==> r == m
    ensures k !in m ==> Find(r, k) == Some(v)
    ensures r.Keys == m.Keys + {k}
    ensures r - {k} == m - {k}
  {
    if k in m then m else m[k := v]
  }

  /**
   * `swap`: on a hit, replaces the value and returns the previous one; on a
   * miss, behaves as `insert` and returns `None`.
   */
  function Swap<K, V>(m: map<K, V>, k: K, v: V): (r: Outcome<K, V, Option<V>>)
    ensures r.result.Some? <==> k in m
    ensures r.result.Some? ==> r.result.value == m[k]
    ensures Find(r.store, k) == Some(v)
    ensures r.store.Keys == m.Keys + {k}
    ensures r.store - {k} == m - {k}
  {
    match Find(m, k)
    case Some(previous) => Outcome(m[k := v], Some(previous))
    case None => Outcome(Insert(m, k, v), None)
  }

  /**
   * `upsert`: on a hit, applies `mutate` to the stored value in place and
   * returns the value it leaves there; on a miss, stores `default` as it is
   * (the mutator is not applied) and returns it.
   */
  function Upsert<K, V>(m: map<K, V>, k: K, default: V, mutate: V -> V): (r: Outcome<K, V, V>)
    ensures k in m ==> r.result == mutate(m[k])
    ensures k !in m ==> r.result == default
    ensures Find(r.store, k) == Some(r.result)
    ensures r.store.Keys == m.Keys + {k}
    ensures r.store - {k} == m - {k}
  {
    match Find(m, k)
    case Some(current) =>
      var next := mutate(current);
      Outcome(m[k := next], next)
    case None => Outcome(Insert(m, k, default), default)
  }

  /** `remove`: deletes the entry for `k` and reports whether there was one. */
  function Remove<K, V>(m: map<K, V>, k: K): (r: Outcome<K, V, bool>)
    ensures r.result <==> k in m
    ensures Find(r.store, k) == None
    ensures r.store.Keys == m.Keys - {k}
    ensures r.store - {k} == m - {k}
  {
    Outcome(m - {k}, k in m)
  }

  // ---------------------------------------------------------------------
  // How the operations relate to one another

  /** A second `insert` on the same key leaves the first value in place. */
  lemma InsertNeverOverwrites<K, V>(m: map<K, V>, k: K, v1: V, v2: V)
    requires k !in m
    ensures Find(Insert(Insert(m, k, v1), k, v2), k) == Some(v1)
    ensures Insert(Insert(m, k, v1), k, v2) == Insert(m, k, v1)
  {
  }

  /** `remove` undoes an `insert` of a fresh key, and reports the entry. */
  lemma RemoveUndoesInsert<K, V>(m: map<K, V>, k: K, v: V)
    requires k !in m
    ensures Remove(Insert(m, k, v), k) == Outcome(m, true)
  {
  }

  /** `remove` of an absent key is a no-op that reports `false`. */
  lemma RemoveAbsentIsNoOp<K, V>(m: map<K, V>, k: K)
    requires k !in m
    ensures Remove(m, k) == Outcome(m, false)
  {
  }

  /**
   * Whichever branch `swap` takes, the new store holds `v` under `k` and is
   * otherwise the old one: on a miss it is exactly `insert`.
   */
  lemma SwapStoresValue<K, V>(m: map<K, V>, k: K, v: V)
    ensures Swap(m, k, v).store == m[k := v]
    ensures k !in m ==> Swap(m, k, v).store == Insert(m, k, v)
  {
  }

  /** Swapping the previous value back restores the store exactly. */
  lemma SwapBackRestores<K, V>(m: map<K, V>, k: K, v: V)
    requires k in m
    ensures Swap(Swap(m, k, v).store, k, m[k]) == Outcome(m, Some(v))
  {
  }

  /** A swap that stores the value already there still reports it and changes nothing. */
  lemma SwapSameValue<K, V>(m: map<K, V>, k: K)
    requires k in m
    ensures Swap(m, k, m[k]) == Outcome(m, Some(m[k]))
  {
  }

  /** On a hit, `upsert` is a `swap` with the mutated value. */
  lemma UpsertHitIsSwap<K, V>(m: map<K, V>, k: K, default: V, mutate: V -> V)
    requires k in m
    ensures Upsert(m, k, default, mutate).store == Swap(m, k, mutate(m[k])).store
  {
  }

  /** On a miss, `upsert` is an `insert` of the default, whatever the mutator. */
  lemma UpsertMissIgnoresMutator<K, V>(m: map<K, V>, k: K, default: V, f: V -> V, g: V -> V)
    requires k !in m
    ensures Upsert(m, k, default, f) == Upsert(m, k, default, g)
    ensures Upsert(m, k, default, f) == Outcome(Insert(m, k, default), default)
  {
  }

  // ---------------------------------------------------------------------
  // Repeated upserts on one key

  /** `f` applied `n` times to `v`. */
  function Iterate<V>(f: V -> V, v: V, n: nat): (r: V)
    decreases n
  {
    if n == 0 then v else Iterate(f, f(v), n - 1)
  }

  /** The store after `n` upserts in a row with the same key, default and mutator. */
  function UpsertTimes<K, V>(m: map<K, V>, k: K, default: V, mutate: V -> V, n: nat): (r: map<K, V>)
    ensures n > 0 ==> k in r
    ensures r - {k} == m - {k}
    decreases n
  {
    if n == 0 then m
    else UpsertTimes(Upsert(m, k, default, mutate).store, k, default, mutate, n - 1)
  }

  /** On a present key, every one of `n` upserts applies the mutator: no update is lost. */
  lemma {:induction false} UpsertTimesFromPresent<K, V>(m: map<K, V>, k: K, default: V, mutate: V -> V, n: nat)
    requires k in m
    ensures Find(UpsertTimes(m, k, default, mutate, n), k) == Some(Iterate(mutate, m[k], n))
    decreases n
  {
    if n > 0 {
      var next := Upsert(m, k, default, mutate).store;
      UpsertTimesFromPresent(next, k, default, mutate, n - 1);
    }
  }

  /**
   * On an absent key, the first upsert stores the default unmutated, and
   * each later one applies the mutator.
   */
  lemma {:induction false} UpsertTimesFromAbsent<K, V>(m: map<K, V>, k: K, default: V, mutate: V -> V, n: nat)
    requires k !in m && n > 0
    ensures Find(UpsertTimes(m, k, default, mutate, n), k) == Some(Iterate(mutate, default, n - 1))
  {
    var first := Upsert(m, k, default, mutate).store;
    UpsertTimesFromPresent(first, k, default, mutate, n - 1);
  }

  /** The counting mutator: adds one to the session value. */
  function Increment(x: int): (r: int)
  {
    x + 1
  }

  lemma {:induction false} IterateIncrement(c: int, n: nat)
    ensures Iterate(Increment, c, n) == c + n
    decreases n
  {
    if n > 0 {
      IterateIncrement(c + 1, n - 1);
    }
  }

  /** `n` counting upserts on a key that holds 0 leave exactly `n` there. */
  lemma CountingUpserts<K>(m: map<K, int>, k: K, n: nat)
    requires k in m && m[k] == 0
    ensures Find(UpsertTimes(m, k, 0, Increment, n), k) == Some(n)
  {
    UpsertTimesFromPresent(m, k, 0, Increment, n);
    IterateIncrement(0, n);
  }
}

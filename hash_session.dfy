/**
 * `HashSessionStore`: the default session store, one shared mutable mapping
 * from key to session value.
 *
 * The source guards the mapping with a reader/writer lock and each value with
 * one more, and shares the whole behind a reference count. Here the store is
 * a class whose one field is the mapping; sharing it is sharing the object
 * reference, and each method is the single-threaded meaning of one operation.
 */
module HashSession {
  import opened SessionMap

  class HashSessionStore<K(==), V> {
    /** The key-to-value mapping; at most one entry per distinct key. */
    var store: map<K, V>

    /** `new`: an empty store, in which no key finds a session. */
    constructor ()
      ensures store == SessionMap.Empty()
      ensures forall k :: SessionMap.Find(store, k) == None
    {
      store := map[];
    }

    /** `clone`: another handle on the same store, never a copy of it. */
    method Clone() returns (c: HashSessionStore<K, V>)
      ensures c == this
    {
      c := this;
    }

    /** `insert`: adds `k` with `v` only when `k` is absent. */
    method Insert(k: K, v: V)
      modifies this
      ensures store == SessionMap.Insert(old(store), k, v)
      ensures k in old(store) ==> store == old(store)
      ensures k !in old(store) ==> SessionMap.Find(store, k) == Some(v)
    {
      if k !in store {
        store := store[k := v];
      }
    }

    /** `find`: a copy of the value under `k`, or `None`; the store is not changed. */
    method Find(k: K) returns (r: Option<V>)
      ensures r == SessionMap.Find(store, k)
      ensures r.Some? <==> k in store
      ensures r.Some? ==> r.value == store[k]
    {
      if k in store {
        r := Some(store[k]);
      } else {
        r := None;
      }
    }

    /**
     * `swap`: on a hit, stores `v` and returns the previous value; on a miss,
     * inserts `v` and returns `None`.
     */
    method Swap(k: K, v: V) returns (previous: Option<V>)
      modifies this
      ensures Outcome(store, previous) == SessionMap.Swap(old(store), k, v)
      ensures previous == SessionMap.Find(old(store), k)
      ensures store == old(store)[k := v]
    {
      if k in store {
        previous := Some(store[k]);
        store := store[k := v];
        return;
      }
      Insert(k, v);
      previous := None;
    }

    /**
     * `upsert`: on a hit, applies `mutate` to the stored value and returns
     * the value it leaves there; on a miss, inserts `default` without applying
     * `mutate` and returns it.
     */
    method Upsert(k: K, default: V, mutate: V -> V) returns (r: V)
      modifies this
      ensures Outcome(store, r) == SessionMap.Upsert(old(store), k, default, mutate)
      ensures r == (if k in old(store) then mutate(old(store)[k]) else default)
      ensures store == old(store)[k := r]
    {
      if k in store {
        var current := store[k];
        r := mutate(current);
        store := store[k := r];
        return;
      }
      Insert(k, default);
      r := default;
    }

    /** `remove`: deletes the entry for `k` and reports whether there was one. */
    method Remove(k: K) returns (existed: bool)
      modifies this
      ensures Outcome(store, existed) == SessionMap.Remove(old(store), k)
      ensures existed <==> k in old(store)
      ensures store == old(store) - {k}
    {
      existed := k in store;
      store := store - {k};
    }
  }
}

# Session store model

A Dafny model of `HashSessionStore`, the default session store of the Iron
sessioning middleware. The store maps a caller-derived key to one session
value and offers five operations:

- `insert` adds a key only when it is absent and never overwrites.
- `find` returns a copy of the value, or nothing.
- `swap` replaces the value and returns the previous one; on a miss it inserts and returns nothing.
- `upsert` applies a caller-supplied mutator to a present value and returns the result; on a miss it stores the default unmutated and returns it.
- `remove` deletes the entry and reports whether there was one.

The project has three modules:

- `SessionMap` (`session_map.dfy`) gives the single-threaded meaning of each
  operation as a function on `map<K, V>`, returning the new map and the
  caller's result in an `Outcome`. Lemmas relate the operations: insert
  never overwrites, remove undoes insert, swap-back restores, upsert is a
  swap on a hit and an insert on a miss, and `n` upserts in a row lose no
  update.
- `HashSession` (`hash_session.dfy`) is the store itself. It is a class
  whose one field, `store`, is the mapping; each method changes that field
  in place and is proved against the matching `SessionMap` function.
  `Clone` returns the same object, because cloning the source's store
  clones only its reference-counted pointer.
- `Scenarios` (`scenarios.dfy`) replays the store's unit tests as client
  code. It proves from the method contracts alone what each test checks.
  Three scenarios come from the store's documented design rather than from
  a test: a second insert keeps the first value, clones share sessions, and
  two stores with different value types under the same key do not
  interfere.

The source's `HashMap<K, RwLock<V>>` behind an outer `RwLock` and an `Arc`
becomes one `map<K, V>`. The mutator `Fn(&mut V)` becomes a total function
`V -> V`: it takes the current value and gives back the value it leaves in
place.

## Model

| member | source | states |
|---|---|---|
| `SessionMap.Empty` | src/sessionstore/hashsession.rs:35-39 | a new store has no keys |
| `SessionMap.Insert` | src/sessionstore/hashsession.rs:51-57 | a present key leaves the store unchanged; an absent key then finds the inserted value; the key set gains exactly `k`; every other entry is unchanged |
| `SessionMap.Swap` | src/sessionstore/hashsession.rs:64-77 | the result is `Some(previous)` exactly when the key was present, and then it is the old value; afterwards the key finds the new value; every other entry is unchanged |
| `SessionMap.Upsert` | src/sessionstore/hashsession.rs:78-90 | the result is the mutated old value on a hit and the default on a miss; the key then finds exactly the returned value; every other entry is unchanged |
| `SessionMap.Remove` | src/sessionstore/hashsession.rs:91-93 | the result is true exactly when the key was present; the key then finds nothing; every other entry is unchanged |
| `SessionMap.InsertNeverOverwrites` | src/sessionstore/hashsession.rs:51-57 | a second insert on a key leaves the first value, and the whole store, as the first insert left it |
| `SessionMap.RemoveUndoesInsert` | src/sessionstore/hashsession.rs:91-93 | removing a freshly inserted key restores the original store and reports true |
| `SessionMap.RemoveAbsentIsNoOp` | src/sessionstore/hashsession.rs:91-93 | removing an absent key changes nothing and reports false |
| `SessionMap.SwapStoresValue` | src/sessionstore/hashsession.rs:64-77 | on both paths the new store is the old one with `k` set to `v`; on a miss it equals the store `insert` gives |
| `SessionMap.SwapBackRestores` | src/sessionstore/hashsession.rs:68-72 | swapping the returned previous value back restores the original store and returns the value swapped in |
| `SessionMap.SwapSameValue` | src/sessionstore/hashsession.rs:198-205 | swapping in the value already stored returns it and leaves the store unchanged |
| `SessionMap.UpsertHitIsSwap` | src/sessionstore/hashsession.rs:80-85 | on a present key, upsert leaves the store a swap with the mutated value leaves |
| `SessionMap.UpsertMissIgnoresMutator` | src/sessionstore/hashsession.rs:86-89 | on an absent key, upsert gives the same outcome whatever the mutator: the store after inserting the default, and the default itself |
| `SessionMap.UpsertTimes` | src/sessionstore/hashsession.rs:78-90 | after one or more upserts on `k` the key is present, and every other entry is unchanged |
| `SessionMap.UpsertTimesFromPresent` | src/sessionstore/hashsession.rs:80-85 | `n` upserts on a present key leave the mutator applied `n` times to the old value, so no update is lost |
| `SessionMap.UpsertTimesFromAbsent` | src/sessionstore/hashsession.rs:78-90 | `n` upserts on an absent key leave the mutator applied `n - 1` times to the default, because the first only inserts |
| `SessionMap.CountingUpserts` | src/sessionstore/hashsession.rs:80-85 | `n` incrementing upserts on a key holding 0 leave exactly `n` |
| `HashSession.HashSessionStore.constructor` | src/sessionstore/hashsession.rs:35-39 | a new store is empty, so `find` gives `None` for every key |
| `HashSession.HashSessionStore.Clone` | src/sessionstore/hashsession.rs:25-31 | a clone is the same store object, so both handles alias one mapping |
| `HashSession.HashSessionStore.Insert` | src/sessionstore/hashsession.rs:51-57 | the new mapping is `SessionMap.Insert` of the old one: unchanged if the key was present, otherwise the key finds `v` |
| `HashSession.HashSessionStore.Find` | src/sessionstore/hashsession.rs:58-63 | the result is `SessionMap.Find` of the store, the definition the other operations' contracts are stated with; it is `Some(store[k])` exactly when `k` is present, else `None`; changes nothing |
| `HashSession.HashSessionStore.Swap` | src/sessionstore/hashsession.rs:64-77 | new mapping and result are those of `SessionMap.Swap`; the result is what `find` gave before; the mapping is the old one with `k` set to `v` |
| `HashSession.HashSessionStore.Upsert` | src/sessionstore/hashsession.rs:78-90 | new mapping and result are those of `SessionMap.Upsert`; the result is the mutated old value on a hit and the default on a miss, and it is what the key now holds |
| `HashSession.HashSessionStore.Remove` | src/sessionstore/hashsession.rs:91-93 | new mapping and result are those of `SessionMap.Remove`; the result is whether the key was present; only that key is gone |
| `Scenarios.StartsWithEmptySession` | src/sessionstore/hashsession.rs:162-167 | a new store finds no session |
| `Scenarios.FindsSession` | src/sessionstore/hashsession.rs:169-175 | an inserted session is found |
| `Scenarios.InsertKeepsFirstSession` | src/sessionstore/hashsession.rs:51-57 | a second insert keeps the first value (a design property, not a source test) |
| `Scenarios.SwapsSessionWhenEmpty` | src/sessionstore/hashsession.rs:180-186 | a swap on an empty session returns `None` and sets the value |
| `Scenarios.SwapsSessionWhenNonEmpty` | src/sessionstore/hashsession.rs:188-195 | a swap over 'a' returns `Some('a')` and leaves 'b' |
| `Scenarios.SwapsSessionWhenSameValued` | src/sessionstore/hashsession.rs:198-205 | a swap of any value over the same value returns it and leaves it stored |
| `Scenarios.UpsertInsertsSessionWhenEmpty` | src/sessionstore/hashsession.rs:211-217 | an upsert on an empty session stores and returns the default unmutated |
| `Scenarios.UpsertMutatesSessionWhenNonEmpty` | src/sessionstore/hashsession.rs:219-226 | an upsert on a set session applies the mutator |
| `Scenarios.RemovesSession` | src/sessionstore/hashsession.rs:229-237 | a removed session existed and is then not found |
| `Scenarios.ClonesShareSessions` | src/sessionstore/hashsession.rs:25-31 | an insert through a clone is found through the original |
| `Scenarios.IndependentStoresDoNotInterfere` | src/sessions.rs:103-114 | a `char`-valued and a `u32`-valued store under the same key keep their own values after one is swapped (a design property; the source test only checks that both sessions are attached) |

## Left out

- Locking: the outer `RwLock` over the map and the per-entry `RwLock`s, including the acquisition order. The model gives each operation's single-threaded meaning only.
- The read-then-write race in `insert`: two callers can both see a key as absent under the read lock, and then the later write wins. A sequential model has no interleavings, so this race does not appear.
- The miss path of `swap` and `upsert`: they do not write directly but call `insert`, which checks for the key again. If another caller inserts the key between the two checks, the `swap` or `upsert` stores nothing, and the earlier value stays. It still reports its miss result: `swap` returns `None` and `upsert` returns its default. So two concurrent swaps can both return `None`, and a concurrent upsert's update can be lost. The model runs each operation alone, so it never shows this.
- Thread sharing through `Arc`: modelled only as sharing one object reference.
- Lock poisoning: a panic while a lock is held has no counterpart here.
- The "no lost updates" property under concurrent upserts: only its sequential form is proved (`SessionMap.UpsertTimesFromPresent`, `SessionMap.CountingUpserts`).
- The mutator's in-place update of a `&mut V` is modelled as a function from the old value to the new one. Its side effects outside the value are not modelled.
- `Sessions` middleware (src/sessions.rs): request key derivation and attaching the session handle to the request are framework plumbing. They are not part of this model.
- The `SessionStore` trait, `select_session` and the `Session` handle: their source files are not part of this model.
- src/lib.rs holds only crate attributes and re-exports.

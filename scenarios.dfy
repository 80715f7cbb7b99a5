/**
 * The store's unit-test scenarios, replayed as client code: each method
 * drives a fresh `HashSessionStore<char, char>` under the key 'a' and proves,
 * from the operations' contracts alone, what the scenario checks.
 *
 * `InsertKeepsFirstSession`, `ClonesShareSessions` and
 * `IndependentStoresDoNotInterfere` come from the store's documented design,
 * not from a test of the source.
 */
module Scenarios {
  import opened SessionMap
  import opened HashSession

  const Key: char := 'a'

  /** Rust's `u32`, the value type of the second store in the multiple-sessions test. */
  newtype U32 = x: int | 0 <= x < 0x1_0000_0000

  /** A new store has no session under the key. */
  method StartsWithEmptySession() returns (found: Option<char>)
    ensures found == None
  {
    var s := new HashSessionStore<char, char>();
    found := s.Find(Key);
  }

  /** A session inserted in one stage is found in a later one. */
  method FindsSession() returns (found: Option<char>)
    ensures found == Some('a')
  {
    var s := new HashSessionStore<char, char>();
    s.Insert(Key, 'a');
    found := s.Find(Key);
  }

  /** A second insert does not clobber the first. */
  method InsertKeepsFirstSession() returns (found: Option<char>)
    ensures found == Some('a')
  {
    var s := new HashSessionStore<char, char>();
    s.Insert(Key, 'a');
    s.Insert(Key, 'b');
    found := s.Find(Key);
  }

  /** Swapping into an empty session reports no previous value and sets it. */
  method SwapsSessionWhenEmpty() returns (previous: Option<char>, found: Option<char>)
    ensures previous == None && found == Some('b')
  {
    var s := new HashSessionStore<char, char>();
    previous := s.Swap(Key, 'b');
    found := s.Find(Key);
  }

  /** Swapping over a set session reports the old value and sets the new one. */
  method SwapsSessionWhenNonEmpty() returns (previous: Option<char>, found: Option<char>)
    ensures previous == Some('a') && found == Some('b')
  {
    var s := new HashSessionStore<char, char>();
    s.Insert(Key, 'a');
    previous := s.Swap(Key, 'b');
    found := s.Find(Key);
  }

  /** Swapping in the value already there, whatever it is, still reports it. */
  method SwapsSessionWhenSameValued(v: char) returns (previous: Option<char>, found: Option<char>)
    ensures previous == Some(v) && found == Some(v)
  {
    var s := new HashSessionStore<char, char>();
    s.Insert(Key, v);
    previous := s.Swap(Key, v);
    found := s.Find(Key);
  }

  /** The tests' mutator: sets the session to 'a'. */
  function SetToA(c: char): (r: char)
  {
    'a'
  }

  /** Upsert on an empty session stores the default, unmutated. */
  method UpsertInsertsSessionWhenEmpty() returns (r: char, found: Option<char>)
    ensures r == 'b' && found == Some('b')
  {
    var s := new HashSessionStore<char, char>();
    r := s.Upsert(Key, 'b', SetToA);
    found := s.Find(Key);
  }

  /** Upsert on a set session applies the mutator. */
  method UpsertMutatesSessionWhenNonEmpty() returns (r: char, found: Option<char>)
    ensures r == 'a' && found == Some('a')
  {
    var s := new HashSessionStore<char, char>();
    s.Insert(Key, 'b');
    r := s.Upsert(Key, 'b', SetToA);
    found := s.Find(Key);
  }

  /** A removed session is no longer found. */
  method RemovesSession() returns (before: Option<char>, existed: bool, after: Option<char>)
    ensures before == Some('a') && existed && after == None
  {
    var s := new HashSessionStore<char, char>();
    s.Insert(Key, 'a');
    before := s.Find(Key);
    existed := s.Remove(Key);
    after := s.Find(Key);
  }

  /** A clone shares its original's sessions: a write through one is seen through the other. */
  method ClonesShareSessions() returns (found: Option<char>)
    ensures found == Some('a')
  {
    var s := new HashSessionStore<char, char>();
    var t := s.Clone();
    t.Insert(Key, 'a');
    found := s.Find(Key);
  }

  /** Two stores with different value types under the same key do not interfere. */
  method IndependentStoresDoNotInterfere() returns (c: Option<char>, n: Option<U32>)
    ensures c == Some('b') && n == Some(7)
  {
    var chars := new HashSessionStore<char, char>();
    var counts := new HashSessionStore<char, U32>();
    chars.Insert(Key, 'a');
    counts.Insert(Key, 7);
    var _ := chars.Swap(Key, 'b');
    c := chars.Find(Key);
    n := counts.Find(Key);
  }
}

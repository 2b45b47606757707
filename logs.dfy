/** Keyed append-only logs.
    The application keeps two dictionaries from a key to a list of strings:
    research notes per branch and chat messages per user id. Both are only
    ever grown with `setdefault(key, []).append(x)` and read with
    `get(key, [])`. This module gives those two operations as functions on
    map values and proves what they promise. */
module Logs {

  type Store = map<string, seq<string>>

  /** The list stored under `key`, or the empty list for an unknown key. */
  function Get(store: Store, key: string): seq<string>
  {
    if key in store then store[key] else []
  }

  /** The store after appending `x` to the list under `key`, creating the
      list when the key is absent. */
  function Appended(store: Store, key: string, x: string): (r: Store)
    ensures r.Keys == store.Keys + {key}
    ensures Get(r, key) == Get(store, key) + [x]
    ensures forall k :: k != key ==> Get(r, k) == Get(store, k)
  {
    store[key := Get(store, key) + [x]]
  }

  /** The store after appending each of `xs` under `key`, in order. */
  function AppendedAll(store: Store, key: string, xs: seq<string>): Store
    decreases |xs|
  {
    if xs == [] then store
    else Appended(AppendedAll(store, key, xs[..|xs| - 1]), key, xs[|xs| - 1])
  }

  /** Successive appends under one key leave that key's list extended by
      exactly the appended strings in call order; every other key reads the
      same as before. */
  lemma {:induction false} AppendedAllInOrder(store: Store, key: string, xs: seq<string>)
    ensures Get(AppendedAll(store, key, xs), key) == Get(store, key) + xs
    ensures forall k :: k != key ==> Get(AppendedAll(store, key, xs), k) == Get(store, k)
    ensures AppendedAll(store, key, xs).Keys == if xs == [] then store.Keys else store.Keys + {key}
    decreases |xs|
  {
    if xs != [] {
      var init := xs[..|xs| - 1];
      AppendedAllInOrder(store, key, init);
      assert init + [xs[|xs| - 1]] == xs;
    }
  }

  /** Starting from a key nobody has written, the log read back is exactly
      the sequence of appended strings. */
  lemma FreshKeyLogIsCallOrder(store: Store, key: string, xs: seq<string>)
    requires key !in store
    ensures Get(AppendedAll(store, key, xs), key) == xs
  {
    AppendedAllInOrder(store, key, xs);
  }

  /** Appends under two different keys do not interfere: their order does
      not matter. */
  lemma AppendsToDistinctKeysCommute(store: Store, k1: string, x1: string, k2: string, x2: string)
    requires k1 != k2
    ensures Appended(Appended(store, k1, x1), k2, x2) == Appended(Appended(store, k2, x2), k1, x1)
  {
    var a := Appended(Appended(store, k1, x1), k2, x2);
    var b := Appended(Appended(store, k2, x2), k1, x1);
    assert a.Keys == b.Keys;
    forall k | k in a.Keys ensures a[k] == b[k] {
      assert a[k] == Get(a, k) && b[k] == Get(b, k);
    }
  }
}

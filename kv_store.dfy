/**
 * The external key-value store, reduced to what the routes use: an integer per string
 * key, `incr` (a missing key counts as 0) and `set`. Calls run one after another.
 */
module KvStore {

  class Store {
    var entries: map<string, int>

    constructor ()
      ensures entries == map[]
    {
      entries := map[];
    }

    /** The value `incr` starts from: the stored value, or 0 for a missing key. */
    function Current(key: string): int
      reads this
    {
      if key in entries then entries[key] else 0
    }

    /** `kv.incr(key)`: adds one to the key's value and returns the new value. */
    method Incr(key: string) returns (n: int)
      modifies this
      ensures n == old(Current(key)) + 1
      ensures entries == old(entries)[key := n]
    {
      n := Current(key) + 1;
      entries := entries[key := n];
    }

    /** `kv.set(key, value)`: overwrites the key's value. */
    method Set(key: string, value: int)
      modifies this
      ensures entries == old(entries)[key := value]
    {
      entries := entries[key := value];
    }
  }

  /** The key a counter's value lives under. */
  function CounterKey(name: string): (key: string)
    ensures |key| == 8 + |name| && key[..8] == "counter:" && key[8..] == name
  {
    "counter:" + name
  }

  /** Distinct counter names never share a key. */
  lemma CounterKeyInjective(a: string, b: string)
    ensures CounterKey(a) == CounterKey(b) <==> a == b
  {
  }
}

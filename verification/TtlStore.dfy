/** The expiring key stores (Redis and the Django cache): a key is live as long as its expiry lies
    in the future.  Clock values are whole seconds and are passed in by the caller. */
module TtlStore {
  import opened Wrappers

  datatype Entry<+V> = Entry(value: V, expiry: int)

  predicate Live<K, V>(entries: map<K, Entry<V>>, key: K, now: int) {
    key in entries && now < entries[key].expiry
  }

  function Lookup<K, V>(entries: map<K, Entry<V>>, key: K, now: int): Option<V> {
    if Live(entries, key, now) then Some(entries[key].value) else None
  }

  class Store<K(==), V> {
    var entries: map<K, Entry<V>>

    constructor ()
      ensures entries == map[]
    {
      entries := map[];
    }

    method Exists(key: K, now: int) returns (live: bool)
      ensures live == Live(entries, key, now)
    {
      live := key in entries && now < entries[key].expiry;
    }

    method Get(key: K, now: int) returns (found: Option<V>)
      ensures found == Lookup(entries, key, now)
    {
      if key in entries && now < entries[key].expiry {
        found := Some(entries[key].value);
      } else {
        found := None;
      }
    }

    method SetWithTtl(key: K, value: V, ttl: int, now: int)
      modifies this
      ensures entries == old(entries)[key := Entry(value, now + ttl)]
    {
      entries := entries[key := Entry(value, now + ttl)];
    }

    method Delete(key: K)
      modifies this
      ensures entries == old(entries) - {key}
    {
      entries := entries - {key};
    }
  }
}

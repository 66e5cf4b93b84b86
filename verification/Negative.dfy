/** Authoritative misses, remembered for a while and never more than a bounded
    number of them. */
module Negative {
  import opened Types

  const MAX_NEGATIVE := 10000

  /** Each remembered key with the time its miss expires. */
  type Misses = map<Key, Time>

  predicate Remembers(m: Misses, key: Key, now: Time) {
    key in m && now < m[key]
  }

  /** What is left after asking for `key`: an expired miss is dropped. */
  function Asked(m: Misses, key: Key, now: Time): Misses {
    if key in m && !(now < m[key]) then m - {key} else m
  }

  function Unexpired(m: Misses, now: Time): Misses {
    map k | k in m && now < m[k] :: m[k]
  }

  function Room(m: Misses, now: Time): Misses {
    if |m| < MAX_NEGATIVE then m
    else if |Unexpired(m, now)| < MAX_NEGATIVE then Unexpired(m, now)
    else map[]
  }

  function Add(m: Misses, key: Key, now: Time, ttl: Time): Misses {
    Room(m, now)[key := now + ttl]
  }

  /** Adding keeps the bound, remembers the key for exactly `ttl`, and invents
      no other miss: whatever else it holds it held before. */
  lemma AddIsBounded(m: Misses, key: Key, now: Time, ttl: Time)
    requires |m| <= MAX_NEGATIVE
    ensures |Add(m, key, now, ttl)| <= MAX_NEGATIVE
    ensures forall t :: Remembers(Add(m, key, now, ttl), key, t) <==> t < now + ttl
    ensures forall k | k in Add(m, key, now, ttl) && k != key ::
      k in m && Add(m, key, now, ttl)[k] == m[k]
    ensures |m| < MAX_NEGATIVE ==> Add(m, key, now, ttl) == m[key := now + ttl]
  {
    var room := Room(m, now);
    assert |room[key := now + ttl].Keys| <= |room.Keys| + 1 by {
      assert room[key := now + ttl].Keys == room.Keys + {key};
    }
  }

  /** A full cache makes room by dropping the expired misses; when none has expired it
      starts over. */
  lemma FullCacheKeepsTheUnexpired(m: Misses, key: Key, now: Time, ttl: Time, k: Key)
    requires |m| == MAX_NEGATIVE && k in m && k != key
    ensures k in Add(m, key, now, ttl) <==> now < m[k] && exists x :: x in m && m[x] <= now
  {
    var left := Unexpired(m, now);
    if x :| x in m && m[x] <= now {
      assert left.Keys <= m.Keys - {x};
      CardinalityOfSubset(left.Keys, m.Keys - {x});
    } else {
      assert left == m;
    }
  }

  lemma CardinalityOfSubset(a: set<Key>, b: set<Key>)
    requires a <= b
    ensures |a| <= |b|
  {
    assert b == a + (b - a) && a !! (b - a);
  }

  class NegativeCache {
    const ttl: Time
    var entries: Misses

    constructor (ttl: Time)
      ensures entries == map[] && this.ttl == ttl
    {
      entries := map[];
      this.ttl := ttl;
    }

    method Has(key: Key, now: Time) returns (found: bool)
      modifies this
      ensures found == Remembers(old(entries), key, now)
      ensures entries == Asked(old(entries), key, now)
    {
      if key !in entries {
        return false;
      }
      if !(now < entries[key]) {
        entries := entries - {key};
        return false;
      }
      return true;
    }

    method Remember(key: Key, now: Time)
      modifies this
      ensures entries == Add(old(entries), key, now, ttl)
    {
      if |entries| >= MAX_NEGATIVE {
        var todo := entries.Keys;
        while todo != {}
          invariant todo <= entries.Keys <= old(entries).Keys
          invariant forall k | k in old(entries) ::
            k in entries <==> k in todo || now < old(entries)[k]
          invariant forall k | k in entries :: entries[k] == old(entries)[k]
        {
          var k :| k in todo;
          todo := todo - {k};
          if !(now < entries[k]) {
            entries := entries - {k};
          }
        }
        assert entries == Unexpired(old(entries), now);
        if |entries| >= MAX_NEGATIVE {
          entries := map[];
        }
      }
      entries := entries[key := now + ttl];
    }

    method Forget(key: Key)
      modifies this
      ensures entries == old(entries) - {key}
    {
      entries := entries - {key};
    }

    method Clear()
      modifies this
      ensures entries == map[]
    {
      entries := map[];
    }
  }
}

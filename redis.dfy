/** The Redis helpers (src/shared/utils/redis/index.ts) over a model of the Redis
    keyspace: each key holds a serialised JSON value (integers are counters) or a set
    of strings, and may carry a TTL in seconds. Expiry by the clock is not modelled:
    a TTL is a recorded number. */
module RedisCache {
  import opened JsSemantics

  /** One hour, in seconds. */
  const DEFAULT_CACHE_TTL: int := 60 * 60

  /** What a key holds: `JSON.stringify` of a value (serialisation is the identity on
      `Json`; an integer's text is what `INCRBY` reads and writes), or a set. */
  datatype Entry = Blob(value: Json) | Members(members: set<string>)

  datatype Redis = Redis(entries: map<string, Entry>, ttls: map<string, int>)

  /** `EXPIRE key ttl` on an existing key: a positive TTL is recorded, any other deletes
      the key. */
  function Expire(s: Redis, key: string, ttl: int): (out: Redis)
    requires key in s.entries
    ensures ttl > 0 ==> out.entries == s.entries && out.ttls == s.ttls[key := ttl]
    ensures ttl <= 0 ==> out.entries == s.entries - {key} && out.ttls == s.ttls - {key}
  {
    if ttl > 0 then s.(ttls := s.ttls[key := ttl])
    else Redis(s.entries - {key}, s.ttls - {key})
  }

  /** `GET` then `JSON.parse`: the stored value and nothing else. A set is a type error,
      which the helper reports as a miss. */
  function Lookup(s: Redis, key: string): (r: Option<Json>)
    ensures r.Some? <==> key in s.entries && s.entries[key].Blob?
    ensures r.Some? ==> r.value == s.entries[key].value
  {
    if key in s.entries && s.entries[key].Blob? then Some(s.entries[key].value) else None
  }

  /** `SET key value EX ttl`: replaces whatever the key held; a non-positive TTL is refused. */
  function Stored(s: Redis, key: string, data: Json, ttl: int): (out: Option<Redis>)
    ensures out.Some? <==> ttl > 0
    ensures out.Some? ==> out.value.entries == s.entries[key := Blob(data)] && out.value.ttls == s.ttls[key := ttl]
  {
    if ttl > 0 then Some(Redis(s.entries[key := Blob(data)], s.ttls[key := ttl])) else None
  }

  /** `INCRBY key increment`, then `EXPIRE` when a TTL is given: the new count and the
      new keyspace, or `None` when the key holds something other than an integer. */
  function Incremented(s: Redis, key: string, increment: int, ttl: Option<int>): (out: Option<(int, Redis)>)
    ensures out.Some? <==> key !in s.entries || (s.entries[key].Blob? && s.entries[key].value.JNum?)
    ensures out.Some? ==> out.value.0 == (if key in s.entries then s.entries[key].value.n else 0) + increment
  {
    if key in s.entries && !(s.entries[key].Blob? && s.entries[key].value.JNum?) then None
    else
      var n := (if key in s.entries then s.entries[key].value.n else 0) + increment;
      var counted := s.(entries := s.entries[key := Blob(JNum(n))]);
      Some((n, if ttl.Some? then Expire(counted, key, ttl.value) else counted))
  }

  /** `SADD key member`, then `EXPIRE` when a TTL is given; `None` when the key holds a
      JSON value. */
  function Added(s: Redis, key: string, member: string, ttl: Option<int>): (out: Option<Redis>)
    ensures out.Some? <==> key !in s.entries || s.entries[key].Members?
  {
    if key in s.entries && s.entries[key].Blob? then None
    else
      var before := if key in s.entries then s.entries[key].members else {};
      var added := s.(entries := s.entries[key := Members(before + {member})]);
      Some(if ttl.Some? then Expire(added, key, ttl.value) else added)
  }

  /** `SCARD key`: the number of members, 0 for a missing key; `None` for a JSON value. */
  function Cardinality(s: Redis, key: string): (n: Option<nat>)
    ensures n.None? <==> key in s.entries && s.entries[key].Blob?
    ensures key !in s.entries ==> n == Some(0)
  {
    if key !in s.entries then Some(0)
    else if s.entries[key].Members? then Some(|s.entries[key].members|)
    else None
  }

  /** A `KEYS` glob: `*` matches any run of characters, `?` any one character, every
      other character itself. */
  predicate Glob(pattern: string, k: string)
    decreases |pattern| + |k|
  {
    if pattern == [] then k == []
    else if pattern[0] == '*' then Glob(pattern[1..], k) || (k != [] && Glob(pattern, k[1..]))
    else if pattern[0] == '?' then k != [] && Glob(pattern[1..], k[1..])
    else k != [] && k[0] == pattern[0] && Glob(pattern[1..], k[1..])
  }

  /** The keys `KEYS pattern` lists. */
  function KeysMatching(s: Redis, pattern: string): (ks: set<string>)
    ensures forall k :: k in ks <==> k in s.entries && Glob(pattern, k)
  {
    set k | k in s.entries && Glob(pattern, k)
  }

  /** The keyspace after `DEL` of the matching keys. */
  function WithoutMatching(s: Redis, pattern: string): (out: Redis)
    ensures forall k :: k in out.entries <==> k in s.entries && !Glob(pattern, k)
    ensures forall k :: k in out.entries ==> out.entries[k] == s.entries[k]
  {
    var ks := KeysMatching(s, pattern);
    Redis(s.entries - ks, s.ttls - ks)
  }

  /** The Redis connection the helpers share. `available` stands for the server
      answering; when it does not, every command fails and nothing changes. */
  class CacheStore {
    var state: Redis
    var available: bool

    constructor (available: bool)
      ensures state == Redis(map[], map[]) && this.available == available
    {
      state := Redis(map[], map[]);
      this.available := available;
    }

    /** `getFromCache(key)`: the stored value, or null on a miss or any error. */
    method GetFromCache(key: string) returns (r: Option<Json>)
      ensures r == (if available then Lookup(state, key) else None)
    {
      if !available {
        return None;
      }
      r := Lookup(state, key);
    }

    /** `storeInCache(key, data, ttl = DEFAULT_CACHE_TTL)`: true once stored, false on
        any error. */
    method StoreInCache(key: string, data: Json, ttl: int := DEFAULT_CACHE_TTL) returns (ok: bool)
      modifies this
      ensures available == old(available)
      ensures ok <==> old(available) && Stored(old(state), key, data, ttl).Some?
      ensures ok ==> state == Stored(old(state), key, data, ttl).value
      ensures !ok ==> state == old(state)
    {
      if !available {
        return false;
      }
      var out := Stored(state, key, data, ttl);
      if out.None? {
        return false;
      }
      state := out.value;
      ok := true;
    }

    /** `deleteByPattern(pattern)`: deletes the matching keys and returns how many there
        were; 0 when none match or on any error. */
    method DeleteByPattern(pattern: string) returns (deleted: nat)
      modifies this
      ensures available == old(available)
      ensures !old(available) ==> deleted == 0 && state == old(state)
      ensures old(available) ==> deleted == |KeysMatching(old(state), pattern)| && state == WithoutMatching(old(state), pattern)
    {
      if !available {
        return 0;
      }
      var keys := KeysMatching(state, pattern);
      if |keys| > 0 {
        state := WithoutMatching(state, pattern);
        return |keys|;
      }
      assert state.entries - keys == state.entries && state.ttls - keys == state.ttls by {
        assert keys == {};
      }
      deleted := 0;
    }

    /** `incrementCounter(key, increment = 1, ttl)`: the new count, or 0 on any error. */
    method IncrementCounter(key: string, increment: int := 1, ttl: Option<int> := None) returns (count: int)
      modifies this
      ensures available == old(available)
      ensures old(available) && Incremented(old(state), key, increment, ttl).Some? ==>
                count == Incremented(old(state), key, increment, ttl).value.0 &&
                state == Incremented(old(state), key, increment, ttl).value.1
      ensures !(old(available) && Incremented(old(state), key, increment, ttl).Some?) ==>
                count == 0 && state == old(state)
    {
      if !available {
        return 0;
      }
      var out := Incremented(state, key, increment, ttl);
      if out.None? {
        return 0;
      }
      state := out.value.1;
      count := out.value.0;
    }

    /** `addToSet(key, member, ttl)`: true once added, false on any error. */
    method AddToSet(key: string, member: string, ttl: Option<int> := None) returns (ok: bool)
      modifies this
      ensures available == old(available)
      ensures ok <==> old(available) && Added(old(state), key, member, ttl).Some?
      ensures ok ==> state == Added(old(state), key, member, ttl).value
      ensures !ok ==> state == old(state)
    {
      if !available {
        return false;
      }
      var out := Added(state, key, member, ttl);
      if out.None? {
        return false;
      }
      state := out.value;
      ok := true;
    }

    /** `getSetSize(key)`: the set's size, or 0 on any error. */
    method GetSetSize(key: string) returns (n: nat)
      ensures available && Cardinality(state, key).Some? ==> n == Cardinality(state, key).value
      ensures !(available && Cardinality(state, key).Some?) ==> n == 0
    {
      if !available {
        return 0;
      }
      var c := Cardinality(state, key);
      if c.None? {
        return 0;
      }
      n := c.value;
    }
  }

  /** What is stored is what is read back, until the key is written again. */
  lemma StoreThenLookup(s: Redis, key: string, data: Json, ttl: int)
    requires ttl > 0
    ensures Lookup(Stored(s, key, data, ttl).value, key) == Some(data)
  {
  }

  /** Storing one key leaves every other key's value readable as before. */
  lemma StoreKeepsOthers(s: Redis, key: string, other: string, data: Json, ttl: int)
    requires ttl > 0 && other != key
    ensures Lookup(Stored(s, key, data, ttl).value, other) == Lookup(s, other)
  {
  }

  /** Increments add up: two increments of a counter are one increment by their sum. */
  lemma IncrementsAdd(s: Redis, key: string, a: int, b: int, ttl: int)
    requires ttl > 0 && Incremented(s, key, a, Some(ttl)).Some?
    ensures var once := Incremented(s, key, a, Some(ttl)).value.1;
      Incremented(once, key, b, Some(ttl)).Some? &&
      Incremented(once, key, b, Some(ttl)).value == Incremented(s, key, a + b, Some(ttl)).value
  {
    var n := (if key in s.entries then s.entries[key].value.n else 0) + a;
    var once := Incremented(s, key, a, Some(ttl)).value.1;
    assert once.entries == s.entries[key := Blob(JNum(n))];
    assert once.ttls == s.ttls[key := ttl];
    assert once.entries[key := Blob(JNum(n + b))] == s.entries[key := Blob(JNum(n + b))];
    assert once.ttls[key := ttl] == s.ttls[key := ttl];
  }

  /** Adding a member makes the set at least one member larger than empty; adding a member
      already there leaves the size unchanged. */
  lemma AddCountsDistinct(s: Redis, key: string, member: string, ttl: int)
    requires ttl > 0 && Added(s, key, member, Some(ttl)).Some?
    ensures var out := Added(s, key, member, Some(ttl)).value;
      Cardinality(out, key).Some? && Cardinality(out, key).value >= 1 &&
      Cardinality(Added(out, key, member, Some(ttl)).value, key) == Cardinality(out, key)
  {
    var out := Added(s, key, member, Some(ttl)).value;
    assert out.entries[key].members + {member} == out.entries[key].members;
  }

  /** A wildcard pattern `prefix*` matches exactly the keys that start with the prefix. */
  lemma {:induction false} PrefixPattern(prefix: string, k: string)
    requires '*' !in prefix && '?' !in prefix
    ensures Glob(prefix + "*", k) <==> prefix <= k
    decreases |prefix|
  {
    if prefix == [] {
      assert prefix + "*" == "*";
      StarMatchesAll(k);
    } else {
      assert (prefix + "*")[1..] == prefix[1..] + "*";
      if k != [] {
        PrefixPattern(prefix[1..], k[1..]);
      }
    }
  }

  /** `*` matches every key. */
  lemma {:induction false} StarMatchesAll(k: string)
    ensures Glob("*", k)
    decreases |k|
  {
    if k != [] {
      StarMatchesAll(k[1..]);
    }
  }

  /** A pattern without wildcards deletes only the key it names. */
  lemma {:induction false} LiteralPattern(pattern: string, k: string)
    requires '*' !in pattern && '?' !in pattern
    ensures Glob(pattern, k) <==> k == pattern
    decreases |pattern|
  {
    if pattern != [] && k != [] {
      LiteralPattern(pattern[1..], k[1..]);
      if k[0] == pattern[0] && k[1..] == pattern[1..] {
        assert k == [k[0]] + k[1..];
        assert pattern == [pattern[0]] + pattern[1..];
      }
    }
  }
}

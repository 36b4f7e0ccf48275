/**
 * `Cache<V>`: an access-ordered `LinkedHashMap` with a size bound and a
 * time-to-live per entry. The entries are listed least recently used first;
 * the clock `now` is an argument of every operation that reads it.
 */
module LruCache {
  import opened Wrappers

  datatype Entry<V> = Entry(key: string, value: V, expiresAt: int)

  datatype Cache<V> = Cache(entries: seq<Entry<V>>, maxSize: int, defaultTtl: int)

  /**
   * `new Cache(maxSize, defaultTtlMs)`: an empty cache with these settings.
   * The backing `LinkedHashMap` refuses a negative initial capacity.
   */
  function NewCache<V>(maxSize: int, defaultTtl: int): (r: Cache<V>)
    requires maxSize >= 0
    ensures Valid(r) && Size(r) == 0
    ensures r.maxSize == maxSize && r.defaultTtl == defaultTtl
    ensures forall key :: Lookup(r, key).None?
  {
    Cache([], maxSize, defaultTtl)
  }

  /** An entry is expired once the clock has passed its expiry time. */
  predicate Expired<V>(e: Entry<V>, now: int)
  {
    now > e.expiresAt
  }

  predicate UniqueKeys<V>(entries: seq<Entry<V>>)
  {
    forall i, j | 0 <= i < j < |entries| :: entries[i].key != entries[j].key
  }

  /** The bound the eviction rule maintains: `maxSize` entries, none when it is not positive. */
  function Capacity(maxSize: int): nat
  {
    if maxSize > 0 then maxSize else 0
  }

  predicate Valid<V>(c: Cache<V>)
  {
    UniqueKeys(c.entries) && |c.entries| <= Capacity(c.maxSize)
  }

  function IndexOf<V>(entries: seq<Entry<V>>, key: string): (r: Option<nat>)
    ensures r.Some? ==> r.value < |entries| && entries[r.value].key == key
    ensures r.Some? ==> forall j | 0 <= j < r.value :: entries[j].key != key
    ensures r.None? <==> forall j | 0 <= j < |entries| :: entries[j].key != key
  {
    if entries == [] then None
    else if entries[0].key == key then Some(0)
    else match IndexOf(entries[1..], key)
      case None => None
      case Some(i) => Some(i + 1)
  }

  /** `a` is `b` with some elements left out, the rest in their order. */
  ghost predicate SubsequenceOf<T>(a: seq<T>, b: seq<T>)
    decreases |b|
  {
    if a == [] then true
    else if b == [] then false
    else (a[0] == b[0] && SubsequenceOf(a[1..], b[1..])) || SubsequenceOf(a, b[1..])
  }

  lemma {:induction false} SubsequenceOfSelf<T>(a: seq<T>)
    ensures SubsequenceOf(a, a)
    decreases |a|
  {
    if a != [] {
      SubsequenceOfSelf(a[1..]);
    }
  }

  /** Leaving out one position gives a subsequence. */
  lemma {:induction false} DropOneIsSubsequence<T>(a: seq<T>, i: nat)
    requires i < |a|
    ensures SubsequenceOf(a[..i] + a[i + 1..], a)
    decreases i
  {
    var d := a[..i] + a[i + 1..];
    if i == 0 {
      assert d == a[1..];
      SubsequenceOfSelf(a[1..]);
      if d != [] {
        assert SubsequenceOf(d, a[1..]);
      }
    } else {
      DropOneIsSubsequence(a[1..], i - 1);
      assert a[1..][..i - 1] + a[1..][i..] == d[1..];
      assert d[0] == a[0];
    }
  }

  /** The sequence without position `i`. */
  function Without<V>(entries: seq<Entry<V>>, i: nat): (r: seq<Entry<V>>)
    requires i < |entries|
    ensures |r| == |entries| - 1
    ensures forall j | 0 <= j < i :: r[j] == entries[j]
    ensures forall j | i <= j < |r| :: r[j] == entries[j + 1]
  {
    entries[..i] + entries[i + 1..]
  }

  lemma WithoutKeepsUnique<V>(entries: seq<Entry<V>>, i: nat)
    requires i < |entries| && UniqueKeys(entries)
    ensures UniqueKeys(Without(entries, i))
    ensures forall j | 0 <= j < |Without(entries, i)| :: Without(entries, i)[j].key != entries[i].key
  {
    var r := Without(entries, i);
    forall a, b | 0 <= a < b < |r|
      ensures r[a].key != r[b].key
    {
      var a' := if a < i then a else a + 1;
      var b' := if b < i then b else b + 1;
      assert r[a] == entries[a'] && r[b] == entries[b'];
    }
    forall j | 0 <= j < |r|
      ensures r[j].key != entries[i].key
    {
      var j' := if j < i then j else j + 1;
      assert r[j] == entries[j'];
    }
  }

  /** The stored entry for `key`, expired or not. */
  function Lookup<V>(c: Cache<V>, key: string): (r: Option<Entry<V>>)
    ensures r.Some? <==> exists j | 0 <= j < |c.entries| :: c.entries[j].key == key
    ensures r.Some? ==> r.value in c.entries && r.value.key == key
  {
    match IndexOf(c.entries, key)
      case None => None
      case Some(i) => Some(c.entries[i])
  }

  /**
   * `put(key, value, ttl)`: an existing key gets the new value and expiry and
   * becomes most recently used; a new key is appended, and if the map then
   * exceeds `maxSize` its eldest entry is removed.
   */
  function Put<V>(c: Cache<V>, key: string, value: V, ttl: int, now: int): (r: Cache<V>)
    ensures r.maxSize == c.maxSize && r.defaultTtl == c.defaultTtl
    ensures Lookup(c, key).Some? ==>
              r.entries == Without(c.entries, IndexOf(c.entries, key).value) + [Entry(key, value, now + ttl)]
    ensures Lookup(c, key).None? && |c.entries| + 1 <= c.maxSize ==>
              r.entries == c.entries + [Entry(key, value, now + ttl)]
    ensures Lookup(c, key).None? && |c.entries| + 1 > c.maxSize ==>
              r.entries == (c.entries + [Entry(key, value, now + ttl)])[1..]
  {
    var newest := Entry(key, value, now + ttl);
    match IndexOf(c.entries, key)
      case Some(i) => c.(entries := Without(c.entries, i) + [newest])
      case None =>
        var grown := c.entries + [newest];
        if |grown| > c.maxSize then c.(entries := grown[1..]) else c.(entries := grown)
  }

  /** `put(key, value)` with the cache's default time-to-live. */
  function PutDefault<V>(c: Cache<V>, key: string, value: V, now: int): (r: Cache<V>)
    ensures r == Put(c, key, value, c.defaultTtl, now)
  {
    Put(c, key, value, c.defaultTtl, now)
  }

  /** `put` keeps keys distinct and the size within the bound. */
  lemma PutValid<V>(c: Cache<V>, key: string, value: V, ttl: int, now: int)
    requires Valid(c)
    ensures Valid(Put(c, key, value, ttl, now))
  {
    var r := Put(c, key, value, ttl, now);
    match IndexOf(c.entries, key)
    case Some(i) =>
      WithoutKeepsUnique(c.entries, i);
    case None =>
      var grown := c.entries + [Entry(key, value, now + ttl)];
      assert UniqueKeys(grown);
      if |grown| > c.maxSize {
        assert r.entries == grown[1..];
      }
  }

  /** After a `put`, with room for at least one entry, the key maps to the new value and expiry. */
  lemma PutThenLookup<V>(c: Cache<V>, key: string, value: V, ttl: int, now: int)
    requires Valid(c) && c.maxSize >= 1
    ensures Lookup(Put(c, key, value, ttl, now), key) == Some(Entry(key, value, now + ttl))
  {
    var r := Put(c, key, value, ttl, now);
    PutValid(c, key, value, ttl, now);
    var last := |r.entries| - 1;
    assert r.entries[last] == Entry(key, value, now + ttl);
    assert forall j | 0 <= j < last :: r.entries[j].key != key;
    assert IndexOf(r.entries, key) == Some(last);
  }

  /**
   * A `put` of a new key into a full cache evicts exactly the least recently
   * used entry: its key is gone and every other entry stays, in order.
   */
  lemma PutEvictsEldest<V>(c: Cache<V>, key: string, value: V, ttl: int, now: int)
    requires Valid(c) && Lookup(c, key).None? && |c.entries| == c.maxSize >= 1
    ensures Lookup(Put(c, key, value, ttl, now), c.entries[0].key).None?
    ensures Put(c, key, value, ttl, now).entries[..|c.entries| - 1] == c.entries[1..]
  {
    var r := Put(c, key, value, ttl, now);
    var gone := c.entries[0].key;
    assert r.entries == c.entries[1..] + [Entry(key, value, now + ttl)];
    forall j | 0 <= j < |r.entries|
      ensures r.entries[j].key != gone
    {
      if j < |r.entries| - 1 {
        assert r.entries[j] == c.entries[j + 1];
      }
    }
  }

  /**
   * `get(key)`: empty for an absent key; an expired entry is removed and
   * reads as empty; a live entry is returned and becomes most recently used.
   */
  function Get<V>(c: Cache<V>, key: string, now: int): (r: (Cache<V>, Option<V>))
    ensures r.0.maxSize == c.maxSize && r.0.defaultTtl == c.defaultTtl
    ensures r.1.Some? <==> Lookup(c, key).Some? && !Expired(Lookup(c, key).value, now)
    ensures r.1.Some? ==> r.1.value == Lookup(c, key).value.value
    ensures Lookup(c, key).None? ==> r.0 == c
    ensures Lookup(c, key).Some? ==>
              r.0.entries == Without(c.entries, IndexOf(c.entries, key).value) +
                             (if r.1.Some? then [Lookup(c, key).value] else [])
  {
    match IndexOf(c.entries, key)
      case None => (c, None)
      case Some(i) =>
        var e := c.entries[i];
        var rest := Without(c.entries, i);
        if Expired(e, now) then
          (c.(entries := rest + []), None)
        else
          (c.(entries := rest + [e]), Some(e.value))
  }

  /** `get` keeps the invariant. */
  lemma GetValid<V>(c: Cache<V>, key: string, now: int)
    requires Valid(c)
    ensures Valid(Get(c, key, now).0)
    ensures Lookup(Get(c, key, now).0, key) == if Get(c, key, now).1.Some? then Lookup(c, key) else None
  {
    match IndexOf(c.entries, key)
    case None =>
    case Some(i) =>
      WithoutKeepsUnique(c.entries, i);
      var r := Get(c, key, now).0;
      if Get(c, key, now).1.Some? {
        assert r.entries[|r.entries| - 1] == c.entries[i];
        assert IndexOf(r.entries, key) == Some(|r.entries| - 1);
      }
  }

  /**
   * `getOrCompute`: a live cached value is returned as it is; otherwise the
   * function's value is stored with the default time-to-live and returned.
   */
  function GetOrCompute<V>(c: Cache<V>, key: string, compute: string -> V, now: int): (r: (Cache<V>, V))
    ensures Get(c, key, now).1.Some? ==> r == (Get(c, key, now).0, Get(c, key, now).1.value)
    ensures Get(c, key, now).1.None? ==>
              r.1 == compute(key) && r.0 == PutDefault(Get(c, key, now).0, key, compute(key), now)
  {
    var (afterGet, hit) := Get(c, key, now);
    if hit.Some? then (afterGet, hit.value)
    else
      var v := compute(key);
      (PutDefault(afterGet, key, v, now), v)
  }

  /** A computed value is found again until it expires. */
  lemma ComputedIsCached<V>(c: Cache<V>, key: string, compute: string -> V, now: int)
    requires Valid(c) && c.maxSize >= 1
    ensures Lookup(GetOrCompute(c, key, compute, now).0, key).Some?
    ensures Lookup(GetOrCompute(c, key, compute, now).0, key).value.value == GetOrCompute(c, key, compute, now).1
  {
    var g := Get(c, key, now);
    GetValid(c, key, now);
    if g.1.None? {
      PutThenLookup(g.0, key, compute(key), c.defaultTtl, now);
    }
  }

  /** `remove(key)`. */
  function Remove<V>(c: Cache<V>, key: string): (r: Cache<V>)
    ensures r.maxSize == c.maxSize && r.defaultTtl == c.defaultTtl
    ensures Lookup(c, key).None? ==> r == c
    ensures Lookup(c, key).Some? ==> r.entries == Without(c.entries, IndexOf(c.entries, key).value)
    ensures forall e :: e in r.entries ==> e in c.entries
    ensures SubsequenceOf(r.entries, c.entries)
  {
    match IndexOf(c.entries, key)
      case None =>
        SubsequenceOfSelf(c.entries);
        c
      case Some(i) =>
        var rest := Without(c.entries, i);
        assert forall e | e in rest :: e in c.entries;
        DropOneIsSubsequence(c.entries, i);
        c.(entries := rest)
  }

  lemma RemoveForgets<V>(c: Cache<V>, key: string)
    requires Valid(c)
    ensures Valid(Remove(c, key)) && Lookup(Remove(c, key), key).None?
  {
    match IndexOf(c.entries, key)
    case None =>
    case Some(i) =>
      WithoutKeepsUnique(c.entries, i);
  }

  /** `clear`. */
  function Clear<V(!new)>(c: Cache<V>): (r: Cache<V>)
    ensures Valid(r) && r.maxSize == c.maxSize
    ensures forall key :: Lookup(r, key).None?
  {
    c.(entries := [])
  }

  function Size<V>(c: Cache<V>): nat
  {
    |c.entries|
  }

  /** `evictExpired`: drops exactly the expired entries and keeps the rest in access order. */
  function EvictExpired<V(!new)>(c: Cache<V>, now: int): (r: Cache<V>)
    ensures r.maxSize == c.maxSize && r.defaultTtl == c.defaultTtl
    ensures forall e :: e in r.entries <==> e in c.entries && !Expired(e, now)
    ensures |r.entries| <= |c.entries|
    ensures SubsequenceOf(r.entries, c.entries)
  {
    c.(entries := LiveEntries(c.entries, now))
  }

  function LiveEntries<V(!new)>(entries: seq<Entry<V>>, now: int): (r: seq<Entry<V>>)
    ensures |r| <= |entries|
    ensures forall e :: e in r <==> e in entries && !Expired(e, now)
    ensures SubsequenceOf(r, entries)
  {
    if entries == [] then []
    else
      var rest := LiveEntries(entries[1..], now);
      var r := (if Expired(entries[0], now) then [] else [entries[0]]) + rest;
      if Expired(entries[0], now) then
        assert r == rest;
        r
      else
        assert r[0] == entries[0] && r[1..] == rest;
        r
  }

  /** Dropping expired entries works piecewise: it distributes over concatenation. */
  lemma {:induction false} LiveEntriesAppend<V(!new)>(a: seq<Entry<V>>, b: seq<Entry<V>>, now: int)
    ensures LiveEntries(a + b, now) == LiveEntries(a, now) + LiveEntries(b, now)
    decreases |a|
  {
    if a == [] {
      assert a + b == b;
    } else {
      var ab := a + b;
      var head: seq<Entry<V>> := if Expired(a[0], now) then [] else [a[0]];
      assert ab[0] == a[0] && ab[1..] == a[1..] + b;
      assert LiveEntries(ab, now) == head + LiveEntries(a[1..] + b, now);
      assert LiveEntries(a, now) == head + LiveEntries(a[1..], now);
      LiveEntriesAppend(a[1..], b, now);
      Assoc(head, LiveEntries(a[1..], now), LiveEntries(b, now));
    }
  }

  lemma Assoc<T>(a: seq<T>, b: seq<T>, c: seq<T>)
    ensures a + (b + c) == a + b + c
  {
  }

  /** Dropping expired entries keeps the keys distinct. */
  lemma {:induction false} LiveEntriesUnique<V(!new)>(entries: seq<Entry<V>>, now: int)
    requires UniqueKeys(entries)
    ensures UniqueKeys(LiveEntries(entries, now))
  {
    if entries != [] {
      LiveEntriesUnique(entries[1..], now);
      var rest := LiveEntries(entries[1..], now);
      forall j | 0 <= j < |rest|
        ensures rest[j].key != entries[0].key
      {
        assert rest[j] in entries[1..];
      }
    }
  }

  lemma EvictExpiredValid<V(!new)>(c: Cache<V>, now: int)
    requires Valid(c)
    ensures Valid(EvictExpired(c, now))
    ensures forall e | e in EvictExpired(c, now).entries :: !Expired(e, now)
  {
    LiveEntriesUnique(c.entries, now);
  }
}

/**
 * A JavaScript `Map<string, V>` and `Set<string>`, with string keys: lookup by
 * key plus the insertion order that iteration follows. Setting an existing
 * key keeps its place, a new key goes to the end, and deleting a key removes
 * it from the order.
 */
module OrderedMap {
  import opened Wrappers

  datatype OMap<V> = OMap(keys: seq<string>, values: map<string, V>)

  predicate Distinct(s: seq<string>)
  {
    forall i, j | 0 <= i < j < |s| :: s[i] != s[j]
  }

  /** The order lists every key exactly once. */
  ghost predicate Valid<V>(m: OMap<V>)
  {
    && Distinct(m.keys)
    && (forall k :: k in m.keys <==> k in m.values)
  }

  function Empty<V>(): (r: OMap<V>)
    ensures Valid(r) && |r.keys| == 0
  {
    OMap([], map[])
  }

  function Get<V>(m: OMap<V>, k: string): (r: Option<V>)
    ensures r.Some? <==> k in m.values
  {
    if k in m.values then Some(m.values[k]) else None
  }

  predicate Has<V>(m: OMap<V>, k: string)
  {
    k in m.values
  }

  function Size<V>(m: OMap<V>): nat
  {
    |m.keys|
  }

  /** `values()` in iteration order. */
  function Values<V>(m: OMap<V>): (r: seq<V>)
    requires Valid(m)
    ensures |r| == Size(m)
    ensures forall i | 0 <= i < |r| :: Get(m, m.keys[i]) == Some(r[i])
  {
    seq(|m.keys|, i requires 0 <= i < |m.keys| && Valid(m) => m.values[m.keys[i]])
  }

  /** `set(k, v)`. */
  function Set<V>(m: OMap<V>, k: string, v: V): (r: OMap<V>)
    ensures Get(r, k) == Some(v)
    ensures forall k' | k' != k :: Get(r, k') == Get(m, k')
    ensures Has(m, k) ==> r.keys == m.keys
    ensures !Has(m, k) ==> r.keys == m.keys + [k]
    ensures Valid(m) ==> Valid(r)
  {
    if k in m.values then OMap(m.keys, m.values[k := v])
    else OMap(m.keys + [k], m.values[k := v])
  }

  /** Every element except `x`, in order. */
  function Remove(s: seq<string>, x: string): (r: seq<string>)
    ensures |r| <= |s|
    ensures forall y :: y in r <==> y in s && y != x
  {
    if s == [] then []
    else if s[0] == x then Remove(s[1..], x)
    else [s[0]] + Remove(s[1..], x)
  }

  lemma DistinctTail(s: seq<string>)
    requires Distinct(s) && s != []
    ensures s[0] !in s[1..] && Distinct(s[1..])
  {
    forall j | 0 <= j < |s| - 1
      ensures s[1..][j] != s[0]
    {
      assert s[1..][j] == s[j + 1];
    }
  }

  lemma DistinctCons(x: string, t: seq<string>)
    requires x !in t && Distinct(t)
    ensures Distinct([x] + t)
  {
    forall i, j | 0 <= i < j < |t| + 1
      ensures ([x] + t)[i] != ([x] + t)[j]
    {
      assert ([x] + t)[j] == t[j - 1];
      if i > 0 {
        assert ([x] + t)[i] == t[i - 1];
      }
    }
  }

  /** Removing an element keeps the others distinct. */
  lemma {:induction false} RemoveKeepsDistinct(s: seq<string>, x: string)
    ensures Distinct(s) ==> Distinct(Remove(s, x))
  {
    if s != [] && Distinct(s) {
      DistinctTail(s);
      RemoveKeepsDistinct(s[1..], x);
      if s[0] != x {
        DistinctCons(s[0], Remove(s[1..], x));
      }
    }
  }

  /** `delete(k)`: reports whether the key was present. */
  function Delete<V>(m: OMap<V>, k: string): (r: (OMap<V>, bool))
    ensures r.1 <==> Has(m, k)
    ensures Get(r.0, k) == None
    ensures forall k' | k' != k :: Get(r.0, k') == Get(m, k')
    ensures r.0.keys == Remove(m.keys, k)
    ensures Valid(m) ==> Valid(r.0)
  {
    RemoveKeepsDistinct(m.keys, k);
    (OMap(Remove(m.keys, k), m.values - {k}), k in m.values)
  }

  /** `Set.add(x)`: a member already present keeps its place. */
  function Add(s: seq<string>, x: string): (r: seq<string>)
    ensures x in r
    ensures forall y :: y in r <==> y in s || y == x
    ensures x in s ==> r == s
    ensures Distinct(s) ==> Distinct(r)
  {
    if x in s then s else s + [x]
  }

  /** Removing what was not there changes nothing. */
  lemma {:induction false} RemoveAbsent(s: seq<string>, x: string)
    requires x !in s
    ensures Remove(s, x) == s
  {
    if s != [] {
      assert s[0] != x && x !in s[1..];
      RemoveAbsent(s[1..], x);
      assert [s[0]] + s[1..] == s;
    }
  }

  /** `delete` undoes the `set` of a new key, order included. */
  lemma SetThenDelete<V>(m: OMap<V>, k: string, v: V)
    requires Valid(m) && !Has(m, k)
    ensures Delete(Set(m, k, v), k).0 == m
  {
    var r := Set(m, k, v);
    assert k !in m.keys;
    RemoveAbsent(m.keys, k);
    assert Remove(m.keys + [k], k) == m.keys by {
      RemoveAppend(m.keys, [k], k);
      assert Remove([k], k) == [];
      assert m.keys + [] == m.keys;
    }
    assert r.values - {k} == m.values;
  }

  lemma {:induction false} RemoveAppend(a: seq<string>, b: seq<string>, x: string)
    ensures Remove(a + b, x) == Remove(a, x) + Remove(b, x)
  {
    if a == [] {
      assert a + b == b;
    } else {
      assert (a + b)[0] == a[0];
      assert (a + b)[1..] == a[1..] + b;
      RemoveAppend(a[1..], b, x);
    }
  }
}

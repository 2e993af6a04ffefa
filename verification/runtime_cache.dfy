/** The shared key -> artifact cache (`MultiCache` / runtime cache) as an
    abstract association list. A lookup compares keys with the key type's own
    `operator==`, passed as `eq`; buckets, eviction and locking are not modelled. */
module RuntimeCache {
  import opened Common

  datatype Entry<K, V> = Entry(key: K, value: V)

  type Cache<K, V> = seq<Entry<K, V>>

  /** What `getOrCreate` hands back: the cache afterwards, the artifact, and
      whether the builder had to run. */
  datatype Lookup<K, V> = Lookup(cache: Cache<K, V>, value: V, built: bool)

  ghost predicate IsEquivalence<K(!new)>(eq: (K, K) -> bool)
  {
    && (forall a :: eq(a, a))
    && (forall a, b :: eq(a, b) ==> eq(b, a))
    && (forall a, b, c :: eq(a, b) && eq(b, c) ==> eq(a, c))
  }

  /** At most one artifact per key identity. */
  ghost predicate Unique<K, V>(c: Cache<K, V>, eq: (K, K) -> bool)
  {
    forall i, j :: 0 <= i < j < |c| ==> !eq(c[i].key, c[j].key)
  }

  /** Position of the first entry whose key equals `k`. */
  function Find<K, V>(c: Cache<K, V>, k: K, eq: (K, K) -> bool): (r: Option<nat>)
    ensures r.Some? ==> r.value < |c| && eq(c[r.value].key, k)
    ensures r.Some? ==> forall j :: 0 <= j < r.value ==> !eq(c[j].key, k)
    ensures r.None? ==> forall j :: 0 <= j < |c| ==> !eq(c[j].key, k)
  {
    if |c| == 0 then None
    else if eq(c[0].key, k) then Some(0)
    else
      match Find(c[1..], k, eq)
      case None => None
      case Some(i) => Some(i + 1)
  }

  /** `getOrCreate(key, builder)`: a hit returns the stored artifact and leaves
      the cache alone; a miss runs the builder once and stores its result. */
  function GetOrCreate<K, V>(c: Cache<K, V>, k: K, eq: (K, K) -> bool, build: K -> V): (r: Lookup<K, V>)
    ensures !r.built <==> exists j :: 0 <= j < |c| && eq(c[j].key, k)
    ensures !r.built ==> r.cache == c && exists j :: 0 <= j < |c| && eq(c[j].key, k) && r.value == c[j].value
    ensures r.built ==> r.cache == c + [Entry(k, build(k))] && r.value == build(k)
  {
    match Find(c, k, eq)
    case Some(i) => Lookup(c, c[i].value, false)
    case None => Lookup(c + [Entry(k, build(k))], build(k), true)
  }

  /** Inserting on a miss keeps at most one artifact per identity. */
  lemma GetOrCreateKeepsUnique<K(!new), V>(c: Cache<K, V>, k: K, eq: (K, K) -> bool, build: K -> V)
    requires IsEquivalence(eq)
    requires Unique(c, eq)
    ensures Unique(GetOrCreate(c, k, eq, build).cache, eq)
  {
    var r := GetOrCreate(c, k, eq, build);
    if r.built {
      forall i, j | 0 <= i < j < |r.cache|
        ensures !eq(r.cache[i].key, r.cache[j].key)
      {
        if j == |c| {
          assert r.cache[j].key == k;
          assert !eq(c[i].key, k);
        } else {
          assert r.cache[i] == c[i] && r.cache[j] == c[j];
        }
      }
    }
  }

  /** Compile-once: after a lookup for `k`, a lookup for any key equal to `k`
      hits and returns the very same artifact without building. */
  lemma SecondLookupHits<K(!new), V>(c: Cache<K, V>, k: K, k': K, eq: (K, K) -> bool, build: K -> V)
    requires IsEquivalence(eq)
    requires Unique(c, eq)
    requires eq(k, k')
    ensures var first := GetOrCreate(c, k, eq, build);
            var second := GetOrCreate(first.cache, k', eq, build);
            && !second.built
            && second.cache == first.cache
            && second.value == first.value
  {
    var first := GetOrCreate(c, k, eq, build);
    GetOrCreateKeepsUnique(c, k, eq, build);
    var i := Find(first.cache, k, eq);
    assert i.Some? by {
      if first.built {
        assert first.cache[|c|].key == k;
      }
    }
    var j := Find(first.cache, k', eq);
    assert eq(first.cache[i.value].key, k');
    assert j.Some? && j.value <= i.value;
    assert eq(first.cache[j.value].key, k) by {
      assert eq(first.cache[j.value].key, k');
      assert eq(k', k);
    }
    assert j.value == i.value;
    if !first.built {
      var w :| 0 <= w < |c| && eq(c[w].key, k) && first.value == c[w].value;
      assert w == i.value;
    }
  }
}

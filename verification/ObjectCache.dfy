/**
 The object cache of statemanage.go, written there once for accounts and once for spaces: objects are
 read from a trie into a cache, changed there, marked dirty at their first change, and written back or
 deleted when the state is finalised.
 */
module ObjectCache {
  import opened Bytes

  /**
   `trie` holds the stored objects, `cache` those in use, `dirty` those to be written, and `armed`
   those whose `onDirty` callback has not fired yet.
   */
  datatype Layer<!K(==), V> = Layer(trie: map<K, V>, cache: map<K, V>, dirty: set<K>, armed: set<K>)

  function Lookup<K(==), V>(m: map<K, V>, k: K): Option<V> {
    if k in m then Some(m[k]) else None
  }

  /** What a reader finds: the object in the cache, or else the stored one. */
  function At<K(==), V>(l: Layer<K, V>, k: K): Option<V> {
    if k in l.cache then Some(l.cache[k]) else Lookup(l.trie, k)
  }

  /**
   Up to the first finalise a layer stands for the map `seen`: readers find what it holds, an object
   that differs from the stored one is marked dirty, stored objects are not empty, and an object that
   was created and never changed is.
   */
  ghost predicate Ok<K(!new), V(!new)>(l: Layer<K, V>, seen: map<K, V>, empty: V -> bool) {
    forall k {:trigger At(l, k)} :: KeyOk(l, seen, empty, k)
  }

  ghost predicate KeyOk<K(!new), V(!new)>(l: Layer<K, V>, seen: map<K, V>, empty: V -> bool, k: K) {
    && At(l, k) == Lookup(seen, k)
    && (k in l.dirty ==> k in l.cache)
    && (k in l.trie ==> !empty(l.trie[k]))
    && (k in l.cache && k !in l.dirty ==>
          k in l.armed && if k in l.trie then l.trie[k] == l.cache[k] else empty(l.cache[k]))
  }

  lemma OkAt<K(!new), V(!new)>(l: Layer<K, V>, seen: map<K, V>, empty: V -> bool, k: K)
    requires Ok(l, seen, empty)
    ensures KeyOk(l, seen, empty, k)
  {
    var a := At(l, k);
  }

  ghost predicate NoneEmpty<K(!new), V(!new)>(m: map<K, V>, empty: V -> bool) {
    forall k :: k in m ==> !empty(m[k])
  }

  lemma StartOk<K(!new), V(!new)>(m: map<K, V>, empty: V -> bool)
    requires NoneEmpty(m, empty)
    ensures Ok(Layer(m, map[], {}, {}), m, empty)
  {
    var l := Layer(m, map[], {}, {});
    forall k ensures KeyOk(l, m, empty, k) { assert At(l, k) == Lookup(m, k); }
  }

  /** `getAccountObject`, `getSpaceObject`: from the cache, or from the trie into the cache. */
  function Load<K(==), V>(l: Layer<K, V>, k: K): (r: (Layer<K, V>, Option<V>)) {
    if k in l.cache then (l, Some(l.cache[k]))
    else if k in l.trie then (l.(cache := l.cache[k := l.trie[k]], armed := l.armed + {k}), Some(l.trie[k]))
    else (l, None)
  }

  lemma LoadIsLookup<K(!new), V(!new)>(l: Layer<K, V>, seen: map<K, V>, empty: V -> bool, k: K)
    requires Ok(l, seen, empty)
    ensures Ok(Load(l, k).0, seen, empty) && Load(l, k).1 == Lookup(seen, k)
    ensures (Load(l, k).1.Some? ==> k in Load(l, k).0.cache) && l.cache.Keys <= Load(l, k).0.cache.Keys
  {
    OkAt(l, seen, empty, k);
    forall j ensures KeyOk(Load(l, k).0, seen, empty, j) { OkAt(l, seen, empty, j); }
  }

  lemma CachedIsSeen<K(!new), V(!new)>(l: Layer<K, V>, seen: map<K, V>, empty: V -> bool, k: K)
    requires Ok(l, seen, empty) && k in l.cache
    ensures k in seen && seen[k] == l.cache[k]
  {
    OkAt(l, seen, empty, k);
  }

  /** A new object; it is not dirty until it is changed. */
  function Create<K(==), V>(l: Layer<K, V>, k: K, v: V): Layer<K, V> {
    l.(cache := l.cache[k := v], armed := l.armed + {k})
  }

  lemma CreateIsUpdate<K(!new), V(!new)>(l: Layer<K, V>, seen: map<K, V>, empty: V -> bool, k: K, v: V)
    requires Ok(l, seen, empty) && k !in seen && empty(v)
    ensures Ok(Create(l, k, v), seen[k := v], empty)
  {
    OkAt(l, seen, empty, k);
    var l', seen' := Create(l, k, v), seen[k := v];
    forall j ensures KeyOk(l', seen', empty, j) { OkAt(l, seen, empty, j); }
  }

  /** An object in the cache is changed; the first change marks it dirty. */
  function Change<K(==), V>(l: Layer<K, V>, k: K, v: V): Layer<K, V> {
    l.(cache := l.cache[k := v], dirty := if k in l.armed then l.dirty + {k} else l.dirty, armed := l.armed - {k})
  }

  lemma ChangeIsUpdate<K(!new), V(!new)>(l: Layer<K, V>, seen: map<K, V>, empty: V -> bool, k: K, v: V)
    requires Ok(l, seen, empty) && k in l.cache
    ensures Ok(Change(l, k, v), seen[k := v], empty) && Change(l, k, v).dirty == l.dirty + {k}
  {
    OkAt(l, seen, empty, k);
    var l', seen' := Change(l, k, v), seen[k := v];
    forall j ensures KeyOk(l', seen', empty, j) { OkAt(l, seen, empty, j); }
  }

  /** The trie once the objects in `todo` are written, or deleted where they are empty. */
  ghost function Written<K, V>(trie: map<K, V>, cache: map<K, V>, todo: set<K>, empty: V -> bool): map<K, V>
    requires todo <= cache.Keys
  {
    map k | k in trie.Keys + todo && !(k in todo && empty(cache[k])) :: if k in todo then cache[k] else trie[k]
  }

  lemma WriteStep<K(!new), V(!new)>(trie: map<K, V>, cache: map<K, V>, todo: set<K>, empty: V -> bool, k: K)
    requires todo <= cache.Keys && k in todo
    ensures Written(if empty(cache[k]) then trie - {k} else trie[k := cache[k]], cache, todo - {k}, empty)
         == Written(trie, cache, todo, empty)
  {
  }

  /** Every object to be written can be written. */
  ghost predicate Writes<K, V>(l: Layer<K, V>, empty: V -> bool, fits: V -> bool)
    requires l.dirty <= l.cache.Keys
  {
    forall k :: k in l.dirty ==> empty(l.cache[k]) || fits(l.cache[k])
  }

  /**
   `Finalise(true)`: dirty objects are written to the trie, empty ones deleted from it. An object that
   cannot be encoded ends the program, whichever is met first.
   */
  method Finalise<K(!new, ==), V(!new)>(l: Layer<K, V>, empty: V -> bool, fits: V -> bool) returns (r: Option<Layer<K, V>>)
    requires l.dirty <= l.cache.Keys
    ensures r.Some? <==> Writes(l, empty, fits)
    ensures r.Some? ==> r.value.trie == Written(l.trie, l.cache, l.dirty, empty) && r.value.cache == l.cache && r.value.dirty == {}
  {
    var trie, todo := l.trie, l.dirty;
    while todo != {}
      invariant todo <= l.dirty && Written(trie, l.cache, todo, empty) == Written(l.trie, l.cache, l.dirty, empty)
      invariant forall k :: k in l.dirty - todo ==> empty(l.cache[k]) || fits(l.cache[k])
      decreases |todo|
    {
      var k :| k in todo;
      WriteStep(trie, l.cache, todo, empty, k);
      if empty(l.cache[k]) {
        trie := trie - {k};
      } else {
        if !fits(l.cache[k]) { return None; }
        trie := trie[k := l.cache[k]];
      }
      todo := todo - {k};
    }
    assert Written(trie, l.cache, {}, empty) == trie;
    r := Some(l.(trie := trie, dirty := {}));
  }

  ghost predicate AllFit<K(!new), V(!new)>(m: map<K, V>, fits: V -> bool) {
    forall k :: k in m ==> fits(m[k])
  }

  /** Over stored objects that were written once, what can be written is what readers see. */
  lemma WritesIsSeen<K(!new), V(!new)>(l: Layer<K, V>, seen: map<K, V>, empty: V -> bool, fits: V -> bool)
    requires Ok(l, seen, empty) && AllFit(l.trie, fits) && forall v :: empty(v) ==> fits(v)
    ensures l.dirty <= l.cache.Keys && (Writes(l, empty, fits) <==> AllFit(seen, fits))
  {
    forall k | k in l.dirty ensures k in l.cache && k in seen && seen[k] == l.cache[k] { OkAt(l, seen, empty, k); }
    if Writes(l, empty, fits) {
      forall k | k in seen ensures fits(seen[k]) { OkAt(l, seen, empty, k); }
    }
  }

  /** The objects that are not empty. */
  ghost function Lasting<K, V>(m: map<K, V>, empty: V -> bool): map<K, V> {
    map k | k in m && !empty(m[k]) :: m[k]
  }

  lemma LastingNoneEmpty<K(!new), V(!new)>(m: map<K, V>, empty: V -> bool)
    ensures NoneEmpty(Lasting(m, empty), empty)
  {
  }

  /** Up to the first finalise, what is stored is exactly what readers saw, without the empty objects. */
  lemma WrittenIsSeen<K(!new), V(!new)>(l: Layer<K, V>, seen: map<K, V>, empty: V -> bool)
    requires Ok(l, seen, empty)
    ensures l.dirty <= l.cache.Keys && Written(l.trie, l.cache, l.dirty, empty) == Lasting(seen, empty)
  {
    forall k | k in l.dirty ensures k in l.cache { OkAt(l, seen, empty, k); }
    var f, g := Written(l.trie, l.cache, l.dirty, empty), Lasting(seen, empty);
    forall k ensures (k in f <==> k in g) && (k in f ==> f[k] == g[k]) { OkAt(l, seen, empty, k); }
  }
}

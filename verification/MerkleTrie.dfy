/**
 The `Trie` object of trie.go: a root node, a database and a cache generation, with the operations
 callers use. The ghost field `tree` is the value trie the object stands for; `Entries(tree)` is
 the map from hex keys to values a caller sees.
 */
module MerkleTrie {
  import opened Bytes
  import opened Patricia
  import opened HexKeys
  import opened TrieNode
  import opened LazyTrie
  import opened TrieHasher

  /** The zero hash, which `New` takes for an empty trie. */
  const ZeroHash: Hash :=
    [0, 0, 0, 0, 0, 0, 0, 0, 0, 0, 0, 0, 0, 0, 0, 0, 0, 0, 0, 0, 0, 0, 0, 0, 0, 0, 0, 0, 0, 0, 0, 0]

  class Trie {
    const H: bytes -> Hash
    var root: Node
    var db: Db
    var cachegen: nat
    var cachelimit: nat
    ghost var tree: Tree

    /** With `whole`, every node the trie may have to load is in the database. */
    ghost predicate Valid(whole: bool)
      reads this
    {
      Patricia.Trie(tree) && Rep(World(H, db, whole), root, tree, true)
    }

    constructor (H: bytes -> Hash, db: Db, root: Node, ghost t: Tree)
      ensures this.H == H && this.db == db && this.root == root && tree == t && cachegen == cachelimit == 0
    {
      this.H, this.db, this.root, this.cachegen, this.cachelimit := H, db, root, 0, 0;
      this.tree := t;
    }

    /** trie.go `SetCacheLimit`. */
    method SetCacheLimit(l: nat, ghost whole: bool)
      requires Valid(whole)
      modifies `cachelimit
      ensures Valid(whole) && cachelimit == l
    {
      cachelimit := l;
    }

    /** trie.go `TryGet`. */
    method TryGet(key: bytes, ghost whole: bool) returns (value: Option<bytes>, missing: bool)
      requires Valid(whole)
      modifies `root
      ensures Valid(whole) && (missing ==> !whole && root == old(root))
      ensures !missing ==> value == Lookup(Entries(tree), HexOfBytes(key))
    {
      var nibbles := KeybytesToHex(key);
      var k := nibbles[..];
      var newroot, didResolve := NilNode, false;
      value, newroot, didResolve, missing := LazyTrie.TryGet(db, cachegen, root, k, World(H, db, whole), tree, true);
      GetIsLookup(tree, k);
      if !missing && didResolve { root := newroot; }
    }

    /** trie.go `TryUpdate`: an empty value deletes. */
    method TryUpdate(key: bytes, value: bytes, ghost whole: bool) returns (missing: bool)
      requires Valid(whole)
      modifies `root, `tree
      ensures Valid(whole) && (missing ==> !whole && root == old(root) && tree == old(tree))
      ensures !missing ==> tree == Step(old(tree), Update(HexOfBytes(key), value))
      ensures !missing ==> Entries(tree) == StepMap(old(Entries(tree)), Update(HexOfBytes(key), value))
    {
      var nibbles := KeybytesToHex(key);
      var k := nibbles[..];
      var dirty, n := false, NilNode;
      StepRefines(tree, Update(k, value));
      if |value| != 0 {
        dirty, n, missing := LazyTrie.Insert(db, cachegen, root, k, value, World(H, db, whole), tree, true);
      } else {
        dirty, n, missing := LazyTrie.Delete(db, cachegen, root, k, World(H, db, whole), tree, true);
      }
      if missing { return; }
      root, tree := n, Step(tree, Update(k, value));
    }

    /** trie.go `TryDelete`. */
    method TryDelete(key: bytes, ghost whole: bool) returns (missing: bool)
      requires Valid(whole)
      modifies `root, `tree
      ensures Valid(whole) && (missing ==> !whole && root == old(root) && tree == old(tree))
      ensures !missing ==> tree == Step(old(tree), Remove(HexOfBytes(key)))
      ensures !missing ==> Entries(tree) == old(Entries(tree)) - {HexOfBytes(key)}
    {
      var nibbles := KeybytesToHex(key);
      var k := nibbles[..];
      var dirty, n := false, NilNode;
      StepRefines(tree, Remove(k));
      dirty, n, missing := LazyTrie.Delete(db, cachegen, root, k, World(H, db, whole), tree, true);
      if missing { return; }
      root, tree := n, Step(tree, Remove(k));
    }

    /** trie.go `Hash`: the root hash as computed from scratch, though cached hashes are used. */
    method Hash(ghost whole: bool) returns (h: Hash)
      requires Valid(whole)
      modifies `root
      ensures Valid(whole) && h == RootHash(H, tree)
    {
      if root.NilNode? { return RootHash(H, Nil); }
      var hasher := new Hasher(H, cachegen, cachelimit, db);
      var hashed, hash, cached := hasher.Hash(root, false, true, tree, Encodings(H, tree), db, whole);
      root := cached;
      h := hash.value;
    }

    /**
     trie.go `CommitTo` with the trie's own database. Nothing stored before is lost, and the
     whole trie can be read back from the returned hash.
     */
    method Commit(ghost es: set<bytes>, ghost whole: bool) returns (h: Hash)
      requires Valid(whole) && Encodings(H, tree) <= es
      requires Agrees(H, db, es) && NoCollision(H, es) && Sized(es)
      modifies `root, `db, `cachegen
      ensures Valid(whole) && h == RootHash(H, tree)
      ensures Grows(old(db), db) && Agrees(H, db, es)
      ensures whole && !tree.Nil? ==> Stored(H, db, tree)
      ensures cachegen == (old(cachegen) + 1) % 0x1_0000
    {
      if root.NilNode? {
        cachegen := (cachegen + 1) % 0x1_0000;
        return RootHash(H, Nil);
      }
      var hasher := new Hasher(H, cachegen, cachelimit, db);
      var hashed, hash, cached := hasher.Hash(root, true, true, tree, es, db, whole);
      root, db := cached, hasher.db;
      cachegen := (cachegen + 1) % 0x1_0000;
      h := hash.value;
    }
  }

  /** trie.go `New`; the result is null when the root node is missing. */
  method New(H: bytes -> Hash, root: Hash, db: Db, ghost t: Tree, ghost whole: bool) returns (trie: Trie?)
    requires root == ZeroHash || root == RootHash(H, Nil) || root == RootHash(H, t)
    requires Patricia.Trie(t) && Agrees(H, db, Encodings(H, t)) && Sized(Encodings(H, t))
    requires whole && !t.Nil? ==> Stored(H, db, t)
    ensures trie == null <==> root != ZeroHash && root != RootHash(H, Nil) && root !in db
    ensures trie != null ==> fresh(trie) && trie.Valid(whole) && trie.H == H && trie.db == db
    ensures trie != null ==> trie.tree == if root == ZeroHash || root == RootHash(H, Nil) then Nil else t
  {
    if root == ZeroHash || root == RootHash(H, Nil) {
      trie := new Trie(H, db, NilNode, Nil);
      return;
    }
    var rootnode, missing := ResolveHash(db, 0, root, World(H, db, whole), t, true);
    if missing { return null; }
    trie := new Trie(H, db, rootnode, t);
  }

  // ---------------------------------------------------------------------------------------------
  // Whole runs
  // ---------------------------------------------------------------------------------------------

  /** What a caller may ask of a trie. */
  datatype Action =
    | DoGet(key: bytes)
    | DoUpdate(key: bytes, value: bytes)
    | DoDelete(key: bytes)
    | DoHash
    | DoCommit
    | DoSetCacheLimit(l: nat)

  ghost function After(t: Tree, a: Action): (t': Tree)
    requires Patricia.Trie(t)
    ensures Patricia.Trie(t')
  {
    match a
    case DoUpdate(k, v) => StepRefines(t, Update(HexOfBytes(k), v)); Step(t, Update(HexOfBytes(k), v))
    case DoDelete(k) => StepRefines(t, Remove(HexOfBytes(k))); Step(t, Remove(HexOfBytes(k)))
    case _ => t
  }

  ghost function MapAfter(m: map<Key, bytes>, a: Action): map<Key, bytes> {
    match a
    case DoUpdate(k, v) => if |v| > 0 then m[HexOfBytes(k) := v] else m - {HexOfBytes(k)}
    case DoDelete(k) => m - {HexOfBytes(k)}
    case _ => m
  }

  /** The contents after a run: updates and deletions count, nothing else does. */
  ghost function MapAfterAll(m: map<Key, bytes>, acts: seq<Action>): map<Key, bytes>
    decreases |acts|
  {
    if acts == [] then m else MapAfterAll(MapAfter(m, acts[0]), acts[1..])
  }

  /** The same over key bytes. */
  ghost function BytesAfter(b: map<bytes, bytes>, a: Action): map<bytes, bytes> {
    match a
    case DoUpdate(k, v) => if |v| > 0 then b[k := v] else b - {k}
    case DoDelete(k) => b - {k}
    case _ => b
  }

  ghost function BytesAfterAll(b: map<bytes, bytes>, acts: seq<Action>): map<bytes, bytes>
    decreases |acts|
  {
    if acts == [] then b else BytesAfterAll(BytesAfter(b, acts[0]), acts[1..])
  }

  ghost predicate Answers(m: map<Key, bytes>, b: map<bytes, bytes>, k: bytes) {
    Patricia.Lookup(m, HexOfBytes(k)) == if k in b then Some(b[k]) else None
  }

  /** A map over hex keys answers for key bytes as `b` does. */
  ghost predicate SpeaksFor(m: map<Key, bytes>, b: map<bytes, bytes>) { forall k :: Answers(m, b, k) }

  lemma SpeaksAfter(m: map<Key, bytes>, b: map<bytes, bytes>, a: Action)
    requires SpeaksFor(m, b)
    ensures SpeaksFor(MapAfter(m, a), BytesAfter(b, a))
  {
    forall k ensures Answers(MapAfter(m, a), BytesAfter(b, a), k) {
      assert Answers(m, b, k);
      match a
      case DoUpdate(x, _) => if HexOfBytes(k) == HexOfBytes(x) { HexIsInjective(k, x); }
      case DoDelete(x) => if HexOfBytes(k) == HexOfBytes(x) { HexIsInjective(k, x); }
      case _ =>
    }
  }

  /** After any run the trie answers for key bytes as a plain map of key bytes does. */
  lemma {:induction false} RunOverBytes(m: map<Key, bytes>, b: map<bytes, bytes>, acts: seq<Action>)
    requires SpeaksFor(m, b)
    ensures SpeaksFor(MapAfterAll(m, acts), BytesAfterAll(b, acts))
    decreases |acts|
  {
    if acts != [] {
      SpeaksAfter(m, b, acts[0]);
      RunOverBytes(MapAfter(m, acts[0]), BytesAfter(b, acts[0]), acts[1..]);
    }
  }

  /** Every trie on the way has its encodings among `es`. */
  ghost predicate Covered(H: bytes -> Hash, t: Tree, acts: seq<Action>, es: set<bytes>)
    requires Patricia.Trie(t)
    decreases |acts|
  {
    Encodings(H, t) <= es && (acts == [] || Covered(H, After(t, acts[0]), acts[1..], es))
  }

  lemma AfterRefines(t: Tree, a: Action)
    requires Patricia.Trie(t)
    ensures Entries(After(t, a)) == MapAfter(Entries(t), a)
  {
    match a
    case DoUpdate(k, v) => StepRefines(t, Update(HexOfBytes(k), v));
    case DoDelete(k) => StepRefines(t, Remove(HexOfBytes(k)));
    case _ =>
  }

  method Perform(trie: Trie, a: Action, ghost es: set<bytes>)
    requires trie.Valid(true) && Encodings(trie.H, trie.tree) <= es
    requires Agrees(trie.H, trie.db, es) && NoCollision(trie.H, es) && Sized(es)
    modifies trie
    ensures trie.Valid(true) && trie.tree == After(old(trie.tree), a)
    ensures Grows(old(trie.db), trie.db) && Agrees(trie.H, trie.db, es)
  {
    match a
    case DoGet(k) => var value, missing := trie.TryGet(k, true);
    case DoUpdate(k, v) => var missing := trie.TryUpdate(k, v, true);
    case DoDelete(k) => var missing := trie.TryDelete(k, true);
    case DoHash => var h := trie.Hash(true);
    case DoCommit => var h := trie.Commit(es, true);
    case DoSetCacheLimit(l) => trie.SetCacheLimit(l, true);
  }

  /**
   Any run of reads, updates, deletions, hashing, commits and cache-limit changes: no node is ever
   missing, the contents are those of a plain map, and the root hash is the one every trie with
   those contents has, whatever the order they came in, the commits and the unloading.
   */
  method RunAll(trie: Trie, acts: seq<Action>, ghost es: set<bytes>) returns (h: Hash)
    requires trie.Valid(true) && Covered(trie.H, trie.tree, acts, es)
    requires Agrees(trie.H, trie.db, es) && NoCollision(trie.H, es) && Sized(es)
    modifies trie
    ensures trie.Valid(true) && Entries(trie.tree) == old(MapAfterAll(Entries(trie.tree), acts))
    ensures forall t :: Stored(trie.H, old(trie.db), t) ==> Stored(trie.H, trie.db, t)
    ensures forall t :: Patricia.Trie(t) && Entries(t) == Entries(trie.tree) ==> h == RootHash(trie.H, t)
  {
    ghost var m0, d0 := Entries(trie.tree), trie.db;
    for i := 0 to |acts|
      invariant trie.Valid(true) && Covered(trie.H, trie.tree, acts[i..], es)
      invariant Agrees(trie.H, trie.db, es) && Grows(d0, trie.db)
      invariant MapAfterAll(Entries(trie.tree), acts[i..]) == MapAfterAll(m0, acts)
    {
      assert acts[i..][0] == acts[i] && acts[i..][1..] == acts[i + 1..];
      AfterRefines(trie.tree, acts[i]);
      Perform(trie, acts[i], es);
    }
    h := trie.Hash(true);
    forall t | Patricia.Trie(t) && Entries(t) == Entries(trie.tree) ensures h == RootHash(trie.H, t) {
      MinimalIsUnique(t, trie.tree);
    }
  }

  /**
   A committed trie opened again at the returned root has the same contents and misses no node, unless its hash
   is one of the two that stand for the empty trie.
   */
  method CommitAndReopen(trie: Trie, ghost es: set<bytes>) returns (again: Trie?)
    requires trie.Valid(true) && Encodings(trie.H, trie.tree) <= es
    requires Agrees(trie.H, trie.db, es) && NoCollision(trie.H, es) && Sized(es)
    modifies trie
    ensures again != null && again.Valid(true)
    ensures var h := old(RootHash(trie.H, trie.tree));
            Entries(again.tree) == if h == ZeroHash || h == RootHash(trie.H, Nil) then map[] else old(Entries(trie.tree))
  {
    var h := trie.Commit(es, true);
    again := New(trie.H, h, trie.db, trie.tree, true);
  }
}

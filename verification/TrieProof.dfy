/**
 proof.go: `Prove` collects the encoded nodes on the path of a key, `VerifyProof` walks them from the
 root hash. A proof store is a map from hashes to node encodings.
 */
module TrieProof {
  import opened Bytes
  import opened Patricia
  import opened HexKeys
  import opened TrieNode
  import opened LazyTrie
  import opened TrieHasher
  import Rlp

  // ---------------------------------------------------------------------------------------------
  // What a proof consists of
  // ---------------------------------------------------------------------------------------------

  /** The encodings a proof of `key` must hold for the part of the path below `t`. */
  ghost function BelowTop(H: bytes -> Hash, t: Tree, key: Key): seq<bytes>
    requires Minimal(t) && Suffix(t, key)
    decreases t, 0
  {
    match t
    case Nil => []
    case Value(_) => []
    case Short(k, c) => SuffixShort(k, c, key); if k <= key then FromRef(H, c, key[|k|..]) else []
    case Full(cs) => SuffixFull(cs, key); FromRef(H, cs[key[0]], key[1..])
  }

  /** The same for a child and the path below it: an embedded child is no element of its own. */
  ghost function FromRef(H: bytes -> Hash, t: Tree, key: Key): seq<bytes>
    requires Minimal(t) && Suffix(t, key)
    decreases t, 1
  {
    (if Embedded(H, t) then [] else [Enc(H, t)]) + BelowTop(H, t, key)
  }

  /** The elements of a proof: the root node, and every node on the path that is kept by hash. */
  ghost function Elements(H: bytes -> Hash, t: Tree, key: Key): seq<bytes>
    requires Minimal(t) && Suffix(t, key)
  {
    if t.Nil? then [] else [Enc(H, t)] + BelowTop(H, t, key)
  }

  ghost predicate AllIn(H: bytes -> Hash, db: Db, es: seq<bytes>) {
    forall i :: 0 <= i < |es| ==> H(es[i]) in db
  }

  /** A store that names every node by its hash, under a collision-free hash, agrees with the trie. */
  lemma ContentAddressed(H: bytes -> Hash, db: Db, es: set<bytes>)
    requires forall h :: h in db ==> H(db[h]) == h
    requires NoCollision(H, es + db.Values)
    ensures Agrees(H, db, es)
  {
    forall e | e in es && H(e) in db ensures db[H(e)] == e {
      assert db[H(e)] in db.Values;
    }
  }

  // ---------------------------------------------------------------------------------------------
  // Following a key inside one decoded node
  // ---------------------------------------------------------------------------------------------

  /** The first subtrie below `t` on the path of `key` that is not embedded, and the key left there. */
  ghost function Next(H: bytes -> Hash, t: Tree, key: Key): (Tree, Key)
    requires Minimal(t) && Suffix(t, key)
    decreases t, 0
  {
    match t
    case Nil => (Nil, [])
    case Value(_) => (t, [])
    case Short(k, c) => SuffixShort(k, c, key); if k <= key then NextRef(H, c, key[|k|..]) else (Nil, [])
    case Full(cs) => SuffixFull(cs, key); NextRef(H, cs[key[0]], key[1..])
  }

  ghost function NextRef(H: bytes -> Hash, t: Tree, key: Key): (Tree, Key)
    requires Minimal(t) && Suffix(t, key)
    decreases t, 1
  {
    if Embedded(H, t) then Next(H, t, key) else (t, key)
  }

  /** The step to the next subtrie skips no element and changes no answer. */
  ghost predicate Leads(H: bytes -> Hash, t: Tree, key: Key, s: Tree, rest: Key)
    requires Minimal(t) && Suffix(t, key)
  {
    && Minimal(s) && Suffix(s, rest) && Encodings(H, s) <= Encodings(H, t)
    && Get(s, rest) == Get(t, key)
    && (s.Nil? || s.Value? || !Embedded(H, s))
  }

  lemma {:induction false} NextLeads(H: bytes -> Hash, t: Tree, key: Key)
    requires Minimal(t) && Suffix(t, key)
    ensures Leads(H, t, key, Next(H, t, key).0, Next(H, t, key).1)
    ensures t.Short? || t.Full? ==> Next(H, t, key).0.Nil? || Next(H, t, key).0 < t
    ensures BelowTop(H, t, key) == FromRef(H, Next(H, t, key).0, Next(H, t, key).1)
    decreases t, 0
  {
    match t
    case Nil => assert BelowTop(H, Nil, []) == [];
    case Value(_) => assert BelowTop(H, t, []) == [];
    case Short(k, c) =>
      SuffixShort(k, c, key);
      if k <= key { NextRefLeads(H, c, key[|k|..]); } else { assert FromRef(H, Nil, []) == []; }
    case Full(cs) =>
      SuffixFull(cs, key);
      ChildEncodings(H, cs, key[0]);
      NextRefLeads(H, cs[key[0]], key[1..]);
  }

  lemma {:induction false} NextRefLeads(H: bytes -> Hash, t: Tree, key: Key)
    requires Minimal(t) && Suffix(t, key)
    ensures Leads(H, t, key, NextRef(H, t, key).0, NextRef(H, t, key).1)
    ensures NextRef(H, t, key).0.Nil? || NextRef(H, t, key).0 == t || NextRef(H, t, key).0 < t
    ensures FromRef(H, t, key) == FromRef(H, NextRef(H, t, key).0, NextRef(H, t, key).1)
    decreases t, 1
  {
    if Embedded(H, t) {
      NextLeads(H, t, key);
      assert [] + BelowTop(H, t, key) == BelowTop(H, t, key);
    }
  }

  /** What proof.go `get` finds: nothing, a value, or a hash to look up next. */
  function Follow(n: Node, key: Key): (Key, Node)
    decreases n
  {
    match n
    case NilNode => (key, NilNode)
    case ValueNode(_) => ([], n)
    case HashNode(_) => (key, n)
    case ShortNode(k, c, _) => if k <= key then Follow(c, key[|k|..]) else ([], NilNode)
    case FullNode(cs, _) =>
      if key == [] || !(0 <= key[0] < |cs|) then ([], NilNode) else Follow(cs[key[0]], key[1..])
  }

  /** proof.go `get`. */
  method GetIn(n: Node, k: Key) returns (keyrest: Key, child: Node)
    ensures (keyrest, child) == Follow(n, k)
  {
    var tn, key := n, k;
    while true
      invariant Follow(tn, key) == Follow(n, k)
      decreases tn
    {
      match tn
      case ShortNode(sk, c, _) =>
        if !(sk <= key) { return [], NilNode; }
        tn, key := c, key[|sk|..];
      case FullNode(cs, _) =>
        if key == [] || !(0 <= key[0] < |cs|) { return [], NilNode; }
        tn, key := cs[key[0]], key[1..];
      case HashNode(_) => return key, tn;
      case NilNode => return key, NilNode;
      case ValueNode(_) => return [], tn;
    }
  }

  /** The walk of `get` reaches a full node with no key left, where the code would index an empty key. */
  ghost predicate OutOfKey(n: Node, key: Key)
    decreases n
  {
    match n
    case ShortNode(k, c, _) => k <= key && OutOfKey(c, key[|k|..])
    case FullNode(cs, _) => key == [] || (0 <= key[0] < |cs| && OutOfKey(cs[key[0]], key[1..]))
    case _ => false
  }

  /** That cannot happen in a node loaded from the trie itself, and so not over a store that agrees with it. */
  lemma {:induction false} NeverOutOfKey(H: bytes -> Hash, t: Tree, key: Key, hash: Option<Hash>, gen: nat)
    requires Minimal(t) && Suffix(t, key)
    ensures !OutOfKey(Loaded(H, t, hash, gen), key)
    decreases t, 0
  {
    match t
    case Nil =>
    case Value(_) =>
    case Short(k, c) =>
      SuffixShort(k, c, key);
      if k <= key { NeverOutOfRef(H, c, key[|k|..], gen); }
    case Full(cs) =>
      SuffixFull(cs, key);
      ChildRefs(H, cs, key[0], gen);
      NeverOutOfRef(H, cs[key[0]], key[1..], gen);
  }

  lemma {:induction false} NeverOutOfRef(H: bytes -> Hash, t: Tree, key: Key, gen: nat)
    requires Minimal(t) && Suffix(t, key)
    ensures !OutOfKey(LoadedRef(H, t, gen), key)
    decreases t, 1
  {
    if Embedded(H, t) { NeverOutOfKey(H, t, key, None, gen); }
  }

  /** The node by which a decoded parent knows the subtrie that comes next. */
  ghost predicate Finds(H: bytes -> Hash, found: (Key, Node), s: Tree, rest: Key) {
    match s
    case Nil => found.1 == NilNode
    case Value(v) => found.1 == ValueNode(v)
    case _ => found == (rest, HashNode(H(Enc(H, s))))
  }

  lemma {:induction false} FollowLoaded(H: bytes -> Hash, t: Tree, key: Key, hash: Option<Hash>, gen: nat)
    requires Minimal(t) && Suffix(t, key)
    ensures Finds(H, Follow(Loaded(H, t, hash, gen), key), Next(H, t, key).0, Next(H, t, key).1)
    decreases t, 0
  {
    match t
    case Nil =>
    case Value(_) =>
    case Short(k, c) =>
      SuffixShort(k, c, key);
      if k <= key { FollowLoadedRef(H, c, key[|k|..], gen); }
    case Full(cs) =>
      SuffixFull(cs, key);
      ChildRefs(H, cs, key[0], gen);
      FollowLoadedRef(H, cs[key[0]], key[1..], gen);
  }

  lemma {:induction false} FollowLoadedRef(H: bytes -> Hash, t: Tree, key: Key, gen: nat)
    requires Minimal(t) && Suffix(t, key)
    ensures Finds(H, Follow(LoadedRef(H, t, gen), key), NextRef(H, t, key).0, NextRef(H, t, key).1)
    decreases t, 1
  {
    if Embedded(H, t) { FollowLoaded(H, t, key, None, gen); }
  }

  // ---------------------------------------------------------------------------------------------
  // Verifying
  // ---------------------------------------------------------------------------------------------

  datatype Verdict = Accepted(value: Option<bytes>, nodes: nat) | Rejected

  /**
   proof.go `VerifyProof`, against a store that agrees with the trie of the root hash. An accepted
   value or absence is the trie's answer, and acceptance takes exactly the elements of the proof.
   */
  method VerifyProof(rootHash: Hash, key: bytes, proofDb: Db, ghost H: bytes -> Hash, ghost t: Tree)
    returns (r: Verdict)
    requires Patricia.Trie(t) && rootHash == RootHash(H, t)
    requires Agrees(H, proofDb, Encodings(H, t) + {Enc(H, Nil)}) && Sized(Encodings(H, t))
    ensures r.Accepted? ==> r.value == Lookup(Entries(t), HexOfBytes(key))
    ensures r.Accepted? <==> !t.Nil? && AllIn(H, proofDb, Elements(H, t, HexOfBytes(key)))
    ensures r.Accepted? ==> r.nodes + (if r.value.None? then 1 else 0) == |Elements(H, t, HexOfBytes(key))|
  {
    var nibbles := KeybytesToHex(key);
    var k := nibbles[..];
    GetIsLookup(t, k);
    ghost var all := Elements(H, t, k);
    var wantHash, i := rootHash, 0;
    ghost var s := t;
    while true
      invariant Patricia.Trie(s) && Suffix(s, k) && wantHash == H(Enc(H, s))
      invariant Encodings(H, s) <= Encodings(H, t) && (s.Nil? ==> s == t)
      invariant Get(s, k) == Get(t, HexOfBytes(key))
      invariant !s.Nil? ==> |all| == i + |Elements(H, s, k)|
      invariant !s.Nil? ==> (AllIn(H, proofDb, all) <==> AllIn(H, proofDb, Elements(H, s, k)))
      decreases s
    {
      assert !s.Nil? ==> Elements(H, s, k)[0] == Enc(H, s) && Enc(H, s) in Encodings(H, t);
      if wantHash !in proofDb { return Rejected; }
      var buf := proofDb[wantHash];
      assert buf == Enc(H, s);
      var n := DecodeNode(Some(wantHash), buf, 0);
      if s.Nil? { EmptyIsNoNode(H, Some(wantHash)); }
      if n.None? { Decodes(H, s, Some(wantHash)); return Rejected; }
      Decodes(H, s, Some(wantHash));
      FollowLoaded(H, s, k, Some(wantHash), 0);
      NextLeads(H, s, k);
      AllInTail(H, proofDb, s, k);
      ghost var next := Next(H, s, k);
      var keyrest, child := GetIn(n.value, k);
      match child
      case NilNode => return Accepted(None, i);
      case ValueNode(v) => return Accepted(Some(v), i + 1);
      case HashNode(h) =>
        wantHash, k, i := h, keyrest, i + 1;
        s := next.0;
      case _ => assert false;
    }
  }

  lemma EmptyIsNoNode(H: bytes -> Hash, hash: Option<Hash>)
    ensures DecodeNode(hash, Enc(H, Nil), 0).None?
  {
    Rlp.SplitOfString([], []);
    assert Rlp.EncodeString([]) + [] == Rlp.EncodeString([]);
  }

  lemma Decodes(H: bytes -> Hash, s: Tree, hash: Option<Hash>)
    requires Patricia.Trie(s) && |Enc(H, s)| < TWO64
    ensures !s.Nil? ==> DecodeNode(hash, Enc(H, s), 0) == Some(Loaded(H, s, hash, 0))
  {
    assert Enc(H, s) + [] == Enc(H, s);
    if !s.Nil? { DecodeOfEnc(H, s, hash, 0, []); }
  }

  lemma AllInTail(H: bytes -> Hash, db: Db, s: Tree, k: Key)
    requires Patricia.Trie(s) && !s.Nil? && Suffix(s, k) && H(Enc(H, s)) in db
    ensures AllIn(H, db, Elements(H, s, k)) <==> AllIn(H, db, BelowTop(H, s, k))
  {
    var es, below := Elements(H, s, k), BelowTop(H, s, k);
    assert forall i :: 0 <= i < |below| ==> below[i] == es[i + 1];
    assert forall i :: 1 <= i < |es| ==> es[i] == below[i - 1];
  }

  /** Against any store that names its entries by their hashes, an accepted answer is the trie's. */
  method VerifyStored(rootHash: Hash, key: bytes, proofDb: Db, ghost H: bytes -> Hash, ghost t: Tree) returns (r: Verdict)
    requires Patricia.Trie(t) && rootHash == RootHash(H, t) && Sized(Encodings(H, t))
    requires (forall h :: h in proofDb ==> H(proofDb[h]) == h)
    requires NoCollision(H, Encodings(H, t) + {Enc(H, Nil)} + proofDb.Values)
    ensures r.Accepted? ==> r.value == Lookup(Entries(t), HexOfBytes(key))
    ensures r.Accepted? <==> !t.Nil? && AllIn(H, proofDb, Elements(H, t, HexOfBytes(key)))
  {
    ContentAddressed(H, proofDb, Encodings(H, t) + {Enc(H, Nil)});
    r := VerifyProof(rootHash, key, proofDb, H, t);
  }

  // ---------------------------------------------------------------------------------------------
  // Proving
  // ---------------------------------------------------------------------------------------------

  /** The subtries on the path of a key, from the top. */
  ghost function Path(t: Tree, key: Key): seq<Tree>
    requires Minimal(t) && Suffix(t, key)
  {
    match t
    case Nil => []
    case Value(_) => []
    case Short(k, c) => SuffixShort(k, c, key); [t] + if k <= key then Path(c, key[|k|..]) else []
    case Full(cs) => SuffixFull(cs, key); [t] + Path(cs[key[0]], key[1..])
  }

  /** The proof elements among the subtries of a path; the first one counts if it is the root. */
  ghost function ElementsOf(H: bytes -> Hash, path: seq<Tree>, first: bool): seq<bytes>
    decreases |path|
  {
    if path == [] then []
    else (if first || !Embedded(H, path[0]) then [Enc(H, path[0])] else []) + ElementsOf(H, path[1..], false)
  }

  lemma {:induction false} PathElements(H: bytes -> Hash, t: Tree, key: Key)
    requires Minimal(t) && Suffix(t, key)
    ensures ElementsOf(H, Path(t, key), false) == FromRef(H, t, key)
    ensures t.Short? || t.Full? ==> ElementsOf(H, Path(t, key), true) == [Enc(H, t)] + BelowTop(H, t, key)
    decreases t
  {
    match t
    case Nil =>
    case Value(_) =>
    case Short(k, c) =>
      SuffixShort(k, c, key);
      if k <= key {
        PathElements(H, c, key[|k|..]);
        assert Path(t, key)[1..] == Path(c, key[|k|..]);
      } else {
        assert Path(t, key)[1..] == [];
      }
    case Full(cs) =>
      SuffixFull(cs, key);
      PathElements(H, cs[key[0]], key[1..]);
      assert Path(t, key)[1..] == Path(cs[key[0]], key[1..]);
  }

  /** The nodes in memory on a path stand for its subtries. */
  ghost predicate PathRep(w: World, nodes: seq<Node>, path: seq<Tree>) {
    && |nodes| == |path|
    && forall i :: 0 <= i < |nodes| ==> Minimal(path[i]) && ChildrenRep(w, nodes[i], path[i]) && FlagHash(w, nodes[i], path[i])
  }

  ghost predicate FlagHash(w: World, n: Node, t: Tree)
    requires ChildrenRep(w, n, t)
  {
    n.flags.hash.Some? ==> n.flags.hash.value == w.H(Enc(w.H, t))
  }

  lemma OneMore(w: World, nodes: seq<Node>, path: seq<Tree>, n: Node, t: Tree, root: bool)
    requires PathRep(w, nodes, path) && Minimal(t) && Rep(w, n, t, root) && (n.ShortNode? || n.FullNode?)
    ensures PathRep(w, nodes + [n], path + [t])
  {
  }

  /** One step of the loop of `Prove` through a short or full node. */
  method StepDown(n: Node, key: Key, ghost w: World, ghost s: Tree, ghost root: bool)
    returns (next: Node, rest: Key, ghost s': Tree)
    requires Minimal(s) && Suffix(s, key) && Rep(w, n, s, root) && (n.ShortNode? || n.FullNode?) && key != []
    ensures Minimal(s') && Suffix(s', rest) && Rep(w, next, s', false)
    ensures Path(s, key) == [s] + Path(s', rest) && (next.NilNode? || s' < s)
  {
    match n
    case ShortNode(sk, c, _) =>
      SuffixShort(sk, s.val, key);
      if !(sk <= key) { return NilNode, key, Nil; }
      return c, key[|sk|..], s.val;
    case FullNode(cs, _) =>
      SuffixFull(s.children, key);
      return cs[key[0]], key[1..], s.children[key[0]];
  }

  /** The first loop of `Prove`. */
  method CollectPath(db: Db, gen: nat, n: Node, k: Key, ghost w: World, ghost t: Tree)
    returns (nodes: seq<Node>, missing: bool)
    requires w.db == db && Patricia.Trie(t) && HexKey(k) && Rep(w, n, t, true)
    ensures missing ==> !w.whole
    ensures !missing ==> PathRep(w, nodes, Path(t, k))
  {
    var tn, key := n, k;
    ghost var s, root, path := t, true, [];
    nodes := [];
    while |key| > 0 && !tn.NilNode?
      invariant Minimal(s) && Suffix(s, key) && Rep(w, tn, s, root)
      invariant PathRep(w, nodes, path) && path + Path(s, key) == Path(t, k)
      decreases !tn.NilNode?, s, tn.HashNode?
    {
      if tn.HashNode? {
        tn, missing := ResolveHash(db, gen, tn.h, w, s, root);
        if missing { return; }
      } else {
        OneMore(w, nodes, path, tn, s, root);
        nodes := nodes + [tn];
        ghost var s1 := s;
        tn, key, s := StepDown(tn, key, w, s, root);
        Assoc(path, [s1], Path(s, key));
        path, root := path + [s1], false;
      }
    }
    assert Path(s, key) == [];
    assert path + [] == path;
    missing := false;
  }

  /** The store after putting the given encodings under their hashes. */
  ghost function PutAll(H: bytes -> Hash, db: Db, es: seq<bytes>): Db
    decreases |es|
  {
    if es == [] then db else PutAll(H, db[H(es[0]) := es[0]], es[1..])
  }

  function Drop<T>(s: seq<T>, n: nat): seq<T> {
    if n < |s| then s[n..] else []
  }

  /** One more element: skipped while levels are left to skip, else put. */
  lemma PutStep(H: bytes -> Hash, db: Db, e: bytes, rest: seq<bytes>, skip: nat)
    ensures skip > 0 ==> Drop([e] + rest, skip) == Drop(rest, skip - 1)
    ensures skip == 0 ==> PutAll(H, db, Drop([e] + rest, 0)) == PutAll(H, db[H(e) := e], Drop(rest, 0))
  {
    assert ([e] + rest)[0..] == [e] + rest;
    assert ([e] + rest)[1..] == rest && rest[0..] == rest;
  }

  /** The encoding of a node on the path and, if it is kept by hash, that hash. */
  method EncodePathNode(hasher: Hasher, n: Node, ghost w: World, ghost t: Tree)
    returns (enc: bytes, hash: Option<Hash>)
    requires hasher.H == w.H && hasher.db == w.db && Minimal(t) && ChildrenRep(w, n, t) && FlagHash(w, n, t)
    modifies hasher
    ensures hasher.db == old(hasher.db) && enc == Enc(w.H, t)
    ensures hash == if Embedded(w.H, t) then None else Some(w.H(Enc(w.H, t)))
  {
    var collapsed, cached := hasher.HashChildren(n, false, t, Encodings(w.H, t), w.db, w.whole);
    var hashed: Rlp.Item;
    hashed, hash := hasher.StoreNode(collapsed, n.flags.hash, false, false, {});
    enc := Rlp.Encode(collapsed);
  }

  /** proof.go `Prove`: exactly the elements of the proof are stored, but for the first `fromLevel`. */
  method Prove(H: bytes -> Hash, db: Db, gen: nat, root: Node, key: bytes, fromLevel: nat, proofDb: Db,
               ghost w: World, ghost t: Tree)
    returns (out: Db, missing: bool)
    requires w.H == H && w.db == db && Patricia.Trie(t) && Rep(w, root, t, true)
    ensures missing ==> !w.whole && out == proofDb
    ensures !missing ==> out == PutAll(H, proofDb, Drop(Elements(H, t, HexOfBytes(key)), fromLevel))
  {
    var nibbles := KeybytesToHex(key);
    var nodes: seq<Node>;
    nodes, missing := CollectPath(db, gen, root, nibbles[..], w, t);
    if missing { return proofDb, true; }
    PathElements(H, t, nibbles[..]);
    out := PutNodes(H, db, nodes, fromLevel, proofDb, w, Path(t, nibbles[..]));
  }

  /** The second loop of `Prove`. */
  method PutNodes(H: bytes -> Hash, db: Db, nodes: seq<Node>, fromLevel: nat, proofDb: Db,
                  ghost w: World, ghost path: seq<Tree>)
    returns (out: Db)
    requires w.H == H && w.db == db && PathRep(w, nodes, path)
    ensures out == PutAll(H, proofDb, Drop(ElementsOf(H, path, true), fromLevel))
  {
    out := proofDb;
    ghost var final := Remaining(H, proofDb, path, true, fromLevel);
    var hasher := new Hasher(H, 0, 0, db);
    var level, i := fromLevel, 0;
    ghost var rest := path;
    while i < |nodes|
      invariant 0 <= i <= |nodes| && rest == path[i..] && hasher.H == H && hasher.db == db
      invariant Remaining(H, out, rest, i == 0, level) == final
    {
      var enc, hash := EncodePathNode(hasher, nodes[i], w, path[i]);
      assert rest[0] == path[i] && rest[1..] == path[i + 1..];
      RemainingStep(H, out, rest, i == 0, level);
      if hash.Some? || i == 0 {
        if level > 0 {
          level := level - 1;
        } else {
          var h := if hash.Some? then hash.value else H(enc);
          out := out[h := enc];
        }
      }
      i, rest := i + 1, path[i + 1..];
    }
  }

  /** The store once the rest of a path is put, its first `level` elements skipped. */
  ghost function Remaining(H: bytes -> Hash, out: Db, path: seq<Tree>, first: bool, level: nat): Db {
    PutAll(H, out, Drop(ElementsOf(H, path, first), level))
  }

  lemma RemainingStep(H: bytes -> Hash, out: Db, path: seq<Tree>, first: bool, level: nat)
    requires path != []
    ensures var e := Enc(H, path[0]);
            Remaining(H, out, path, first, level) ==
            if !first && Embedded(H, path[0]) then Remaining(H, out, path[1..], false, level)
            else if level > 0 then Remaining(H, out, path[1..], false, level - 1)
            else Remaining(H, out[H(e) := e], path[1..], false, 0)
  {
    var e, rest := Enc(H, path[0]), ElementsOf(H, path[1..], false);
    if !first && Embedded(H, path[0]) {
      assert [] + rest == rest;
    } else {
      PutStep(H, out, e, rest, level);
    }
  }

  // ---------------------------------------------------------------------------------------------
  // A proof verifies
  // ---------------------------------------------------------------------------------------------

  /** What a store filled from an empty one holds. */
  lemma {:induction false} PutAllHolds(H: bytes -> Hash, db: Db, es: seq<bytes>, all: set<bytes>)
    requires Agrees(H, db, all) && NoCollision(H, all) && forall i :: 0 <= i < |es| ==> es[i] in all
    ensures Agrees(H, PutAll(H, db, es), all)
    ensures forall h :: h in PutAll(H, db, es) <==> h in db || exists i :: 0 <= i < |es| && H(es[i]) == h
    decreases |es|
  {
    if es != [] {
      var db' := db[H(es[0]) := es[0]];
      PutAllHolds(H, db', es[1..], all);
      forall h ensures h in PutAll(H, db, es) <==> h in db || exists i :: 0 <= i < |es| && H(es[i]) == h {
        if i :| 0 <= i < |es| && H(es[i]) == h {
          if i > 0 { assert es[1..][i - 1] == es[i]; }
        }
      }
    }
  }

  /** A subtrie below the top of `t`, known by its encoding. */
  ghost predicate Proper(H: bytes -> Hash, t: Tree, s: Tree, e: bytes) {
    Patricia.Trie(s) && s < t && e == Enc(H, s) && Encodings(H, s) <= Encodings(H, t) && e in Encodings(H, t)
  }

  lemma {:induction false} ElementBelow(H: bytes -> Hash, t: Tree, key: Key, i: nat)
    requires Patricia.Trie(t) && Suffix(t, key) && i < |BelowTop(H, t, key)|
    ensures exists s :: Proper(H, t, s, BelowTop(H, t, key)[i])
    decreases t
  {
    NextLeads(H, t, key);
    var s, rest := Next(H, t, key).0, Next(H, t, key).1;
    var below := BelowTop(H, t, key);
    if i == 0 {
      assert Proper(H, t, s, below[0]);
    } else {
      assert below[i] == BelowTop(H, s, rest)[i - 1];
      ElementBelow(H, s, rest, i - 1);
      var x :| Proper(H, s, x, BelowTop(H, s, rest)[i - 1]);
      assert Proper(H, t, x, below[i]);
    }
  }

  /** Every element below the root is an encoding of the trie, and none is the root's own. */
  lemma ElementsDiffer(H: bytes -> Hash, t: Tree, key: Key)
    requires Patricia.Trie(t) && Suffix(t, key) && Sized(Encodings(H, t)) && NoCollision(H, Encodings(H, t))
    ensures forall i :: 0 <= i < |BelowTop(H, t, key)| ==>
              BelowTop(H, t, key)[i] in Encodings(H, t) && BelowTop(H, t, key)[i] != Enc(H, t)
  {
    var below := BelowTop(H, t, key);
    forall i | 0 <= i < |below| ensures below[i] in Encodings(H, t) && below[i] != Enc(H, t) {
      ElementBelow(H, t, key, i);
      var s :| Proper(H, t, s, below[i]);
      if below[i] == Enc(H, t) { SameEncoding(H, s, t, Encodings(H, t)); }
    }
  }

  /** What a proof put into an empty store holds of the elements of a key: all of them, or at least not the root. */
  lemma ProofStands(H: bytes -> Hash, t: Tree, k: Key, fromLevel: nat, proof: Db, rootHash: Hash)
    requires Patricia.Trie(t) && Suffix(t, k) && rootHash == RootHash(H, t)
    requires Sized(Encodings(H, t)) && NoCollision(H, Encodings(H, t) + {Enc(H, Nil)})
    requires proof == PutAll(H, map[], Drop(Elements(H, t, k), fromLevel))
    ensures Agrees(H, proof, Encodings(H, t) + {Enc(H, Nil)})
    ensures !t.Nil? ==> (AllIn(H, proof, Elements(H, t, k)) <==> fromLevel == 0)
  {
    var all, es := Encodings(H, t) + {Enc(H, Nil)}, Elements(H, t, k);
    ElementsDiffer(H, t, k);
    assert !t.Nil? ==> Enc(H, t) in all;
    if t.Nil? { assert es == []; } else { assert es == [Enc(H, t)] + BelowTop(H, t, k); }
    DroppedStand(H, es, fromLevel, all, proof);
  }

  /** Elements that differ from the first one, put into an empty store from some level on. */
  lemma DroppedStand(H: bytes -> Hash, es: seq<bytes>, fromLevel: nat, all: set<bytes>, proof: Db)
    requires NoCollision(H, all) && (forall i :: 0 <= i < |es| ==> es[i] in all) && (forall i :: 0 < i < |es| ==> es[i] != es[0])
    requires proof == PutAll(H, map[], Drop(es, fromLevel))
    ensures Agrees(H, proof, all) && (es != [] ==> (AllIn(H, proof, es) <==> fromLevel == 0))
  {
    var put := Drop(es, fromLevel);
    PutAllHolds(H, map[], put, all);
    if fromLevel == 0 {
      assert put == es;
    } else if es != [] {
      assert H(es[0]) !in proof;
    }
  }

  /**
   A proof taken from any state of a trie into an empty store is accepted exactly when the trie is
   not empty and no level was skipped, and then it gives the trie's value or proves its absence.
   */
  method ProveAndVerify(H: bytes -> Hash, db: Db, gen: nat, root: Node, rootHash: Hash, key: bytes, fromLevel: nat,
                        ghost w: World, ghost t: Tree)
    returns (r: Verdict)
    requires w == World(H, db, true) && Patricia.Trie(t) && Rep(w, root, t, true) && rootHash == RootHash(H, t)
    requires Sized(Encodings(H, t)) && NoCollision(H, Encodings(H, t) + {Enc(H, Nil)})
    ensures r.Accepted? <==> !t.Nil? && fromLevel == 0
    ensures r.Accepted? ==> r.value == Lookup(Entries(t), HexOfBytes(key))
  {
    var proof, missing := Prove(H, db, gen, root, key, fromLevel, map[], w, t);
    ProofStands(H, t, HexOfBytes(key), fromLevel, proof, rootHash);
    r := VerifyProof(rootHash, key, proof, H, t);
  }
}

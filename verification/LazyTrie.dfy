/**
 The lazily loaded trie of trie.go: nodes are fetched from the database when they are reached, and
 every loaded node may carry its hash. A node in memory stands for a value trie (`Patricia.Tree`);
 `Rep` is the relation between the two that every operation keeps.
 */
module LazyTrie {
  import opened Bytes
  import opened Patricia
  import opened HexKeys
  import opened TrieNode

  /** The database: encoded nodes by hash. */
  type Db = map<Hash, bytes>

  /** What a node is judged against; `whole` asks that no node it needs is missing. */
  datatype World = World(H: bytes -> Hash, db: Db, whole: bool)

  // ---------------------------------------------------------------------------------------------
  // What nodes in memory stand for
  // ---------------------------------------------------------------------------------------------

  /** Whatever the database holds under the hash of one of these encodings is that encoding. */
  ghost predicate Agrees(H: bytes -> Hash, db: Db, es: set<bytes>) {
    forall e :: e in es && H(e) in db ==> db[H(e)] == e
  }

  /** The database holds every encoding that is not embedded in a parent. */
  ghost predicate Held(H: bytes -> Hash, db: Db, es: set<bytes>) {
    forall e :: e in es && |e| >= 32 ==> H(e) in db && db[H(e)] == e
  }

  /** The subtrie can be read back from the hash of its top node. */
  ghost predicate Stored(H: bytes -> Hash, db: Db, t: Tree) {
    Held(H, db, Encodings(H, t)) && H(Enc(H, t)) in db && db[H(Enc(H, t))] == Enc(H, t)
  }

  /** A cached hash is the hash of the encoding; only a root has one when it is short. */
  ghost predicate HashOk(w: World, hash: Option<Hash>, t: Tree, root: bool) {
    hash.Some? ==> hash.value == w.H(Enc(w.H, t)) && (root || |Enc(w.H, t)| >= 32)
  }

  /** A clean node is stored if it has a hash, and embedded in its parent if it has none. */
  ghost predicate FlagOk(w: World, f: Flag, t: Tree, root: bool) {
    && HashOk(w, f.hash, t, root)
    && (w.whole && !f.dirty ==> if f.hash.Some? then Stored(w.H, w.db, t) else !root && |Enc(w.H, t)| < 32)
  }

  /** The node `n` stands for the trie `t`. */
  ghost predicate Rep(w: World, n: Node, t: Tree, root: bool)
    decreases t
  {
    match n
    case NilNode => t.Nil?
    case ValueNode(v) => t == Value(v)
    case HashNode(h) => HashRep(w, h, t, root)
    case ShortNode(k, c, f) =>
      t.Short? && t.key == k && Rep(w, c, t.val, false) && FlagOk(w, f, t, root)
    case FullNode(cs, f) =>
      && t.Full? && |cs| == |t.children|
      && (forall i :: 0 <= i < |cs| ==> Rep(w, cs[i], t.children[i], false))
      && FlagOk(w, f, t, root)
  }

  ghost predicate HashRep(w: World, h: Hash, t: Tree, root: bool) {
    && (t.Short? || t.Full?)
    && HashOk(w, Some(h), t, root)
    && Agrees(w.H, w.db, Encodings(w.H, t)) && Sized(Encodings(w.H, t))
    && (w.whole ==> Stored(w.H, w.db, t))
  }

  // ---------------------------------------------------------------------------------------------
  // Loading a node
  // ---------------------------------------------------------------------------------------------

  lemma {:induction false} LoadedRep(w: World, t: Tree, hash: Option<Hash>, gen: nat, root: bool)
    requires Agrees(w.H, w.db, Encodings(w.H, t)) && Sized(Encodings(w.H, t))
    requires w.whole ==> Held(w.H, w.db, Encodings(w.H, t))
    requires FlagOk(w, Flag(hash, gen, false), t, root)
    ensures Rep(w, Loaded(w.H, t, hash, gen), t, root)
    decreases t, 0
  {
    match t
    case Nil =>
    case Value(_) =>
    case Short(k, c) => LoadedRefRep(w, c, gen);
    case Full(cs) =>
      forall i | 0 <= i < |cs| ensures Rep(w, LoadedRefs(w.H, cs, gen)[i], cs[i], false) {
        ChildEncodings(w.H, cs, i);
        ChildRefs(w.H, cs, i, gen);
        LoadedRefRep(w, cs[i], gen);
      }
  }

  lemma {:induction false} LoadedRefRep(w: World, t: Tree, gen: nat)
    requires Agrees(w.H, w.db, Encodings(w.H, t)) && Sized(Encodings(w.H, t))
    requires w.whole ==> Held(w.H, w.db, Encodings(w.H, t))
    ensures Rep(w, LoadedRef(w.H, t, gen), t, false)
    decreases t, 1
  {
    if t.Short? || t.Full? {
      assert Enc(w.H, t) in Encodings(w.H, t);
      if Embedded(w.H, t) { LoadedRep(w, t, None, gen, false); }
    } else {
      ValueRef(w.H, t, gen);
    }
  }

  /** trie.go `resolveHash`: an error when the node is missing, never a decoding panic. */
  method ResolveHash(db: Db, gen: nat, h: Hash, ghost w: World, ghost t: Tree, ghost root: bool)
    returns (n: Node, missing: bool)
    requires w.db == db && Minimal(t) && HashRep(w, h, t, root)
    ensures missing <==> h !in db
    ensures missing ==> !w.whole
    ensures !missing ==> Rep(w, n, t, root) && !n.HashNode?
  {
    if h !in db { return NilNode, true; }
    assert Enc(w.H, t) in Encodings(w.H, t);
    DecodeOfEnc(w.H, t, Some(h), gen, []);
    assert Enc(w.H, t) + [] == Enc(w.H, t);
    LoadedHash(w, t, gen, root);
    var dec := DecodeNode(Some(h), db[h], gen);
    n, missing := dec.value, false;
  }

  lemma LoadedHash(w: World, t: Tree, gen: nat, root: bool)
    requires HashRep(w, w.H(Enc(w.H, t)), t, root)
    ensures Rep(w, Loaded(w.H, t, Some(w.H(Enc(w.H, t))), gen), t, root)
    ensures !Loaded(w.H, t, Some(w.H(Enc(w.H, t))), gen).HashNode?
  {
    LoadedRep(w, t, Some(w.H(Enc(w.H, t))), gen, root);
  }

  // ---------------------------------------------------------------------------------------------
  // Replacing parts of a node
  // ---------------------------------------------------------------------------------------------

  /** trie.go `newFlag`. */
  function NewFlag(gen: nat): Flag { Flag(None, gen, true) }

  lemma ShortRep(w: World, k: Key, n: Node, c: Tree, f: Flag, root: bool)
    requires Rep(w, n, c, false) && FlagOk(w, f, Short(k, c), root)
    ensures Rep(w, ShortNode(k, n, f), Short(k, c), root)
  {
  }

  lemma FullRep(w: World, cs: seq<Node>, ts: seq<Tree>, i: int, n: Node, t: Tree, f: Flag, root: bool)
    requires |cs| == |ts| && 0 <= i < |cs| && forall j :: 0 <= j < |cs| ==> Rep(w, cs[j], ts[j], false)
    requires Rep(w, n, t, false) && FlagOk(w, f, Full(ts[i := t]), root)
    ensures Rep(w, FullNode(cs[i := n], f), Full(ts[i := t]), root)
  {
  }

  // ---------------------------------------------------------------------------------------------
  // Get
  // ---------------------------------------------------------------------------------------------

  /** trie.go `tryGet`. */
  method TryGet(db: Db, gen: nat, n: Node, key: Key, ghost w: World, ghost t: Tree, ghost root: bool)
    returns (value: Option<bytes>, nn: Node, didResolve: bool, missing: bool)
    requires w.db == db && Minimal(t) && Suffix(t, key) && Rep(w, n, t, root)
    ensures missing ==> !w.whole
    ensures !missing ==> value == Get(t, key) && Rep(w, nn, t, root)
    ensures !missing && !didResolve ==> nn == n
    decreases t, if n.HashNode? then 1 else 0
  {
    match n
    case NilNode => return None, n, false, false;
    case ValueNode(v) => return Some(v), n, false, false;
    case ShortNode(k, c, f) =>
      if !(k <= key) { return None, n, false, false; }
      SuffixShort(k, t.val, key);
      value, nn, didResolve, missing := TryGet(db, gen, c, key[|k|..], w, t.val, false);
      if !missing && didResolve {
        ShortRep(w, k, nn, t.val, f.(gen := gen), root);
        nn := ShortNode(k, nn, f.(gen := gen));
      } else {
        nn := n;
      }
    case FullNode(cs, f) =>
      SuffixFull(t.children, key);
      var i := key[0];
      value, nn, didResolve, missing := TryGet(db, gen, cs[i], key[1..], w, t.children[i], false);
      if !missing && didResolve {
        assert t.children[i := t.children[i]] == t.children;
        FullRep(w, cs, t.children, i, nn, t.children[i], f.(gen := gen), root);
        nn := FullNode(cs[i := nn], f.(gen := gen));
      } else {
        nn := n;
      }
    case HashNode(h) =>
      var child, gone := ResolveHash(db, gen, h, w, t, root);
      if gone { return None, n, true, true; }
      value, nn, didResolve, missing := TryGet(db, gen, child, key, w, t, root);
      didResolve := true;
  }

  // ---------------------------------------------------------------------------------------------
  // Insert
  // ---------------------------------------------------------------------------------------------

  /** trie.go `insert` at an empty place. */
  function NewLeaf(gen: nat, key: Key, value: Node): Node {
    if key == [] then value else ShortNode(key, value, NewFlag(gen))
  }

  const NoNodes: seq<Node> :=
    [NilNode, NilNode, NilNode, NilNode, NilNode, NilNode, NilNode, NilNode, NilNode,
     NilNode, NilNode, NilNode, NilNode, NilNode, NilNode, NilNode, NilNode]

  lemma LeafRep(w: World, gen: nat, key: Key, n: Node, c: Tree, root: bool)
    requires Rep(w, n, c, false) && (key == [] ==> !root)
    ensures Rep(w, NewLeaf(gen, key, n), Leaf(key, c), root)
  {
  }

  lemma ForkRep(w: World, gen: nat, i: int, m: Node, a: Tree, j: int, n: Node, b: Tree, root: bool)
    requires 0 <= i < 17 && 0 <= j < 17 && Rep(w, m, a, false) && Rep(w, n, b, false)
    ensures Rep(w, FullNode(NoNodes[i := m][j := n], NewFlag(gen)), Fork(i, a, j, b), root)
  {
  }

  /** The branch that replaces a short node whose key leaves `key` at position `m`. */
  function SplitNode(gen: nat, k: Key, c: Node, key: Key, v: bytes, m: nat): Node
    requires m < |k| && m < |key| && 0 <= k[m] < 17 && 0 <= key[m] < 17
  {
    var branch := FullNode(NoNodes[k[m] := NewLeaf(gen, k[m+1..], c)][key[m] := NewLeaf(gen, key[m+1..], ValueNode(v))],
                           NewFlag(gen));
    if m == 0 then branch else ShortNode(key[..m], branch, NewFlag(gen))
  }

  lemma SplitRep(w: World, gen: nat, k: Key, n: Node, c: Tree, key: Key, v: bytes, m: nat, root: bool)
    requires m < |k| && m < |key| && 0 <= k[m] < 17 && 0 <= key[m] < 17 && Rep(w, n, c, false)
    ensures Rep(w, SplitNode(gen, k, n, key, v, m), Patricia.Split(k, c, key, v, m), root)
  {
    var old_, new_ := NewLeaf(gen, k[m+1..], n), NewLeaf(gen, key[m+1..], ValueNode(v));
    var kept, added := Leaf(k[m+1..], c), Leaf(key[m+1..], Value(v));
    LeafRep(w, gen, k[m+1..], n, c, false);
    LeafRep(w, gen, key[m+1..], ValueNode(v), Value(v), false);
    ForkRep(w, gen, k[m], old_, kept, key[m], new_, added, root);
    ForkRep(w, gen, k[m], old_, kept, key[m], new_, added, false);
  }

  /** trie.go `insert` below a short node. */
  method InsertInShort(db: Db, gen: nat, n: Node, key: Key, v: bytes, ghost w: World, ghost t: Tree, ghost root: bool)
    returns (dirty: bool, nn: Node, missing: bool)
    requires w.db == db && Minimal(t) && Suffix(t, key) && |v| > 0 && Rep(w, n, t, root) && n.ShortNode? && key != []
    ensures missing ==> !w.whole
    ensures !missing ==> Rep(w, nn, Patricia.Insert(t, key, v), root)
    ensures !missing && !dirty ==> Patricia.Insert(t, key, v) == t
    decreases t, 0, 0
  {
    var k, c := n.key, n.val;
    var m := CommonPrefix(key, k);
    SuffixShort(k, t.val, key);
    if m == |k| {
      var nc: Node;
      dirty, nc, missing := Insert(db, gen, c, key[m..], v, w, t.val, false);
      if !dirty || missing { return false, n, missing; }
      ShortRep(w, k, nc, Patricia.Insert(t.val, key[m..], v), NewFlag(gen), root);
      nn := ShortNode(k, nc, NewFlag(gen));
    } else {
      MismatchLeaves(k, t.val, key);
      SplitRep(w, gen, k, c, t.val, key, v, m, root);
      return true, SplitNode(gen, k, c, key, v, m), false;
    }
  }

  /** trie.go `insert` below a full node. */
  method InsertInFull(db: Db, gen: nat, n: Node, key: Key, v: bytes, ghost w: World, ghost t: Tree, ghost root: bool)
    returns (dirty: bool, nn: Node, missing: bool)
    requires w.db == db && Minimal(t) && Suffix(t, key) && |v| > 0 && Rep(w, n, t, root) && n.FullNode? && key != []
    ensures missing ==> !w.whole
    ensures !missing ==> Rep(w, nn, Patricia.Insert(t, key, v), root)
    ensures !missing && !dirty ==> Patricia.Insert(t, key, v) == t
    decreases t, 0, 0
  {
    SuffixFull(t.children, key);
    var cs, i, nc := n.children, key[0], NilNode;
    dirty, nc, missing := Insert(db, gen, cs[i], key[1..], v, w, t.children[i], false);
    if !dirty || missing {
      assert t.children[i := t.children[i]] == t.children;
      return false, n, missing;
    }
    FullRep(w, cs, t.children, i, nc, Patricia.Insert(t.children[i], key[1..], v), NewFlag(gen), root);
    nn := FullNode(cs[i := nc], NewFlag(gen));
  }

  /** trie.go `insert`. */
  method Insert(db: Db, gen: nat, n: Node, key: Key, v: bytes, ghost w: World, ghost t: Tree, ghost root: bool)
    returns (dirty: bool, nn: Node, missing: bool)
    requires w.db == db && Minimal(t) && Suffix(t, key) && |v| > 0 && Rep(w, n, t, root)
    ensures missing ==> !w.whole
    ensures !missing ==> Rep(w, nn, Patricia.Insert(t, key, v), root)
    ensures !missing && !dirty ==> Patricia.Insert(t, key, v) == t
    decreases t, if n.HashNode? then 1 else 0
  {
    if key == [] {
      return n != ValueNode(v), ValueNode(v), false;
    }
    match n
    case ShortNode(_, _, _) => dirty, nn, missing := InsertInShort(db, gen, n, key, v, w, t, root);
    case FullNode(_, _) => dirty, nn, missing := InsertInFull(db, gen, n, key, v, w, t, root);
    case NilNode => return true, NewLeaf(gen, key, ValueNode(v)), false;
    case HashNode(h) =>
      var rn, gone := ResolveHash(db, gen, h, w, t, root);
      if gone { return false, NilNode, true; }
      dirty, nn, missing := Insert(db, gen, rn, key, v, w, t, root);
      if !dirty || missing { return false, rn, missing; }
  }

  // ---------------------------------------------------------------------------------------------
  // Delete
  // ---------------------------------------------------------------------------------------------

  /** The loop of `delete`: the position of the only child left, -1 for none and -2 for several. */
  method FindOnlyChild(cs: seq<Node>, ghost ts: seq<Tree>) returns (pos: int)
    requires |cs| == |ts| && forall i :: 0 <= i < |cs| ==> (cs[i].NilNode? <==> ts[i].Nil?)
    ensures pos == OnlyChild(ts)
  {
    pos := -1;
    var i := 0;
    while i < |cs|
      invariant 0 <= i <= |cs| && -1 <= pos < i
      invariant pos == -1 ==> forall j :: 0 <= j < i ==> cs[j].NilNode?
      invariant pos >= 0 ==> !cs[pos].NilNode? && forall j :: 0 <= j < i && j != pos ==> cs[j].NilNode?
    {
      if !cs[i].NilNode? {
        if pos == -1 {
          pos := i;
        } else {
          assert ts[pos] != Nil && ts[i] != Nil;
          return -2;
        }
      }
      i := i + 1;
    }
    assert pos >= 0 ==> ts[pos] != Nil;
  }

  lemma NilRep(w: World, n: Node, t: Tree, root: bool)
    requires Rep(w, n, t, root)
    ensures n.NilNode? <==> t.Nil?
    ensures !n.HashNode? ==> (n.ShortNode? <==> t.Short?)
  {
  }

  /** The end of `delete` on a full node: an only child that is left takes the node's place. */
  method Reduce(db: Db, gen: nat, cs: seq<Node>, ghost w: World, ghost ts: seq<Tree>, ghost root: bool)
    returns (nn: Node, missing: bool)
    requires w.db == db && |cs| == |ts| == 17
    requires forall i :: 0 <= i < 17 ==> Minimal(ts[i]) && Rep(w, cs[i], ts[i], false)
    ensures missing ==> !w.whole
    ensures !missing ==> Rep(w, nn, Collapse(ts), root) && !nn.HashNode?
  {
    forall i | 0 <= i < 17 ensures cs[i].NilNode? <==> ts[i].Nil? { NilRep(w, cs[i], ts[i], false); }
    var pos := FindOnlyChild(cs, ts);
    if pos >= 0 {
      if pos != 16 {
        var cnode := cs[pos];
        if cnode.HashNode? {
          cnode, missing := ResolveHash(db, gen, cnode.h, w, ts[pos], false);
          if missing { return NilNode, true; }
        }
        NilRep(w, cnode, ts[pos], false);
        if cnode.ShortNode? {
          ShortRep(w, [pos] + cnode.key, cnode.val, ts[pos].val, NewFlag(gen), root);
          return ShortNode([pos] + cnode.key, cnode.val, NewFlag(gen)), false;
        }
      }
      ShortRep(w, [pos], cs[pos], ts[pos], NewFlag(gen), root);
      return ShortNode([pos], cs[pos], NewFlag(gen)), false;
    }
    return FullNode(cs, NewFlag(gen)), false;
  }

  /** A full node from which nothing was removed stays as it is. */
  lemma CollapseSame(ts: seq<Tree>, i: int)
    requires Minimal(Full(ts)) && 0 <= i < 17
    ensures Collapse(ts[i := ts[i]]) == Full(ts)
  {
    assert ts[i := ts[i]] == ts;
  }

  lemma MergeRep(w: World, gen: nat, k: Key, n: Node, c: Tree, root: bool)
    requires Rep(w, n, c, false) && !n.HashNode?
    ensures Rep(w, MergeNode(gen, k, n), Merge(k, c), root)
  {
  }

  /** The end of `delete` on a short node: it is merged with a short child. */
  function MergeNode(gen: nat, k: Key, child: Node): Node {
    if child.ShortNode? then ShortNode(k + child.key, child.val, NewFlag(gen))
    else ShortNode(k, child, NewFlag(gen))
  }

  /** trie.go `delete`. A changed subtrie never comes back as a bare hash. */
  method Delete(db: Db, gen: nat, n: Node, key: Key, ghost w: World, ghost t: Tree, ghost root: bool)
    returns (dirty: bool, nn: Node, missing: bool)
    requires w.db == db && Minimal(t) && Suffix(t, key) && Rep(w, n, t, root)
    ensures missing ==> !w.whole
    ensures !missing ==> Rep(w, nn, Patricia.Delete(t, key), root)
    ensures !missing && !dirty ==> Patricia.Delete(t, key) == t
    ensures !missing && dirty ==> !nn.HashNode?
    decreases t, if n.HashNode? then 2 else 1
  {
    match n
    case ShortNode(_, _, _) => dirty, nn, missing := DeleteFromShort(db, gen, n, key, w, t, root);
    case FullNode(_, _) => dirty, nn, missing := DeleteFromFull(db, gen, n, key, w, t, root);
    case ValueNode(_) => return true, NilNode, false;
    case NilNode => return false, NilNode, false;
    case HashNode(h) =>
      var rn, gone := ResolveHash(db, gen, h, w, t, root);
      if gone { return false, NilNode, true; }
      dirty, nn, missing := Delete(db, gen, rn, key, w, t, root);
      if !dirty || missing { return false, rn, missing; }
  }

  method DeleteFromShort(db: Db, gen: nat, n: Node, key: Key, ghost w: World, ghost t: Tree, ghost root: bool)
    returns (dirty: bool, nn: Node, missing: bool)
    requires w.db == db && Minimal(t) && Suffix(t, key) && Rep(w, n, t, root) && n.ShortNode?
    ensures missing ==> !w.whole
    ensures !missing ==> Rep(w, nn, Patricia.Delete(t, key), root) && !nn.HashNode?
    ensures !missing && !dirty ==> Patricia.Delete(t, key) == t
    decreases t, 0
  {
    var k, c := n.key, n.val;
    var m := CommonPrefix(key, k);
    SuffixShort(k, t.val, key);
    if m < |k| { return false, n, false; }
    if m == |key| { return true, NilNode, false; }
    var nc: Node;
    dirty, nc, missing := Delete(db, gen, c, key[|k|..], w, t.val, false);
    if missing { return false, n, missing; }
    if !dirty {
      assert t.val.Full?;
      return false, n, missing;
    }
    MergeRep(w, gen, k, nc, Patricia.Delete(t.val, key[|k|..]), root);
    nn := MergeNode(gen, k, nc);
  }

  method DeleteFromFull(db: Db, gen: nat, n: Node, key: Key, ghost w: World, ghost t: Tree, ghost root: bool)
    returns (dirty: bool, nn: Node, missing: bool)
    requires w.db == db && Minimal(t) && Suffix(t, key) && Rep(w, n, t, root) && n.FullNode?
    ensures missing ==> !w.whole
    ensures !missing ==> Rep(w, nn, Patricia.Delete(t, key), root) && !nn.HashNode?
    ensures !missing && !dirty ==> Patricia.Delete(t, key) == t
    decreases t, 0
  {
    ghost var ts := t.children;
    SuffixFull(ts, key);
    var cs, i, nc := n.children, key[0], NilNode;
    dirty, nc, missing := Delete(db, gen, cs[i], key[1..], w, ts[i], false);
    if missing { return false, n, missing; }
    if !dirty {
      CollapseSame(ts, i);
      return false, n, missing;
    }
    DeleteMinimal(ts[i], key[1..]);
    nn, missing := Reduce(db, gen, cs[i := nc], w, ts[i := Patricia.Delete(ts[i], key[1..])], root);
  }
}

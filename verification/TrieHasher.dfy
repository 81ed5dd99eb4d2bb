/**
 hasher.go: hashing a trie bottom-up with cached hashes, writing its nodes to the database on
 commit, and unloading clean nodes of old cache generations.
 */
module TrieHasher {
  import opened Bytes
  import opened Patricia
  import opened TrieNode
  import opened LazyTrie
  import Rlp

  /** Nothing of `a` is lost or changed in `b`. */
  ghost predicate Grows(a: Db, b: Db) {
    forall h :: h in a ==> h in b && b[h] == a[h]
  }

  lemma {:induction false} GrowRep(w: World, db: Db, n: Node, t: Tree, root: bool, es: set<bytes>)
    requires Rep(w, n, t, root) && Grows(w.db, db) && Agrees(w.H, db, es) && Encodings(w.H, t) <= es
    ensures Rep(w.(db := db), n, t, root)
    decreases t
  {
    match n
    case ShortNode(_, c, _) => GrowRep(w, db, c, t.val, false, es);
    case FullNode(cs, _) =>
      forall i | 0 <= i < |cs| ensures Rep(w.(db := db), cs[i], t.children[i], false) {
        ChildEncodings(w.H, t.children, i);
        GrowRep(w, db, cs[i], t.children[i], false, es);
      }
    case _ =>
  }

  /** Every long encoding strictly below the top of `t` is in the database. */
  ghost predicate HeldBelow(H: bytes -> Hash, db: Db, t: Tree) {
    match t
    case Short(_, c) => Held(H, db, Encodings(H, c))
    case Full(cs) => forall i :: 0 <= i < |cs| ==> Held(H, db, Encodings(H, cs[i]))
    case _ => true
  }

  lemma HeldNode(H: bytes -> Hash, db: Db, t: Tree)
    requires HeldBelow(H, db, t) && (t.Short? || t.Full?)
    requires |Enc(H, t)| >= 32 ==> H(Enc(H, t)) in db && db[H(Enc(H, t))] == Enc(H, t)
    ensures Held(H, db, Encodings(H, t))
  {
    forall e | e in Encodings(H, t) && |e| >= 32 ensures H(e) in db && db[H(e)] == e {
      if e != Enc(H, t) && t.Full? {
        var i :| 0 <= i < |t.children| && e in Encodings(H, t.children[i]);
        assert Held(H, db, Encodings(H, t.children[i]));
      }
    }
  }

  /** node.go `canUnload`: 16-bit generations wrap around. */
  predicate CanUnload(f: Flag, cachegen: nat, cachelimit: nat) {
    !f.dirty && (cachegen - f.gen) % 0x1_0000 >= cachelimit
  }

  /** A clean node is unloaded exactly when it is `cachelimit` generations old, counted across one wrap of the 16 bits. */
  lemma UnloadAge(f: Flag, cachegen: nat, cachelimit: nat)
    requires f.gen < 0x1_0000 && cachegen < 0x1_0000
    ensures f.gen <= cachegen ==> (CanUnload(f, cachegen, cachelimit) <==> !f.dirty && cachegen >= f.gen + cachelimit)
    ensures f.gen > cachegen ==> (CanUnload(f, cachegen, cachelimit) <==> !f.dirty && cachegen + 0x1_0000 >= f.gen + cachelimit)
  {
  }

  /** The children of a node stand for the children of the trie. */
  ghost predicate ChildrenRep(w: World, n: Node, t: Tree) {
    match n
    case ShortNode(k, c, _) => t.Short? && t.key == k && Rep(w, c, t.val, false)
    case FullNode(cs, _) =>
      t.Full? && |cs| == |t.children| && forall i :: 0 <= i < |cs| ==> Rep(w, cs[i], t.children[i], false)
    case _ => false
  }

  lemma GrowChildren(w: World, db: Db, n: Node, t: Tree, es: set<bytes>)
    requires ChildrenRep(w, n, t) && Grows(w.db, db) && Agrees(w.H, db, es) && Encodings(w.H, t) <= es
    ensures ChildrenRep(w.(db := db), n, t)
    ensures HeldBelow(w.H, w.db, t) ==> HeldBelow(w.H, db, t)
  {
    match n
    case ShortNode(_, c, _) => GrowRep(w, db, c, t.val, false, es);
    case FullNode(cs, _) =>
      forall i | 0 <= i < |cs| ensures Rep(w.(db := db), cs[i], t.children[i], false) {
        ChildEncodings(w.H, t.children, i);
        GrowRep(w, db, cs[i], t.children[i], false, es);
      }
  }

  ghost predicate AllRep(w: World, cs: seq<Node>, ts: seq<Tree>) {
    |cs| == |ts| && forall i :: 0 <= i < |cs| ==> Rep(w, cs[i], ts[i], false)
  }

  ghost predicate AllHeld(H: bytes -> Hash, db: Db, ts: seq<Tree>, n: nat) {
    n <= |ts| && forall i :: 0 <= i < n ==> Held(H, db, Encodings(H, ts[i]))
  }

  /** The children of a minimal full node, with their encodings among `es`. */
  ghost predicate AllWithin(H: bytes -> Hash, ts: seq<Tree>, es: set<bytes>) {
    forall i :: 0 <= i < |ts| ==> ChildAt(i, ts[i]) && Encodings(H, ts[i]) <= es
  }

  lemma GrowAll(w: World, db: Db, cs: seq<Node>, ts: seq<Tree>, n: nat, es: set<bytes>)
    requires AllRep(w, cs, ts) && Grows(w.db, db) && Agrees(w.H, db, es) && AllWithin(w.H, ts, es)
    ensures AllRep(w.(db := db), cs, ts)
    ensures AllHeld(w.H, w.db, ts, n) ==> AllHeld(w.H, db, ts, n)
  {
    forall i | 0 <= i < |cs| ensures Rep(w.(db := db), cs[i], ts[i], false) {
      assert ChildAt(i, ts[i]);
      GrowRep(w, db, cs[i], ts[i], false, es);
    }
    if AllHeld(w.H, w.db, ts, n) {
      forall i | 0 <= i < n ensures Held(w.H, db, Encodings(w.H, ts[i])) {}
    }
  }

  class Hasher {
    const H: bytes -> Hash
    const cachegen: nat
    const cachelimit: nat
    var db: Db

    constructor (H: bytes -> Hash, cachegen: nat, cachelimit: nat, db: Db)
      ensures this.H == H && this.cachegen == cachegen && this.cachelimit == cachelimit && this.db == db
    {
      this.H, this.cachegen, this.cachelimit, this.db := H, cachegen, cachelimit, db;
    }

    /** What a commit may rely on: the trie's encodings clash neither with each other nor with `db`. */
    ghost predicate Fits(commit: bool, es: set<bytes>)
      reads this
    {
      commit ==> Agrees(H, db, es) && NoCollision(H, es) && Sized(es)
    }

    /** hasher.go `store`. */
    method StoreNode(collapsed: Rlp.Item, known: Option<Hash>, commit: bool, force: bool, ghost es: set<bytes>)
      returns (hashed: Rlp.Item, hash: Option<Hash>)
      requires Fits(commit, es) && (commit ==> Rlp.Encode(collapsed) in es)
      requires known.Some? ==> known.value == H(Rlp.Encode(collapsed))
      modifies this
      ensures Fits(commit, es) && Grows(old(db), db) && (!commit ==> db == old(db))
      ensures hash == if force || |Rlp.Encode(collapsed)| >= 32 then Some(H(Rlp.Encode(collapsed))) else None
      ensures hashed == if hash.Some? then Rlp.Str(hash.value) else collapsed
      ensures commit && hash.Some? ==> hash.value in db && db[hash.value] == Rlp.Encode(collapsed)
    {
      var enc := Rlp.Encode(collapsed);
      if |enc| < 32 && !force { return collapsed, None; }
      var h := if known.Some? then known.value else H(enc);
      if commit { db := db[h := enc]; }
      return Rlp.Str(h), Some(h);
    }

    /**
     The node kept in place of `n`: a node with a valid hash as it is, or, when it is clean and at least `cachelimit`
     generations old (`UnloadAge`), its hash alone; any other node with its new hash, clean once it is committed.
     */
    ghost predicate KeptNode(n: Node, cached: Node, commit: bool, hash: Option<Hash>) {
      if !(n.ShortNode? || n.FullNode?) then cached == n
      else if n.flags.hash.Some? && (!commit || !n.flags.dirty) then
        cached == if commit && CanUnload(n.flags, cachegen, cachelimit) then HashNode(n.flags.hash.value) else n
      else (cached.ShortNode? || cached.FullNode?) && cached.flags == Flag(hash, n.flags.gen, n.flags.dirty && !commit)
    }

    /** hasher.go `hash` on a node that is neither empty nor a value. */
    method Hash(n: Node, commit: bool, force: bool,
                ghost t: Tree, ghost es: set<bytes>, ghost d: Db, ghost whole: bool)
      returns (hashed: Rlp.Item, hash: Option<Hash>, cached: Node)
      requires db == d && Fits(commit, es) && Encodings(H, t) <= es
      requires Minimal(t) && (t.Short? || t.Full?) && Rep(World(H, d, whole), n, t, force)
      modifies this
      ensures Fits(commit, es) && Grows(d, db) && (!commit ==> db == d)
      ensures hash == if force || |Enc(H, t)| >= 32 then Some(H(Enc(H, t))) else None
      ensures hashed == if hash.Some? then Rlp.Str(hash.value) else NodeItem(H, t)
      ensures Rep(World(H, db, whole), cached, t, force)
      ensures commit && whole ==> Held(H, db, Encodings(H, t)) && (hash.Some? ==> Stored(H, db, t))
      ensures KeptNode(n, cached, commit, hash)
      decreases t, 2
    {
      if n.HashNode? { return Rlp.Str(n.h), Some(n.h), n; }
      if n.flags.hash.Some? {
        var h := n.flags.hash.value;
        if !commit { return Rlp.Str(h), Some(h), n; }
        if CanUnload(n.flags, cachegen, cachelimit) { return Rlp.Str(h), Some(h), HashNode(h); }
        if !n.flags.dirty { return Rlp.Str(h), Some(h), n; }
      }
      hashed, hash, cached := Rehash(n, commit, force, t, es, d, whole);
    }

    /** The rest of `hash`: the children are hashed and the node is stored. */
    method Rehash(n: Node, commit: bool, force: bool, ghost t: Tree, ghost es: set<bytes>, ghost d: Db, ghost whole: bool)
      returns (hashed: Rlp.Item, hash: Option<Hash>, cached: Node)
      requires db == d && Fits(commit, es) && Encodings(H, t) <= es && (n.ShortNode? || n.FullNode?)
      requires Minimal(t) && (t.Short? || t.Full?) && Rep(World(H, d, whole), n, t, force)
      modifies this
      ensures Fits(commit, es) && Grows(d, db) && (!commit ==> db == d)
      ensures hash == if force || |Enc(H, t)| >= 32 then Some(H(Enc(H, t))) else None
      ensures hashed == if hash.Some? then Rlp.Str(hash.value) else NodeItem(H, t)
      ensures Rep(World(H, db, whole), cached, t, force)
      ensures commit && whole ==> Held(H, db, Encodings(H, t)) && (hash.Some? ==> Stored(H, db, t))
      ensures (cached.ShortNode? || cached.FullNode?) && cached.flags == Flag(hash, n.flags.gen, n.flags.dirty && !commit)
      decreases t, 1
    {
      var collapsed: Rlp.Item;
      collapsed, cached := HashChildren(n, commit, t, es, d, whole);
      ghost var d' := db;
      assert Enc(H, t) in es;
      hashed, hash := StoreNode(collapsed, n.flags.hash, commit, force, es);
      if commit { GrowChildren(World(H, d', whole), db, cached, t, es); }
      if commit && whole { HeldNode(H, db, t); }
      var flags := Flag(hash, n.flags.gen, n.flags.dirty && !commit);
      cached := if cached.ShortNode? then ShortNode(cached.key, cached.val, flags) else FullNode(cached.children, flags);
    }

    /** hasher.go `hashChildren`: the collapsed node as the item it is encoded as, and the node to keep. */
    method HashChildren(n: Node, commit: bool, ghost t: Tree, ghost es: set<bytes>, ghost d: Db, ghost whole: bool)
      returns (collapsed: Rlp.Item, cached: Node)
      requires db == d && Fits(commit, es) && Encodings(H, t) <= es && Minimal(t)
      requires ChildrenRep(World(H, d, whole), n, t)
      modifies this
      ensures Fits(commit, es) && Grows(d, db) && (!commit ==> db == d)
      ensures collapsed == NodeItem(H, t)
      ensures ChildrenRep(World(H, db, whole), cached, t) && cached.ShortNode? == n.ShortNode? && cached.flags == n.flags
      ensures commit && whole ==> HeldBelow(H, db, t)
      decreases t, 0
    {
      if n.ShortNode? {
        var ref, val := Rlp.Str([]), n.val;
        if n.val.ValueNode? {
          ref := Rlp.Str(n.val.v);
          ValueRef(H, t.val, 0);
        } else {
          var hash: Option<Hash>;
          ref, hash, val := Hash(n.val, commit, false, t.val, es, d, whole);
          assert ref == RefItem(H, t.val);
        }
        collapsed := Rlp.List([Rlp.Str(KeyString(n.key)), ref]);
        cached := ShortNode(n.key, val, n.flags);
      } else {
        ghost var ts := t.children;
        forall i | 0 <= i < 17 ensures ChildAt(i, ts[i]) && Encodings(H, ts[i]) <= es { ChildEncodings(H, ts, i); }
        var items, kept := HashAll(n.children, commit, ts, es, d, whole);
        collapsed := Rlp.List(items);
        cached := FullNode(kept, n.flags);
      }
    }

    /** The closure `hashChild`: the reference to one child and the node to keep in its place. */
    method HashChild(c: Node, commit: bool, ghost t: Tree, ghost es: set<bytes>, ghost d: Db, ghost whole: bool)
      returns (ref: Rlp.Item, child: Node)
      requires db == d && Fits(commit, es) && Encodings(H, t) <= es
      requires Minimal(t) && !t.Value? && Rep(World(H, d, whole), c, t, false)
      modifies this
      ensures Fits(commit, es) && Grows(d, db) && (!commit ==> db == d)
      ensures ref == RefItem(H, t) && Rep(World(H, db, whole), child, t, false)
      ensures commit && whole ==> Held(H, db, Encodings(H, t))
      decreases t, 3
    {
      if c.NilNode? {
        ValueRef(H, t, 0);
        return Rlp.Str([]), NilNode;
      }
      var hash: Option<Hash>;
      ref, hash, child := Hash(c, commit, false, t, es, d, whole);
    }

    /** The loop of `hashChildren` over the children of a full node. */
    method HashAt(i: nat, cs: seq<Node>, commit: bool, ghost ts: seq<Tree>, ghost es: set<bytes>, ghost d: Db, ghost whole: bool)
      returns (ref: Rlp.Item, kept: seq<Node>)
      requires db == d && Fits(commit, es) && |cs| == |ts| == 17 && i < 16 && AllWithin(H, ts, es)
      requires AllRep(World(H, d, whole), cs, ts) && (commit && whole ==> AllHeld(H, d, ts, i))
      modifies this
      ensures Fits(commit, es) && Grows(d, db) && (!commit ==> db == d)
      ensures ref == RefItems(H, ts)[i] && AllRep(World(H, db, whole), kept, ts)
      ensures commit && whole ==> AllHeld(H, db, ts, i + 1)
      decreases ts, 0
    {
      var child;
      ref, child := HashChild(cs[i], commit, ts[i], es, db, whole);
      if commit { GrowAll(World(H, d, whole), db, cs, ts, i, es); }
      kept := cs[i := child];
      ChildRefs(H, ts, i, 0);
    }

    method HashAll(cs: seq<Node>, commit: bool, ghost ts: seq<Tree>, ghost es: set<bytes>, ghost d: Db, ghost whole: bool)
      returns (items: seq<Rlp.Item>, kept: seq<Node>)
      requires db == d && Fits(commit, es) && |cs| == |ts| == 17 && AllWithin(H, ts, es)
      requires AllRep(World(H, d, whole), cs, ts)
      modifies this
      ensures Fits(commit, es) && Grows(d, db) && (!commit ==> db == d)
      ensures items == RefItems(H, ts) && AllRep(World(H, db, whole), kept, ts)
      ensures commit && whole ==> AllHeld(H, db, ts, 17)
      decreases ts, 1
    {
      items, kept := [], cs;
      for i := 0 to 16
        invariant Fits(commit, es) && Grows(d, db) && (!commit ==> db == d)
        invariant |items| == i && items == RefItems(H, ts)[..i]
        invariant AllRep(World(H, db, whole), kept, ts)
        invariant commit && whole ==> AllHeld(H, db, ts, i)
      {
        var ref;
        ref, kept := HashAt(i, kept, commit, ts, es, db, whole);
        items := items + [ref];
      }
      ValueRef(H, ts[16], 0);
      ChildRefs(H, ts, 16, 0);
      items := items + [if kept[16].ValueNode? then Rlp.Str(kept[16].v) else Rlp.Str([])];
      assert items == RefItems(H, ts);
    }
  }
}

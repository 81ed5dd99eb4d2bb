/**
 The downloader of `TrieSync` on actual trie nodes: what `children` finds in a decoded node, that a closed
 store which knows a root hash holds the whole trie of that root, and what a whole download comes to.
 */
module TrieDownload {
  import opened Bytes
  import opened Patricia
  import opened TrieNode
  import opened LazyTrie
  import opened SyncLinks
  import opened TrieSync
  import opened SyncSteps
  import opened Scheduler
  import Rlp

  // ---------------------------------------------------------------------------------------------
  // The children of a decoded node
  // ---------------------------------------------------------------------------------------------

  function AsChild(n: Node): Child<Hash> {
    match n
    case ValueNode(v) => TrieSync.Leaf(v)
    case HashNode(h) => Ref(h)
    case _ => Inner
  }

  /** The children `children` looks at: the value of a short node, what is not nil in a full node. */
  function ChildList(n: Node): seq<Child<Hash>> {
    match n
    case ShortNode(_, c, _) => [AsChild(c)]
    case FullNode(cs, _) => NonNil(cs)
    case _ => []
  }

  function NonNil(cs: seq<Node>): seq<Child<Hash>> {
    if cs == [] then [] else (if cs[0].NilNode? then [] else [AsChild(cs[0])]) + NonNil(cs[1..])
  }

  function ParseNode(h: Hash, data: bytes): Option<seq<Child<Hash>>> {
    match DecodeNode(Some(h), data, 0)
    case None => None
    case Some(n) => Some(ChildList(n))
  }

  lemma {:induction false} NonNilHas(cs: seq<Node>, i: nat)
    requires i < |cs| && !cs[i].NilNode?
    ensures AsChild(cs[i]) in NonNil(cs)
    decreases |cs|
  {
    if i > 0 { NonNilHas(cs[1..], i - 1); }
  }

  lemma {:induction false} NoValues(cs: seq<Node>, k: nat)
    requires forall i :: 0 <= i < |cs| ==> !cs[i].ValueNode?
    requires k < |NonNil(cs)|
    ensures !NonNil(cs)[k].Leaf?
    decreases |cs|
  {
    var first := if cs[0].NilNode? then 0 else 1;
    if k >= first { NoValues(cs[1..], k - first); }
  }

  /** Only the last child of a decoded full node can be a value. */
  lemma NodeShape(hash: Option<Hash>, buf: bytes, gen: nat)
    requires DecodeNode(hash, buf, gen).Some?
    ensures var n := DecodeNode(hash, buf, gen).value;
            && (n.ShortNode? || n.FullNode?)
            && (n.FullNode? ==>
                  var refs := DecodeRefs(Rlp.SplitList(buf).value.content, 16, gen);
                  refs.Some? && |n.children| == |refs.value.0| + 1 && n.children[..|refs.value.0|] == refs.value.0)
  {
    var elems := Rlp.SplitList(buf).value.content;
    if Rlp.Count(elems) == Rlp.Ok(2) {
      assert DecodeShort(hash, elems, gen).Some?;
    } else {
      assert DecodeFull(hash, elems, gen).Some?;
    }
  }

  lemma RefIsNoValue(buf: bytes, gen: nat)
    requires DecodeRef(buf, gen).Some?
    ensures !DecodeRef(buf, gen).value.0.ValueNode?
  {
    if Rlp.Split(buf).value.kind == Rlp.ListKind { NodeShape(None, buf, gen); }
  }

  lemma {:induction false} RefsAreNoValues(elems: bytes, n: nat, gen: nat)
    requires DecodeRefs(elems, n, gen).Some?
    ensures |DecodeRefs(elems, n, gen).value.0| == n
    ensures forall i :: 0 <= i < n ==> !DecodeRefs(elems, n, gen).value.0[i].ValueNode?
    decreases n
  {
    if n > 0 {
      RefIsNoValue(elems, gen);
      RefsAreNoValues(DecodeRef(elems, gen).value.1, n - 1, gen);
    }
  }

  lemma {:induction false} NonNilAppend(a: seq<Node>, b: seq<Node>)
    ensures NonNil(a + b) == NonNil(a) + NonNil(b)
    decreases |a|
  {
    if a == [] {
      assert a + b == b;
    } else {
      NonNilAppend(a[1..], b);
      assert (a + b)[0] == a[0] && (a + b)[1..] == a[1..] + b;
      Assoc(if a[0].NilNode? then [] else [AsChild(a[0])], NonNil(a[1..]), NonNil(b));
    }
  }

  /** A decoded node holds at most one value of its own, so `LeafOf` finds every leaf there is. */
  lemma OneLeaf(h: Hash, data: bytes, i: nat, j: nat)
    requires ParseNode(h, data).Some? && i < j < |ParseNode(h, data).value|
    ensures !ParseNode(h, data).value[i].Leaf? || !ParseNode(h, data).value[j].Leaf?
  {
    var n := DecodeNode(Some(h), data, 0).value;
    NodeShape(Some(h), data, 0);
    if n.FullNode? {
      var elems := Rlp.SplitList(data).value.content;
      var cs := DecodeRefs(elems, 16, 0).value.0;
      RefsAreNoValues(elems, 16, 0);
      assert n.children == cs + [n.children[16]];
      NonNilAppend(cs, [n.children[16]]);
      assert |NonNil([n.children[16]])| <= 1;
      assert i < |NonNil(cs)|;
      NoValues(cs, i);
    }
  }

  // ---------------------------------------------------------------------------------------------
  // A closed store holds whole tries
  // ---------------------------------------------------------------------------------------------

  lemma {:induction false} PartLength(items: seq<Rlp.Item>, i: nat)
    requires i < |items|
    ensures |Rlp.Encode(items[i])| <= |Rlp.EncodeAll(items)|
    decreases |items|
  {
    if i > 0 { PartLength(items[1..], i - 1); }
  }

  /** A child of an embedded node is embedded and shorter. */
  lemma SmallChild(H: bytes -> Hash, t: Tree, c: Tree, i: nat)
    requires |Enc(H, t)| < 32 && NodeItem(H, t).List? && i < |NodeItem(H, t).items| && NodeItem(H, t).items[i] == RefItem(H, c)
    requires c.Short? || c.Full?
    ensures |Enc(H, c)| < 32
  {
    PartLength(NodeItem(H, t).items, i);
  }

  lemma {:induction false} SmallBelow(H: bytes -> Hash, t: Tree, e: bytes)
    requires |Enc(H, t)| < 32 && e in Encodings(H, t)
    ensures |e| < 32
    decreases t
  {
    if e != Enc(H, t) {
      match t
      case Short(k, c) =>
        SmallChild(H, t, c, 1);
        SmallBelow(H, c, e);
      case Full(cs) =>
        var i :| 0 <= i < |cs| && e in Encodings(H, cs[i]);
        ChildRefs(H, cs, i, 0);
        SmallChild(H, t, cs[i], i);
        SmallBelow(H, cs[i], e);
    }
  }

  /** A long child of a stored node is one of the node's references. */
  lemma RefOfChild(H: bytes -> Hash, t: Tree, c: Tree, i: nat)
    requires Minimal(t) && |Enc(H, t)| < TWO64 && !Embedded(H, c)
    requires (t.Short? && t.val == c) || (t.Full? && i < |t.children| && t.children[i] == c)
    ensures ParseNode(H(Enc(H, t)), Enc(H, t)).Some?
    ensures H(Enc(H, c)) in Refs(ParseNode(H(Enc(H, t)), Enc(H, t)).value)
  {
    var h := H(Enc(H, t));
    DecodeOfEnc(H, t, Some(h), 0, []);
    assert Enc(H, t) + [] == Enc(H, t);
    LoadedChild(H, t, c, i, Some(h));
    RefIn(ChildList(Loaded(H, t, Some(h), 0)), H(Enc(H, c)));
  }

  lemma LoadedChild(H: bytes -> Hash, t: Tree, c: Tree, i: nat, hash: Option<Hash>)
    requires Minimal(t) && !Embedded(H, c)
    requires (t.Short? && t.val == c) || (t.Full? && i < |t.children| && t.children[i] == c)
    ensures Ref(H(Enc(H, c))) in ChildList(Loaded(H, t, hash, 0))
  {
    if t.Full? {
      ChildRefs(H, t.children, i, 0);
      NonNilHas(LoadedRefs(H, t.children, 0), i);
    } else {
      assert ChildList(Loaded(H, t, hash, 0))[0] == Ref(H(Enc(H, c)));
    }
  }

  lemma RefIn(cs: seq<Child<Hash>>, h: Hash)
    requires Ref(h) in cs
    ensures h in Refs(cs)
  {
    var k :| 0 <= k < |cs| && cs[k] == Ref(h);
    assert cs[k].Ref? && cs[k].h == h;
  }

  /** No node of the trie is named like a raw entry. */
  ghost predicate Apart(H: bytes -> Hash, es: set<bytes>, raws: set<Hash>) {
    forall e :: e in es ==> H(e) !in raws
  }

  lemma {:induction false} ClosedIsComplete(H: bytes -> Hash, db: Db, raws: set<Hash>, t: Tree, e: bytes)
    requires Closed(ParseNode, db, raws) && Minimal(t) && e in Encodings(H, t) && |e| >= 32
    requires Agrees(H, db, Encodings(H, t)) && Sized(Encodings(H, t)) && Apart(H, Encodings(H, t), raws)
    requires H(Enc(H, t)) in db
    ensures H(e) in db
    decreases t
  {
    if e != Enc(H, t) {
      var h := H(Enc(H, t));
      assert Enc(H, t) in Encodings(H, t) && db[h] == Enc(H, t);
      assert Understood(ParseNode, h, db[h], db.Keys, raws);
      match t
      case Short(_, c) =>
        if Embedded(H, c) { SmallBelow(H, c, e); }
        RefOfChild(H, t, c, 0);
        ClosedIsComplete(H, db, raws, c, e);
      case Full(cs) =>
        var i :| 0 <= i < |cs| && e in Encodings(H, cs[i]);
        ChildEncodings(H, cs, i);
        if Embedded(H, cs[i]) { SmallBelow(H, cs[i], e); }
        RefOfChild(H, t, cs[i], i);
        ClosedIsComplete(H, db, raws, cs[i], e);
    }
  }

  lemma AllClosed(s: State<Hash>, g: Proof<Hash>)
    requires StoreGood(ParseNode, s, g)
    ensures Closed(ParseNode, Written(s.database, s.batch, s.order), g.raws)
  {
    PrefixIsClosed(ParseNode, s.database, s.batch, s.order, g.needs, g.raws, |s.order|);
    assert s.order[..|s.order|] == s.order;
  }

  /**
   When no request is pending, the batch and the database together hold every trie that was asked
   for, provided the data delivered for a hash is the node of that hash.
   */
  lemma NothingPending(H: bytes -> Hash, s: State<Hash>, g: Proof<Hash>, t: Tree, r: Hash)
    requires Steady(ParseNode, s, g, r) && s.rs == map[]
    requires Patricia.Trie(t) && !t.Nil? && RootHash(H, t) in g.roots
    requires Agrees(H, Written(s.database, s.batch, s.order), Encodings(H, t))
    requires Sized(Encodings(H, t)) && Apart(H, Encodings(H, t), g.raws)
    ensures Stored(H, Written(s.database, s.batch, s.order), t)
  {
    var db := Written(s.database, s.batch, s.order);
    AllClosed(s, g);
    assert RootHash(H, t) in db;
    assert Enc(H, t) in Encodings(H, t);
    forall e | e in Encodings(H, t) && |e| >= 32 ensures H(e) in db && db[H(e)] == e {
      ClosedIsComplete(H, db, g.raws, t, e);
    }
  }

  // ---------------------------------------------------------------------------------------------
  // Whole downloads
  // ---------------------------------------------------------------------------------------------

  /** What a caller may ask of a scheduler, in any order. */
  datatype Call =
    | AddTrie(root: Hash, callback: Callback<Hash>)
    | AddRaw(hash: Hash)
    | Deliver(results: seq<(Hash, bytes)>)
    | Flush(room: nat)

  /** Data handed in for the hash of a node of the trie is that node. */
  ghost predicate Truthful(H: bytes -> Hash, es: set<bytes>, x: (Hash, bytes)) {
    forall e :: e in es && H(e) == x.0 ==> x.1 == e
  }

  /** No node of the trie is declared a raw entry, and none is delivered wrong. */
  ghost predicate Honest(H: bytes -> Hash, es: set<bytes>, c: Call) {
    match c
    case AddTrie(_, callback) => NoneIn(H, es, Declarable(callback))
    case AddRaw(hash) => forall e :: e in es ==> H(e) != hash
    case Deliver(results) => forall x :: x in results ==> Truthful(H, es, x)
    case Flush(_) => true
  }

  ghost predicate NoneIn(H: bytes -> Hash, es: set<bytes>, names: iset<Hash>) { forall e :: e in es ==> H(e) !in names }

  ghost predicate Faithful(H: bytes -> Hash, es: set<bytes>, initial: Db, terms: Terms<Hash>) {
    Agrees(H, initial, es) && NoneIn(H, es, terms.allowed) && forall x :: x in terms.given ==> Truthful(H, es, x)
  }

  method Answer(s: Sync<Hash>, c: Call, ghost H: bytes -> Hash, ghost es: set<bytes>)
    requires s.Valid() && Faithful(H, es, s.initial, s.g.terms) && Honest(H, es, c)
    modifies s
    ensures s.Valid() && Faithful(H, es, s.initial, s.g.terms) && old(s.g.roots) <= s.g.roots
    ensures s.g.terms.harmless <==> old(s.g.terms.harmless) && (c.AddTrie? ==> MeansWell(c.callback))
  {
    match c
    case AddTrie(root, callback) => s.AddSubTrie(root, callback);
    case AddRaw(hash) => s.AddRawEntry(hash);
    case Deliver(results) => var committed, index, status := s.Process(results);
    case Flush(room) => var written := s.Commit(room);
  }

  /** Over any calls by which no node of the trie is declared raw or delivered wrong, that stays so. */
  method Serve(s: Sync<Hash>, calls: seq<Call>, ghost H: bytes -> Hash, ghost es: set<bytes>)
    requires s.Valid() && Faithful(H, es, s.initial, s.g.terms)
    requires forall i :: 0 <= i < |calls| ==> Honest(H, es, calls[i])
    modifies s
    ensures s.Valid() && Faithful(H, es, s.initial, s.g.terms) && old(s.g.roots) <= s.g.roots
    ensures s.g.terms.harmless <==> old(s.g.terms.harmless) && AllHarmless(calls)
  {
    ghost var g0 := s.g;
    for i := 0 to |calls|
      invariant s.Valid() && Faithful(H, es, s.initial, s.g.terms) && g0.roots <= s.g.roots
      invariant s.g.terms.harmless <==> g0.terms.harmless && AllHarmless(calls[..i])
    {
      Answer(s, calls[i], H, es);
      assert calls[..i + 1] == calls[..i] + [calls[i]];
    }
    assert calls[..|calls|] == calls;
  }

  ghost predicate AllHarmless(calls: seq<Call>) { forall c :: c in calls && c.AddTrie? ==> MeansWell(c.callback) }

  /** All that is stored or to be stored agrees with the trie. */
  lemma StillAgrees(H: bytes -> Hash, es: set<bytes>, s: State<Hash>, initial: Db, terms: Terms<Hash>)
    requires Faithful(H, es, initial, terms) && Sourced(s.database, initial, terms.given) && AllGiven(s.batch, terms)
    ensures Agrees(H, Flushed(s), es)
  {
    var db := Flushed(s);
    forall e | e in es && H(e) in db ensures db[H(e)] == e {
      if H(e) in s.order && H(e) in s.batch {
        assert Truthful(H, es, (H(e), s.batch[H(e)]));
      } else if (H(e), s.database[H(e)]) in terms.given {
        assert Truthful(H, es, (H(e), s.database[H(e)]));
      }
    }
  }

  /** When nothing is pending, every trie that was asked for is there, if none of its nodes lost its references. */
  lemma Complete(H: bytes -> Hash, s: State<Hash>, g: Proof<Hash>, t: Tree, r: Hash, initial: Db)
    requires Steady(ParseNode, s, g, r) && Bounded(g) && Sourced(s.database, initial, g.terms.given) && s.rs == map[]
    requires Patricia.Trie(t) && !t.Nil? && RootHash(H, t) in g.roots && Sized(Encodings(H, t))
    requires Faithful(H, Encodings(H, t), initial, g.terms) && Apart(H, Encodings(H, t), g.slips)
    ensures Stored(H, Flushed(s), t)
  {
    StillAgrees(H, Encodings(H, t), s, initial, g.terms);
    NothingPending(H, s, g, t, r);
  }

  /** Writes out what was downloaded, and tells whether anything is still pending. */
  method Finish(s: Sync<Hash>, ghost H: bytes -> Hash, ghost t: Tree) returns (done: bool)
    requires s.Valid() && s.parse == ParseNode && Faithful(H, Encodings(H, t), s.initial, s.g.terms)
    requires Patricia.Trie(t) && !t.Nil? && RootHash(H, t) in s.g.roots && Sized(Encodings(H, t))
    modifies s
    ensures s.Valid() && s.g == old(s.g) && s.st.rs == old(s.st.rs) && (done <==> s.st.rs == map[])
    ensures done && Apart(H, Encodings(H, t), s.g.slips) ==> Stored(H, s.st.database, t)
  {
    var pending := s.Pending();
    done := pending == 0;
    if done && Apart(H, Encodings(H, t), s.g.slips) { Complete(H, s.st, s.g, t, s.emptyRoot, s.initial); }
    s.CommitAll();
  }

  /** A scheduler over a closed store, asked for one trie. */
  method Start(H: bytes -> Hash, database: Db, ghost raws: set<Hash>, root: Hash, callback: Callback<Hash>, emptyState: Hash,
               ghost es: set<bytes>)
    returns (s: Sync<Hash>)
    requires Closed(ParseNode, database, raws) && root != RootHash(H, Nil)
    requires Agrees(H, database, es) && Apart(H, es, raws) && NoneIn(H, es, Declarable(callback))
    ensures fresh(s) && s.Valid() && s.parse == ParseNode && root in s.g.roots && Faithful(H, es, s.initial, s.g.terms)
    ensures s.g.terms.harmless == MeansWell(callback) && s.emptyRoot == RootHash(H, Nil) && s.emptyState == emptyState && s.g.terms.given == {}
    ensures forall x :: x in s.st.rs ==> x == root && s.st.rs[x] == Request(None, false, [], 0, callback)
  {
    s := new Sync(ParseNode, RootHash(H, Nil), emptyState, database, raws);
    s.AddSubTrie(root, callback);
  }

  /**
   A whole download: a scheduler over a closed store is asked for a trie, then called in any way, and written
   out. If nothing is pending by then, the store holds every node of the trie, provided none of its nodes was
   declared raw, delivered wrong, or lost its references to a failing callback. Harmless callbacks lose none.
   */
  method Download(H: bytes -> Hash, database: Db, ghost raws: set<Hash>, root: Hash, callback: Callback<Hash>, calls: seq<Call>,
                  emptyState: Hash, ghost t: Tree)
    returns (s: Sync<Hash>, done: bool)
    requires Closed(ParseNode, database, raws) && Patricia.Trie(t) && !t.Nil? && root == RootHash(H, t)
    requires Sized(Encodings(H, t)) && NoCollision(H, Encodings(H, t) + {Enc(H, Nil)})
    requires Agrees(H, database, Encodings(H, t)) && Apart(H, Encodings(H, t), raws) && NoneIn(H, Encodings(H, t), Declarable(callback))
    requires forall i :: 0 <= i < |calls| ==> Honest(H, Encodings(H, t), calls[i])
    ensures fresh(s) && s.Valid() && (done <==> s.st.rs == map[])
    ensures done && Apart(H, Encodings(H, t), s.g.slips) ==> Stored(H, s.st.database, t)
    ensures MeansWell(callback) && AllHarmless(calls) ==> s.g.slips == {}
  {
    if root == RootHash(H, Nil) { TrieNode.RootHashFixesTrie(H, t, Nil); }
    s := Start(H, database, raws, root, callback, emptyState, Encodings(H, t));
    Serve(s, calls, H, Encodings(H, t));
    done := Finish(s, H, t);
  }

  // ---------------------------------------------------------------------------------------------
  // Downloads end
  // ---------------------------------------------------------------------------------------------

  /**
   A download from a supply of data: whatever is missing is delivered, in any order, until nothing is. Then
   the database holds every node of the trie, provided the supply is right about them and names none as raw.
   */
  method FetchTrie(H: bytes -> Hash, database: Db, ghost raws: set<Hash>, root: Hash, callback: Callback<Hash>, content: Db,
                   emptyState: Hash, ghost t: Tree, ghost w: Supply<Hash>)
    returns (s: Sync<Hash>)
    requires Closed(ParseNode, database, raws) && Patricia.Trie(t) && !t.Nil? && root == RootHash(H, t)
    requires Sized(Encodings(H, t)) && NoCollision(H, Encodings(H, t) + {Enc(H, Nil)})
    requires Agrees(H, database, Encodings(H, t)) && Apart(H, Encodings(H, t), raws) && NoneIn(H, Encodings(H, t), Declarable(callback))
    requires MeansWell(callback) && SupplyOk(ParseNode, w, RootHash(H, Nil), emptyState) && w.content == content
    requires Agrees(H, content, Encodings(H, t)) && root in w.nodes && w.callbacks(callback)
    ensures fresh(s) && s.Valid() && s.st.rs == map[] && Stored(H, s.st.database, t)
  {
    if root == RootHash(H, Nil) { TrieNode.RootHashFixesTrie(H, t, Nil); }
    s := Start(H, database, raws, root, callback, emptyState, Encodings(H, t));
    StartExpected(s.st, w, root, callback, ParseNode, RootHash(H, Nil), emptyState);
    Fetch(s, content, w);
    StillFaithful(H, Encodings(H, t), content, s.initial, s.g.terms);
    var done := Finish(s, H, t);
  }

  lemma StartExpected(s: State<Hash>, w: Supply<Hash>, root: Hash, callback: Callback<Hash>, parse: Parser<Hash>, emptyRoot: Hash, emptyState: Hash)
    requires SupplyOk(parse, w, emptyRoot, emptyState) && root in w.nodes && w.callbacks(callback)
    requires forall x :: x in s.rs ==> x == root && s.rs[x] == Request(None, false, [], 0, callback)
    ensures Moving(s) == true && Expected(s, w) == true
  {
    assert w.callbacks(None) && NodeThere(parse, w, root, None, emptyRoot, emptyState);
  }

  lemma StillFaithful(H: bytes -> Hash, es: set<bytes>, content: Db, initial: Db, terms: Terms<Hash>)
    requires Agrees(H, content, es) && Agrees(H, initial, es) && NoneIn(H, es, terms.allowed)
    requires forall x :: x in terms.given ==> x.0 in content && x.1 == content[x.0]
    ensures Faithful(H, es, initial, terms)
  {
  }

  // ---------------------------------------------------------------------------------------------
  // A store that has a trie supplies it
  // ---------------------------------------------------------------------------------------------

  /** `s` is a node of `t`. */
  ghost predicate Within(s: Tree, t: Tree)
    decreases t
  {
    match t
    case Nil => false
    case Value(_) => false
    case Short(_, c) => s == t || Within(s, c)
    case Full(cs) => s == t || exists i :: 0 <= i < |cs| && Within(s, cs[i])
  }

  ghost function Size(t: Tree): nat
    decreases t
  {
    match t
    case Short(_, c) => 1 + Size(c)
    case Full(cs) => 1 + Sizes(cs)
    case _ => 0
  }

  ghost function Sizes(cs: seq<Tree>): nat
    decreases cs
  {
    if cs == [] then 0 else Size(cs[0]) + Sizes(cs[1..])
  }

  lemma {:induction false} SizeOfChild(cs: seq<Tree>, i: nat)
    requires i < |cs|
    ensures Size(cs[i]) <= Sizes(cs)
    decreases |cs|
  {
    if i > 0 { SizeOfChild(cs[1..], i - 1); }
  }

  lemma {:induction false} NodesAreNodes(H: bytes -> Hash, s: Tree, t: Tree)
    requires Within(s, t) && Minimal(t)
    ensures Minimal(s) && (s.Short? || s.Full?) && Encodings(H, s) <= Encodings(H, t) && Enc(H, s) in Encodings(H, s)
    decreases t
  {
    if s != t {
      match t
      case Short(_, c) => NodesAreNodes(H, s, c);
      case Full(cs) =>
        var i :| 0 <= i < |cs| && Within(s, cs[i]);
        NodesAreNodes(H, s, cs[i]);
        ChildEncodings(H, cs, i);
    }
  }

  lemma {:induction false} NodeOf(H: bytes -> Hash, t: Tree, e: bytes) returns (s: Tree)
    requires e in Encodings(H, t)
    ensures Within(s, t) && Enc(H, s) == e
    decreases t
  {
    if e == Enc(H, t) { return t; }
    match t
    case Short(_, c) => s := NodeOf(H, c, e);
    case Full(cs) =>
      var i :| 0 <= i < |cs| && e in Encodings(H, cs[i]);
      s := NodeOf(H, cs[i], e);
  }

  lemma {:induction false} WithinTwice(c: Tree, s: Tree, t: Tree)
    requires Within(c, s) && Within(s, t)
    ensures Within(c, t)
    decreases t
  {
    if s != t {
      match t
      case Short(_, d) => WithinTwice(c, s, d);
      case Full(cs) =>
        var i :| 0 <= i < |cs| && Within(s, cs[i]);
        WithinTwice(c, s, cs[i]);
    }
  }

  /** Nodes of one trie with one hash are the same. */
  lemma OneNode(H: bytes -> Hash, t: Tree, a: Tree, b: Tree)
    requires Minimal(t) && Sized(Encodings(H, t)) && NoCollision(H, Encodings(H, t))
    requires Within(a, t) && Within(b, t) && H(Enc(H, a)) == H(Enc(H, b))
    ensures a == b
  {
    NodesAreNodes(H, a, t);
    NodesAreNodes(H, b, t);
    SameEncoding(H, a, b, Encodings(H, t));
  }

  ghost predicate Names(H: bytes -> Hash, t: Tree, h: Hash, s: Tree) { Within(s, t) && H(Enc(H, s)) == h }

  /** The number of nodes below a hash. */
  ghost function Weight(H: bytes -> Hash, t: Tree, h: Hash): nat {
    if exists s :: Names(H, t, h, s) then var s :| Names(H, t, h, s); Size(s) else 0
  }

  lemma WeightIs(H: bytes -> Hash, t: Tree, s: Tree)
    requires Minimal(t) && Sized(Encodings(H, t)) && NoCollision(H, Encodings(H, t)) && Within(s, t)
    ensures Weight(H, t, H(Enc(H, s))) == Size(s)
  {
    var h := H(Enc(H, s));
    assert Names(H, t, h, s);
    forall a | Names(H, t, h, a) ensures a == s { OneNode(H, t, a, s); }
  }

  /** The hashes by which the nodes of a trie are asked for. */
  ghost function NodeHashes(H: bytes -> Hash, t: Tree): set<Hash> {
    set e | e in Encodings(H, t) && (|e| >= 32 || e == Enc(H, t)) :: H(e)
  }

  /** A callback that never fails and registers nothing. */
  ghost predicate Quiet(callback: Callback<Hash>) { callback.Some? ==> forall leaf :: callback.value(leaf) == Reply([], [], true) }

  ghost function TrieSupply(H: bytes -> Hash, t: Tree, content: Db): Supply<Hash> {
    Supply(content, NodeHashes(H, t), h => Weight(H, t, h), callback => Quiet(callback))
  }

  /** What a node refers to are its long children. */
  lemma RefsAreChildren(H: bytes -> Hash, t: Tree, hash: Option<Hash>, x: Hash) returns (c: Tree)
    requires Minimal(t) && (t.Short? || t.Full?) && x in Refs(ChildList(Loaded(H, t, hash, 0)))
    ensures Within(c, t) && c != t && !Embedded(H, c) && H(Enc(H, c)) == x && Size(c) < Size(t)
  {
    var k :| 0 <= k < |ChildList(Loaded(H, t, hash, 0))| && ChildList(Loaded(H, t, hash, 0))[k] == Ref(x);
    match t
    case Short(_, d) =>
      c := d;
      RefIsLong(H, c, x);
    case Full(cs) =>
      var i := NonNilFrom(LoadedRefs(H, cs, 0), k);
      ChildRefs(H, cs, i, 0);
      c := cs[i];
      RefIsLong(H, c, x);
      SizeOfChild(cs, i);
  }

  lemma RefIsLong(H: bytes -> Hash, c: Tree, x: Hash)
    requires AsChild(LoadedRef(H, c, 0)) == Ref(x)
    ensures !Embedded(H, c) && H(Enc(H, c)) == x && Within(c, c)
  {
  }

  lemma {:induction false} NonNilFrom(cs: seq<Node>, k: nat) returns (i: nat)
    requires k < |NonNil(cs)|
    ensures i < |cs| && AsChild(cs[i]) == NonNil(cs)[k]
    decreases |cs|
  {
    var first := if cs[0].NilNode? then 0 else 1;
    if k < first { return 0; }
    i := NonNilFrom(cs[1..], k - first);
    i := i + 1;
  }

  lemma StoredParses(H: bytes -> Hash, t: Tree, content: Db, h: Hash) returns (s: Tree)
    requires Patricia.Trie(t) && Sized(Encodings(H, t)) && Stored(H, content, t) && h in NodeHashes(H, t)
    ensures Within(s, t) && Minimal(s) && (s.Short? || s.Full?) && H(Enc(H, s)) == h
    ensures h in content && ParseNode(h, content[h]) == Some(ChildList(Loaded(H, s, Some(h), 0)))
  {
    var e :| e in Encodings(H, t) && (|e| >= 32 || e == Enc(H, t)) && H(e) == h;
    s := NodeOf(H, t, e);
    NodesAreNodes(H, s, t);
    assert e + [] == e;
    DecodeOfEnc(H, s, Some(h), 0, []);
  }

  lemma SuppliesNode(H: bytes -> Hash, t: Tree, content: Db, h: Hash, callback: Callback<Hash>, emptyRoot: Hash, emptyState: Hash)
    requires Patricia.Trie(t) && !t.Nil? && Sized(Encodings(H, t)) && NoCollision(H, Encodings(H, t)) && Stored(H, content, t)
    requires h in NodeHashes(H, t) && Quiet(callback)
    ensures h in content && NodeThere(ParseNode, TrieSupply(H, t, content), h, callback, emptyRoot, emptyState)
  {
    var s := StoredParses(H, t, content, h);
    var cs := ChildList(Loaded(H, s, Some(h), 0));
    forall x | x in Refs(cs) ensures x in NodeHashes(H, t) && Under(TrieSupply(H, t, content), x, h) {
      SuppliesChild(H, t, s, content, h, x);
    }
    assert ReplyTo(callback, cs) == Reply([], [], true);
  }

  lemma SuppliesChild(H: bytes -> Hash, t: Tree, s: Tree, content: Db, h: Hash, x: Hash)
    requires Patricia.Trie(t) && Sized(Encodings(H, t)) && NoCollision(H, Encodings(H, t)) && Stored(H, content, t)
    requires Within(s, t) && Minimal(s) && (s.Short? || s.Full?) && H(Enc(H, s)) == h && x in Refs(ChildList(Loaded(H, s, Some(h), 0)))
    ensures x in NodeHashes(H, t) && Under(TrieSupply(H, t, content), x, h)
  {
    var c := RefsAreChildren(H, s, Some(h), x);
    WithinTwice(c, s, t);
    NodesAreNodes(H, c, t);
    assert Enc(H, c) in Encodings(H, t) && |Enc(H, c)| >= 32;
    WeightIs(H, t, c);
    WeightIs(H, t, s);
  }

  /** A store that has a trie is a supply for it. */
  lemma StoreSupplies(H: bytes -> Hash, t: Tree, content: Db, emptyRoot: Hash, emptyState: Hash)
    requires Patricia.Trie(t) && !t.Nil? && Sized(Encodings(H, t)) && NoCollision(H, Encodings(H, t)) && Stored(H, content, t)
    ensures SupplyOk(ParseNode, TrieSupply(H, t, content), emptyRoot, emptyState)
    ensures RootHash(H, t) in NodeHashes(H, t)
  {
    var w := TrieSupply(H, t, content);
    forall h, callback | h in w.nodes && w.callbacks(callback) ensures h in w.content && NodeThere(ParseNode, w, h, callback, emptyRoot, emptyState) {
      SuppliesNode(H, t, content, h, callback, emptyRoot, emptyState);
    }
    assert Enc(H, t) in Encodings(H, t);
  }

  /**
   Copying a trie from a store that has it: however the missing nodes are picked, the download ends, nothing
   is pending, and the database has the trie.
   */
  method CopyTrie(H: bytes -> Hash, database: Db, ghost raws: set<Hash>, root: Hash, callback: Callback<Hash>, content: Db,
                  emptyState: Hash, ghost t: Tree)
    returns (s: Sync<Hash>)
    requires Closed(ParseNode, database, raws) && Patricia.Trie(t) && !t.Nil? && root == RootHash(H, t)
    requires Sized(Encodings(H, t)) && NoCollision(H, Encodings(H, t) + {Enc(H, Nil)})
    requires Agrees(H, database, Encodings(H, t)) && Apart(H, Encodings(H, t), raws) && Quiet(callback)
    requires Stored(H, content, t) && Agrees(H, content, Encodings(H, t))
    ensures fresh(s) && s.Valid() && s.st.rs == map[] && Stored(H, s.st.database, t)
  {
    StoreSupplies(H, t, content, RootHash(H, Nil), emptyState);
    QuietDeclares(H, Encodings(H, t), callback);
    s := FetchTrie(H, database, raws, root, callback, content, emptyState, t, TrieSupply(H, t, content));
  }

  lemma QuietDeclares(H: bytes -> Hash, es: set<bytes>, callback: Callback<Hash>)
    requires Quiet(callback)
    ensures MeansWell(callback) && NoneIn(H, es, Declarable(callback))
  {
  }
}

/**
 iterator.go `differenceIterator`: two node iterators advance together, and the nodes of the second
 trie that the first does not have are given out. Equal subtries are skipped by their hash.
 */
module TrieDifference {
  import opened Bytes
  import opened Patricia
  import opened HexKeys
  import opened TrieNode
  import opened TrieIterator
  import MerkleTrie

  // ---------------------------------------------------------------------------------------------
  // Comparing nodes
  // ---------------------------------------------------------------------------------------------

  /** The hash the iterator reports: that of the root or of a node kept by hash, else zero. */
  function NodeHash(H: bytes -> Hash, e: Elem): Hash {
    if e.node.Nil? || e.node.Value? then MerkleTrie.ZeroHash
    else if e.path == [] || !Embedded(H, e.node) then H(Enc(H, e.node))
    else MerkleTrie.ZeroHash
  }

  /** iterator.go `compareNodes`. */
  function Compare(H: bytes -> Hash, x: Elem, y: Elem): int {
    if Less(x.path, y.path) then -1
    else if Less(y.path, x.path) then 1
    else if HasTerm(x.path) && !HasTerm(y.path) then -1
    else if HasTerm(y.path) && !HasTerm(x.path) then 1
    else if Less(NodeHash(H, x), NodeHash(H, y)) then -1
    else if Less(NodeHash(H, y), NodeHash(H, x)) then 1
    else if HasTerm(x.path) && HasTerm(y.path) && x.node.Value? && y.node.Value? then
      if Less(x.node.v, y.node.v) then -1 else if Less(y.node.v, x.node.v) then 1 else 0
    else 0
  }

  lemma {:induction false} LessTotal(p: Key, q: Key)
    ensures p == q || Less(p, q) || Less(q, p)
    decreases |p|
  {
    if p != [] && q != [] && p[0] == q[0] {
      LessTotal(p[1..], q[1..]);
      assert p == [p[0]] + p[1..] && q == [q[0]] + q[1..];
    }
  }

  /** The values an element may take: a node of one of the tries, with its hash among `es`. */
  ghost predicate ElemOk(H: bytes -> Hash, e: Elem, es: set<bytes>) {
    Minimal(e.node) && Encodings(H, e.node) <= es && (HasTerm(e.path) <==> e.node.Value?)
  }

  ghost predicate AllOk(H: bytes -> Hash, list: seq<Elem>, es: set<bytes>) {
    forall i :: 0 <= i < |list| ==> ElemOk(H, list[i], es)
  }

  /** Nodes that compare equal have one path; they are the same leaf, or equal if they have a hash. */
  lemma EqualNodes(H: bytes -> Hash, x: Elem, y: Elem, es: set<bytes>)
    requires Compare(H, x, y) == 0 && ElemOk(H, x, es) && ElemOk(H, y, es) && Sized(es) && NoCollision(H, es)
    ensures x.path == y.path
    ensures x.node.Value? <==> y.node.Value?
    ensures x.node.Value? || NodeHash(H, x) != MerkleTrie.ZeroHash ==> x == y
  {
    LessTotal(x.path, y.path);
    LessTotal(NodeHash(H, x), NodeHash(H, y));
    if x.node.Value? {
      LessTotal(x.node.v, y.node.v);
    } else if NodeHash(H, x) != MerkleTrie.ZeroHash {
      assert Enc(H, x.node) in es && Enc(H, y.node) in es;
      SameEncoding(H, x.node, y.node, es);
    }
  }

  lemma CompareOrder(H: bytes -> Hash, x: Elem, y: Elem)
    ensures Compare(H, x, y) < 0 ==> Less(x.path, y.path) || x.path == y.path
    ensures Compare(H, x, y) > 0 ==> Less(y.path, x.path) || x.path == y.path
    ensures Compare(H, x, y) != 0 ==> x != y
  {
    LessTotal(x.path, y.path);
    if x == y { CompareSelf(H, x); }
  }

  lemma CompareSelf(H: bytes -> Hash, x: Elem)
    ensures Compare(H, x, x) == 0
  {
    LessIrreflexive(x.path);
    LessIrreflexive(NodeHash(H, x));
    if x.node.Value? { LessIrreflexive(x.node.v); }
  }

  // ---------------------------------------------------------------------------------------------
  // What may be dropped
  // ---------------------------------------------------------------------------------------------

  /** For every leaf still to come in b, being in `all` and being among what is left of a are the same. */
  ghost predicate Faithful(all: seq<Elem>, left: seq<Elem>, b: seq<Elem>) {
    forall i :: 0 <= i < |b| && b[i].node.Value? ==> (b[i] in all <==> b[i] in left)
  }

  ghost predicate AllIn(all: seq<Elem>, skipped: seq<Elem>) {
    forall i :: 0 <= i < |skipped| && skipped[i].node.Value? ==> skipped[i] in all
  }

  /** b jumped past the first node of a. */
  lemma DropSmaller(H: bytes -> Hash, all: seq<Elem>, x: Elem, left: seq<Elem>, y: Elem, b: seq<Elem>)
    requires Sorted([y] + b) && Compare(H, x, y) < 0 && Faithful(all, [x] + left, [y] + b)
    ensures Faithful(all, left, [y] + b)
  {
    CompareOrder(H, x, y);
    var ys := [y] + b;
    forall i | 0 <= i < |ys| && ys[i].node.Value? ensures ys[i] in all <==> ys[i] in left {
      if i > 0 {
        assert Less(ys[0].path, ys[i].path);
        if Less(x.path, y.path) { LessTransitive(x.path, y.path, ys[i].path); }
        LessIrreflexive(x.path);
      }
      assert ys[i] != x;
      assert ys[i] in [x] + left <==> ys[i] in left;
    }
  }

  /** The first node of b comes before a: if it is a leaf, a does not have it. */
  lemma NotInFirst(H: bytes -> Hash, all: seq<Elem>, x: Elem, left: seq<Elem>, y: Elem, b: seq<Elem>)
    requires Sorted([x] + left) && Compare(H, x, y) > 0 && Faithful(all, [x] + left, [y] + b) && y.node.Value?
    ensures y !in all
  {
    CompareOrder(H, x, y);
    var xs := [x] + left;
    assert ([y] + b)[0] == y;
    forall i | 0 <= i < |xs| ensures xs[i] != y {
      if i > 0 {
        assert Less(xs[0].path, xs[i].path);
        if Less(y.path, x.path) { LessTransitive(y.path, x.path, xs[i].path); }
        LessIrreflexive(y.path);
      }
    }
  }

  /** Equal first nodes, and the same nodes `w` below them, are dropped on both sides. */
  lemma DropEqual(all: seq<Elem>, x: Elem, y: Elem, w: seq<Elem>, left: seq<Elem>, b: seq<Elem>)
    requires Sorted([y] + (w + b)) && Faithful(all, [x] + (w + left), [y] + (w + b)) && x.path == y.path
    requires y.node.Value? ==> x == y
    ensures Faithful(all, left, b) && AllIn(all, [y] + w)
  {
    var ys, xs := [y] + (w + b), [x] + (w + left);
    forall i | 0 <= i < |b| && b[i].node.Value? ensures b[i] in all <==> b[i] in left {
      var k := 1 + |w| + i;
      assert ys[k] == b[i];
      assert Less(ys[0].path, ys[k].path);
      LessIrreflexive(x.path);
      forall j | 0 <= j < |w| ensures w[j] != b[i] {
        assert ys[j + 1] == w[j] && Less(ys[j + 1].path, ys[k].path);
        LessIrreflexive(b[i].path);
      }
      assert b[i] in xs <==> b[i] in left;
    }
    forall i | 0 <= i < |[y] + w| && ([y] + w)[i].node.Value? ensures ([y] + w)[i] in all {
      assert ys[i] == ([y] + w)[i];
      if i > 0 { assert xs[i] == w[i - 1]; } else { assert xs[0] == y; }
    }
  }

  // ---------------------------------------------------------------------------------------------
  // The iterator
  // ---------------------------------------------------------------------------------------------

  /** A list of nodes in path order. */
  ghost predicate Listing(H: bytes -> Hash, list: seq<Elem>, es: set<bytes>) {
    AllOk(H, list, es) && Sorted(list)
  }

  /** Dropping a prefix keeps a listing. */
  lemma ListingTail(H: bytes -> Hash, list: seq<Elem>, dropped: seq<Elem>, tail: seq<Elem>, es: set<bytes>)
    requires Listing(H, list, es) && list == dropped + tail
    ensures Listing(H, tail, es)
  {
    forall i | 0 <= i < |tail| ensures ElemOk(H, tail[i], es) { assert tail[i] == list[|dropped| + i]; }
    SuffixSorted(dropped, tail);
  }

  /** A node iterator stands at `e`, and what is below and after it is in order. */
  ghost predicate Standing(H: bytes -> Hash, it: It, e: Elem, es: set<bytes>) {
    ItOk(it) && At(it, e) && Listing(H, [e] + Coming(it, true), es)
  }

  /** `Next` on an iterator that stands at `e`; without descending it skips what is below. */
  method Advance(H: bytes -> Hash, it: It, descend: bool, ghost e: Elem, ghost es: set<bytes>)
    returns (it': It, ok: bool, next: Elem)
    requires Standing(H, it, e, es)
    ensures ItOk(it') && (ok <==> Coming(it, descend) != [])
    ensures ok ==> Standing(H, it', next, es) && [next] + Coming(it', true) == Coming(it, descend)
    ensures !ok ==> Coming(it', true) == []
  {
    if descend {
      ListingTail(H, [e] + Coming(it, true), [e], Coming(it, true), es);
    } else {
      ghost var below := ChildrenFrom(e.path, e.node, 0);
      Assoc([e], below, Coming(it, false));
      ListingTail(H, [e] + Coming(it, true), [e] + below, Coming(it, false), es);
    }
    it', ok, next := NextNode(it, descend);
  }

  /** The state of the two iterators: what is left of the first trie, or nothing at its end. */
  datatype Pair = Pair(a: It, b: It, eof: bool, atA: Elem)

  ghost function Left(p: Pair): seq<Elem>
    requires ItOk(p.a)
  {
    if p.eof then [] else [p.atA] + Coming(p.a, true)
  }

  ghost predicate FirstOk(H: bytes -> Hash, p: Pair, es: set<bytes>) {
    ItOk(p.a) && (!p.eof ==> Standing(H, p.a, p.atA, es))
  }

  /** The second iterator stands at `at`; what it passed over is in the first trie. */
  ghost predicate Looking(H: bytes -> Hash, all: seq<Elem>, p: Pair, at: Elem, skipped: seq<Elem>, coming: seq<Elem>, es: set<bytes>) {
    && FirstOk(H, p, es) && Standing(H, p.b, at, es)
    && Faithful(all, Left(p), [at] + Coming(p.b, true))
    && AllIn(all, skipped) && coming == skipped + ([at] + Coming(p.b, true))
  }

  /** The first iterator moves on, or comes to its end. */
  method AdvanceFirst(H: bytes -> Hash, p: Pair, descend: bool, ghost es: set<bytes>) returns (p': Pair)
    requires FirstOk(H, p, es) && !p.eof
    ensures FirstOk(H, p', es) && Left(p') == Coming(p.a, descend) && p'.b == p.b
  {
    var a, more, next := Advance(H, p.a, descend, p.atA, es);
    p' := Pair(a, p.b, !more, if more then next else p.atA);
  }

  /** The first iterator moves past a node that comes before the second's. */
  method PassSmaller(H: bytes -> Hash, p: Pair, at: Elem, ghost all: seq<Elem>, ghost skipped: seq<Elem>, ghost coming: seq<Elem>, ghost es: set<bytes>)
    returns (p': Pair)
    requires Looking(H, all, p, at, skipped, coming, es) && !p.eof && Compare(H, p.atA, at) < 0
    ensures Looking(H, all, p', at, skipped, coming, es) && p'.b == p.b && |Left(p')| < |Left(p)|
  {
    DropSmaller(H, all, p.atA, Coming(p.a, true), at, Coming(p.b, true));
    p' := AdvanceFirst(H, p, true, es);
  }

  /** Equal nodes are passed over on both sides, with what is below them if they have a hash. */
  method PassEqual(H: bytes -> Hash, p: Pair, at: Elem, ghost all: seq<Elem>, ghost skipped: seq<Elem>, ghost coming: seq<Elem>, ghost es: set<bytes>)
    returns (ok: bool, p': Pair, at': Elem, ghost skipped': seq<Elem>)
    requires Looking(H, all, p, at, skipped, coming, es) && !p.eof && Compare(H, p.atA, at) == 0
    requires Sized(es) && NoCollision(H, es)
    ensures ok ==> Looking(H, all, p', at', skipped', coming, es)
    ensures ok ==> |Left(p')| < |Left(p)| && |Coming(p'.b, true)| <= |Coming(p.b, true)|
    ensures !ok ==> AllIn(all, skipped') && coming == skipped'
  {
    var descend := NodeHash(H, p.atA) == MerkleTrie.ZeroHash;
    skipped' := skipped + ([at] + if descend then [] else ChildrenFrom(at.path, at.node, 0));
    EqualPass(H, p, at, all, skipped, skipped', coming, descend, es);
    var b;
    b, ok, at' := Advance(H, p.b, descend, at, es);
    p' := p;
    if !ok { return; }
    p' := AdvanceFirst(H, p, descend, es);
    LookAgain(H, all, p', b, at', Coming(p.a, descend), Coming(p.b, descend), skipped', coming, es);
    p' := p'.(b := b);
  }

  lemma LookAgain(H: bytes -> Hash, all: seq<Elem>, p: Pair, b: It, at: Elem, left: seq<Elem>, later: seq<Elem>, skipped: seq<Elem>,
                  coming: seq<Elem>, es: set<bytes>)
    requires FirstOk(H, p, es) && Left(p) == left && Standing(H, b, at, es) && [at] + Coming(b, true) == later
    requires Faithful(all, left, later) && AllIn(all, skipped) && coming == skipped + later
    ensures Looking(H, all, p.(b := b), at, skipped, coming, es)
    ensures |Left(p.(b := b))| == |left| && |Coming(b, true)| <= |later|
  {
  }

  lemma EqualPass(H: bytes -> Hash, p: Pair, at: Elem, all: seq<Elem>, skipped: seq<Elem>, skipped': seq<Elem>, coming: seq<Elem>,
                  descend: bool, es: set<bytes>)
    requires Looking(H, all, p, at, skipped, coming, es) && !p.eof && Compare(H, p.atA, at) == 0
    requires Sized(es) && NoCollision(H, es) && descend == (NodeHash(H, p.atA) == MerkleTrie.ZeroHash)
    requires skipped' == skipped + ([at] + if descend then [] else ChildrenFrom(at.path, at.node, 0))
    ensures Faithful(all, Coming(p.a, descend), Coming(p.b, descend)) && AllIn(all, skipped')
    ensures coming == skipped' + Coming(p.b, descend)
    ensures |Coming(p.a, descend)| <= |Coming(p.a, true)| && |Coming(p.b, descend)| <= |Coming(p.b, true)|
  {
    FirstTwo(H, p, at, es);
    EqualNodes(H, p.atA, at, es);
    Parted(p.a, p.atA, descend);
    Parted(p.b, at, descend);
    var w := if descend then [] else ChildrenFrom(at.path, at.node, 0);
    PassedEqual(all, p.atA, at, w, Coming(p.a, true), Coming(p.a, descend), Coming(p.b, true), Coming(p.b, descend), skipped, coming);
  }

  lemma Parted(it: It, e: Elem, descend: bool)
    requires ItOk(it) && At(it, e)
    ensures Coming(it, true) == (if descend then [] else ChildrenFrom(e.path, e.node, 0)) + Coming(it, descend)
  {
  }

  /** What is passed over with two equal nodes is in the first trie, and the rest stays comparable. */
  lemma PassedEqual(all: seq<Elem>, x: Elem, y: Elem, w: seq<Elem>, a: seq<Elem>, left: seq<Elem>, b: seq<Elem>, later: seq<Elem>,
                    skipped: seq<Elem>, coming: seq<Elem>)
    requires a == w + left && b == w + later && Sorted([y] + b) && Faithful(all, [x] + a, [y] + b)
    requires x.path == y.path && (y.node.Value? ==> x == y) && AllIn(all, skipped) && coming == skipped + ([y] + b)
    ensures Faithful(all, left, later) && AllIn(all, skipped + ([y] + w)) && coming == skipped + ([y] + w) + later
  {
    DropEqual(all, x, y, w, left, later);
    SkippedOn(all, skipped, [y] + w);
    Assoc([y], w, later);
    Assoc(skipped, [y] + w, later);
  }

  lemma FirstTwo(H: bytes -> Hash, p: Pair, at: Elem, es: set<bytes>)
    requires Standing(H, p.a, p.atA, es) && Standing(H, p.b, at, es)
    ensures ElemOk(H, p.atA, es) && ElemOk(H, at, es)
  {
    assert ([p.atA] + Coming(p.a, true))[0] == p.atA && ([at] + Coming(p.b, true))[0] == at;
  }

  lemma SkippedOn(all: seq<Elem>, a: seq<Elem>, b: seq<Elem>)
    requires AllIn(all, a) && AllIn(all, b)
    ensures AllIn(all, a + b)
  {
  }

  /** iterator.go `differenceIterator`: nodes of the second trie that the first does not have. */
  class DifferenceIterator {
    const H: bytes -> Hash
    var pair: Pair
    ghost const all: seq<Elem>
    ghost const es: set<bytes>

    ghost predicate Valid()
      reads this
    {
      && Sized(es) && NoCollision(H, es) && FirstOk(H, pair, es)
      && ItOk(pair.b) && Listing(H, Coming(pair.b, true), es) && Faithful(all, Left(pair), Coming(pair.b, true))
    }

    /** iterator.go `NewDifferenceIterator`: the first trie's iterator is moved to its first node. */
    constructor (H: bytes -> Hash, a: It, b: It, ghost es: set<bytes>)
      requires ItOk(a) && ItOk(b) && Sized(es) && NoCollision(H, es) && Coming(a, true) != []
      requires Listing(H, Coming(a, true), es) && Listing(H, Coming(b, true), es)
      ensures this.H == H && this.es == es && all == Coming(a, true) && pair.b == b && Valid()
    {
      var a', ok, first := NextNode(a, true);
      this.H, this.es, this.all := H, es, Coming(a, true);
      this.pair := Pair(a', b, false, first);
    }

    /**
     iterator.go `differenceIterator.Next`. What it passes over in the second trie (`skipped`) is in
     the first one; a leaf it stops at is not.
     */
    method Next() returns (ok: bool, at: Elem, ghost skipped: seq<Elem>)
      requires Valid()
      modifies this
      ensures AllIn(all, skipped)
      ensures ok ==> Valid() && old(Coming(pair.b, true)) == skipped + ([at] + Coming(pair.b, true))
      ensures ok && at.node.Value? ==> at !in all
      ensures !ok ==> old(Coming(pair.b, true)) == skipped
    {
      var p;
      ok, p, at, skipped := NextDifferent(H, pair, all, es);
      if ok {
        LookOn(H, all, p, at, es);
        pair := p;
      }
    }
  }

  /** Having stopped at a node of the second trie, the iterator can go on behind it. */
  lemma LookOn(H: bytes -> Hash, all: seq<Elem>, p: Pair, at: Elem, es: set<bytes>)
    requires ItOk(p.a) && Standing(H, p.b, at, es) && Faithful(all, Left(p), [at] + Coming(p.b, true))
    ensures Listing(H, Coming(p.b, true), es) && Faithful(all, Left(p), Coming(p.b, true))
  {
    var b := Coming(p.b, true);
    ListingTail(H, [at] + b, [at], b, es);
    forall i | 0 <= i < |b| && b[i].node.Value? ensures b[i] in all <==> b[i] in Left(p) {
      assert ([at] + b)[i + 1] == b[i];
    }
  }

  method NextDifferent(H: bytes -> Hash, p0: Pair, ghost all: seq<Elem>, ghost es: set<bytes>)
    returns (ok: bool, p: Pair, at: Elem, ghost skipped: seq<Elem>)
    requires Sized(es) && NoCollision(H, es) && FirstOk(H, p0, es)
    requires ItOk(p0.b) && Listing(H, Coming(p0.b, true), es) && Faithful(all, Left(p0), Coming(p0.b, true))
    ensures AllIn(all, skipped)
    ensures ok ==> Looking(H, all, p, at, skipped, Coming(p0.b, true), es) && (at.node.Value? ==> at !in all)
    ensures !ok ==> Coming(p0.b, true) == skipped
  {
    ghost var coming := Coming(p0.b, true);
    skipped, p := [], p0;
    var b;
    b, ok, at := NextNode(p0.b, true);
    if !ok { return; }
    p := p.(b := b);
    assert coming == skipped + ([at] + Coming(p.b, true));
    while !p.eof
      invariant Looking(H, all, p, at, skipped, coming, es)
      decreases |Left(p)| + |Coming(p.b, true)|
    {
      var c := Compare(H, p.atA, at);
      if c > 0 {
        if at.node.Value? { NotInFirst(H, all, p.atA, Coming(p.a, true), at, Coming(p.b, true)); }
        return;
      } else if c < 0 {
        p := PassSmaller(H, p, at, all, skipped, coming, es);
      } else {
        ok, p, at, skipped := PassEqual(H, p, at, all, skipped, coming, es);
        if !ok { return; }
      }
    }
    assert ([at] + Coming(p.b, true))[0] == at;
  }

  // ---------------------------------------------------------------------------------------------
  // All leaves of the difference
  // ---------------------------------------------------------------------------------------------

  ghost predicate NodesOk(H: bytes -> Hash, list: seq<Elem>, es: set<bytes>) {
    forall i :: 0 <= i < |list| ==> NodeOk(H, list[i].node, es)
  }

  ghost predicate NodeOk(H: bytes -> Hash, t: Tree, es: set<bytes>) { Minimal(t) && Encodings(H, t) <= es }

  lemma NodesJoin(H: bytes -> Hash, a: seq<Elem>, b: seq<Elem>, es: set<bytes>)
    requires NodesOk(H, a, es) && NodesOk(H, b, es)
    ensures NodesOk(H, a + b, es)
  {
  }

  lemma {:induction false} PreorderNodes(H: bytes -> Hash, path: Key, t: Tree, es: set<bytes>)
    requires Minimal(t) && Encodings(H, t) <= es
    ensures NodesOk(H, Preorder(path, t), es)
    decreases t, 20
  {
    ChildrenNodes(H, path, t, 0, es);
    NodesJoin(H, [Elem(path, t)], ChildrenFrom(path, t, 0), es);
  }

  lemma {:induction false} ChildrenNodes(H: bytes -> Hash, path: Key, t: Tree, i: nat, es: set<bytes>)
    requires Minimal(t) && Encodings(H, t) <= es && i <= 17
    ensures NodesOk(H, ChildrenFrom(path, t, i), es)
    decreases t, 18 - i
  {
    match t
    case Short(k, c) => if i == 0 { PreorderNodes(H, path + k, c, es); }
    case Full(cs) =>
      if i < 17 {
        ChildrenNodes(H, path, t, i + 1, es);
        ChildEncodings(H, cs, i);
        FullUnfold(path, cs, i);
        if !cs[i].Nil? {
          PreorderNodes(H, path + [i], cs[i], es);
          NodesJoin(H, Preorder(path + [i], cs[i]), ChildrenFrom(path, t, i + 1), es);
        }
      }
    case _ =>
  }

  lemma TrieListing(H: bytes -> Hash, t: Tree, es: set<bytes>)
    requires Patricia.Trie(t) && Encodings(H, t) <= es
    ensures Listing(H, Preorder([], t), es)
  {
    PreorderNodes(H, [], t, es);
    PreorderSorted([], t);
    PreorderTermed([], t);
  }

  /** The leaves of `done` that are not in `all`, in order. */
  ghost predicate Collected(out: seq<(Key, bytes)>, done: seq<Elem>, all: seq<Elem>) {
    && SortedKeys(out) && (forall i :: 0 <= i < |out| ==> Elem(out[i].0, Value(out[i].1)) in done)
    && forall k, v :: (k, v) in out <==> Elem(k, Value(v)) in done && Elem(k, Value(v)) !in all
  }

  lemma CollectedMore(out: seq<(Key, bytes)>, done: seq<Elem>, all: seq<Elem>, skipped: seq<Elem>, at: Elem)
    requires Collected(out, done, all) && AllIn(all, skipped) && (at.node.Value? ==> at !in all)
    requires Sorted(done + (skipped + [at]))
    ensures Collected(if at.node.Value? then out + [(at.path, at.node.v)] else out, done + (skipped + [at]), all)
  {
    CollectedEnd(out, done, all, skipped);
    Assoc(done, skipped, [at]);
    var done' := done + skipped;
    forall i | 0 <= i < |out| ensures Less(out[i].0, at.path) {
      assert Elem(out[i].0, Value(out[i].1)) in done';
      var j :| 0 <= j < |done'| && done'[j] == Elem(out[i].0, Value(out[i].1));
      assert (done' + [at])[j] == done'[j] && (done' + [at])[|done'|] == at;
    }
    CollectedOne(out, done', all, at);
  }

  lemma CollectedOne(out: seq<(Key, bytes)>, done: seq<Elem>, all: seq<Elem>, at: Elem)
    requires Collected(out, done, all) && (at.node.Value? ==> at !in all)
    requires forall i :: 0 <= i < |out| ==> Less(out[i].0, at.path)
    ensures Collected(if at.node.Value? then out + [(at.path, at.node.v)] else out, done + [at], all)
  {
    var out' := if at.node.Value? then out + [(at.path, at.node.v)] else out;
    forall k, v ensures (k, v) in out' <==> Elem(k, Value(v)) in done + [at] && Elem(k, Value(v)) !in all {
      var e := Elem(k, Value(v));
      assert e in done + [at] <==> e in done || e == at;
      assert (k, v) in out' <==> (k, v) in out || (at.node.Value? && (k, v) == (at.path, at.node.v));
    }
  }

  lemma CollectedEnd(out: seq<(Key, bytes)>, done: seq<Elem>, all: seq<Elem>, skipped: seq<Elem>)
    requires Collected(out, done, all) && AllIn(all, skipped)
    ensures Collected(out, done + skipped, all)
  {
    forall k, v ensures (k, v) in out <==> Elem(k, Value(v)) in done + skipped && Elem(k, Value(v)) !in all {
      var e := Elem(k, Value(v));
      assert e in done + skipped <==> e in done || e in skipped;
      if e in skipped { var j :| 0 <= j < |skipped| && skipped[j] == e; }
    }
  }

  /** All leaves the difference iterator gives out. */
  method CollectDifference(d: DifferenceIterator) returns (out: seq<(Key, bytes)>)
    requires d.Valid()
    modifies d
    ensures Collected(out, old(Coming(d.pair.b, true)), d.all)
  {
    ghost var coming := Coming(d.pair.b, true);
    ghost var done: seq<Elem> := [];
    out := [];
    while true
      invariant d.Valid() && Sorted(coming) && coming == done + Coming(d.pair.b, true)
      invariant Collected(out, done, d.all) == true  // kept as one fact, not split into its parts
      decreases |Coming(d.pair.b, true)|
    {
      var ok, at;
      ghost var skipped;
      ok, at, skipped := d.Next();
      if !ok {
        CollectedEnd(out, done, d.all, skipped);
        return;
      }
      OneMoreCollected(out, coming, done, d.all, skipped, at, Coming(d.pair.b, true));
      if at.node.Value? { out := out + [(at.path, at.node.v)]; }
      done := done + (skipped + [at]);
    }
  }

  lemma OneMoreCollected(out: seq<(Key, bytes)>, coming: seq<Elem>, done: seq<Elem>, all: seq<Elem>, skipped: seq<Elem>, at: Elem, rest: seq<Elem>)
    requires Sorted(coming) && coming == done + (skipped + ([at] + rest)) && Collected(out, done, all)
    requires AllIn(all, skipped) && (at.node.Value? ==> at !in all)
    ensures coming == done + (skipped + [at]) + rest
    ensures Collected(if at.node.Value? then out + [(at.path, at.node.v)] else out, done + (skipped + [at]), all) == true
  {
    Regroup(done, skipped, at, rest);
    PrefixSorted(done + (skipped + [at]), rest);
    CollectedMore(out, done, all, skipped, at);
  }

  lemma Regroup<T>(a: seq<T>, b: seq<T>, x: T, c: seq<T>)
    ensures a + (b + ([x] + c)) == (a + (b + [x])) + c
  {
  }

  lemma PrefixSorted(a: seq<Elem>, b: seq<Elem>)
    requires Sorted(a + b)
    ensures Sorted(a)
  {
    forall i, j | 0 <= i < j < |a| ensures Less(a[i].path, a[j].path) {
      assert a[i] == (a + b)[i] && a[j] == (a + b)[j];
    }
  }

  /** The leaves of the difference iterator are the entries of b that a lacks or maps differently. */
  method Difference(H: bytes -> Hash, ta: Tree, tb: Tree) returns (out: seq<(Key, bytes)>)
    requires Patricia.Trie(ta) && Patricia.Trie(tb)
    requires Sized(Encodings(H, ta) + Encodings(H, tb)) && NoCollision(H, Encodings(H, ta) + Encodings(H, tb))
    ensures SortedKeys(out)
    ensures forall k, v :: (k, v) in out <==> Lookup(Entries(tb), k) == Some(v) && Lookup(Entries(ta), k) != Some(v)
  {
    ghost var es := Encodings(H, ta) + Encodings(H, tb);
    var a, b := It(ta, [], [], false), It(tb, [], [], false);
    TrieListing(H, ta, es);
    TrieListing(H, tb, es);
    var d := new DifferenceIterator(H, a, b, es);
    out := CollectDifference(d);
    forall k, v ensures (k, v) in out <==> Lookup(Entries(tb), k) == Some(v) && Lookup(Entries(ta), k) != Some(v) {
      LeafIsEntry([], ta, k, v);
      LeafIsEntry([], tb, k, v);
      assert k[0..] == k;
    }
  }
}

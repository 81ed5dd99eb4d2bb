/**
 iterator.go: pre-order iteration over the nodes of a trie with a stack of half-visited nodes, seeking
 to a start key, and the key/value iterator on top of it. A node iterator hashes the trie before it
 starts and loads nodes as it goes; here it walks the value trie those nodes stand for.
 */
module TrieIterator {
  import opened Bytes
  import opened Patricia
  import opened HexKeys

  /** A node the iterator may stand at, with its hex path. */
  datatype Elem = Elem(path: Key, node: Tree)

  // ---------------------------------------------------------------------------------------------
  // The order of nodes
  // ---------------------------------------------------------------------------------------------

  /** `bytes.Compare(p, q) < 0`. */
  predicate Less(p: Key, q: Key) {
    q != [] && (p == [] || p[0] < q[0] || (p[0] == q[0] && Less(p[1..], q[1..])))
  }

  ghost function Preorder(path: Key, t: Tree): seq<Elem>
    decreases t, 20
  {
    [Elem(path, t)] + ChildrenFrom(path, t, 0)
  }

  /** Everything below the children of `t` from the `i`-th on; a short node has one child. */
  ghost function ChildrenFrom(path: Key, t: Tree, i: int): seq<Elem>
    decreases t, 18 - i
  {
    match t
    case Short(k, c) => if i <= 0 then Preorder(path + k, c) else []
    case Full(cs) =>
      if i < 0 || i >= |cs| || i >= 17 then []
      else (if cs[i].Nil? then [] else Preorder(path + [i], cs[i])) + ChildrenFrom(path, t, i + 1)
    case _ => []
  }

  // ---------------------------------------------------------------------------------------------
  // The iterator
  // ---------------------------------------------------------------------------------------------

  /** iterator.go `nodeIteratorState`: the last child visited, and where the parent's path ends. */
  datatype Frame = Frame(node: Tree, index: int, pathlen: nat)

  ghost predicate FramesOk(stack: seq<Frame>, path: Key)
    decreases |stack|
  {
    stack == [] ||
    var top := stack[|stack| - 1];
    Minimal(top.node) && -1 <= top.index && top.pathlen <= |path| && FramesOk(stack[..|stack| - 1], path[..top.pathlen])
  }

  /** What is still to come, from the innermost frame outwards. */
  ghost function Rest(stack: seq<Frame>, path: Key): seq<Elem>
    requires FramesOk(stack, path)
    decreases |stack|
  {
    if stack == [] then []
    else
      var top := stack[|stack| - 1];
      ChildrenFrom(path, top.node, top.index + 1) + Rest(stack[..|stack| - 1], path[..top.pathlen])
  }

  /** iterator.go `nextChild`: the next child of a node; `index` is what it leaves in the parent. */
  method NextChild(parent: Frame, path: Key) returns (found: bool, child: Tree, cpath: Key, index: int)
    requires Minimal(parent.node) && -1 <= parent.index
    ensures !found ==> ChildrenFrom(path, parent.node, parent.index + 1) == []
    ensures found ==> Minimal(child) && path <= cpath && -1 <= index
    ensures found ==>
              ChildrenFrom(path, parent.node, parent.index + 1)
              == Preorder(cpath, child) + ChildrenFrom(path, parent.node, index + 2)
  {
    match parent.node
    case Full(cs) =>
      var i := parent.index + 1;
      while i < |cs|
        invariant parent.index + 1 <= i
        invariant ChildrenFrom(path, parent.node, parent.index + 1) == ChildrenFrom(path, parent.node, i)
      {
        if !cs[i].Nil? { return true, cs[i], path + [i], i - 1; }
        assert [] + ChildrenFrom(path, parent.node, i + 1) == ChildrenFrom(path, parent.node, i + 1);
        i := i + 1;
      }
      return false, Nil, [], 0;
    case Short(k, c) =>
      if parent.index < 0 {
        assert Preorder(path + k, c) + [] == Preorder(path + k, c);
        return true, c, path + k, parent.index;
      }
      return false, Nil, [], 0;
    case _ => return false, Nil, [], 0;
  }

  /** iterator.go `pop`. */
  function Popped(stack: seq<Frame>): seq<Frame>
    requires stack != []
  {
    stack[..|stack| - 1]
  }

  function PoppedPath(stack: seq<Frame>, path: Key): Key
    requires stack != [] && stack[|stack| - 1].pathlen <= |path|
  {
    path[..stack[|stack| - 1].pathlen]
  }

  /** iterator.go `push`: the parent's index moves on and the child becomes the innermost frame. */
  function Pushed(stack: seq<Frame>, path: Key, child: Tree, index: int): seq<Frame>
    requires stack != []
  {
    var top := stack[|stack| - 1];
    stack[..|stack| - 1] + [top.(index := index + 1), Frame(child, -1, |path|)]
  }

  lemma PushRest(stack: seq<Frame>, path: Key, child: Tree, cpath: Key, index: int)
    requires stack != [] && FramesOk(stack, path) && Minimal(child) && path <= cpath && -1 <= index
    requires ChildrenFrom(path, stack[|stack| - 1].node, stack[|stack| - 1].index + 1)
          == Preorder(cpath, child) + ChildrenFrom(path, stack[|stack| - 1].node, index + 2)
    ensures FramesOk(Pushed(stack, path, child, index), cpath)
    ensures Rest(stack, path) == [Elem(cpath, child)] + Rest(Pushed(stack, path, child, index), cpath)
  {
    var n, top := |stack| - 1, stack[|stack| - 1];
    var s1, s2 := stack[..n] + [top.(index := index + 1)], Pushed(stack, path, child, index);
    assert s2[..n + 1] == s1 && s1[..n] == stack[..n] && cpath[..|path|] == path;
    var a, b, c := ChildrenFrom(cpath, child, 0), ChildrenFrom(path, top.node, index + 2), Rest(stack[..n], path[..top.pathlen]);
    assert Rest(s1, path) == b + c;
    assert Rest(s2, cpath) == a + (b + c);
    Assoc([Elem(cpath, child)], a, b);
    Assoc([Elem(cpath, child)] + a, b, c);
    Assoc([Elem(cpath, child)], a, b + c);
    Assoc(a, b, c);
  }

  /** iterator.go `peek` after the start: frames without further children are popped. */
  method Peek(stack0: seq<Frame>, path0: Key)
    returns (stack: seq<Frame>, path: Key, found: bool, child: Tree, cpath: Key, index: int)
    requires FramesOk(stack0, path0)
    ensures FramesOk(stack, path) && Rest(stack, path) == Rest(stack0, path0)
    ensures !found ==> stack == [] && Rest(stack0, path0) == []
    ensures found ==> stack != [] && Minimal(child) && FramesOk(Pushed(stack, path, child, index), cpath)
    ensures found ==> Rest(stack0, path0) == [Elem(cpath, child)] + Rest(Pushed(stack, path, child, index), cpath)
  {
    stack, path := stack0, path0;
    while stack != []
      invariant FramesOk(stack, path) && Rest(stack, path) == Rest(stack0, path0)
      decreases |stack|
    {
      found, child, cpath, index := NextChild(stack[|stack| - 1], path);
      if found {
        PushRest(stack, path, child, cpath, index);
        return;
      }
      assert [] + Rest(Popped(stack), PoppedPath(stack, path)) == Rest(Popped(stack), PoppedPath(stack, path));
      stack, path := Popped(stack), PoppedPath(stack, path);
    }
    found, child, cpath, index := false, Nil, [], 0;
  }

  // ---------------------------------------------------------------------------------------------
  // Pre-order is path order
  // ---------------------------------------------------------------------------------------------

  lemma {:induction false} LessTransitive(p: Key, q: Key, r: Key)
    requires Less(p, q) && Less(q, r)
    ensures Less(p, r)
    decreases |p|
  {
    if p != [] && p[0] == q[0] == r[0] { LessTransitive(p[1..], q[1..], r[1..]); }
  }

  lemma {:induction false} LessIrreflexive(p: Key)
    ensures !Less(p, p)
    decreases |p|
  {
    if p != [] { LessIrreflexive(p[1..]); }
  }

  /** Two paths with a common prefix compare by the nibbles after it. */
  lemma {:induction false} LessAfter(path: Key, p: Key, q: Key)
    requires path <= p && path <= q
    ensures Less(p, q) <==> Less(p[|path|..], q[|path|..])
    decreases |path|
  {
    if path != [] {
      assert path[0] == p[0] == q[0];
      LessAfter(path[1..], p[1..], q[1..]);
      assert p[1..][|path| - 1..] == p[|path|..] && q[1..][|path| - 1..] == q[|path|..];
    } else {
      assert p[0..] == p && q[0..] == q;
    }
  }

  /** Keys that differ in a byte are in the order of the first one that differs. */
  lemma ByteOrder(a: bytes, b: bytes, i: nat)
    requires i < |a| && i < |b| && a[..i] == b[..i] && a[i] < b[i]
    ensures Less(HexOfBytes(a), HexOfBytes(b))
  {
    var p, q := HexOfBytes(a), HexOfBytes(b);
    HexPrefix(a, b, i);
    LessAfter(p[..2 * i], p, q);
    HexForm(a);
    HexForm(b);
    assert p[2 * i..][0] == a[i] / 16 && q[2 * i..][0] == b[i] / 16;
    assert p[2 * i..][1..][0] == a[i] % 16 && q[2 * i..][1..][0] == b[i] % 16;
  }

  lemma HexPrefix(a: bytes, b: bytes, i: nat)
    requires i <= |a| && i <= |b| && a[..i] == b[..i]
    ensures var p, q := HexOfBytes(a), HexOfBytes(b); |p| >= 2 * i && |q| >= 2 * i && p[..2 * i] == q[..2 * i] && p[..2 * i] <= q
  {
    HexForm(a);
    HexForm(b);
    forall j | 0 <= j < 2 * i ensures HexOfBytes(a)[j] == HexOfBytes(b)[j] {
      assert a[..i][j / 2] == b[..i][j / 2];
      assert j == 2 * (j / 2) || j == 2 * (j / 2) + 1;
    }
  }

  /** But a key comes after the keys it is a prefix of, because a full node keeps its own value last. */
  lemma PrefixLast(a: bytes, b: bytes)
    requires |a| < |b| && a == b[..|a|]
    ensures Less(HexOfBytes(b), HexOfBytes(a))
  {
    var p, q, i := HexOfBytes(b), HexOfBytes(a), |a|;
    assert a[..i] == a;
    HexPrefix(b, a, i);
    LessAfter(p[..2 * i], p, q);
    HexForm(a);
    HexForm(b);
    assert p[2 * i..][0] == b[i] / 16 && q[2 * i..][0] == 16;
  }

  /** If a path comes before `key` and is no prefix of it, so does everything below the path. */
  lemma {:induction false} LessBelow(p: Key, q: Key, key: Key)
    requires Less(p, key) && !(p <= key) && p <= q
    ensures Less(q, key)
    decreases |p|
  {
    assert p != [] && q[0] == p[0];
    if p[0] == key[0] {
      LessBelow(p[1..], q[1..], key[1..]);
    }
  }

  ghost predicate Sorted(es: seq<Elem>) {
    forall i, j {:trigger Less(es[i].path, es[j].path)} :: 0 <= i < j < |es| ==> Less(es[i].path, es[j].path)
  }

  lemma SortedJoin(a: seq<Elem>, b: seq<Elem>)
    requires Sorted(a) && Sorted(b)
    requires forall i, j :: 0 <= i < |a| && 0 <= j < |b| ==> Less(a[i].path, b[j].path)
    ensures Sorted(a + b)
  {
  }

  /** Where the elements below a node lie: beneath its path, at nibble `i` or later. */
  ghost predicate Beneath(es: seq<Elem>, path: Key, i: int) {
    forall j :: 0 <= j < |es| ==> |path| < |es[j].path| && path <= es[j].path && es[j].path[|path|] >= i
  }

  lemma {:induction false} PreorderSorted(path: Key, t: Tree)
    requires Minimal(t)
    ensures Sorted(Preorder(path, t)) && Beneath(ChildrenFrom(path, t, 0), path, 0)
    ensures Preorder(path, t)[1..] == ChildrenFrom(path, t, 0)
    decreases t, 20
  {
    ChildrenSorted(path, t, 0);
    var es := ChildrenFrom(path, t, 0);
    forall j | 0 <= j < |es| ensures Less(path, es[j].path) {
      LessAfter(path, path, es[j].path);
    }
    SortedJoin([Elem(path, t)], es);
  }

  lemma {:induction false} ChildrenSorted(path: Key, t: Tree, i: nat)
    requires Minimal(t) && i <= 17
    ensures Sorted(ChildrenFrom(path, t, i)) && Beneath(ChildrenFrom(path, t, i), path, if t.Full? then i else 0)
    decreases t, 18 - i
  {
    match t
    case Short(k, c) =>
      if i == 0 {
        PreorderSorted(path + k, c);
        UnderLonger(Preorder(path + k, c), path, k);
      }
    case Full(cs) =>
      if i < 17 {
        ChildrenSorted(path, t, i + 1);
        if !cs[i].Nil? { PreorderSorted(path + [i], cs[i]); }
        FullSorted(path, cs, i);
      }
    case _ =>
  }

  lemma FullSorted(path: Key, cs: seq<Tree>, i: nat)
    requires i < |cs| == 17
    requires Sorted(ChildrenFrom(path, Full(cs), i + 1)) && Beneath(ChildrenFrom(path, Full(cs), i + 1), path, i + 1)
    requires !cs[i].Nil? ==> Sorted(Preorder(path + [i], cs[i])) && Beneath(Preorder(path + [i], cs[i])[1..], path + [i], 0)
    ensures Sorted(ChildrenFrom(path, Full(cs), i)) && Beneath(ChildrenFrom(path, Full(cs), i), path, i)
  {
    var a, b := Preorder(path + [i], cs[i]), ChildrenFrom(path, Full(cs), i + 1);
    FullUnfold(path, cs, i);
    if !cs[i].Nil? { JoinSorted(a, b, path, i); }
  }

  lemma FullUnfold(path: Key, cs: seq<Tree>, i: nat)
    requires i < |cs| == 17
    ensures ChildrenFrom(path, Full(cs), i) ==
            if cs[i].Nil? then ChildrenFrom(path, Full(cs), i + 1)
            else Preorder(path + [i], cs[i]) + ChildrenFrom(path, Full(cs), i + 1)
  {
    if cs[i].Nil? { assert [] + ChildrenFrom(path, Full(cs), i + 1) == ChildrenFrom(path, Full(cs), i + 1); }
  }

  /** What lies below nibble `i`, followed by what lies below later nibbles. */
  lemma JoinSorted(a: seq<Elem>, b: seq<Elem>, path: Key, i: nat)
    requires Sorted(a) && Sorted(b) && |a| > 0 && a[0].path == path + [i]
    requires Beneath(a[1..], path + [i], 0) && Beneath(b, path, i + 1)
    ensures Sorted(a + b) && Beneath(a + b, path, i)
  {
    UnderLonger(a, path, [i]);
    forall x, y | 0 <= x < |a| && 0 <= y < |b| ensures Less(a[x].path, b[y].path) {
      LessAfter(path, a[x].path, b[y].path);
    }
    SortedJoin(a, b);
  }

  /** The elements of a subtrie at `path + k` lie beneath `path`, at the first nibble of `k`. */
  lemma UnderLonger(es: seq<Elem>, path: Key, k: Key)
    requires |es| > 0 && es[0].path == path + k && Beneath(es[1..], path + k, 0) && |k| > 0 && k[0] >= 0
    ensures Beneath(es, path, 0)
    ensures forall j :: 0 <= j < |es| ==> |path| < |es[j].path| && es[j].path[|path|] == k[0]
  {
    forall j | 0 <= j < |es| ensures |path| < |es[j].path| && path <= es[j].path && es[j].path[|path|] == k[0] {
      if j > 0 { assert es[j] == es[1..][j - 1]; }
      assert path + k <= es[j].path && (path + k)[|path|] == k[0];
    }
  }

  // ---------------------------------------------------------------------------------------------
  // Leaves are entries
  // ---------------------------------------------------------------------------------------------

  /** A leaf stands in the pre-order exactly when the trie maps the rest of its path to its value. */
  lemma {:induction false} LeafIsEntry(path: Key, t: Tree, q: Key, v: bytes)
    requires Minimal(t)
    ensures Elem(q, Value(v)) in Preorder(path, t) <==> path <= q && Lookup(Entries(t), q[|path|..]) == Some(v)
    decreases t, 20
  {
    ChildLeaf(path, t, 0, q, v);
    if path <= q {
      assert q == path <==> q[|path|..] == [];
      if t.Short? { Patricia.BelowAt(t.key, Entries(t.val), []); }
      if t.Full? {
        ChildEntriesAt(t.children, 0, []);
        assert Entries(t) == ChildEntries(t.children, 0);
        if |path| < |q| { FullLookup(t.children, q[|path|..]); }
      }
    }
  }

  lemma {:induction false} ChildLeaf(path: Key, t: Tree, i: nat, q: Key, v: bytes)
    requires Minimal(t) && i <= 17
    ensures Elem(q, Value(v)) in ChildrenFrom(path, t, i) <==>
            && !t.Value? && |path| < |q| && path <= q && (t.Full? ==> i <= q[|path|]) && (t.Short? ==> i == 0)
            && Lookup(Entries(t), q[|path|..]) == Some(v)
    decreases t, 18 - i
  {
    match t
    case Short(k, c) =>
      if i == 0 { LeafIsEntry(path + k, c, q, v); }
      if path <= q { ShortLookup(path, k, c, q); }
    case Full(cs) =>
      if path <= q && |path| < |q| { FullLookup(cs, q[|path|..]); }
      if i < 17 {
        var here := path + [i];
        ChildLeaf(path, t, i + 1, q, v);
        LeafIsEntry(here, cs[i], q, v);
        Longer(path, i, q);
      }
    case _ =>
  }

  lemma ShortLookup(path: Key, k: Key, c: Tree, q: Key)
    requires |k| > 0 && path <= q
    ensures Lookup(Entries(Short(k, c)), q[|path|..]) == if path + k <= q then Lookup(Entries(c), q[|path + k|..]) else None
  {
    Patricia.BelowAt(k, Entries(c), q[|path|..]);
    PrefixShift(path, k, q);
  }

  lemma PrefixShift(path: Key, k: Key, q: Key)
    requires path <= q
    ensures path + k <= q <==> k <= q[|path|..]
    ensures path + k <= q ==> q[|path|..][|k|..] == q[|path + k|..]
  {
    if k <= q[|path|..] { assert q == path + q[|path|..]; }
  }

  lemma Longer(path: Key, i: int, q: Key)
    ensures path + [i] <= q <==> path <= q && |path| < |q| && q[|path|] == i
    ensures path + [i] <= q ==> q[|path|..][1..] == q[|path + [i]|..]
  {
  }

  lemma FullLookup(cs: seq<Tree>, k: Key)
    requires Minimal(Full(cs)) && |k| > 0
    ensures Lookup(Entries(Full(cs)), k) == if 0 <= k[0] < 17 then Lookup(Entries(cs[k[0]]), k[1..]) else None
  {
    ChildEntriesAt(cs, 0, k);
  }

  // ---------------------------------------------------------------------------------------------
  // The node iterator
  // ---------------------------------------------------------------------------------------------

  /** The elements at or after `key`. */
  ghost function From(key: Key, es: seq<Elem>): seq<Elem> {
    if es == [] then [] else (if Less(es[0].path, key) then [] else [es[0]]) + From(key, es[1..])
  }

  lemma {:induction false} FromJoin(key: Key, a: seq<Elem>, b: seq<Elem>)
    ensures From(key, a + b) == From(key, a) + From(key, b)
    decreases |a|
  {
    if a == [] {
      assert a + b == b && [] + From(key, b) == From(key, b);
    } else {
      FromJoin(key, a[1..], b);
      assert (a + b)[0] == a[0] && (a + b)[1..] == a[1..] + b;
      Assoc(if Less(a[0].path, key) then [] else [a[0]], From(key, a[1..]), From(key, b));
    }
  }

  lemma {:induction false} FromNone(key: Key, es: seq<Elem>)
    requires forall i :: 0 <= i < |es| ==> Less(es[i].path, key)
    ensures From(key, es) == []
    decreases |es|
  {
    if es != [] { FromNone(key, es[1..]); }
  }

  /** Once the first element is at or after the key, so are all. */
  lemma {:induction false} FromAll(key: Key, es: seq<Elem>)
    requires Sorted(es) && (es != [] ==> !Less(es[0].path, key))
    ensures From(key, es) == es
    decreases |es|
  {
    if es != [] {
      if |es| > 1 && Less(es[1].path, key) { LessTransitive(es[0].path, es[1].path, key); }
      FromAll(key, es[1..]);
    }
  }

  /** iterator.go `nodeIterator`: the stack of half-visited nodes and the path of the innermost one. */
  datatype It = It(trie: Tree, stack: seq<Frame>, path: Key, ended: bool)

  ghost predicate ItOk(it: It) {
    Patricia.Trie(it.trie) && FramesOk(it.stack, it.path) && (it.stack == [] ==> it.path == []) && (it.ended ==> it.stack == [])
  }

  /** What follows the current node, with or without the nodes below it. */
  ghost function Coming(it: It, descend: bool): seq<Elem>
    requires ItOk(it)
  {
    if it.ended then [] else if it.stack == [] then Preorder([], it.trie)
    else if descend then Rest(it.stack, it.path)
    else Rest(Popped(it.stack), PoppedPath(it.stack, it.path))
  }

  /** The iterator has just come to the element `e`: everything below it is still to come. */
  ghost predicate At(it: It, e: Elem)
    requires ItOk(it)
  {
    && it.stack != [] && it.path == e.path && it.stack[|it.stack| - 1].node == e.node
    && Coming(it, true) == ChildrenFrom(e.path, e.node, 0) + Coming(it, false)
  }

  /** iterator.go `Next`: the next node in pre-order, or the end. */
  method NextNode(it: It, descend: bool) returns (it': It, ok: bool, e: Elem)
    requires ItOk(it)
    ensures ItOk(it') && it'.trie == it.trie && (ok <==> Coming(it, descend) != [])
    ensures ok ==> At(it', e) && [e] + Coming(it', true) == Coming(it, descend)
    ensures !ok ==> Coming(it', true) == []
  {
    if it.ended { return it, false, Elem([], Nil); }
    if it.stack == [] {
      StartRest(it.trie);
      return It(it.trie, [Frame(it.trie, -1, 0)], [], false), true, Elem([], it.trie);
    }
    var s0, p0 := if descend then it.stack else Popped(it.stack), if descend then it.path else PoppedPath(it.stack, it.path);
    var s1, p1, found, child, cpath, index := Peek(s0, p0);
    if !found { return It(it.trie, [], [], true), false, Elem([], Nil); }
    return It(it.trie, Pushed(s1, p1, child, index), cpath, false), true, Elem(cpath, child);
  }

  /**
   iterator.go `newNodeIterator`: moves on until the next node is at or after the start key. Exactly
   the nodes at or after it are still to come, in path order.
   */
  method NewIterator(trie: Tree, start: bytes) returns (it: It)
    requires Patricia.Trie(trie)
    ensures ItOk(it) && it.trie == trie && Coming(it, true) == From(Unpacked(start), Preorder([], trie))
  {
    var key := Unpacked(start);
    StartSorted(trie, key);
    if key == [] { return It(trie, [], [], false); }
    var s, p, e := SeekOn([Frame(trie, -1, 0)], [], key);
    return It(trie, s, p, e);
  }

  lemma StartSorted(t: Tree, key: Key)
    requires Minimal(t)
    ensures FramesOk([Frame(t, -1, 0)], []) && Sorted(Rest([Frame(t, -1, 0)], []))
    ensures key == [] ==> From(key, Preorder([], t)) == Preorder([], t)
    ensures key != [] ==> From(key, Preorder([], t)) == From(key, Rest([Frame(t, -1, 0)], []))
  {
    var all := Preorder([], t);
    PreorderSorted([], t);
    StartRest(t);
    var rest := Rest([Frame(t, -1, 0)], []);
    TailSorted(all, rest);
    if key == [] { FromAll(key, all); } else { FromStep(key, all); }
  }

  /** The loop of `seek`, from a current node before the key. */
  method SeekOn(stack0: seq<Frame>, path0: Key, key: Key) returns (stack: seq<Frame>, path: Key, ended: bool)
    requires FramesOk(stack0, path0) && stack0 != [] && stack0[|stack0| - 1].index == -1 && Less(path0, key)
    requires Sorted(Rest(stack0, path0))
    ensures FramesOk(stack, path) && (ended <==> stack == []) && (stack == [] ==> path == [])
    ensures Rest(stack, path) == From(key, Rest(stack0, path0))
  {
    stack, path := stack0, path0;
    while true
      invariant FramesOk(stack, path) && stack != [] && stack[|stack| - 1].index == -1 && Less(path, key)
      invariant From(key, Rest(stack, path)) == From(key, Rest(stack0, path0)) && Sorted(Rest(stack, path))
      decreases |Rest(stack, path)|
    {
      var s0, p0 := Skipped(stack, path, key);
      ghost var next := Rest(s0, p0);
      var s1, p1, found, child, cpath, index := Peek(s0, p0);
      if !found { return [], [], true; }
      if !Less(cpath, key) {
        FromAll(key, next);
        return s1, p1, false;
      }
      FromStep(key, next);
      stack, path := Pushed(s1, p1, child, index), cpath;
      TailSorted(next, Rest(stack, path));
    }
  }

  /** `peek` does not descend from a node whose path is no prefix of the key. */
  method Skipped(stack: seq<Frame>, path: Key, key: Key) returns (s0: seq<Frame>, p0: Key)
    requires FramesOk(stack, path) && stack != [] && stack[|stack| - 1].index == -1 && Less(path, key)
    requires Sorted(Rest(stack, path))
    ensures FramesOk(s0, p0) && From(key, Rest(s0, p0)) == From(key, Rest(stack, path))
    ensures Sorted(Rest(s0, p0)) && |Rest(s0, p0)| <= |Rest(stack, path)|
  {
    if path <= key { return stack, path; }
    SkipBelow(key, path, stack[|stack| - 1].node, Rest(Popped(stack), PoppedPath(stack, path)));
    return Popped(stack), PoppedPath(stack, path);
  }

  lemma TailSorted(es: seq<Elem>, tail: seq<Elem>)
    requires Sorted(es) && es != [] && es == [es[0]] + tail
    ensures Sorted(tail) && tail == es[1..]
  {
    forall i, j | 0 <= i < j < |tail| ensures Less(tail[i].path, tail[j].path) {
      assert tail[i] == es[i + 1] && tail[j] == es[j + 1];
    }
  }

  lemma FromStep(key: Key, es: seq<Elem>)
    requires es != [] && Less(es[0].path, key)
    ensures From(key, es) == From(key, es[1..])
  {
    assert [] + From(key, es[1..]) == From(key, es[1..]);
  }

  /** Nothing below a path that comes before the key, and is no prefix of it, is at or after the key. */
  lemma SkipBelow(key: Key, path: Key, node: Tree, after: seq<Elem>)
    requires Minimal(node) && Less(path, key) && !(path <= key) && Sorted(ChildrenFrom(path, node, 0) + after)
    ensures From(key, ChildrenFrom(path, node, 0) + after) == From(key, after)
    ensures Sorted(after)
  {
    var below := ChildrenFrom(path, node, 0);
    FromJoin(key, below, after);
    PreorderSorted(path, node);
    forall i | 0 <= i < |below| ensures Less(below[i].path, key) { LessBelow(path, below[i].path, key); }
    FromNone(key, below);
    assert [] + From(key, after) == From(key, after);
    SuffixSorted(below, after);
  }

  lemma SuffixSorted(a: seq<Elem>, b: seq<Elem>)
    requires Sorted(a + b)
    ensures Sorted(b)
  {
    forall i, j | 0 <= i < j < |b| ensures Less(b[i].path, b[j].path) {
      assert b[i] == (a + b)[|a| + i] && b[j] == (a + b)[|a| + j];
    }
  }

  lemma StartRest(t: Tree)
    requires Minimal(t)
    ensures FramesOk([Frame(t, -1, 0)], [])
    ensures Preorder([], t) == [Elem([], t)] + Rest([Frame(t, -1, 0)], [])
  {
    assert [Frame(t, -1, 0)][..0] == [];
    assert ChildrenFrom([], t, 0) + [] == ChildrenFrom([], t, 0);
  }

  // ---------------------------------------------------------------------------------------------
  // The key/value iterator
  // ---------------------------------------------------------------------------------------------

  /** The path of a node ends with the terminator exactly when the node is a value. */
  ghost predicate Termed(es: seq<Elem>) {
    forall i :: 0 <= i < |es| ==> (HasTerm(es[i].path) <==> es[i].node.Value?)
  }

  lemma {:induction false} PreorderTermed(path: Key, t: Tree)
    requires Minimal(t) && (if t.Value? then HasTerm(path) else Nibbles(path))
    ensures Termed(Preorder(path, t))
    decreases t, 20
  {
    ChildrenTermed(path, t, 0);
  }

  lemma {:induction false} ChildrenTermed(path: Key, t: Tree, i: nat)
    requires Minimal(t) && (!t.Value? ==> Nibbles(path)) && i <= 17
    ensures Termed(ChildrenFrom(path, t, i))
    decreases t, 18 - i
  {
    match t
    case Short(k, c) => if i == 0 { PreorderTermed(path + k, c); }
    case Full(cs) =>
      if i < 17 {
        ChildrenTermed(path, t, i + 1);
        if !cs[i].Nil? { PreorderTermed(path + [i], cs[i]); }
      }
    case _ =>
  }

  /** The leaves among some elements. */
  ghost function LeavesOf(es: seq<Elem>): seq<(Key, bytes)> {
    if es == [] then []
    else (if es[0].node.Value? then [(es[0].path, es[0].node.v)] else []) + LeavesOf(es[1..])
  }

  /** iterator.go `Iterator`: a node iterator and the entry it stands at. */
  class Iterator {
    var nodeIt: It
    var key: Key
    var value: bytes

    ghost predicate Valid()
      reads this
    {
      ItOk(nodeIt) && Termed(Coming(nodeIt, true))
    }

    constructor (nodeIt: It)
      requires ItOk(nodeIt) && Termed(Coming(nodeIt, true))
      ensures this.nodeIt == nodeIt && Valid()
    {
      this.nodeIt, key, value := nodeIt, [], [];
    }

    /** iterator.go `Iterator.Next`: moves to the next leaf. */
    method Next() returns (ok: bool)
      requires Valid()
      modifies this
      ensures Valid() && |Coming(nodeIt, true)| <= |old(Coming(nodeIt, true))|
      ensures ok ==> old(LeavesOf(Coming(nodeIt, true))) == [(key, value)] + LeavesOf(Coming(nodeIt, true))
      ensures ok ==> |Coming(nodeIt, true)| < |old(Coming(nodeIt, true))|
      ensures !ok ==> old(LeavesOf(Coming(nodeIt, true))) == []
    {
      var it := nodeIt;
      ghost var first := Coming(nodeIt, true);
      while true
        invariant ItOk(it) && Termed(Coming(it, true)) && LeavesOf(Coming(it, true)) == LeavesOf(first)
        invariant |Coming(it, true)| <= |first|
        decreases |Coming(it, true)|
      {
        ghost var coming := Coming(it, true);
        var more, e;
        it, more, e := NextNode(it, true);
        if more { assert coming[0] == e && coming[1..] == Coming(it, true); }
        if !more {
          nodeIt, key, value := it, [], [];
          return false;
        }
        if HasTerm(it.path) {
          nodeIt, key, value := it, it.path, e.node.v;
          return true;
        }
        assert [] + LeavesOf(coming[1..]) == LeavesOf(coming[1..]);
      }
    }
  }

  ghost predicate SortedKeys(kvs: seq<(Key, bytes)>) {
    forall i, j :: 0 <= i < j < |kvs| ==> Less(kvs[i].0, kvs[j].0)
  }

  lemma {:induction false} LeavesMember(es: seq<Elem>, k: Key, v: bytes)
    ensures (k, v) in LeavesOf(es) <==> Elem(k, Value(v)) in es
    decreases |es|
  {
    if es != [] {
      LeavesMember(es[1..], k, v);
      assert Elem(k, Value(v)) in es <==> es[0] == Elem(k, Value(v)) || Elem(k, Value(v)) in es[1..];
    }
  }

  lemma {:induction false} LeavesSorted(es: seq<Elem>)
    requires Sorted(es)
    ensures SortedKeys(LeavesOf(es))
    decreases |es|
  {
    if es != [] {
      LeavesSorted(es[1..]);
      var rest := LeavesOf(es[1..]);
      forall i | 0 <= i < |rest| ensures Less(es[0].path, rest[i].0) {
        assert (rest[i].0, rest[i].1) in rest;
        LeavesMember(es[1..], rest[i].0, rest[i].1);
        var j :| 0 <= j < |es[1..]| && es[1..][j] == Elem(rest[i].0, Value(rest[i].1));
        assert es[j + 1] == es[1..][j];
      }
      SortedPrepend(if es[0].node.Value? then [(es[0].path, es[0].node.v)] else [], rest);
    }
  }

  lemma SortedPrepend(a: seq<(Key, bytes)>, b: seq<(Key, bytes)>)
    requires |a| <= 1 && SortedKeys(b) && (a != [] ==> forall i :: 0 <= i < |b| ==> Less(a[0].0, b[i].0))
    ensures SortedKeys(a + b)
  {
  }

  lemma {:induction false} FromMember(key: Key, es: seq<Elem>, e: Elem)
    ensures e in From(key, es) <==> e in es && !Less(e.path, key)
    decreases |es|
  {
    if es != [] {
      FromMember(key, es[1..], e);
      assert e in es <==> e == es[0] || e in es[1..];
    }
  }

  lemma {:induction false} FromSorted(key: Key, es: seq<Elem>)
    requires Sorted(es) && Termed(es)
    ensures Sorted(From(key, es)) && Termed(From(key, es))
    decreases |es|
  {
    if es != [] {
      var rest := From(key, es[1..]);
      FromSorted(key, es[1..]);
      forall i | 0 <= i < |rest| ensures Less(es[0].path, rest[i].path) {
        FromMember(key, es[1..], rest[i]);
        assert rest[i] in rest;
        var j :| 0 <= j < |es[1..]| && es[1..][j] == rest[i];
        assert es[j + 1] == rest[i];
      }
      SortedJoin(if Less(es[0].path, key) then [] else [es[0]], rest);
    }
  }

  /** The leaves still to come after a seek are the entries at or after the key. */
  lemma EntriesFrom(t: Tree, key: Key)
    requires Patricia.Trie(t)
    ensures var es := From(key, Preorder([], t));
            && Sorted(es) && Termed(es) && SortedKeys(LeavesOf(es))
            && forall k, v :: (k, v) in LeavesOf(es) <==> Lookup(Entries(t), k) == Some(v) && !Less(k, key)
  {
    var es := From(key, Preorder([], t));
    PreorderSorted([], t);
    PreorderTermed([], t);
    FromSorted(key, Preorder([], t));
    LeavesSorted(es);
    forall k, v ensures (k, v) in LeavesOf(es) <==> Lookup(Entries(t), k) == Some(v) && !Less(k, key) {
      LeavesMember(es, k, v);
      FromMember(key, Preorder([], t), Elem(k, Value(v)));
      LeafIsEntry([], t, k, v);
      assert k[0..] == k;
    }
  }

  /** Iterating from a start key gives every entry at or after it exactly once, in path order. */
  method Iterate(t: Tree, start: bytes) returns (out: seq<(Key, bytes)>)
    requires Patricia.Trie(t)
    ensures SortedKeys(out)
    ensures forall k, v :: (k, v) in out <==> Lookup(Entries(t), k) == Some(v) && !Less(k, Unpacked(start))
  {
    var nodeIt := NewIterator(t, start);
    EntriesFrom(t, Unpacked(start));
    var it := new Iterator(nodeIt);
    out := CollectAll(it);
  }

  method CollectAll(it: Iterator) returns (out: seq<(Key, bytes)>)
    requires it.Valid()
    modifies it
    ensures out == old(LeavesOf(Coming(it.nodeIt, true)))
  {
    ghost var all := LeavesOf(Coming(it.nodeIt, true));
    out := [];
    while true
      invariant it.Valid() && out + LeavesOf(Coming(it.nodeIt, true)) == all
      decreases |Coming(it.nodeIt, true)|
    {
      var ok := it.Next();
      if !ok { return; }
      Assoc(out, [(it.key, it.value)], LeavesOf(Coming(it.nodeIt, true)));
      out := out + [(it.key, it.value)];
    }
  }
}

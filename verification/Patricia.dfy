/**
 The Merkle Patricia trie as a value: what `get`, `insert` and `delete` do once every node is
 loaded. Keys are nibble sequences closed by the terminator 16, so no key is a proper prefix of
 another. The reference meaning of a trie is the finite map `Entries`.
 */
module Patricia {
  import opened Bytes

  datatype Tree =
    | Nil
    | Value(v: bytes)
    | Short(key: Key, val: Tree)
    | Full(children: seq<Tree>)

  /** Hex keys are sequences of nibbles; `HexKey` and `Nibbles` say in which range. */
  type Key = seq<int>

  const TERM: int := 16

  /** Every nibble but the last is below 16 and the last one is the terminator. */
  predicate HexKey(k: Key) {
    && |k| > 0
    && k[|k| - 1] == TERM
    && forall i :: 0 <= i < |k| - 1 ==> 0 <= k[i] < 16
  }

  predicate Nibbles(k: Key) {
    forall i :: 0 <= i < |k| ==> 0 <= k[i] < 16
  }

  predicate TwoChildren(cs: seq<Tree>) {
    exists i, j :: 0 <= i < j < |cs| && cs[i] != Nil && cs[j] != Nil
  }

  /**
   The minimal form: values are non-empty and sit only at the end of a terminated key, no short
   node has a short node below it, and every full node has at least two children.
   */
  predicate Minimal(t: Tree) {
    match t
    case Nil => true
    case Value(v) => |v| > 0
    case Short(k, c) =>
      && |k| > 0 && Minimal(c)
      && ((c.Value? && HexKey(k)) || (c.Full? && Nibbles(k)))
    case Full(cs) =>
      && |cs| == 17
      && (forall i :: 0 <= i < 17 ==> Minimal(cs[i]))
      && (forall i :: 0 <= i < 16 ==> !cs[i].Value?)
      && (cs[16].Nil? || cs[16].Value?)
      && TwoChildren(cs)
  }

  /** What a trie's root field may hold: anything minimal but a bare value. */
  predicate Trie(t: Tree) {
    Minimal(t) && !t.Value?
  }

  /** The key suffixes that may reach `t`. */
  predicate Suffix(t: Tree, key: Key) {
    match t
    case Nil => key == [] || HexKey(key)
    case Value(_) => key == []
    case _ => HexKey(key)
  }

  /** Descending a trie with a terminated key always leaves a suffix fit for the child. */
  lemma SuffixShort(k: Key, c: Tree, key: Key)
    requires Minimal(Short(k, c)) && HexKey(key)
    ensures k <= key ==> Suffix(c, key[|k|..])
    ensures !(key < k)
  {
    if k <= key && c.Value? { assert key[|k| - 1] == k[|k| - 1]; }
  }

  lemma SuffixFull(cs: seq<Tree>, key: Key)
    requires Minimal(Full(cs)) && HexKey(key)
    ensures key[0] < 17 && Suffix(cs[key[0]], key[1..])
  {
  }

  // ---------------------------------------------------------------------------------------------
  // The finite map a trie stands for
  // ---------------------------------------------------------------------------------------------

  /** The map with every key of `m` moved below `p`. */
  ghost function Below(p: Key, m: map<Key, bytes>): map<Key, bytes> {
    map k | k in (set s | s in m :: p + s) :: (assert exists s :: s in m && k == p + s && k[|p|..] == s; m[k[|p|..]])
  }

  lemma BelowAt(p: Key, m: map<Key, bytes>, k: Key)
    ensures k in Below(p, m) <==> p <= k && k[|p|..] in m
    ensures k in Below(p, m) ==> Below(p, m)[k] == m[k[|p|..]]
  {
    if p <= k && k[|p|..] in m { assert k == p + k[|p|..]; }
  }

  ghost function Entries(t: Tree): map<Key, bytes>
    decreases t
  {
    match t
    case Nil => map[]
    case Value(v) => map[[] := v]
    case Short(k, c) => Below(k, Entries(c))
    case Full(cs) => ChildEntries(cs, 0)
  }

  ghost function ChildEntries(cs: seq<Tree>, i: nat): map<Key, bytes>
    decreases cs, |cs| - i
  {
    if i >= |cs| || i >= 256 then map[]
    else Below([i], Entries(cs[i])) + ChildEntries(cs, i + 1)
  }

  // ---------------------------------------------------------------------------------------------
  // Operations
  // ---------------------------------------------------------------------------------------------

  /** Length of the common prefix, as a specification of the loop in `prefixLen`. */
  function PrefixLen(a: Key, b: Key): (n: nat)
    ensures n <= |a| && n <= |b|
    ensures a[..n] == b[..n]
    ensures n < |a| && n < |b| ==> a[n] != b[n]
  {
    if |a| == 0 || |b| == 0 || a[0] != b[0] then 0
    else
      var n := 1 + PrefixLen(a[1..], b[1..]);
      assert a[..n] == [a[0]] + a[1..][..n-1];
      assert b[..n] == [b[0]] + b[1..][..n-1];
      n
  }

  lemma Rejoin(p: Key, k: Key)
    requires p <= k
    ensures k == p + k[|p|..]
  {
  }

  lemma FullMatch(key: Key, p: Key)
    requires PrefixLen(key, p) == |p|
    ensures p <= key && key == p + key[|p|..]
  {
    assert p[..|p|] == p;
  }

  /** trie.go `tryGet` on loaded nodes. */
  function Get(t: Tree, key: Key): Option<bytes>
    requires Minimal(t) && Suffix(t, key)
  {
    match t
    case Nil => None
    case Value(v) => Some(v)
    case Short(k, c) =>
      SuffixShort(k, c, key);
      if k <= key then Get(c, key[|k|..]) else None
    case Full(cs) =>
      SuffixFull(cs, key);
      Get(cs[key[0]], key[1..])
  }

  const NoChildren: seq<Tree> :=
    [Nil, Nil, Nil, Nil, Nil, Nil, Nil, Nil, Nil, Nil, Nil, Nil, Nil, Nil, Nil, Nil, Nil]

  /** `insert` into an empty position: `value` at the end of `key`. */
  function Leaf(key: Key, value: Tree): Tree {
    if key == [] then value else Short(key, value)
  }

  /** The full node with `a` and `b` below two different nibbles and nothing else. */
  function Fork(i: int, a: Tree, j: int, b: Tree): Tree
    requires 0 <= i < 17 && 0 <= j < 17
  {
    Full(NoChildren[i := a][j := b])
  }

  /** What `insert` puts in place of a short node whose key leaves `key` at position `m`. */
  function Split(k: Key, c: Tree, key: Key, v: bytes, m: nat): Tree
    requires m < |k| && m < |key| && 0 <= k[m] < 17 && 0 <= key[m] < 17
  {
    Leaf(key[..m], Fork(k[m], Leaf(k[m+1..], c), key[m], Leaf(key[m+1..], Value(v))))
  }

  /** trie.go `insert` on loaded nodes. */
  function Insert(t: Tree, key: Key, v: bytes): Tree
    requires Minimal(t) && Suffix(t, key)
  {
    match t
    case Nil => Leaf(key, Value(v))
    case Value(_) => Value(v)
    case Short(k, c) =>
      var m := PrefixLen(key, k);
      SuffixShort(k, c, key);
      if m == |k| then Short(k, Insert(c, key[m..], v))
      else Split(k, c, key, v, m)
    case Full(cs) =>
      SuffixFull(cs, key);
      Full(cs[key[0] := Insert(cs[key[0]], key[1..], v)])
  }

  /** The loop of `delete`: -1 without children, the position of an only child, or -2. */
  function OnlyChild(cs: seq<Tree>): (pos: int)
    ensures pos == -1 <==> forall i :: 0 <= i < |cs| ==> cs[i].Nil?
    ensures pos == -2 <==> TwoChildren(cs)
    ensures -2 <= pos < |cs|
    ensures pos >= 0 ==> !cs[pos].Nil? && forall i :: 0 <= i < |cs| && i != pos ==> cs[i].Nil?
  {
    if cs == [] then -1
    else
      var rest := cs[..|cs| - 1];
      var p := OnlyChild(rest);
      var last := |cs| - 1;
      assert forall i :: 0 <= i < last ==> cs[i] == rest[i];
      if cs[last].Nil? then p else if p == -1 then last else -2
  }

  /** `delete` on a full node once the child was replaced: keep it, or collapse a lone child. */
  function Collapse(cs: seq<Tree>): Tree
    requires |cs| == 17
  {
    var pos := OnlyChild(cs);
    if pos < 0 then Full(cs)
    else if pos != 16 && cs[pos].Short? then Short([pos] + cs[pos].key, cs[pos].val)
    else Short([pos], cs[pos])
  }

  /** trie.go `delete` on loaded nodes. */
  function Delete(t: Tree, key: Key): Tree
    requires Minimal(t) && Suffix(t, key)
  {
    match t
    case Nil => Nil
    case Value(_) => Nil
    case Short(k, c) =>
      var m := PrefixLen(key, k);
      SuffixShort(k, c, key);
      if m < |k| then t
      else if m == |key| then Nil
      else
        Merge(k, Delete(c, key[|k|..]))
    case Full(cs) =>
      SuffixFull(cs, key);
      Collapse(cs[key[0] := Delete(cs[key[0]], key[1..])])
  }

  // ---------------------------------------------------------------------------------------------
  // Lookup is map lookup
  // ---------------------------------------------------------------------------------------------

  lemma FirstChildAt(i: nat, m: map<Key, bytes>, rest: map<Key, bytes>, k: Key)
    ensures k in Below([i], m) + rest <==> k in rest || (|k| > 0 && k[0] == i && k[1..] in m)
    ensures k in Below([i], m) && k !in rest ==> (Below([i], m) + rest)[k] == m[k[1..]]
    ensures k in rest ==> (Below([i], m) + rest)[k] == rest[k]
  {
    BelowAt([i], m, k);
  }

  lemma {:induction false} ChildEntriesAt(cs: seq<Tree>, i: nat, k: Key)
    requires i <= |cs| <= 256
    ensures k in ChildEntries(cs, i) <==>
            |k| > 0 && i <= k[0] < |cs| && k[1..] in Entries(cs[k[0]])
    ensures k in ChildEntries(cs, i) ==> ChildEntries(cs, i)[k] == Entries(cs[k[0]])[k[1..]]
    decreases |cs| - i
  {
    if i < |cs| {
      ChildEntriesAt(cs, i + 1, k);
      FirstChildAt(i, Entries(cs[i]), ChildEntries(cs, i + 1), k);
    }
  }

  /** Every stored key is one that may be looked up. */
  lemma {:induction false} EntryKeys(t: Tree, k: Key)
    requires Minimal(t) && k in Entries(t)
    ensures Suffix(t, k)
    decreases t
  {
    match t
    case Nil =>
    case Value(_) =>
    case Short(p, c) =>
      BelowAt(p, Entries(c), k);
      EntryKeys(c, k[|p|..]);
      Rejoin(p, k);
    case Full(cs) =>
      ChildEntriesAt(cs, 0, k);
      EntryKeys(cs[k[0]], k[1..]);
  }

  lemma {:induction false} GetIsLookup(t: Tree, k: Key)
    requires Minimal(t) && Suffix(t, k)
    ensures Get(t, k) == Lookup(Entries(t), k)
    decreases t
  {
    match t
    case Nil =>
    case Value(_) =>
    case Short(p, c) =>
      SuffixShort(p, c, k);
      BelowAt(p, Entries(c), k);
      if p <= k { GetIsLookup(c, k[|p|..]); }
    case Full(cs) =>
      SuffixFull(cs, k);
      ChildEntriesAt(cs, 0, k);
      GetIsLookup(cs[k[0]], k[1..]);
  }

  function Lookup(m: map<Key, bytes>, k: Key): Option<bytes> {
    if k in m then Some(m[k]) else None
  }

  lemma TrieKeys(t: Tree)
    requires Trie(t)
    ensures forall k :: k in Entries(t) ==> HexKey(k)
  {
    forall k | k in Entries(t) ensures HexKey(k) { EntryKeys(t, k); }
  }

  /** Maps over terminated keys that answer every lookup alike are equal. */
  lemma SameLookups(a: map<Key, bytes>, b: map<Key, bytes>)
    requires forall k :: k in a || k in b ==> HexKey(k)
    requires forall k :: HexKey(k) ==> Lookup(a, k) == Lookup(b, k)
    ensures a == b
  {
    forall k | k in a || k in b ensures k in a && k in b && a[k] == b[k] {
      assert Lookup(a, k) == Lookup(b, k);
    }
  }

  // ---------------------------------------------------------------------------------------------
  // Insertion
  // ---------------------------------------------------------------------------------------------

  /** What may sit below nibble `i` of a full node. */
  predicate ChildAt(i: int, t: Tree) {
    Minimal(t) && (if i == TERM then t.Nil? || t.Value? else !t.Value?)
  }

  lemma ForkMinimal(i: int, a: Tree, j: int, b: Tree)
    requires 0 <= i < 17 && 0 <= j < 17 && i != j
    requires ChildAt(i, a) && ChildAt(j, b) && !a.Nil? && !b.Nil?
    ensures Minimal(Fork(i, a, j, b))
  {
    var cs := NoChildren[i := a][j := b];
    assert cs[i] == a && cs[j] == b;
    assert TwoChildren(cs) by {
      if i < j { assert cs[i] != Nil && cs[j] != Nil; } else { assert cs[j] != Nil && cs[i] != Nil; }
    }
    forall x | 0 <= x < 17 ensures ChildAt(x, cs[x]) { assert cs[x] == if x == j then b else if x == i then a else Nil; }
    FullMinimal(cs);
  }

  lemma FullMinimal(cs: seq<Tree>)
    requires |cs| == 17 && TwoChildren(cs) && forall x :: 0 <= x < 17 ==> ChildAt(x, cs[x])
    ensures Minimal(Full(cs))
  {
    assert ChildAt(16, cs[16]);
  }

  /** Cutting a short node's key after position `m` leaves a node fit for nibble `k[m]`. */
  lemma TailMinimal(k: Key, c: Tree, m: nat)
    requires Minimal(Short(k, c)) && m < |k|
    ensures k[m] < 17 && ChildAt(k[m], Leaf(k[m+1..], c)) && !Leaf(k[m+1..], c).Nil?
  {
  }

  /** The position where a key leaves a short node's key is inside both. */
  ghost predicate Leaves(k: Key, c: Tree, key: Key, m: nat) {
    && Minimal(Short(k, c)) && HexKey(key)
    && m < |k| && m < |key| && k[..m] == key[..m] && k[m] != key[m]
    && k[m] < 17
  }

  lemma MismatchLeaves(k: Key, c: Tree, key: Key)
    requires Minimal(Short(k, c)) && HexKey(key) && PrefixLen(key, k) < |k|
    ensures Leaves(k, c, key, PrefixLen(key, k))
  {
    SuffixShort(k, c, key);
    assert key[..PrefixLen(key, k)] == k[..PrefixLen(key, k)];
  }

  lemma SplitMinimal(k: Key, c: Tree, key: Key, v: bytes, m: nat)
    requires Leaves(k, c, key, m) && |v| > 0
    ensures Minimal(Split(k, c, key, v, m))
    ensures !Split(k, c, key, v, m).Value? && !Split(k, c, key, v, m).Nil?
  {
    TailMinimal(k, c, m);
    TailMinimal(key, Value(v), m);
    ForkMinimal(k[m], Leaf(k[m+1..], c), key[m], Leaf(key[m+1..], Value(v)));
    assert Nibbles(key[..m]);
  }

  lemma {:induction false} InsertMinimal(t: Tree, key: Key, v: bytes)
    requires Minimal(t) && Suffix(t, key) && |v| > 0
    ensures Minimal(Insert(t, key, v))
    ensures !Insert(t, key, v).Nil?
    ensures Insert(t, key, v).Value? <==> key == []
    ensures t.Full? ==> Insert(t, key, v).Full?
    decreases t
  {
    match t
    case Nil =>
    case Value(_) =>
    case Short(k, c) =>
      SuffixShort(k, c, key);
      if PrefixLen(key, k) == |k| {
        InsertMinimal(c, key[|k|..], v);
      } else {
        MismatchLeaves(k, c, key);
        SplitMinimal(k, c, key, v, PrefixLen(key, k));
      }
    case Full(cs) =>
      SuffixFull(cs, key);
      InsertMinimal(cs[key[0]], key[1..], v);
      var n := Insert(cs[key[0]], key[1..], v);
      var cs' := cs[key[0] := n];
      assert TwoChildren(cs') by {
        var i, j :| 0 <= i < j < |cs| && cs[i] != Nil && cs[j] != Nil;
        assert cs'[i] != Nil && cs'[j] != Nil;
      }
  }

  lemma LeafGet(key: Key, c: Tree, k: Key)
    requires Minimal(Leaf(key, c)) && Suffix(Leaf(key, c), k)
    requires key <= k ==> Suffix(c, k[|key|..])
    requires Minimal(c)
    ensures Get(Leaf(key, c), k) == if key <= k then Get(c, k[|key|..]) else None
  {
    if key == [] { assert k[0..] == k; }
  }

  lemma ForkGet(i: int, a: Tree, j: int, b: Tree, k: Key)
    requires 0 <= i < 17 && 0 <= j < 17 && i != j && HexKey(k)
    requires ChildAt(i, a) && ChildAt(j, b) && !a.Nil? && !b.Nil?
    ensures Minimal(Fork(i, a, j, b))
    ensures k[0] == i ==> Suffix(a, k[1..]) && Get(Fork(i, a, j, b), k) == Get(a, k[1..])
    ensures k[0] == j ==> Suffix(b, k[1..]) && Get(Fork(i, a, j, b), k) == Get(b, k[1..])
    ensures k[0] != i && k[0] != j ==> Get(Fork(i, a, j, b), k) == None
  {
    ForkMinimal(i, a, j, b);
    SuffixFull(Fork(i, a, j, b).children, k);
  }

  /** `p` is a prefix of `k` exactly when it agrees with it before, at and after position `m`. */
  lemma PrefixAt(p: Key, k: Key, m: nat)
    requires m < |p| && m < |k| && p[..m] == k[..m]
    ensures p <= k <==> p[m] == k[m] && p[m+1..] <= k[m+1..]
    ensures p == k <==> p[m] == k[m] && p[m+1..] == k[m+1..]
  {
    assert p == p[..m] + [p[m]] + p[m+1..];
    assert k == k[..m] + [k[m]] + k[m+1..];
  }

  lemma SplitGet(p: Key, c: Tree, key: Key, v: bytes, k: Key, m: nat)
    requires Leaves(p, c, key, m) && HexKey(k) && |v| > 0
    ensures Minimal(Split(p, c, key, v, m)) && !Split(p, c, key, v, m).Value?
    ensures Get(Split(p, c, key, v, m), k) == if k == key then Some(v) else Get(Short(p, c), k)
  {
    SplitMinimal(p, c, key, v, m);
    TailMinimal(p, c, m);
    TailMinimal(key, Value(v), m);
    var kept, added := Leaf(p[m+1..], c), Leaf(key[m+1..], Value(v));
    var fork := Fork(p[m], kept, key[m], added);
    ForkMinimal(p[m], kept, key[m], added);
    if key[..m] <= k {
      if m > 0 { SuffixShort(key[..m], fork, k); }
      LeafGet(key[..m], fork, k);
      ForkedGet(p, c, key, v, k, m, kept, added);
    } else {
      assert m > 0;
    }
  }

  lemma ForkedGet(p: Key, c: Tree, key: Key, v: bytes, k: Key, m: nat, kept: Tree, added: Tree)
    requires Leaves(p, c, key, m) && HexKey(k) && |v| > 0 && key[..m] <= k && HexKey(k[m..])
    requires kept == Leaf(p[m+1..], c) && added == Leaf(key[m+1..], Value(v))
    ensures Minimal(Fork(p[m], kept, key[m], added))
    ensures Get(Fork(p[m], kept, key[m], added), k[m..]) == if k == key then Some(v) else Get(Short(p, c), k)
  {
    TailMinimal(p, c, m);
    TailMinimal(key, Value(v), m);
    ForkGet(p[m], kept, key[m], added, k[m..]);
    assert k[m..][1..] == k[m+1..];
    PrefixAt(p, k, m);
    PrefixAt(key, k, m);
    if k[m] == p[m] {
      TailGet(p, c, k, m);
    } else if k[m] == key[m] {
      TailGet(key, Value(v), k, m);
      SingleGet(key, v, k);
    }
  }

  /** Lookup in what is left of a short node below position `m` is lookup in the whole node. */
  lemma TailGet(p: Key, c: Tree, k: Key, m: nat)
    requires Minimal(Short(p, c)) && HexKey(k)
    requires m < |p| && m < |k| && p[..m] == k[..m] && k[m] == p[m]
    requires Suffix(Leaf(p[m+1..], c), k[m+1..])
    ensures Minimal(Leaf(p[m+1..], c))
    ensures Get(Leaf(p[m+1..], c), k[m+1..]) == Get(Short(p, c), k)
  {
    TailMinimal(p, c, m);
    PrefixAt(p, k, m);
    SuffixShort(p, c, k);
    if p <= k { assert k[|p|..] == k[m+1..][|p[m+1..]|..]; }
    LeafGet(p[m+1..], c, k[m+1..]);
  }

  /** A single leaf holds its own key and nothing else. */
  lemma SingleGet(key: Key, v: bytes, k: Key)
    requires HexKey(key) && HexKey(k) && |v| > 0
    ensures Minimal(Short(key, Value(v)))
    ensures Get(Short(key, Value(v)), k) == if k == key then Some(v) else None
  {
    SuffixShort(key, Value(v), k);
  }

  /** Lookup of `k` after inserting `key` at `t`: the inserted value, or what was there before. */
  ghost predicate InsertReads(t: Tree, key: Key, v: bytes, k: Key)
    requires Minimal(t) && Suffix(t, key) && Suffix(t, k)
  {
    var t' := Insert(t, key, v);
    && Minimal(t') && Suffix(t', k)
    && Get(t', k) == if k == key then Some(v) else Get(t, k)
  }

  lemma InsertGetBelow(p: Key, c: Tree, key: Key, v: bytes, k: Key)
    requires Minimal(Short(p, c)) && HexKey(key) && HexKey(k) && p <= key && PrefixLen(key, p) == |p|
    requires Suffix(c, key[|p|..]) && Minimal(Insert(Short(p, c), key, v))
    requires p <= k ==> Suffix(c, k[|p|..]) && InsertReads(c, key[|p|..], v, k[|p|..])
    ensures InsertReads(Short(p, c), key, v, k)
  {
    assert key == p + key[|p|..];
    if p <= k { assert k == p + k[|p|..]; }
  }

  lemma {:induction false} InsertGet(t: Tree, key: Key, v: bytes, k: Key)
    requires Minimal(t) && Suffix(t, key) && |v| > 0
    requires Suffix(t, k) && (key == [] <==> k == [])
    ensures InsertReads(t, key, v, k)
    decreases t
  {
    InsertMinimal(t, key, v);
    match t
    case Nil =>
    case Value(_) =>
    case Short(p, c) =>
      SuffixShort(p, c, key);
      SuffixShort(p, c, k);
      if PrefixLen(key, p) < |p| {
        MismatchLeaves(p, c, key);
        SplitGet(p, c, key, v, k, PrefixLen(key, p));
      } else {
        if p <= k { InsertGet(c, key[|p|..], v, k[|p|..]); }
        InsertGetBelow(p, c, key, v, k);
      }
    case Full(cs) =>
      SuffixFull(cs, key);
      SuffixFull(cs, k);
      if k[0] == key[0] {
        assert k == [k[0]] + k[1..] && key == [key[0]] + key[1..];
        InsertGet(cs[key[0]], key[1..], v, k[1..]);
      }
  }

  lemma InsertLookup(t: Tree, key: Key, v: bytes, k: Key)
    requires Trie(t) && HexKey(key) && |v| > 0 && HexKey(k)
    ensures Trie(Insert(t, key, v))
    ensures Lookup(Entries(Insert(t, key, v)), k) == Lookup(Entries(t)[key := v], k)
  {
    InsertMinimal(t, key, v);
    InsertGet(t, key, v, k);
    GetIsLookup(t, k);
    GetIsLookup(Insert(t, key, v), k);
  }

  /** Inserting is updating the map at one key. */
  lemma InsertIsUpdate(t: Tree, key: Key, v: bytes)
    requires Trie(t) && HexKey(key) && |v| > 0
    ensures Trie(Insert(t, key, v))
    ensures Entries(Insert(t, key, v)) == Entries(t)[key := v]
  {
    InsertMinimal(t, key, v);
    forall k | HexKey(k) ensures Lookup(Entries(Insert(t, key, v)), k) == Lookup(Entries(t)[key := v], k) {
      InsertLookup(t, key, v, k);
    }
    TrieKeys(t);
    TrieKeys(Insert(t, key, v));
    SameLookups(Entries(Insert(t, key, v)), Entries(t)[key := v]);
  }

  // ---------------------------------------------------------------------------------------------
  // Deletion
  // ---------------------------------------------------------------------------------------------

  /** Children fit for a full node, except that only one of them need be there. */
  ghost predicate SomeChildren(cs: seq<Tree>) {
    && |cs| == 17
    && (forall i :: 0 <= i < 17 ==> ChildAt(i, cs[i]))
    && exists i :: 0 <= i < 17 && cs[i] != Nil
  }

  lemma CollapseMinimal(cs: seq<Tree>)
    requires SomeChildren(cs)
    ensures Minimal(Collapse(cs))
    ensures Collapse(cs).Short? || Collapse(cs).Full?
  {
    var pos := OnlyChild(cs);
    if pos >= 0 {
      assert ChildAt(pos, cs[pos]);
      if cs[pos].Short? && pos != 16 {
        var k := cs[pos].key;
        assert forall i :: 0 < i < |k| + 1 ==> ([pos] + k)[i] == k[i - 1];
      }
    } else {
      assert forall i :: 0 <= i < 17 ==> ChildAt(i, cs[i]);
    }
  }

  /** Joining nibble `pos` to a child's key moves the lookup up by one nibble. */
  lemma JoinGet(pos: int, c: Tree, k: Key)
    requires 0 <= pos < 17 && ChildAt(pos, c) && HexKey(k)
    requires Suffix(c, k[1..]) || pos != k[0]
    requires !c.Nil? && (c.Short? ==> pos != 16)
    requires Minimal(if c.Short? then Short([pos] + c.key, c.val) else Short([pos], c))
    ensures Get(if c.Short? then Short([pos] + c.key, c.val) else Short([pos], c), k)
         == if pos == k[0] then Get(c, k[1..]) else None
  {
    if c.Short? {
      var p := c.key;
      assert [pos] + p <= k <==> pos == k[0] && p <= k[1..] by {
        PrefixAt([pos] + p, k, 0);
        assert ([pos] + p)[1..] == p;
      }
      if [pos] + p <= k { assert k[1 + |p|..] == k[1..][|p|..]; }
    } else {
      assert [pos] <= k <==> pos == k[0];
    }
  }

  lemma CollapseGet(cs: seq<Tree>, k: Key)
    requires SomeChildren(cs) && HexKey(k)
    ensures Minimal(Collapse(cs)) && Suffix(Collapse(cs), k)
    ensures 0 <= k[0] < 17 && Minimal(cs[k[0]]) && Suffix(cs[k[0]], k[1..])
    ensures Get(Collapse(cs), k) == Get(cs[k[0]], k[1..])
  {
    CollapseMinimal(cs);
    var pos := OnlyChild(cs);
    assert ChildAt(k[0], cs[k[0]]);
    if pos >= 0 {
      assert ChildAt(pos, cs[pos]);
      JoinGet(pos, cs[pos], k);
    }
  }

  /** Replacing one child of a minimal full node leaves it some other child. */
  lemma ReplacedChildren(cs: seq<Tree>, i: int, c: Tree)
    requires Minimal(Full(cs)) && 0 <= i < 17 && ChildAt(i, c)
    ensures SomeChildren(cs[i := c])
  {
    var a, b :| 0 <= a < b < |cs| && cs[a] != Nil && cs[b] != Nil;
    assert cs[i := c][if a == i then b else a] != Nil;
  }

  /** `delete` on a short node whose whole key matched: the child's new node, merged if short. */
  function Merge(k: Key, c: Tree): Tree {
    if c.Short? then Short(k + c.key, c.val) else Short(k, c)
  }

  lemma MergeMinimal(k: Key, c: Tree)
    requires |k| > 0 && Nibbles(k) && Minimal(c) && (c.Short? || c.Full?)
    ensures Minimal(Merge(k, c))
  {
    if c.Short? {
      assert forall i :: |k| <= i < |k| + |c.key| ==> (k + c.key)[i] == c.key[i - |k|];
    }
  }

  lemma MergeGet(k: Key, c: Tree, q: Key)
    requires |k| > 0 && Nibbles(k) && Minimal(c) && (c.Short? || c.Full?) && HexKey(q)
    ensures Minimal(Merge(k, c))
    ensures k <= q ==> HexKey(q[|k|..])
    ensures Get(Merge(k, c), q) == if k <= q then Get(c, q[|k|..]) else None
  {
    MergeMinimal(k, c);
    if k <= q { assert forall i :: 0 <= i < |q| - |k| ==> q[|k|..][i] == q[|k| + i]; }
    if c.Short? {
      assert k + c.key <= q <==> k <= q && c.key <= q[|k|..];
      if k + c.key <= q { assert q[|k + c.key|..] == q[|k|..][|c.key|..]; }
    }
  }

  lemma {:induction false} DeleteMinimal(t: Tree, key: Key)
    requires Minimal(t) && Suffix(t, key)
    ensures Minimal(Delete(t, key)) && !Delete(t, key).Value?
    ensures t.Full? ==> !Delete(t, key).Nil?
    decreases t
  {
    match t
    case Nil =>
    case Value(_) =>
    case Short(k, c) =>
      SuffixShort(k, c, key);
      if PrefixLen(key, k) == |k| < |key| {
        DeleteMinimal(c, key[|k|..]);
        MergeMinimal(k, Delete(c, key[|k|..]));
      }
    case Full(cs) =>
      SuffixFull(cs, key);
      DeleteMinimal(cs[key[0]], key[1..]);
      ReplacedChildren(cs, key[0], Delete(cs[key[0]], key[1..]));
      CollapseMinimal(cs[key[0] := Delete(cs[key[0]], key[1..])]);
  }

  ghost predicate DeleteReads(t: Tree, key: Key, k: Key)
    requires Minimal(t) && Suffix(t, key) && Suffix(t, k)
  {
    var t' := Delete(t, key);
    && Minimal(t') && Suffix(t', k)
    && Get(t', k) == if k == key then None else Get(t, k)
  }

  lemma DeleteShort(p: Key, c: Tree, key: Key)
    requires Minimal(Short(p, c)) && HexKey(key) && PrefixLen(key, p) == |p| < |key|
    ensures Suffix(c, key[|p|..])
    ensures Delete(Short(p, c), key) == Merge(p, Delete(c, key[|p|..]))
  {
    FullMatch(key, p);
    SuffixShort(p, c, key);
  }

  /** Lookup through a merged short node, when its new child lost exactly the rest of `key`. */
  lemma MergeReads(p: Key, c: Tree, c': Tree, key: Key, k: Key)
    requires Minimal(Short(p, c)) && c.Full? && HexKey(key) && HexKey(k) && p <= key
    requires Minimal(c') && (c'.Short? || c'.Full?)
    requires p <= k ==> HexKey(k[|p|..]) && Get(c', k[|p|..]) == if k[|p|..] == key[|p|..] then None else Get(c, k[|p|..])
    ensures Minimal(Merge(p, c'))
    ensures Get(Merge(p, c'), k) == if k == key then None else Get(Short(p, c), k)
  {
    Rejoin(p, key);
    if p <= k { Rejoin(p, k); }
    MergeGet(p, c', k);
  }

  lemma DeleteGetBelow(p: Key, c: Tree, key: Key, k: Key)
    requires Minimal(Short(p, c)) && HexKey(key) && HexKey(k) && PrefixLen(key, p) == |p| < |key|
    requires Suffix(c, key[|p|..]) && c.Full?
    requires p <= k ==> Suffix(c, k[|p|..]) && DeleteReads(c, key[|p|..], k[|p|..])
    ensures DeleteReads(Short(p, c), key, k)
  {
    FullMatch(key, p);
    DeleteShort(p, c, key);
    DeleteMinimal(c, key[|p|..]);
    MergeReads(p, c, Delete(c, key[|p|..]), key, k);
  }

  lemma DeleteGetChild(cs: seq<Tree>, key: Key, k: Key)
    requires Minimal(Full(cs)) && HexKey(key) && HexKey(k)
    requires key[0] < 17 && Suffix(cs[key[0]], key[1..])
    requires k[0] == key[0] ==> Suffix(cs[key[0]], k[1..]) && DeleteReads(cs[key[0]], key[1..], k[1..])
    ensures DeleteReads(Full(cs), key, k)
  {
    var c' := Delete(cs[key[0]], key[1..]);
    DeleteMinimal(cs[key[0]], key[1..]);
    ReplacedChildren(cs, key[0], c');
    CollapseGet(cs[key[0] := c'], k);
    assert k == [k[0]] + k[1..] && key == [key[0]] + key[1..];
  }

  lemma {:induction false} DeleteGet(t: Tree, key: Key, k: Key)
    requires Minimal(t) && Suffix(t, key) && Suffix(t, k)
    ensures DeleteReads(t, key, k)
    decreases t
  {
    match t
    case Nil =>
    case Value(_) =>
    case Short(p, c) =>
      SuffixShort(p, c, key);
      SuffixShort(p, c, k);
      if PrefixLen(key, p) == |p| {
        if |p| < |key| {
          if p <= k { DeleteGet(c, key[|p|..], k[|p|..]); }
          DeleteGetBelow(p, c, key, k);
        } else {
          assert key == p && (p <= k ==> k == p + k[|p|..]);
        }
      }
    case Full(cs) =>
      SuffixFull(cs, key);
      SuffixFull(cs, k);
      if k[0] == key[0] { DeleteGet(cs[key[0]], key[1..], k[1..]); }
      DeleteGetChild(cs, key, k);
  }

  lemma DeleteLookup(t: Tree, key: Key, k: Key)
    requires Trie(t) && HexKey(key) && HexKey(k)
    ensures Trie(Delete(t, key))
    ensures Lookup(Entries(Delete(t, key)), k) == Lookup(Entries(t) - {key}, k)
  {
    DeleteMinimal(t, key);
    DeleteGet(t, key, k);
    LookupWithout(t, Delete(t, key), key, k);
  }

  lemma LookupWithout(t: Tree, d: Tree, key: Key, k: Key)
    requires Trie(t) && Trie(d) && HexKey(k) && Get(d, k) == if k == key then None else Get(t, k)
    ensures Lookup(Entries(d), k) == Lookup(Entries(t) - {key}, k)
  {
    GetIsLookup(t, k);
    GetIsLookup(d, k);
  }

  /** Deleting is removing one key from the map. */
  lemma DeleteIsRemoval(t: Tree, key: Key)
    requires Trie(t) && HexKey(key)
    ensures Trie(Delete(t, key))
    ensures Entries(Delete(t, key)) == Entries(t) - {key}
  {
    DeleteMinimal(t, key);
    forall k | HexKey(k) ensures Lookup(Entries(Delete(t, key)), k) == Lookup(Entries(t) - {key}, k) {
      DeleteLookup(t, key, k);
    }
    TrieKeys(t);
    TrieKeys(Delete(t, key));
    SameLookups(Entries(Delete(t, key)), Entries(t) - {key});
  }

  // ---------------------------------------------------------------------------------------------
  // The minimal form is unique
  // ---------------------------------------------------------------------------------------------

  lemma {:induction false} SomeKey(t: Tree) returns (k: Key)
    requires Minimal(t) && !t.Nil?
    ensures k in Entries(t)
    ensures t.Short? || t.Full? ==> |k| > 0
    decreases t
  {
    match t
    case Value(_) => k := [];
    case Short(p, c) =>
      var s := SomeKey(c);
      k := p + s;
      BelowAt(p, Entries(c), k);
    case Full(cs) =>
      var i, j :| 0 <= i < j < |cs| && cs[i] != Nil && cs[j] != Nil;
      var s := SomeKey(cs[i]);
      k := [i] + s;
      ChildEntriesAt(cs, 0, k);
  }

  /** A full node holds two keys that already differ in their first nibble. */
  lemma TwoKeys(cs: seq<Tree>) returns (a: Key, b: Key)
    requires Minimal(Full(cs))
    ensures a in Entries(Full(cs)) && b in Entries(Full(cs))
    ensures |a| > 0 && |b| > 0 && a[0] != b[0]
  {
    var i, j :| 0 <= i < j < |cs| && cs[i] != Nil && cs[j] != Nil;
    var s := SomeKey(cs[i]);
    var r := SomeKey(cs[j]);
    a, b := [i] + s, [j] + r;
    ChildEntriesAt(cs, 0, a);
    ChildEntriesAt(cs, 0, b);
  }

  lemma ShortKeys(p: Key, c: Tree, k: Key)
    requires k in Entries(Short(p, c))
    ensures p <= k && k[|p|..] in Entries(c)
  {
    BelowAt(p, Entries(c), k);
  }

  /** A short node's key is shorter than or equal to that of any short node with the same entries. */
  lemma ShorterKey(p: Key, cs: seq<Tree>, q: Key, d: Tree)
    requires Minimal(Short(p, Full(cs)))
    requires Entries(Short(p, Full(cs))) == Entries(Short(q, d))
    ensures q <= p
  {
    var a, b := TwoKeys(cs);
    BelowAt(p, Entries(Full(cs)), p + a);
    BelowAt(p, Entries(Full(cs)), p + b);
    assert (p + a)[|p|..] == a && (p + b)[|p|..] == b;
    ShortKeys(q, d, p + a);
    ShortKeys(q, d, p + b);
    assert (p + a)[|p|] != (p + b)[|p|];
  }

  lemma SingleKey(p: Key, v: bytes, k: Key)
    requires k in Entries(Short(p, Value(v)))
    ensures k == p
  {
    ShortKeys(p, Value(v), k);
    Rejoin(p, k);
  }

  lemma LeafIsNotBranch(p: Key, v: bytes, q: Key, cs: seq<Tree>)
    requires Minimal(Full(cs))
    ensures Entries(Short(p, Value(v))) != Entries(Short(q, Full(cs)))
  {
    var a, b := TwoKeys(cs);
    BelowAt(q, Entries(Full(cs)), q + a);
    BelowAt(q, Entries(Full(cs)), q + b);
    assert (q + a)[|q|..] == a && (q + b)[|q|..] == b;
    if Entries(Short(p, Value(v))) == Entries(Short(q, Full(cs))) {
      SingleKey(p, v, q + a);
      SingleKey(p, v, q + b);
    }
  }

  lemma LeafEntries(p: Key, v: bytes)
    ensures Entries(Short(p, Value(v))) == map[p := v]
  {
    forall k | k in Entries(Short(p, Value(v))) ensures k == p { SingleKey(p, v, k); }
    BelowAt(p, Entries(Value(v)), p);
  }

  lemma SameLeaf(p: Key, v: bytes, q: Key, w: bytes)
    requires Entries(Short(p, Value(v))) == Entries(Short(q, Value(w)))
    ensures p == q && v == w
  {
    LeafEntries(p, v);
    LeafEntries(q, w);
    assert p in map[q := w] && map[q := w][p] == v;
  }

  lemma SameBelow(p: Key, a: map<Key, bytes>, b: map<Key, bytes>)
    requires Below(p, a) == Below(p, b)
    ensures a == b
  {
    forall s ensures s in a <==> s in b {
      BelowAt(p, a, p + s);
      BelowAt(p, b, p + s);
      assert (p + s)[|p|..] == s;
    }
    forall s | s in a ensures a[s] == b[s] {
      BelowAt(p, a, p + s);
      BelowAt(p, b, p + s);
      assert (p + s)[|p|..] == s;
    }
  }

  lemma SameBranch(p: Key, cs: seq<Tree>, q: Key, ds: seq<Tree>)
    requires Minimal(Short(p, Full(cs))) && Minimal(Short(q, Full(ds)))
    requires Entries(Short(p, Full(cs))) == Entries(Short(q, Full(ds)))
    ensures p == q && Entries(Full(cs)) == Entries(Full(ds))
  {
    ShorterKey(p, cs, q, Full(ds));
    ShorterKey(q, ds, p, Full(cs));
    assert p == q by { assert |p| == |q|; }
    SameBelow(p, Entries(Full(cs)), Entries(Full(ds)));
  }

  lemma SameChild(cs: seq<Tree>, ds: seq<Tree>, i: int)
    requires |cs| == |ds| == 17 && 0 <= i < 17
    requires Entries(Full(cs)) == Entries(Full(ds))
    ensures Entries(cs[i]) == Entries(ds[i])
  {
    forall s ensures s in Entries(cs[i]) <==> s in Entries(ds[i]) {
      ChildEntriesAt(cs, 0, [i] + s);
      ChildEntriesAt(ds, 0, [i] + s);
      assert ([i] + s)[1..] == s;
    }
    forall s | s in Entries(cs[i]) ensures Entries(cs[i])[s] == Entries(ds[i])[s] {
      ChildEntriesAt(cs, 0, [i] + s);
      ChildEntriesAt(ds, 0, [i] + s);
      assert ([i] + s)[1..] == s;
    }
  }

  lemma ShortIsNotFull(p: Key, c: Tree, cs: seq<Tree>)
    requires Minimal(Short(p, c)) && Minimal(Full(cs))
    ensures Entries(Short(p, c)) != Entries(Full(cs))
  {
    var a, b := TwoKeys(cs);
    if Entries(Short(p, c)) == Entries(Full(cs)) {
      ShortKeys(p, c, a);
      ShortKeys(p, c, b);
    }
  }

  lemma ValueIsAlone(v: bytes, t: Tree)
    requires Minimal(t) && Entries(t) == Entries(Value(v))
    ensures t == Value(v)
  {
    assert [] in Entries(t);
    if t.Short? { ShortKeys(t.key, t.val, []); }
    if t.Full? { ChildEntriesAt(t.children, 0, []); }
  }

  lemma {:induction false} UniqueShort(p: Key, c: Tree, q: Key, d: Tree)
    requires Minimal(Short(p, c)) && Minimal(Short(q, d))
    requires Entries(Short(p, c)) == Entries(Short(q, d))
    ensures p == q && c == d
    decreases c, 1
  {
    if c.Value? && d.Value? {
      SameLeaf(p, c.v, q, d.v);
    } else if c.Value? {
      LeafIsNotBranch(p, c.v, q, d.children);
    } else if d.Value? {
      LeafIsNotBranch(q, d.v, p, c.children);
    } else {
      SameBranch(p, c.children, q, d.children);
      MinimalIsUnique(c, d);
    }
  }

  lemma {:induction false} UniqueFull(cs: seq<Tree>, ds: seq<Tree>)
    requires Minimal(Full(cs)) && Minimal(Full(ds))
    requires Entries(Full(cs)) == Entries(Full(ds))
    ensures cs == ds
    decreases cs
  {
    forall i | 0 <= i < 17 ensures cs[i] == ds[i] {
      SameChild(cs, ds, i);
      MinimalIsUnique(cs[i], ds[i]);
    }
  }

  /** Two minimal tries with the same entries are the same trie. */
  lemma {:induction false} MinimalIsUnique(a: Tree, b: Tree)
    requires Minimal(a) && Minimal(b)
    requires Entries(a) == Entries(b)
    ensures a == b
    decreases a, 0
  {
    if a.Nil? {
      if !b.Nil? { var k := SomeKey(b); }
    } else if b.Nil? {
      var k := SomeKey(a);
    } else if a.Value? {
      ValueIsAlone(a.v, b);
    } else if b.Value? {
      ValueIsAlone(b.v, a);
    } else if a.Short? && b.Short? {
      UniqueShort(a.key, a.val, b.key, b.val);
    } else if a.Short? {
      ShortIsNotFull(a.key, a.val, b.children);
    } else if b.Short? {
      ShortIsNotFull(b.key, b.val, a.children);
    } else {
      UniqueFull(a.children, b.children);
    }
  }

  // ---------------------------------------------------------------------------------------------
  // Runs of updates
  // ---------------------------------------------------------------------------------------------

  /** One `TryUpdate` (an empty value deletes) or `TryDelete`, with the key in hex form. */
  datatype Op = Update(key: Key, value: bytes) | Remove(key: Key)

  function Step(t: Tree, op: Op): Tree
    requires Trie(t) && HexKey(op.key)
  {
    if op.Update? && |op.value| > 0 then Insert(t, op.key, op.value) else Delete(t, op.key)
  }

  function StepMap(m: map<Key, bytes>, op: Op): map<Key, bytes> {
    if op.Update? && |op.value| > 0 then m[op.key := op.value] else m - {op.key}
  }

  lemma StepRefines(t: Tree, op: Op)
    requires Trie(t) && HexKey(op.key)
    ensures Trie(Step(t, op)) && Entries(Step(t, op)) == StepMap(Entries(t), op)
  {
    if op.Update? && |op.value| > 0 {
      InsertIsUpdate(t, op.key, op.value);
    } else {
      DeleteIsRemoval(t, op.key);
    }
  }

  ghost predicate Ops(ops: seq<Op>) {
    forall i :: 0 <= i < |ops| ==> HexKey(ops[i].key)
  }

  ghost function RunMap(m: map<Key, bytes>, ops: seq<Op>): map<Key, bytes>
    decreases |ops|
  {
    if ops == [] then m else RunMap(StepMap(m, ops[0]), ops[1..])
  }

  ghost function Run(t: Tree, ops: seq<Op>): Tree
    requires Trie(t) && Ops(ops)
    decreases |ops|
  {
    if ops == [] then t
    else
      StepRefines(t, ops[0]);
      Run(Step(t, ops[0]), ops[1..])
  }

  lemma {:induction false} RunRefines(t: Tree, ops: seq<Op>)
    requires Trie(t) && Ops(ops)
    ensures Trie(Run(t, ops)) && Entries(Run(t, ops)) == RunMap(Entries(t), ops)
    decreases |ops|
  {
    if ops != [] {
      StepRefines(t, ops[0]);
      RunRefines(Step(t, ops[0]), ops[1..]);
    }
  }

  /** The trie, and with it every hash of it, depends on the contents and not on the update order. */
  lemma OrderIndependent(t: Tree, ops: seq<Op>, ops': seq<Op>)
    requires Trie(t) && Ops(ops) && Ops(ops')
    requires RunMap(Entries(t), ops) == RunMap(Entries(t), ops')
    ensures Run(t, ops) == Run(t, ops')
  {
    RunRefines(t, ops);
    RunRefines(t, ops');
    MinimalIsUnique(Run(t, ops), Run(t, ops'));
  }
}

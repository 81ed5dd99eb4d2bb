/**
 common/merkle.go: binary hash trees over a list of digests, their membership proofs, and the loop that
 computes a root without recursion. `H` is the digest of two digests written one after the other.
 */
module Merkle {
  import opened Bytes

  /** A level with its last digest repeated when their number is odd. */
  function Even<K>(t: seq<K>): (e: seq<K>)
    requires |t| > 1
    ensures |e| % 2 == 0 && |t| <= |e| <= |t| + 1
  {
    if |t| % 2 == 1 then t + [t[|t| - 1]] else t
  }

  function Halved<K>(H: (K, K) -> K, e: seq<K>): (u: seq<K>)
    requires |e| % 2 == 0
    ensures |u| == |e| / 2
  {
    seq(|e| / 2, i requires 0 <= i < |e| / 2 => H(e[2 * i], e[2 * i + 1]))
  }

  function Up<K>(H: (K, K) -> K, t: seq<K>): (u: seq<K>)
    requires |t| > 1
    ensures 1 <= |u| < |t|
  {
    Halved(H, Even(t))
  }

  /** The root of a tree. */
  ghost function Top<K>(H: (K, K) -> K, t: seq<K>): K
    requires |t| >= 1
    decreases |t|
  {
    if |t| == 1 then t[0] else Top(H, Up(H, t))
  }

  function Sibling(i: nat): nat { if i % 2 == 1 then i - 1 else i + 1 }

  ghost function Proof<K>(H: (K, K) -> K, t: seq<K>, id: nat): (p: seq<K>)
    requires id < |t|
    decreases |t|
  {
    if |t| == 1 then [] else [Even(t)[Sibling(id)]] + Proof(H, Up(H, t), id / 2)
  }

  /** A node and its sibling in the order the index gives, and their digest. */
  function Pair<K>(x: K, y: K, id: nat): (K, K) { if id % 2 == 0 then (x, y) else (y, x) }

  function Joined<K>(H: (K, K) -> K, x: K, y: K, id: nat): K { H(Pair(x, y, id).0, Pair(x, y, id).1) }

  lemma HalfOf(n: nat, id: nat)
    requires n % 2 == 0 && id < n
    ensures id / 2 < n / 2 && Sibling(id) < n
    ensures id % 2 == 0 ==> 2 * (id / 2) == id && Sibling(id) == id + 1
    ensures id % 2 == 1 ==> 2 * (id / 2) == id - 1 == Sibling(id)
  {
  }

  /** A leaf's parent is the digest of the leaf and its sibling. */
  lemma Parent<K>(H: (K, K) -> K, t: seq<K>, id: nat)
    requires |t| > 1 && id < |t|
    ensures id / 2 < |Up(H, t)| && Sibling(id) < |Even(t)|
    ensures Up(H, t)[id / 2] == Joined(H, t[id], Even(t)[Sibling(id)], id)
  {
    HalfOf(|Even(t)|, id);
    assert Even(t)[id] == t[id];
  }

  ghost function Folded<K>(H: (K, K) -> K, p: seq<K>, x: K, id: nat): K
    decreases |p|
  {
    if p == [] then x else Folded(H, p[1..], Joined(H, x, p[0], id), id / 2)
  }

  /** A node is hashed before the one on its right, and an odd last one with itself. */
  lemma SmallTrees<K>(H: (K, K) -> K, a: K, b: K, c: K, d: K)
    ensures Top(H, [a]) == a && Top(H, [a, b]) == H(a, b)
    ensures Top(H, [a, b, c]) == H(H(a, b), H(c, c)) && Top(H, [a, b, c, d]) == H(H(a, b), H(c, d))
    ensures Folded(H, [b], a, 0) == H(a, b) && Folded(H, [a], b, 1) == H(a, b)
  {
    assert Up(H, [a, b]) == [H(a, b)];
    assert Up(H, [a, b, c]) == [H(a, b), H(c, c)];
    assert Up(H, [a, b, c, d]) == [H(a, b), H(c, d)];
    assert Up(H, [H(a, b), H(c, c)]) == [H(H(a, b), H(c, c))];
    assert Up(H, [H(a, b), H(c, d)]) == [H(H(a, b), H(c, d))];
    assert Top(H, [a, b, c]) == Top(H, [H(a, b), H(c, c)]) == Top(H, [H(H(a, b), H(c, c))]);
    assert Top(H, [a, b, c, d]) == Top(H, [H(a, b), H(c, d)]) == Top(H, [H(H(a, b), H(c, d))]);
  }

  function Pow2(k: nat): (n: nat)
    ensures n > 0
  {
    if k == 0 then 1 else 2 * Pow2(k - 1)
  }

  /** The root of two full trees of one height is the digest of their roots, the left one first. */
  lemma {:induction false} TopOfHalves<K>(H: (K, K) -> K, l: seq<K>, r: seq<K>, k: nat)
    requires |l| == |r| == Pow2(k)
    ensures Top(H, l + r) == H(Top(H, l), Top(H, r))
    decreases k
  {
    if k == 0 {
      assert Up(H, l + r) == [H(l[0], r[0])];
    } else {
      assert Up(H, l + r) == Up(H, l) + Up(H, r);
      TopOfHalves(H, Up(H, l), Up(H, r), k - 1);
    }
  }

  // ---------------------------------------------------------------------------------------------
  // The code
  // ---------------------------------------------------------------------------------------------

  /** merkle.go `CalMerkel`: the root, and the proof of a leaf appended to `proofs` when there is one to fill. */
  method CalMerkel<K(0)>(H: (K, K) -> K, tree: seq<K>, wanted: bool, proofs: seq<K>, id: nat) returns (root: K, filled: seq<K>)
    requires |tree| >= 1 && (wanted ==> id < |tree|)
    ensures root == Top(H, tree)
    ensures filled == if wanted then proofs + Proof(H, tree, id) else proofs
    decreases |tree|
  {
    filled := proofs;
    if |tree| == 1 { return tree[0], filled; }
    var level := MakeEven(tree);
    if wanted {
      HalfOf(|level|, id);
      if id % 2 == 1 { filled := filled + [level[id - 1]]; } else { filled := filled + [level[id + 1]]; }
    }
    var hash := new K[|level| / 2];
    HashLevel(H, level, hash);
    assert hash[..] == Up(H, tree);
    if wanted { Assoc(proofs, [Even(tree)[Sibling(id)]], Proof(H, Up(H, tree), id / 2)); }
    root, filled := CalMerkel(H, hash[..], wanted, filled, id / 2);
  }

  method MakeEven<K>(tree: seq<K>) returns (level: seq<K>)
    requires |tree| > 1
    ensures level == Even(tree)
  {
    level := tree;
    if |level| % 2 == 1 { level := level + [level[|level| - 1]]; }
  }

  /** The loop that both root computations run over a level, into the front of a result they keep. */
  method HashLevel<K>(H: (K, K) -> K, level: seq<K>, result: array<K>)
    requires |level| % 2 == 0 && |level| / 2 <= result.Length
    modifies result
    ensures result[..|level| / 2] == Halved(H, level)
  {
    var k, i := 0, 0;
    while i < |level|
      invariant i == 2 * k && k <= |level| / 2
      invariant forall j :: 0 <= j < k ==> result[j] == H(level[2 * j], level[2 * j + 1])
    {
      result[k] := H(level[i], level[i + 1]);
      k := k + 1;
      i := i + 2;
    }
  }

  /** merkle.go `VerigyMerkel`. */
  method VerigyMerkel<K(==)>(H: (K, K) -> K, root: K, proofs: seq<K>, leaf: K, id: nat) returns (ok: bool)
    ensures ok <==> Folded(H, proofs, leaf, id) == root
  {
    var hash, idx := leaf, id;
    for i := 0 to |proofs|
      invariant Folded(H, proofs[i..], hash, idx) == Folded(H, proofs, leaf, id)
    {
      assert proofs[i..][1..] == proofs[i + 1..];
      hash := if idx % 2 == 0 then H(hash, proofs[i]) else H(proofs[i], hash);
      idx := idx / 2;
    }
    ok := hash == root;
  }

  lemma TopOfUp<K>(H: (K, K) -> K, t: seq<K>)
    requires |t| > 1
    ensures Top(H, t) == Top(H, Up(H, t))
    ensures |Up(H, t)| == 1 ==> Top(H, t) == Up(H, t)[0]
  {
  }

  /** merkle.go `Root`: the loop that reuses its two buffers reaches the recursive root. */
  method Root<K(0)>(H: (K, K) -> K, leaves: seq<K>) returns (root: K)
    requires |leaves| >= 1
    ensures root == Top(H, leaves)
  {
    if |leaves| == 1 { return leaves[0]; }
    var tree := MakeEven(leaves);
    var result := new K[|tree| / 2];
    ghost var level := leaves;
    while true
      invariant |level| > 1 && tree == Even(level) && |tree| / 2 <= result.Length
      invariant Top(H, level) == Top(H, leaves)
      decreases |level|
    {
      HashLevel(H, tree, result);
      var n := |tree| / 2;
      TopOfUp(H, level);
      level := Up(H, level);
      tree := result[..n];
      assert tree == level;
      if n == 1 { return result[0]; }
      tree := MakeEven(tree);
    }
  }

  // ---------------------------------------------------------------------------------------------
  // What a root says
  // ---------------------------------------------------------------------------------------------

  lemma {:induction false} ProofVerifies<K>(H: (K, K) -> K, t: seq<K>, id: nat)
    requires id < |t|
    ensures Folded(H, Proof(H, t, id), t[id], id) == Top(H, t)
    decreases |t|
  {
    if |t| > 1 {
      Parent(H, t, id);
      ProofVerifies(H, Up(H, t), id / 2);
      FoldStep(H, Even(t)[Sibling(id)], Proof(H, Up(H, t), id / 2), t[id], id);
    }
  }

  lemma FoldStep<K>(H: (K, K) -> K, y: K, rest: seq<K>, x: K, id: nat)
    ensures Folded(H, [y] + rest, x, id) == Folded(H, rest, Joined(H, x, y, id), id / 2)
    ensures FoldedPairs(H, [y] + rest, x, id) == {Pair(x, y, id)} + FoldedPairs(H, rest, Joined(H, x, y, id), id / 2)
  {
    assert ([y] + rest)[1..] == rest;
  }

  /** The pairs hashed on the way to the root, and on the way up a proof. */
  ghost function Hashed<K>(H: (K, K) -> K, t: seq<K>): set<(K, K)>
    requires |t| >= 1
    decreases |t|
  {
    if |t| == 1 then {} else LevelPairs(Even(t)) + Hashed(H, Up(H, t))
  }

  ghost function LevelPairs<K>(e: seq<K>): set<(K, K)>
    requires |e| % 2 == 0
  {
    set i | 0 <= i < |e| / 2 :: (e[2 * i], e[2 * i + 1])
  }

  ghost function FoldedPairs<K>(H: (K, K) -> K, p: seq<K>, x: K, id: nat): set<(K, K)>
    decreases |p|
  {
    if p == [] then {}
    else {Pair(x, p[0], id)} + FoldedPairs(H, p[1..], Joined(H, x, p[0], id), id / 2)
  }

  ghost predicate Injective<K>(H: (K, K) -> K, ps: set<(K, K)>) {
    forall x, y :: x in ps && y in ps && H(x.0, x.1) == H(y.0, y.1) ==> x == y
  }

  lemma InLevel<K>(t: seq<K>, id: nat)
    requires |t| > 1 && id < |t|
    ensures Sibling(id) < |Even(t)| && Pair(t[id], Even(t)[Sibling(id)], id) in LevelPairs(Even(t))
  {
    var e := Even(t);
    HalfOf(|e|, id);
    assert e[id] == t[id];
    var k := id / 2;
    assert (e[2 * k], e[2 * k + 1]) in LevelPairs(e);
  }

  lemma SamePair<K>(H: (K, K) -> K, ps: set<(K, K)>, x: K, y: K, v: K, w: K, id: nat)
    requires Injective(H, ps) && Pair(x, y, id) in ps && Pair(v, w, id) in ps
    requires Joined(H, x, y, id) == Joined(H, v, w, id)
    ensures x == v && y == w
  {
  }

  lemma FewerPairs<K>(H: (K, K) -> K, more: set<(K, K)>, fewer: set<(K, K)>)
    requires Injective(H, more) && fewer <= more
    ensures Injective(H, fewer)
  {
  }

  /** A proof of the right length that leads to the root is the tree's own proof of the tree's own leaf. */
  lemma {:induction false} VerifiedLeaf<K>(H: (K, K) -> K, t: seq<K>, p: seq<K>, x: K, id: nat)
    requires id < |t| && |p| == |Proof(H, t, id)|
    requires Injective(H, Hashed(H, t) + FoldedPairs(H, p, x, id))
    requires Folded(H, p, x, id) == Top(H, t)
    ensures x == t[id] && p == Proof(H, t, id)
    decreases |t|
  {
    if |t| > 1 {
      var u, y, q, half := Up(H, t), p[0], p[1..], id / 2;
      var z, all := Joined(H, x, y, id), Hashed(H, t) + FoldedPairs(H, p, x, id);
      assert p == [y] + q;
      FoldStep(H, y, q, x, id);
      Parent(H, t, id);
      assert Injective(H, Hashed(H, u) + FoldedPairs(H, q, z, half)) by {
        FewerPairs(H, all, Hashed(H, u) + FoldedPairs(H, q, z, half));
      }
      VerifiedLeaf(H, u, q, z, half);
      InLevel(t, id);
      SamePair(H, all, x, y, t[id], Even(t)[Sibling(id)], id);
    }
  }

  /** Lists of one length with one root are one list. */
  lemma {:induction false} RootFixesLeaves<K>(H: (K, K) -> K, t: seq<K>, s: seq<K>)
    requires |t| == |s| >= 1 && Top(H, t) == Top(H, s)
    requires Injective(H, Hashed(H, t) + Hashed(H, s))
    ensures t == s
    decreases |t|
  {
    if |t| > 1 {
      var all := Hashed(H, t) + Hashed(H, s);
      FewerPairs(H, all, Hashed(H, Up(H, t)) + Hashed(H, Up(H, s)));
      RootFixesLeaves(H, Up(H, t), Up(H, s));
      forall i | 0 <= i < |t| ensures t[i] == s[i] { SameLeaf(H, all, t, s, i); }
    }
  }

  lemma SameLeaf<K>(H: (K, K) -> K, all: set<(K, K)>, t: seq<K>, s: seq<K>, i: nat)
    requires |t| == |s| > 1 && Up(H, t) == Up(H, s) && i < |t|
    requires Injective(H, all) && LevelPairs(Even(t)) <= all && LevelPairs(Even(s)) <= all
    ensures t[i] == s[i]
  {
    Parent(H, t, i);
    Parent(H, s, i);
    InLevel(t, i);
    InLevel(s, i);
    SamePair(H, all, t[i], Even(t)[Sibling(i)], s[i], Even(s)[Sibling(i)], i);
  }

  /** Lists of different lengths can share a root: repeating the last of an odd number of leaves changes nothing. */
  lemma RepeatedLeaf<K>(H: (K, K) -> K, t: seq<K>)
    requires |t| > 1 && |t| % 2 == 1
    ensures Top(H, t + [t[|t| - 1]]) == Top(H, t)
  {
    assert Even(t + [t[|t| - 1]]) == Even(t);
    assert Up(H, t + [t[|t| - 1]]) == Up(H, t);
  }
}

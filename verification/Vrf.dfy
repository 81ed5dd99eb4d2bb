/**
 chain/vrf/vrf.go: the order of a validator group, who leads a block, and who validates which coin.
 Addresses are numbers; `hex` gives the place of an address among all addresses when they are compared
 by their hex strings. Hashes of a block or a coin are parameters.
 */
module Vrf {
  import opened Bytes

  type Address = int

  // ---------------------------------------------------------------------------------------------
  // Sorting a group
  // ---------------------------------------------------------------------------------------------

  ghost predicate Injective(hex: Address -> int) {
    forall a, b {:trigger hex(a), hex(b)} :: hex(a) == hex(b) ==> a == b
  }

  ghost predicate SortedBy(s: seq<Address>, hex: Address -> int) {
    forall i, j {:trigger hex(s[i]), hex(s[j])} :: 0 <= i < j < |s| ==> hex(s[i]) <= hex(s[j])
  }

  /** Sorted from `lo` up to and including `hi`. */
  ghost predicate SortedRange(s: seq<Address>, hex: Address -> int, lo: int, hi: int) {
    0 <= lo && hi < |s| && forall i, j {:trigger hex(s[i]), hex(s[j])} :: lo <= i < j <= hi ==> hex(s[i]) <= hex(s[j])
  }

  /** The same elements, and the same outside `lo` to `hi`. */
  ghost predicate Shuffled(s: seq<Address>, t: seq<Address>, lo: int, hi: int) {
    |s| == |t| && multiset(s) == multiset(t) && forall k :: 0 <= k < |s| && !(lo <= k <= hi) ==> s[k] == t[k]
  }

  lemma SwapShuffles(s: seq<Address>, t: seq<Address>, lo: int, hi: int, i: int, j: int)
    requires 0 <= lo <= i <= j <= hi < |t| && Shuffled(s, t, lo, hi)
    ensures Shuffled(s, t[i := t[j]][j := t[i]], lo, hi)
  {
  }

  lemma ShuffledTwice(s: seq<Address>, t: seq<Address>, u: seq<Address>, lo: int, hi: int, lo': int, hi': int)
    requires Shuffled(s, t, lo, hi) && Shuffled(t, u, lo', hi') && lo <= lo' && hi' <= hi
    ensures Shuffled(s, u, lo, hi)
  {
  }

  /** Every element from `lo` to `hi` lies on its side of the pivot. */
  ghost predicate AtMost(s: seq<Address>, hex: Address -> int, lo: int, hi: int, x: int) {
    forall k {:trigger hex(s[k])} :: 0 <= lo <= k <= hi < |s| ==> hex(s[k]) <= x
  }

  ghost predicate AtLeast(s: seq<Address>, hex: Address -> int, lo: int, hi: int, x: int) {
    forall k {:trigger hex(s[k])} :: 0 <= lo <= k <= hi < |s| ==> hex(s[k]) >= x
  }

  /** A shuffle of a range keeps the range's own elements. */
  lemma RangeKept(s: seq<Address>, t: seq<Address>, lo: int, hi: int)
    requires 0 <= lo <= hi < |s| && Shuffled(s, t, lo, hi)
    ensures multiset(s[lo..hi + 1]) == multiset(t[lo..hi + 1])
  {
    var end := hi + 1;
    ThreeParts(s, lo, end);
    ThreeParts(t, lo, end);
    SameEnds(s, t, lo, end);
    CancelEnds(s[..lo], s[lo..end], t[lo..end], s[end..]);
  }

  lemma ThreeParts(s: seq<Address>, lo: nat, end: nat)
    requires lo <= end <= |s|
    ensures s == s[..lo] + s[lo..end] + s[end..]
  {
  }

  lemma SameEnds(s: seq<Address>, t: seq<Address>, lo: nat, end: nat)
    requires lo <= end <= |s| == |t| && forall k :: 0 <= k < |s| && !(lo <= k < end) ==> s[k] == t[k]
    ensures s[..lo] == t[..lo] && s[end..] == t[end..]
  {
  }

  lemma CancelEnds(a: seq<Address>, b: seq<Address>, c: seq<Address>, d: seq<Address>)
    requires multiset(a + b + d) == multiset(a + c + d)
    ensures multiset(b) == multiset(c)
  {
    forall x ensures multiset(b)[x] == multiset(c)[x] {
      assert multiset(a + b + d)[x] == multiset(a)[x] + multiset(b)[x] + multiset(d)[x];
      assert multiset(a + c + d)[x] == multiset(a)[x] + multiset(c)[x] + multiset(d)[x];
    }
  }

  lemma BoundsKept(s: seq<Address>, t: seq<Address>, hex: Address -> int, lo: int, hi: int, x: int)
    requires 0 <= lo <= hi < |s| && Shuffled(s, t, lo, hi)
    ensures AtMost(s, hex, lo, hi, x) ==> AtMost(t, hex, lo, hi, x)
    ensures AtLeast(s, hex, lo, hi, x) ==> AtLeast(t, hex, lo, hi, x)
  {
    RangeKept(s, t, lo, hi);
    forall k | lo <= k <= hi ensures exists m :: lo <= m <= hi && s[m] == t[k] {
      assert t[k] == t[lo..hi + 1][k - lo];
      assert t[k] in multiset(s[lo..hi + 1]);
      var m :| 0 <= m < |s[lo..hi + 1]| && s[lo..hi + 1][m] == t[k];
      assert s[lo + m] == t[k];
    }
    if AtMost(s, hex, lo, hi, x) {
      forall k | lo <= k <= hi ensures hex(t[k]) <= x { var m :| lo <= m <= hi && s[m] == t[k]; assert hex(s[m]) <= x; }
    }
    if AtLeast(s, hex, lo, hi, x) {
      forall k | lo <= k <= hi ensures hex(t[k]) >= x { var m :| lo <= m <= hi && s[m] == t[k]; assert hex(s[m]) >= x; }
    }
  }

  /** The first scan: to an element that is not before the pivot; `high` is one. */
  method ScanUp(a: array<Address>, from: int, pivot: int, hex: Address -> int, ghost high: int) returns (i: int)
    requires 0 <= from <= high < a.Length && hex(a[high]) >= pivot
    ensures from <= i <= high && hex(a[i]) >= pivot && forall k {:trigger hex(a[k])} :: from <= k < i ==> hex(a[k]) <= pivot
  {
    i := from;
    while hex(a[i]) < pivot
      invariant from <= i <= high && forall k {:trigger hex(a[k])} :: from <= k < i ==> hex(a[k]) <= pivot
      decreases high - i
    {
      i := i + 1;
    }
  }

  /** The second scan: down to an element that is not behind the pivot. */
  method ScanDown(a: array<Address>, from: int, pivot: int, hex: Address -> int, ghost low: int) returns (j: int)
    requires 0 <= low <= from < a.Length && hex(a[low]) <= pivot
    ensures low <= j <= from && hex(a[j]) <= pivot && forall k {:trigger hex(a[k])} :: j < k <= from ==> hex(a[k]) >= pivot
  {
    j := from;
    while hex(a[j]) > pivot
      invariant low <= j <= from && forall k {:trigger hex(a[k])} :: j < k <= from ==> hex(a[k]) >= pivot
      decreases j - low
    {
      j := j - 1;
    }
  }

  /** Halfway through a partition of `l` to `r` around `x`; `low` and `high` stop the scans. */
  ghost predicate Parting(s0: seq<Address>, s: seq<Address>, hex: Address -> int, l: int, r: int, i: int, j: int, x: int, low: int, high: int) {
    && 0 <= l <= i <= r + 1 && l - 1 <= j <= r < |s| && (i == l <==> j == r) && (i > j ==> i > l) && (i == l ==> low == high)
    && AtMost(s, hex, l, i - 1, x) && AtLeast(s, hex, j + 1, r, x) && Shuffled(s0, s, l, r)
    && (i <= j ==> l <= low <= j && i <= high <= r && hex(s[low]) <= x <= hex(s[high]))
  }

  lemma PartStep(s0: seq<Address>, s: seq<Address>, hex: Address -> int, l: int, r: int, i0: int, j0: int, i: int, j: int, x: int, low: int, high: int)
    requires Parting(s0, s, hex, l, r, i0, j0, x, low, high) && i0 <= j0 && i0 <= i <= high && low <= j <= j0
    requires hex(s[i]) >= x >= hex(s[j])
    requires forall k {:trigger hex(s[k])} :: i0 <= k < i ==> hex(s[k]) <= x
    requires forall k {:trigger hex(s[k])} :: j < k <= j0 ==> hex(s[k]) >= x
    ensures i <= j ==> Parting(s0, s[i := s[j]][j := s[i]], hex, l, r, i + 1, j - 1, x, i, j)
    ensures i > j && i0 > l ==> Parting(s0, s, hex, l, r, i, j, x, low, high)
    ensures i0 == l ==> i <= j
  {
    if i <= j {
      SwapShuffles(s0, s, l, r, i, j);
      SwapBounds(s, hex, l, r, i, j, x);
    }
  }

  /** The partition loop of `sortByHex`. */
  method Partition(a: array<Address>, l: int, r: int, hex: Address -> int) returns (i: int, j: int, ghost x: int)
    requires 0 <= l < r < a.Length
    modifies a
    ensures l < i <= r + 1 && l - 1 <= j < r && j < i
    ensures AtMost(a[..], hex, l, i - 1, x) && AtLeast(a[..], hex, j + 1, r, x)
    ensures Shuffled(old(a[..]), a[..], l, r)
  {
    ghost var s0 := a[..];
    var mid := (l + r) / 2;
    var pivot := hex(a[mid]);
    x, i, j := pivot, l, r;
    ghost var low, high := mid, mid;
    while i <= j
      invariant Parting(s0, a[..], hex, l, r, i, j, x, low, high)
      decreases j - i
    {
      ghost var s, i0, j0 := a[..], i, j;
      i := ScanUp(a, i, pivot, hex, high);
      j := ScanDown(a, j, pivot, hex, low);
      PartStep(s0, s, hex, l, r, i0, j0, i, j, x, low, high);
      if i <= j {
        a[i], a[j] := a[j], a[i];
        assert a[..] == s[i := s[j]][j := s[i]];
        low, high := i, j;
        i, j := i + 1, j - 1;
      }
    }
  }

  lemma SwapBounds(s: seq<Address>, hex: Address -> int, l: int, r: int, i: int, j: int, x: int)
    requires 0 <= l <= i <= j <= r < |s| && hex(s[i]) >= x >= hex(s[j])
    requires AtMost(s, hex, l, i - 1, x) && AtLeast(s, hex, j + 1, r, x)
    ensures var t := s[i := s[j]][j := s[i]]; AtMost(t, hex, l, i, x) && AtLeast(t, hex, j, r, x)
  {
    var t := s[i := s[j]][j := s[i]];
    forall k | l <= k <= i ensures hex(t[k]) <= x { assert k < i ==> hex(s[k]) <= x; }
    forall k | j <= k <= r ensures hex(t[k]) >= x { assert k > j ==> hex(s[k]) >= x; }
  }

  /** vrf.go `sortByHex`: the range is sorted by hex string and keeps its elements. */
  method SortByHex(a: array<Address>, l: int, r: int, hex: Address -> int)
    requires 0 <= l && r < a.Length
    modifies a
    ensures l <= r ==> SortedRange(a[..], hex, l, r)
    ensures Shuffled(old(a[..]), a[..], l, r)
    decreases r - l
  {
    if l < r {
      ghost var s0 := a[..];
      var i, j;
      ghost var x;
      i, j, x := Partition(a, l, r, hex);
      ghost var s1 := a[..];
      if l < j { SortByHex(a, l, j, hex); }
      ghost var s2 := a[..];
      if i < r { SortByHex(a, i, r, hex); }
      Joined(s0, s1, s2, a[..], hex, l, r, i, j, x);
    }
  }

  /** Sorting the two parts of a partition sorts the whole. */
  lemma Joined(s0: seq<Address>, s1: seq<Address>, s2: seq<Address>, s3: seq<Address>, hex: Address -> int, l: int, r: int, i: int, j: int, x: int)
    requires 0 <= l < i <= r + 1 && l - 1 <= j < r < |s0| && j < i
    requires Shuffled(s0, s1, l, r) && AtMost(s1, hex, l, i - 1, x) && AtLeast(s1, hex, j + 1, r, x)
    requires if l < j then Shuffled(s1, s2, l, j) && SortedRange(s2, hex, l, j) else s2 == s1
    requires if i < r then Shuffled(s2, s3, i, r) && SortedRange(s3, hex, i, r) else s3 == s2
    ensures Shuffled(s0, s3, l, r) && SortedRange(s3, hex, l, r)
  {
    FirstHalf(s0, s1, s2, hex, l, r, i, j, x);
    SecondHalf(s0, s2, s3, hex, l, r, i, j, x);
    forall m, n | l <= m < n <= r ensures hex(s3[m]) <= hex(s3[n]) {
      if n <= j {
        assert hex(s2[m]) <= hex(s2[n]);
      } else if m < i {
        assert hex(s3[m]) <= x <= hex(s3[n]);
      }
    }
  }

  lemma FirstHalf(s0: seq<Address>, s1: seq<Address>, s2: seq<Address>, hex: Address -> int, l: int, r: int, i: int, j: int, x: int)
    requires 0 <= l < i <= r + 1 && l - 1 <= j < r < |s0| && j < i
    requires Shuffled(s0, s1, l, r) && AtMost(s1, hex, l, i - 1, x) && AtLeast(s1, hex, j + 1, r, x)
    requires if l < j then Shuffled(s1, s2, l, j) else s2 == s1
    ensures Shuffled(s0, s2, l, r) && AtMost(s2, hex, l, i - 1, x) && AtLeast(s2, hex, j + 1, r, x)
  {
    if l < j {
      ShuffledTwice(s0, s1, s2, l, r, l, j);
      assert AtMost(s1, hex, l, j, x);
      BoundsKept(s1, s2, hex, l, j, x);
      forall k | l <= k <= i - 1 ensures hex(s2[k]) <= x { assert k > j ==> hex(s1[k]) <= x; }
      forall k | j + 1 <= k <= r ensures hex(s2[k]) >= x { assert hex(s1[k]) >= x; }
    }
  }

  lemma SecondHalf(s0: seq<Address>, s2: seq<Address>, s3: seq<Address>, hex: Address -> int, l: int, r: int, i: int, j: int, x: int)
    requires 0 <= l < i <= r + 1 && l - 1 <= j < r < |s0| && j < i
    requires Shuffled(s0, s2, l, r) && AtMost(s2, hex, l, i - 1, x) && AtLeast(s2, hex, j + 1, r, x)
    requires if i < r then Shuffled(s2, s3, i, r) else s3 == s2
    ensures Shuffled(s0, s3, l, r) && AtMost(s3, hex, l, i - 1, x) && AtLeast(s3, hex, j + 1, r, x)
    ensures forall k :: l <= k <= j ==> s3[k] == s2[k]
  {
    if i < r {
      ShuffledTwice(s0, s2, s3, l, r, i, r);
      assert AtLeast(s2, hex, i, r, x);
      BoundsKept(s2, s3, hex, i, r, x);
      forall k | l <= k <= i - 1 ensures hex(s3[k]) <= x { assert hex(s2[k]) <= x; }
      forall k | j + 1 <= k <= r ensures hex(s3[k]) >= x { assert k < i ==> hex(s2[k]) >= x; }
    }
  }

  /** vrf.go `NewVrf`: the group is copied and sorted. */
  method SortedGroup(group: seq<Address>, hex: Address -> int) returns (sorted: seq<Address>)
    ensures SortedBy(sorted, hex) && multiset(sorted) == multiset(group)
    ensures forall x :: x in group ==> |sorted| > 0 && hex(sorted[0]) <= hex(x)
  {
    var a := new Address[|group|](i requires 0 <= i < |group| => group[i]);
    assert a[..] == group;
    SortByHex(a, 0, a.Length - 1, hex);
    sorted := a[..];
    forall x | x in group ensures |sorted| > 0 && hex(sorted[0]) <= hex(x) {
      assert x in multiset(sorted);
      var m :| 0 <= m < |sorted| && sorted[m] == x;
      assert m > 0 ==> hex(sorted[0]) <= hex(sorted[m]);
    }
  }

  /** However the group came in, sorting gives the same order. */
  lemma {:induction false} SortIsUnique(s: seq<Address>, t: seq<Address>, hex: Address -> int)
    requires Injective(hex) && SortedBy(s, hex) && SortedBy(t, hex) && multiset(s) == multiset(t)
    ensures s == t
    decreases |s|
  {
    assert |s| == |multiset(s)| == |t|;
    if s != [] {
      var n := |s| - 1;
      LastIsGreatest(s, t, hex);
      LastIsGreatest(t, s, hex);
      assert s[n] == t[n];
      WithoutLast(s, n, hex);
      WithoutLast(t, n, hex);
      SortIsUnique(s[..n], t[..n], hex);
      SameButLast(s, t, n);
    }
  }

  lemma WithoutLast(s: seq<Address>, n: nat, hex: Address -> int)
    requires |s| == n + 1 && SortedBy(s, hex)
    ensures multiset(s[..n]) == multiset(s) - multiset{s[n]} && SortedBy(s[..n], hex)
  {
    assert s == s[..n] + [s[n]];
    assert forall i :: 0 <= i < n ==> s[..n][i] == s[i];
  }

  lemma SameButLast(s: seq<Address>, t: seq<Address>, n: nat)
    requires |s| == |t| == n + 1 && s[..n] == t[..n] && s[n] == t[n]
    ensures s == t
  {
    assert s == s[..n] + [s[n]] && t == t[..n] + [t[n]];
  }

  lemma LastIsGreatest(s: seq<Address>, t: seq<Address>, hex: Address -> int)
    requires SortedBy(t, hex) && multiset(s) == multiset(t) && |s| == |t| > 0
    ensures hex(s[|s| - 1]) <= hex(t[|t| - 1])
  {
    assert s[|s| - 1] in multiset(t);
    var m :| 0 <= m < |t| && t[m] == s[|s| - 1];
    assert m < |t| - 1 ==> hex(t[m]) <= hex(t[|t| - 1]);
  }

  // ---------------------------------------------------------------------------------------------
  // Leader ranks
  // ---------------------------------------------------------------------------------------------

  function Pow2(n: nat): nat { if n == 0 then 1 else 2 * Pow2(n - 1) }

  /** The rank of the member at position `i` when position `index` leads. */
  function Rank(n: nat, index: nat, i: nat): nat
    requires i < n && index < n
  {
    if i < index then n - index + i else i - index
  }

  ghost predicate Distinct<T>(s: seq<T>) { forall i, j :: 0 <= i < j < |s| ==> s[i] != s[j] }

  /** The last position of an address among the first `n` members, or -1. */
  function LastPlace(group: seq<Address>, n: nat, a: Address): (i: int)
    requires n <= |group|
    ensures -1 <= i < n && (i >= 0 ==> group[i] == a)
    ensures i == -1 ==> a !in group[..n]
    ensures forall j :: i < j < n ==> group[j] != a
  {
    if n == 0 then -1 else if group[n - 1] == a then n - 1
    else
      assert group[..n] == group[..n - 1] + [group[n - 1]];
      LastPlace(group, n - 1, a)
  }

  lemma {:induction false} OnlyPlace(group: seq<Address>, n: nat, i: nat)
    requires Distinct(group) && i < n <= |group|
    ensures LastPlace(group, n, group[i]) == i
    decreases n
  {
    if i < n - 1 { OnlyPlace(group, n - 1, i); }
  }

  function Capped(rank: nat): nat { if rank > 10 then 10 else rank }

  /**
   vrf.go `ValidateBlock`, with the block hash as a number: a member's rank, capped at 10, and a
   coefficient that halves with every rank. A non-member gets rank 0.
   */
  method ValidateBlock(group: seq<Address>, hash: nat, address: Address) returns (coefficient: real, rank: nat)
    requires |group| > 0
    ensures var i := LastPlace(group, |group|, address);
            rank == if i < 0 then 0 else Capped(Rank(|group|, hash % |group|, i))
    ensures coefficient * Pow2(rank) as real == 1.0
  {
    var n, index := |group|, hash % |group|;
    rank := 0;
    for i := 0 to n
      invariant var k := LastPlace(group, i, address); rank == if k < 0 then 0 else Rank(n, index, k)
    {
      if group[i] == address {
        rank := if i < index then n - index + i else i - index;
      }
    }
    if rank > 10 { rank := 10; }
    coefficient := Halved(rank);
  }

  method Halved(rank: nat) returns (coefficient: real)
    ensures coefficient * Pow2(rank) as real == 1.0
  {
    var sum := 1;
    for k := 0 to rank
      invariant sum == Pow2(k)
    {
      sum := sum * 2;
    }
    PowPositive(rank);
    coefficient := 1.0 / sum as real;
  }

  /** The leader of a block has rank 0, and every other member of a group without repetitions does not. */
  lemma OneLeader(group: seq<Address>, hash: nat, i: nat)
    requires |group| > 0 && Distinct(group) && i < |group|
    ensures var k := LastPlace(group, |group|, group[i]);
            k >= 0 && (Capped(Rank(|group|, hash % |group|, k)) == 0 <==> i == hash % |group|)
  {
    OnlyPlace(group, |group|, i);
  }

  lemma PlaceAfter(n: nat, index: nat, r: nat)
    requires index < n && r < n
    ensures var i := (index + r) % n; i == (if index + r < n then index + r else index + r - n) && i < n && Rank(n, index, i) == r
  {
    var i := if index + r < n then index + r else index + r - n;
    assert index + r == n * (if index + r < n then 0 else 1) + i;
  }

  /** Ranks count upwards from the leader: who stands `r` places behind it, round the end, has rank `r`, or 10. */
  method RankBehindLeader(group: seq<Address>, hash: nat, r: nat) returns (coefficient: real, rank: nat)
    requires Distinct(group) && r < |group|
    ensures rank == (if r <= 10 then r else 10) && coefficient * Pow2(rank) as real == 1.0
    ensures (r == 0 ==> coefficient == 1.0) && (r == 1 ==> coefficient == 0.5) && (r == 2 ==> coefficient == 0.25)
    ensures r >= 10 ==> coefficient * 1024.0 == 1.0
  {
    var n := |group|;
    PlaceAfter(n, hash % n, r);
    OnlyPlace(group, n, (hash % n + r) % n);
    coefficient, rank := ValidateBlock(group, hash, group[(hash % n + r) % n]);
    Powers();
  }

  lemma Powers()
    ensures Pow2(0) == 1 && Pow2(1) == 2 && Pow2(2) == 4 && Pow2(10) == 1024
  {
    assert Pow2(4) == 16 && Pow2(6) == 64 && Pow2(8) == 256;
  }

  /** Two validators that know the same members, in whatever order, agree on the group and on everybody's rank. */
  method TwoValidators(g: seq<Address>, h: seq<Address>, hex: Address -> int, hash: nat, address: Address)
    returns (mine: seq<Address>, theirs: seq<Address>, rank: nat, rank': nat)
    requires Injective(hex) && multiset(g) == multiset(h) && |g| > 0
    ensures mine == theirs && rank == rank' && SortedBy(mine, hex) && multiset(mine) == multiset(g)
    ensures var i := LastPlace(mine, |mine|, address);
            |mine| > 0 && rank == if i < 0 then 0 else Capped(Rank(|mine|, hash % |mine|, i))
  {
    mine := SortedGroup(g, hex);
    theirs := SortedGroup(h, hex);
    SortIsUnique(mine, theirs, hex);
    assert |mine| == |multiset(mine)| == |g|;
    var coefficient;
    coefficient, rank := ValidateBlock(mine, hash, address);
    coefficient, rank' := ValidateBlock(theirs, hash, address);
  }

  lemma {:induction false} PowPositive(n: nat)
    ensures Pow2(n) > 0
  {
    if n > 0 { PowPositive(n - 1); }
  }

  /** Uncapped ranks are a permutation of 0 to n-1: every rank belongs to exactly one position. */
  lemma RanksPermute(n: nat, index: nat, rank: nat)
    requires index < n && rank < n
    ensures exists i :: 0 <= i < n && Rank(n, index, i) == rank
    ensures forall i, j :: 0 <= i < n && 0 <= j < n && Rank(n, index, i) == Rank(n, index, j) ==> i == j
    ensures forall i :: 0 <= i < n ==> Rank(n, index, i) < n && (Rank(n, index, i) == 0 <==> i == index)
  {
    var i := if rank + index < n then rank + index else rank + index - n;
    assert Rank(n, index, i) == rank;
  }

  // ---------------------------------------------------------------------------------------------
  // Coins
  // ---------------------------------------------------------------------------------------------

  /** The loop state of `ValidateCoin`: `start` is the coin whose hash chose the current validator. */
  datatype Batch = Batch(continuity: nat, oldcid: nat, start: nat)

  /** The state once the first `t` coins are assigned; coin ids are 64-bit numbers. */
  function BatchAt(cids: seq<nat>, t: nat): Batch
    requires t <= |cids|
  {
    if t == 0 then Batch(0, 0, 0)
    else
      var b, cid := BatchAt(cids, t - 1), cids[t - 1];
      var follows := b.oldcid > 0 && (b.oldcid + 1) % TWO64 == cid;
      if follows && b.continuity + 1 <= 4 then Batch(b.continuity + 1, cid, b.start)
      else Batch(if follows then 0 else b.continuity, cid, t - 1)
  }

  /** A coin's validator is chosen by a coin at most four places before it, all ids in between consecutive. */
  lemma {:induction false} ShortRuns(cids: seq<nat>, t: nat)
    requires 0 < t <= |cids|
    ensures var b := BatchAt(cids, t);
            && b.start <= t - 1 <= b.start + 4 && b.oldcid == cids[t - 1] && t - 1 - b.start <= b.continuity <= 4
            && forall u :: b.start < u < t ==> cids[u] == (cids[u - 1] + 1) % TWO64
    decreases t
  {
    if t > 1 { ShortRuns(cids, t - 1); }
  }

  /** The ids of the `j` coins behind the `t`-th follow it and each other. */
  ghost predicate Consecutive(cids: seq<nat>, t: nat, j: nat)
    requires t + j < |cids|
  {
    forall i :: t <= i < t + j ==> cids[i] > 0 && cids[i + 1] == (cids[i] + 1) % TWO64
  }

  /**
   A coin that drew its own validator shares it with as many coins behind it, while their ids follow, as the count
   leaves to four; the next one draws again and the count starts anew.
   */
  lemma {:induction false} RunLength(cids: seq<nat>, t: nat, j: nat)
    requires t + j < |cids| && BatchAt(cids, t + 1).start == t && Consecutive(cids, t, j)
    ensures var c := BatchAt(cids, t + 1).continuity;
            && (c + j <= 4 ==> BatchAt(cids, t + j + 1) == Batch(c + j, cids[t + j], t))
            && (c + j == 5 && j > 0 ==> BatchAt(cids, t + j + 1) == Batch(0, cids[t + j], t + j))
    decreases j
  {
    ShortRuns(cids, t + 1);
    if j > 0 { RunLength(cids, t, j - 1); }
  }

  /** The first coin starts with a count of 0, so that five share its validator; a run that breaks leaves its count to the next. */
  lemma CountLeft(cids: seq<nat>, t: nat)
    requires t < |cids|
    ensures t == 0 ==> BatchAt(cids, t + 1) == Batch(0, cids[0], 0)
    ensures t > 0 && cids[t] != (cids[t - 1] + 1) % TWO64 ==> BatchAt(cids, t + 1) == Batch(BatchAt(cids, t).continuity, cids[t], t)
  {
    if t > 0 { ShortRuns(cids, t); }
  }

  /** The validator of the `t`-th coin. */
  function Owner(cids: seq<nat>, t: nat, group: seq<Address>, hash: nat -> nat): Address
    requires t < |cids| && |group| > 0
  {
    ShortRuns(cids, t + 1);
    group[hash(cids[BatchAt(cids, t + 1).start]) % |group|]
  }

  /** The coins among the first `t` that member `a` validates. */
  ghost function Share(cids: seq<nat>, t: nat, group: seq<Address>, hash: nat -> nat, a: Address): seq<nat>
    requires t <= |cids| && |group| > 0
  {
    if t == 0 then []
    else Share(cids, t - 1, group, hash, a) + if Owner(cids, t - 1, group, hash) == a then [cids[t - 1]] else []
  }

  ghost function Assigned(cids: seq<nat>, t: nat, group: seq<Address>, hash: nat -> nat): map<nat, Address>
    requires t <= |cids| && |group| > 0
  {
    if t == 0 then map[] else Assigned(cids, t - 1, group, hash)[cids[t - 1] := Owner(cids, t - 1, group, hash)]
  }

  /** A coin that continues a short run keeps its predecessor's validator; any other one draws its own. */
  lemma CoinStep(cids: seq<nat>, t: nat, next: nat, group: seq<Address>, hash: nat -> nat, a: Address)
    requires next == t + 1 <= |cids| && |group| > 0
    ensures Share(cids, next, group, hash, a) == Share(cids, t, group, hash, a) + (if Owner(cids, t, group, hash) == a then [cids[t]] else [])
    ensures Assigned(cids, next, group, hash) == Assigned(cids, t, group, hash)[cids[t] := Owner(cids, t, group, hash)]
    ensures var b, c := BatchAt(cids, t), BatchAt(cids, next);
            var follows := b.oldcid > 0 && (b.oldcid + 1) % TWO64 == cids[t];
            if follows && b.continuity + 1 <= 4
              then t > 0 && c == Batch(b.continuity + 1, cids[t], b.start) && Owner(cids, t, group, hash) == Owner(cids, t - 1, group, hash)
              else c == Batch(if follows then 0 else b.continuity, cids[t], t)
                   && Owner(cids, t, group, hash) == group[hash(cids[t]) % |group|]
  {
  }

  class Vrf {
    const address: Address
    const group: seq<Address>
    var coinValidateInfo: map<nat, Address>

    /** vrf.go `NewVrf`. */
    constructor (address: Address, group: seq<Address>, hex: Address -> int)
      ensures this.address == address && SortedBy(this.group, hex) && multiset(this.group) == multiset(group)
    {
      var sorted := SortedGroup(group, hex);
      this.address, this.group, this.coinValidateInfo := address, sorted, map[];
    }

    /** vrf.go `ValidateCoin`: coins are assigned in runs; the caller gets those of its own address. */
    method ValidateCoin(cids: seq<nat>, hash: nat -> nat) returns (mine: seq<nat>)
      requires |group| > 0
      modifies this
      ensures coinValidateInfo == Assigned(cids, |cids|, group, hash) && mine == Share(cids, |cids|, group, hash, address)
    {
      mine, coinValidateInfo := [], map[];
      var continuity, oldcid, addFlag, addr := 0, 0, false, address;
      for t := 0 to |cids|
        invariant coinValidateInfo == Assigned(cids, t, group, hash) && mine == Share(cids, t, group, hash, address)
        invariant continuity == BatchAt(cids, t).continuity && oldcid == BatchAt(cids, t).oldcid
        invariant oldcid > 0 ==> t > 0 && addr == Owner(cids, t - 1, group, hash) && (addFlag <==> addr == address)
      {
        var cid := cids[t];
        CoinStep(cids, t, t + 1, group, hash, address);
        if oldcid > 0 && (oldcid + 1) % TWO64 == cid {
          continuity := continuity + 1;
          if continuity > 4 {
            continuity := 0;
          } else {
            oldcid := cid;
            if addFlag { mine := mine + [cid]; }
            coinValidateInfo := coinValidateInfo[cid := addr];
            continue;
          }
        }
        oldcid, addFlag := cid, false;
        addr := group[hash(cid) % |group|];
        coinValidateInfo := coinValidateInfo[cid := addr];
        if addr == address {
          addFlag := true;
          mine := mine + [cid];
        }
      }
    }

    /** vrf.go `CheckValidateCoin`. */
    method CheckValidateCoin(cids: seq<nat>, addr: Address) returns (ok: bool)
      ensures ok <==> cids != [] && forall i :: 0 <= i < |cids| ==> cids[i] in coinValidateInfo && coinValidateInfo[cids[i]] == addr
    {
      if |cids| < 1 { return false; }
      for i := 0 to |cids|
        invariant forall k :: 0 <= k < i ==> cids[k] in coinValidateInfo && coinValidateInfo[cids[k]] == addr
      {
        if cids[i] !in coinValidateInfo || coinValidateInfo[cids[i]] != addr { return false; }
      }
      return true;
    }
  }

  /** For distinct ids, a coin is in a member's share exactly when the member is its validator. */
  lemma {:induction false} ShareIsOwned(cids: seq<nat>, n: nat, t: nat, group: seq<Address>, hash: nat -> nat, a: Address)
    requires t < n <= |cids| && |group| > 0 && Distinct(cids)
    ensures cids[t] in Share(cids, n, group, hash, a) <==> Owner(cids, t, group, hash) == a
    decreases n
  {
    if t < n - 1 {
      ShareIsOwned(cids, n - 1, t, group, hash, a);
    } else {
      NotShared(cids, n - 1, t, group, hash, a);
    }
  }

  lemma {:induction false} NotShared(cids: seq<nat>, n: nat, t: nat, group: seq<Address>, hash: nat -> nat, a: Address)
    requires n <= t < |cids| && |group| > 0 && Distinct(cids)
    ensures cids[t] !in Share(cids, n, group, hash, a)
    decreases n
  {
    if n > 0 { NotShared(cids, n - 1, t, group, hash, a); }
  }

  /** Every coin is validated by exactly one member, and its entry names that member. */
  lemma OneValidator(cids: seq<nat>, t: nat, group: seq<Address>, hash: nat -> nat)
    requires t < |cids| && |group| > 0 && Distinct(cids)
    ensures Owner(cids, t, group, hash) in group
    ensures forall a :: cids[t] in Share(cids, |cids|, group, hash, a) <==> a == Owner(cids, t, group, hash)
    ensures var info := Assigned(cids, |cids|, group, hash); cids[t] in info && info[cids[t]] == Owner(cids, t, group, hash)
  {
    forall a ensures cids[t] in Share(cids, |cids|, group, hash, a) <==> a == Owner(cids, t, group, hash) {
      ShareIsOwned(cids, |cids|, t, group, hash, a);
    }
    AssignedAt(cids, |cids|, t, group, hash);
  }

  lemma {:induction false} AssignedAt(cids: seq<nat>, n: nat, t: nat, group: seq<Address>, hash: nat -> nat)
    requires t < n <= |cids| && |group| > 0 && Distinct(cids)
    ensures var info := Assigned(cids, n, group, hash); cids[t] in info && info[cids[t]] == Owner(cids, t, group, hash)
    decreases n
  {
    if t < n - 1 { AssignedAt(cids, n - 1, t, group, hash); }
  }
}

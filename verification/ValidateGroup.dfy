/**
 chain/validategroup/validategroup.go: the space consensus group, its pools of members to come, and the
 committee selected from it. `draw(epoch, i, m)` stands for the i-th derived random number of an epoch
 modulo m, and `sort` for `sort.Sort` by joining time, whose order of ties is not fixed.
 */
module ValidateGroup {

  type Address = int

  datatype Member = Member(address: Address, time: int)

  const VALIDATE_LIMIT := 10
  const BLOCK_NUMBER_LIMIT := 10

  // ---------------------------------------------------------------------------------------------
  // Random permutations
  // ---------------------------------------------------------------------------------------------

  /** Random numbers are taken modulo a positive bound. */
  ghost predicate Bounded(draw: (nat, nat, nat) -> nat) {
    forall e, i, m {:trigger draw(e, i, m)} :: m > 0 ==> draw(e, i, m) < m
  }

  ghost predicate Distinct<T>(s: seq<T>) { forall i, j :: 0 <= i < j < |s| ==> s[i] != s[j] }

  ghost predicate Indices(s: seq<int>, n: nat) { |s| == n && Distinct(s) && forall i :: 0 <= i < n ==> 0 <= s[i] < n }

  /** The list after the first `i` swaps. */
  ghost function Shuffled(draw: (nat, nat, nat) -> nat, epoch: nat, n: nat, i: nat): (s: seq<int>)
    requires Bounded(draw) && i <= n
    ensures |s| == n
  {
    if i == 0 then seq(n, k => k)
    else
      var s, j := Shuffled(draw, epoch, n, i - 1), draw(epoch, i - 1, n - (i - 1)) + (i - 1);
      s[i - 1 := s[j]][j := s[i - 1]]
  }

  lemma {:induction false} ShuffledIndices(draw: (nat, nat, nat) -> nat, epoch: nat, n: nat, i: nat)
    requires Bounded(draw) && i <= n
    ensures Indices(Shuffled(draw, epoch, n, i), n)
    decreases i
  {
    if i > 0 {
      ShuffledIndices(draw, epoch, n, i - 1);
      ShuffleStep(draw, epoch, n, i - 1, i);
    }
  }

  /** validategroup.go `RandomPerm`: the first `k` of a random order of 0 to n-1, without repetition. */
  method RandomPerm(draw: (nat, nat, nat) -> nat, epoch: nat, n: nat, k: nat) returns (perm: seq<int>)
    requires Bounded(draw) && k <= n
    ensures perm == Shuffled(draw, epoch, n, k)[..k]
    ensures |perm| == k && Distinct(perm) && forall i :: 0 <= i < k ==> 0 <= perm[i] < n
  {
    var l := new int[n](i => i);
    assert l[..] == Shuffled(draw, epoch, n, 0);
    for i := 0 to k
      invariant l[..] == Shuffled(draw, epoch, n, i)
    {
      var j := draw(epoch, i, n - i) + i;
      ShuffleStep(draw, epoch, n, i, i + 1);
      Swap(l, i, j);
    }
    perm := l[..k];
    ShuffledIndices(draw, epoch, n, k);
    FirstIndices(l[..], n, k);
  }

  method Swap(l: array<int>, i: nat, j: nat)
    requires i < l.Length && j < l.Length
    modifies l
    ensures l[..] == old(l[..][i := l[j]][j := l[i]])
  {
    l[i], l[j] := l[j], l[i];
  }

  lemma ShuffleStep(draw: (nat, nat, nat) -> nat, epoch: nat, n: nat, i: nat, next: nat)
    requires Bounded(draw) && next == i + 1 <= n
    ensures var s, j := Shuffled(draw, epoch, n, i), draw(epoch, i, n - i) + i;
            j < n && Shuffled(draw, epoch, n, next) == s[i := s[j]][j := s[i]]
  {
  }

  lemma FirstIndices(s: seq<int>, n: nat, k: nat)
    requires Indices(s, n) && k <= n
    ensures Distinct(s[..k]) && forall i :: 0 <= i < k ==> 0 <= s[..k][i] < n
  {
  }

  // ---------------------------------------------------------------------------------------------
  // Committees
  // ---------------------------------------------------------------------------------------------

  function Addresses(ms: seq<Member>): seq<Address> { seq(|ms|, i requires 0 <= i < |ms| => ms[i].address) }

  ghost predicate Subset(s: seq<Address>, t: seq<Address>) { forall x :: x in s ==> x in t }

  /** The committee an epoch should have: the whole of a small group, else ten drawn members. */
  ghost function Committee(draw: (nat, nat, nat) -> nat, group: seq<Member>, epoch: nat): (c: seq<Address>)
    requires Bounded(draw)
  {
    if |group| < VALIDATE_LIMIT then Addresses(group)
    else
      var perm := Shuffled(draw, epoch, |group|, VALIDATE_LIMIT);
      ShuffledIndices(draw, epoch, |group|, VALIDATE_LIMIT);
      seq(VALIDATE_LIMIT, i requires 0 <= i < VALIDATE_LIMIT => group[perm[i]].address)
  }

  /** A committee: as many members as the limit allows, all different, all of the group. */
  ghost predicate IsCommittee(c: seq<Address>, group: seq<Member>) {
    |c| == (if |group| < VALIDATE_LIMIT then |group| else VALIDATE_LIMIT) && Distinct(c) && Subset(c, Addresses(group))
  }

  lemma CommitteeIs(draw: (nat, nat, nat) -> nat, group: seq<Member>, epoch: nat)
    requires Bounded(draw) && Distinct(Addresses(group))
    ensures IsCommittee(Committee(draw, group, epoch), group)
  {
    var c, all := Committee(draw, group, epoch), Addresses(group);
    if |group| >= VALIDATE_LIMIT {
      var perm := Shuffled(draw, epoch, |group|, VALIDATE_LIMIT);
      ShuffledIndices(draw, epoch, |group|, VALIDATE_LIMIT);
      forall i, j | 0 <= i < j < |c| ensures c[i] != c[j] {
        assert perm[i] != perm[j];
        assert c[i] == all[perm[i]] && c[j] == all[perm[j]];
        assert perm[i] < perm[j] || perm[j] < perm[i];
      }
      forall x | x in c ensures x in all {
        var i :| 0 <= i < |c| && c[i] == x;
        assert all[perm[i]] == x;
      }
    }
  }

  /** The first seat goes to the first number drawn: later swaps do not reach it. */
  lemma {:induction false} FirstSeat(draw: (nat, nat, nat) -> nat, epoch: nat, n: nat, i: nat)
    requires Bounded(draw) && 1 <= i <= n
    ensures Shuffled(draw, epoch, n, i)[0] == draw(epoch, 0, n)
    decreases i
  {
    if i == 1 {
      ShuffleStep(draw, epoch, n, 0, 1);
    } else {
      FirstSeat(draw, epoch, n, i - 1);
      ShuffleStep(draw, epoch, n, i - 1, i);
    }
  }

  /** Later swaps do not reach a seat that is filled: seat `i` goes to whom the `i`-th number picks among those left. */
  lemma {:induction false} SeatStays(draw: (nat, nat, nat) -> nat, epoch: nat, n: nat, i: nat, k: nat, at: nat)
    requires Bounded(draw) && i < k <= n && at == draw(epoch, i, n - i) + i
    ensures at < n && Shuffled(draw, epoch, n, k)[i] == Shuffled(draw, epoch, n, i)[at]
    decreases k
  {
    if i < k - 1 {
      SeatStays(draw, epoch, n, i, k - 1, at);
      LaterSwap(draw, epoch, n, k - 1, i);
    } else {
      ShuffleStep(draw, epoch, n, i, k);
    }
  }

  lemma LaterSwap(draw: (nat, nat, nat) -> nat, epoch: nat, n: nat, k: nat, i: nat)
    requires Bounded(draw) && i < k < n
    ensures Shuffled(draw, epoch, n, k + 1)[i] == Shuffled(draw, epoch, n, k)[i]
  {
    ShuffleStep(draw, epoch, n, k, k + 1);
  }

  lemma CommitteeAt(draw: (nat, nat, nat) -> nat, group: seq<Member>, epoch: nat, i: nat, k: int)
    requires Bounded(draw) && |group| >= 10 && i < 10 && k == Shuffled(draw, epoch, |group|, 10)[i]
    ensures 0 <= k < |group| && |Committee(draw, group, epoch)| == 10 && Committee(draw, group, epoch)[i] == group[k].address
  {
    ShuffledIndices(draw, epoch, |group|, 10);
  }

  /** Every seat of every epoch: the member left at the place the drawn number names. */
  lemma {:induction false} Seats(draw: (nat, nat, nat) -> nat, group: seq<Member>, epoch: nat, i: nat, at: nat, left: seq<int>)
    requires Bounded(draw) && |group| >= 10 && i < 10
    requires left == Shuffled(draw, epoch, |group|, i) && at == draw(epoch, i, |group| - i) + i
    ensures at < |left| == |group| && 0 <= left[at] < |group|
    ensures |Committee(draw, group, epoch)| == 10 && Committee(draw, group, epoch)[i] == group[left[at]].address
  {
    SeatStays(draw, epoch, |group|, i, 10, at);
    CommitteeAt(draw, group, epoch, i, left[at]);
  }

  /** The first seat of every epoch goes to the member the first number names. */
  lemma FirstMember(draw: (nat, nat, nat) -> nat, group: seq<Member>, epoch: nat)
    requires Bounded(draw) && |group| >= 10
    ensures draw(epoch, 0, |group|) < |group| && |Committee(draw, group, epoch)| == 10
    ensures Committee(draw, group, epoch)[0] == group[draw(epoch, 0, |group|)].address
  {
    FirstSeat(draw, epoch, |group|, 10);
  }

  function TenMembers(): seq<Member> { seq(10, i => Member(i, i)) }

  function LastInEpochOne(epoch: nat, i: nat, m: nat): nat { if epoch == 1 && m > 0 then m - 1 else 0 }

  /** Two epochs can have different committees, so handing out a stored one for epoch 0 can be wrong. */
  lemma StaleCommittee()
    ensures Bounded(LastInEpochOne) && Distinct(Addresses(TenMembers()))
    ensures Committee(LastInEpochOne, TenMembers(), 1) != Committee(LastInEpochOne, TenMembers(), 0)
  {
    FirstSeat(LastInEpochOne, 0, 10, 10);
    FirstSeat(LastInEpochOne, 1, 10, 10);
    assert Committee(LastInEpochOne, TenMembers(), 1)[0] == 9;
    assert Committee(LastInEpochOne, TenMembers(), 0)[0] == 0;
  }

  // ---------------------------------------------------------------------------------------------
  // Members without repetition
  // ---------------------------------------------------------------------------------------------

  ghost function AddressSet(ms: seq<Member>): set<Address> { set i | 0 <= i < |ms| :: ms[i].address }

  ghost predicate Different(ms: seq<Member>) { forall i, j :: 0 <= i < j < |ms| ==> ms[i].address != ms[j].address }

  lemma DifferentIsDistinct(ms: seq<Member>)
    ensures Different(ms) <==> Distinct(Addresses(ms))
    ensures forall x :: x in Addresses(ms) <==> x in AddressSet(ms)
  {
    var xs := Addresses(ms);
    if Distinct(xs) { forall i, j | 0 <= i < j < |ms| ensures ms[i].address != ms[j].address { assert xs[i] != xs[j]; } }
    forall x | x in AddressSet(ms) ensures x in xs {
      var i :| 0 <= i < |ms| && ms[i].address == x;
      assert xs[i] == x;
    }
  }

  lemma LastAddress(ms: seq<Member>, n: nat)
    requires |ms| == n + 1
    ensures AddressSet(ms) == AddressSet(ms[..n]) + {ms[n].address}
  {
    var init, last := ms[..n], ms[n].address;
    forall x | x in AddressSet(init) + {last} ensures x in AddressSet(ms) {
      if x != last { var i :| 0 <= i < |init| && init[i].address == x; assert ms[i].address == x; }
    }
    forall x | x in AddressSet(ms) ensures x in AddressSet(init) + {last} {
      var i :| 0 <= i < |ms| && ms[i].address == x;
      if i < n { assert init[i].address == x; }
    }
  }

  lemma LastDiffers(ms: seq<Member>, n: nat)
    requires |ms| == n + 1
    ensures Different(ms) <==> Different(ms[..n]) && ms[n].address !in AddressSet(ms[..n])
  {
    var init, last := ms[..n], ms[n].address;
    if Different(ms) {
      forall i, j | 0 <= i < j < n ensures init[i].address != init[j].address { assert ms[i].address != ms[j].address; }
      forall i | 0 <= i < n ensures init[i].address != last { assert ms[i].address != ms[n].address; }
    } else {
      var i, j :| 0 <= i < j < |ms| && ms[i].address == ms[j].address;
      assert ms[i] == init[i];
      if j < n { assert init[i].address == init[j].address; } else { assert init[i].address in AddressSet(init); }
    }
  }

  /** Members differ in address exactly when there are as many addresses as members. */
  lemma {:induction false} DifferentCounts(ms: seq<Member>)
    ensures |AddressSet(ms)| <= |ms|
    ensures Different(ms) <==> |AddressSet(ms)| == |ms|
    decreases |ms|
  {
    if ms != [] {
      var n := |ms| - 1;
      DifferentCounts(ms[..n]);
      LastAddress(ms, n);
      LastDiffers(ms, n);
    }
  }

  ghost predicate SortOk(sort: seq<Member> -> seq<Member>) {
    forall ms {:trigger sort(ms)} :: multiset(sort(ms)) == multiset(ms) &&
      forall i, j :: 0 <= i < j < |sort(ms)| ==> sort(ms)[i].time <= sort(ms)[j].time
  }

  lemma SortKeeps(sort: seq<Member> -> seq<Member>, ms: seq<Member>)
    requires SortOk(sort)
    ensures |sort(ms)| == |ms| && AddressSet(sort(ms)) == AddressSet(ms) && (Different(ms) ==> Different(sort(ms)))
  {
    var ts := sort(ms);
    assert |ts| == |multiset(ts)| == |ms|;
    SameAddresses(ms, ts);
    SameAddresses(ts, ms);
    DifferentCounts(ms);
    DifferentCounts(ts);
  }

  lemma SameAddresses(s: seq<Member>, t: seq<Member>)
    requires multiset(s) == multiset(t)
    ensures AddressSet(s) <= AddressSet(t)
  {
    forall x | x in AddressSet(s) ensures x in AddressSet(t) {
      var i :| 0 <= i < |s| && s[i].address == x;
      assert s[i] in multiset(t);
      var j :| 0 <= j < |t| && t[j] == s[i];
      assert t[j].address == x;
    }
  }

  // ---------------------------------------------------------------------------------------------
  // The pools of members
  // ---------------------------------------------------------------------------------------------

  ghost predicate Apart(s: seq<Member>, t: seq<Member>) {
    forall i, j :: 0 <= i < |s| && 0 <= j < |t| ==> s[i].address != t[j].address
  }

  ghost predicate AllKnown(ms: seq<Member>, known: set<Address>) { forall i :: 0 <= i < |ms| ==> ms[i].address in known }

  /** Nobody is twice in the group, nor twice among those who will be in it, nor in it and still to come. */
  ghost predicate Pools(group: seq<Member>, threshold: seq<Member>, coming: seq<Member>, known: set<Address>) {
    && Different(group)
    && Different(threshold + coming)
    && Apart(group, coming)
    && AllKnown(group, known) && AllKnown(threshold, known) && AllKnown(coming, known)
  }

  lemma JoinDifferent(s: seq<Member>, t: seq<Member>)
    ensures Different(s + t) <==> Different(s) && Different(t) && Apart(s, t)
  {
    var u := s + t;
    if Different(u) {
      forall i, j | 0 <= i < j < |s| ensures s[i].address != s[j].address { assert u[i].address != u[j].address; }
      forall i, j | 0 <= i < j < |t| ensures t[i].address != t[j].address {
        assert u[|s| + i].address != u[|s| + j].address;
      }
      forall i, j | 0 <= i < |s| && 0 <= j < |t| ensures s[i].address != t[j].address {
        assert u[i].address != u[|s| + j].address;
      }
    }
  }

  lemma SortKeepsKnown(sort: seq<Member> -> seq<Member>, ms: seq<Member>, known: set<Address>)
    requires SortOk(sort) && AllKnown(ms, known)
    ensures AllKnown(sort(ms), known)
  {
    SortKeeps(sort, ms);
    forall i | 0 <= i < |sort(ms)| ensures sort(ms)[i].address in known {
      assert sort(ms)[i].address in AddressSet(sort(ms));
      var k :| 0 <= k < |ms| && ms[k].address == sort(ms)[i].address;
    }
  }

  /** A newcomer nobody knew may wait behind those already waiting. */
  lemma AddKeeps(group: seq<Member>, threshold: seq<Member>, coming: seq<Member>, known: set<Address>, m: Member)
    requires Pools(group, threshold, coming, known) && m.address !in known
    ensures Pools(group, threshold, coming, known + {m.address})
    ensures Pools(group, threshold, coming + [m], known + {m.address})
  {
    var next := coming + [m];
    JoinDifferent(threshold + coming, [m]);
    assert (threshold + coming) + [m] == threshold + next;
    forall i | 0 <= i < |threshold + coming| ensures (threshold + coming)[i].address != m.address {
      if i < |threshold| { assert threshold[i].address in known; } else { assert coming[i - |threshold|].address in known; }
    }
    forall i, j | 0 <= i < |group| && 0 <= j < |next| ensures group[i].address != next[j].address {
      if j == |coming| { assert group[i].address in known; }
    }
  }

  /** The newcomers enter the group at once. */
  lemma JoinKeeps(sort: seq<Member> -> seq<Member>, group: seq<Member>, threshold: seq<Member>, coming: seq<Member>,
                  known: set<Address>)
    requires SortOk(sort) && Pools(group, threshold, coming, known)
    ensures Pools(sort(group + coming), threshold, [], known)
  {
    JoinDifferent(threshold, coming);
    JoinDifferent(group, coming);
    SortKeeps(sort, group + coming);
    SortKeepsKnown(sort, group + coming, known);
    assert threshold + [] == threshold;
  }

  /** The newcomers wait one epoch more, and the group becomes those who waited, or stays. */
  lemma TurnKeeps(sort: seq<Member> -> seq<Member>, group: seq<Member>, threshold: seq<Member>, coming: seq<Member>,
                  known: set<Address>)
    requires SortOk(sort) && Pools(group, threshold, coming, known)
    ensures Pools(sort(threshold), threshold + coming, [], known)
    ensures Pools(sort(group), threshold + coming, [], known)
  {
    JoinDifferent(threshold, coming);
    SortKeeps(sort, group);
    SortKeeps(sort, threshold);
    SortKeepsKnown(sort, group, known);
    SortKeepsKnown(sort, threshold, known);
    assert (threshold + coming) + [] == threshold + coming;
  }

  // ---------------------------------------------------------------------------------------------
  // The group
  // ---------------------------------------------------------------------------------------------

  class Group {
    const draw: (nat, nat, nat) -> nat
    const sort: seq<Member> -> seq<Member>
    var members: seq<Member>
    var newMembers: seq<Member>
    var threshold: seq<Member>
    var membersAddress: set<Address>
    var consensusMembers: seq<Address>
    var consensusAddress: set<Address>
    // Never assigned by the code.
    var number: nat
    // The epoch the selected committee was drawn for.
    ghost var drawnFor: nat

    ghost predicate Valid()
      reads this
    {
      && Bounded(draw) && SortOk(sort) && number == 0
      && Pools(members, threshold, newMembers, membersAddress)
      && (consensusMembers == [] || consensusMembers == Committee(draw, members, drawnFor))
      && consensusAddress == (set x | x in consensusMembers)
    }

    /** validategroup.go `NewValidateGroup`, on the lists an earlier node stored. */
    constructor (draw: (nat, nat, nat) -> nat, sort: seq<Member> -> seq<Member>, members: seq<Member>,
                 threshold: seq<Member>, newMembers: seq<Member>)
      requires Bounded(draw) && SortOk(sort)
      requires Different(members) && Different(threshold + newMembers) && Apart(members, newMembers)
      ensures Valid()
      ensures this.members == sort(members) && this.threshold == threshold && this.newMembers == newMembers
      ensures consensusMembers == [] && this.draw == draw && this.sort == sort
    {
      this.draw, this.sort := draw, sort;
      this.members, this.threshold, this.newMembers := sort(members), threshold, newMembers;
      var known := (set m | m in members :: m.address) + (set m | m in threshold :: m.address)
        + (set m | m in newMembers :: m.address);
      membersAddress := known;
      consensusMembers, consensusAddress, number, drawnFor := [], {}, 0, 0;
      SortedPools(sort, members, threshold, newMembers, known);
    }

    /**
     Only an address never seen before gets in, and only if it joined later than the last one waiting; an
     address turned away for its time is remembered, so it stays out for good.
     */
    method Add(m: Member)
      requires Valid()
      modifies `newMembers, `membersAddress
      ensures Valid()
      ensures membersAddress == old(membersAddress) + {m.address}
      ensures newMembers == if m.address !in old(membersAddress) && (old(newMembers) == [] || old(newMembers[|newMembers| - 1].time) < m.time)
                            then old(newMembers) + [m] else old(newMembers)
    {
      if m.address !in membersAddress {
        AddKeeps(members, threshold, newMembers, membersAddress, m);
        membersAddress := membersAddress + {m.address};
        if |newMembers| > 0 {
          var last := newMembers[|newMembers| - 1];
          if last.time < m.time { newMembers := newMembers + [m]; }
        } else {
          newMembers := newMembers + [m];
        }
      }
    }

    /** The turn of an epoch: nobody waiting is lost, and no committee outlives the group it was drawn from. */
    method Reset(init: bool)
      requires Valid()
      modifies `members, `newMembers, `threshold, `consensusMembers, `consensusAddress
      ensures Valid() && newMembers == [] && consensusMembers == []
      ensures threshold == if init then old(threshold) else old(threshold + newMembers)
      ensures members == if init then (if old(newMembers) == [] then old(members) else sort(old(members + newMembers)))
                         else sort(old(if |threshold| >= 3 then threshold else members))
    {
      if init {
        if |newMembers| > 0 {
          JoinKeeps(sort, members, threshold, newMembers, membersAddress);
          members := members + newMembers;
          newMembers := [];
          members := sort(members);
        }
      } else {
        TurnKeeps(sort, members, threshold, newMembers, membersAddress);
        assert newMembers == [] ==> threshold + newMembers == threshold;
        if |newMembers| > 0 {
          if |threshold| >= 3 { members := threshold; }
          threshold := threshold + newMembers;
          newMembers := [];
        } else {
          if |threshold| >= 3 { members := threshold; }
        }
        members := sort(members);
      }
      consensusMembers := [];
      consensusAddress := {};
    }

    /**
     Whatever ran before, the committee is one of the group as it is now. It is the one drawn for the asked
     epoch except in epoch 0 after a selection for another epoch: the stored number is never changed, so the
     code takes any stored committee for that of epoch 0.
     */
    method SelectConsensus(block: nat) returns (committee: seq<Address>)
      requires Valid()
      modifies `consensusMembers, `consensusAddress, `drawnFor
      ensures Valid() && consensusMembers == committee && IsCommittee(committee, members)
      ensures drawnFor == if block < BLOCK_NUMBER_LIMIT && old(consensusMembers) != [] then old(drawnFor)
                          else block / BLOCK_NUMBER_LIMIT
      ensures committee == Committee(draw, members, drawnFor)
      ensures |members| < VALIDATE_LIMIT || block >= BLOCK_NUMBER_LIMIT || old(consensusMembers) == [] || old(drawnFor) == 0 ==>
                committee == Committee(draw, members, block / BLOCK_NUMBER_LIMIT)
    {
      var epoch := block / BLOCK_NUMBER_LIMIT;
      DifferentIsDistinct(members);
      if number == epoch {
        if |consensusMembers| > 0 {
          CommitteeIs(draw, members, drawnFor);
          return consensusMembers;
        }
      } else {
        consensusMembers := [];
      }
      var selected := SelectFrom(draw, members, epoch);
      CommitteeIs(draw, members, epoch);
      consensusMembers, consensusAddress, drawnFor := selected, (set x | x in selected), epoch;
      committee := consensusMembers;
    }

    method IsConsensusGroup(a: Address) returns (yes: bool)
      requires Valid()
      ensures yes <==> a in consensusMembers
      ensures yes ==> a in AddressSet(members)
    {
      yes := a in consensusAddress;
      DifferentIsDistinct(members);
      CommitteeIs(draw, members, drawnFor);
    }
  }

  lemma SortedPools(sort: seq<Member> -> seq<Member>, members: seq<Member>, threshold: seq<Member>, coming: seq<Member>,
                    known: set<Address>)
    requires SortOk(sort) && Different(members) && Different(threshold + coming) && Apart(members, coming)
    requires AllKnown(members, known) && AllKnown(threshold, known) && AllKnown(coming, known)
    ensures Pools(sort(members), threshold, coming, known)
  {
    SortKeeps(sort, members);
    SortKeepsKnown(sort, members, known);
    forall i, j | 0 <= i < |sort(members)| && 0 <= j < |coming| ensures sort(members)[i].address != coming[j].address {
      assert sort(members)[i].address in AddressSet(sort(members));
      var k :| 0 <= k < |members| && members[k].address == sort(members)[i].address;
    }
  }

  /** The selection of validategroup.go `SelectConsensus`. */
  method SelectFrom(draw: (nat, nat, nat) -> nat, members: seq<Member>, epoch: nat) returns (selected: seq<Address>)
    requires Bounded(draw)
    ensures selected == Committee(draw, members, epoch)
  {
    selected := [];
    if |members| < VALIDATE_LIMIT {
      for i := 0 to |members|
        invariant selected == Addresses(members[..i])
      {
        selected := selected + [members[i].address];
      }
      assert members[..|members|] == members;
    } else {
      var perm := RandomPerm(draw, epoch, |members|, VALIDATE_LIMIT);
      for i := 0 to |perm|
        invariant |selected| == i
        invariant forall k :: 0 <= k < i ==> selected[k] == members[perm[k]].address
      {
        selected := selected + [members[perm[i]].address];
      }
    }
  }

  /** A group of ten asked for a committee of epoch 1 and then for that of epoch 0 gives the same one twice. */
  method StaleRun(sort: seq<Member> -> seq<Member>) returns (g: Group, first: seq<Address>, second: seq<Address>)
    requires SortOk(sort)
    ensures fresh(g) && g.Valid() && |g.members| == VALIDATE_LIMIT
    ensures first == Committee(g.draw, g.members, 1) && second == first && second != Committee(g.draw, g.members, 0)
  {
    StaleCommittee();
    DifferentIsDistinct(TenMembers());
    SortKeeps(sort, TenMembers());
    g := new Group(LastInEpochOne, sort, TenMembers(), [], []);
    first := g.SelectConsensus(10);
    second := g.SelectConsensus(0);
    FirstSeat(g.draw, 0, 10, 10);
    FirstSeat(g.draw, 1, 10, 10);
    assert first[0] == g.members[9].address && Committee(g.draw, g.members, 0)[0] == g.members[0].address;
  }
}

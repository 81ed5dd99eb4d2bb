/**
 Chains of blocks, and the genesis block they start from (space/genesis.go): what the account and space
 maps of every block satisfy, and exactly when they stop satisfying it.
 */
module SpaceChain {
  import opened Bytes
  import opened ObjectCache
  import opened SpaceState
  import opened AccountRecord
  import opened StateManage
  import opened BlockExec

  // ---------------------------------------------------------------------------------------------
  // One block
  // ---------------------------------------------------------------------------------------------

  /** The block `next` is built on `parent`: its run left nothing that cannot be written. */
  ghost predicate BuiltOn(parent: Block, next: Block, reports: Reports, decode: Decoder) {
    && AllKinded(next.txs)
    && var e := Run(Opened(parent), next.txs, reports, decode);
       && NonNegative(e.state) && BlockOk(next)
       && next.spaces == Lasting(e.state.spaces, EmptySpace) && AccountsOf(next.records) == Lasting(e.state.accounts, EmptyAccount)
       && next.idIndex == e.nextSpace && next.walletIndex == e.nextWallet && next.gasUsed == e.cost
  }

  /** What `buildBlock` returns is built on its parent. */
  method Build(parent: Block, pool: map<int, Tx>, order: seq<int>, reports: Reports, decode: Decoder, walk: Walk)
    returns (b: Option<Block>)
    requires BlockOk(parent) && PoolOk(pool, order) && WalkOk(walk)
    ensures b.Some? ==> BuiltOn(parent, b.value, reports, decode) && b.value.txs == TxsOf(pool, order)
  {
    b := BuildBlock(parent, pool, order, reports, decode, walk);
  }

  /** No transaction of the block founds what it cannot, and its commit drops no account that space 0 lists. */
  ghost predicate Safe(parent: Block, next: Block, reports: Reports, decode: Decoder)
    requires AllKinded(next.txs)
  {
    && Untrapped(Opened(parent), next.txs, reports, decode)
    && var s := Run(Opened(parent), next.txs, reports, decode).state; forall a :: a in s.accounts ==> !Trapped(s, a)
  }

  /** The relation holds after every transaction of the block, and in the block. */
  ghost predicate LinkedThrough(parent: Block, next: Block, reports: Reports, decode: Decoder)
    requires AllKinded(next.txs)
  {
    AlwaysLinked(Opened(parent), next.txs, reports, decode) && Linked(StateOf(next))
  }

  ghost predicate Broken(s: State) { exists x :: Stray(s, x) }

  lemma CommitPrunes(parent: Block, next: Block, reports: Reports, decode: Decoder)
    requires BuiltOn(parent, next, reports, decode)
    ensures Pruned(Run(Opened(parent), next.txs, reports, decode).state, StateOf(next))
  {
  }

  lemma BlockIds(parent: Block, next: Block, reports: Reports, decode: Decoder)
    requires BuiltOn(parent, next, reports, decode)
    ensures parent.idIndex <= next.idIndex && (SpacesOk(StateOf(parent), parent.idIndex) ==> SpacesOk(StateOf(next), next.idIndex))
    ensures WalletsOk(StateOf(parent), parent.walletIndex) && parent.walletIndex + |next.txs| < TWO64 ==>
              WalletsOk(StateOf(next), next.walletIndex)
  {
    RunIds(Opened(parent), next.txs, reports, decode);
    CommitPrunes(parent, next, reports, decode);
    CommitIds(Run(Opened(parent), next.txs, reports, decode).state, StateOf(next), next.idIndex, next.walletIndex);
  }

  /** A block keeps the relation between accounts and spaces, all through its run, exactly when it is safe. */
  lemma BlockLinks(parent: Block, next: Block, reports: Reports, decode: Decoder)
    requires BuiltOn(parent, next, reports, decode) && Linked(StateOf(parent))
    ensures LinkedThrough(parent, next, reports, decode) <==> Safe(parent, next, reports, decode)
  {
    RunKeeps(Opened(parent), next.txs, reports, decode);
    CommitPrunes(parent, next, reports, decode);
    if Untrapped(Opened(parent), next.txs, reports, decode) {
      CommitKeeps(Run(Opened(parent), next.txs, reports, decode).state, StateOf(next));
    }
  }

  /** Where the next space id is above all that exist, the block itself tells. */
  lemma BlockEnds(parent: Block, next: Block, reports: Reports, decode: Decoder)
    requires BuiltOn(parent, next, reports, decode)
    requires Linked(StateOf(parent)) && SpacesOk(StateOf(parent), parent.idIndex) && parent.idIndex > 0
    ensures Linked(StateOf(next)) <==> Safe(parent, next, reports, decode)
    ensures !Safe(parent, next, reports, decode) ==> Broken(StateOf(next))
  {
    var s := Run(Opened(parent), next.txs, reports, decode).state;
    RunEnds(Opened(parent), next.txs, reports, decode);
    CommitPrunes(parent, next, reports, decode);
    if Untrapped(Opened(parent), next.txs, reports, decode) {
      CommitKeeps(s, StateOf(next));
    } else {
      var x :| Stray(s, x);
      StrayKept(s, StateOf(next), x);
      StrayUnlinks(StateOf(next), x);
    }
  }

  /** No block repairs it. */
  lemma BlockStray(parent: Block, next: Block, reports: Reports, decode: Decoder)
    requires BuiltOn(parent, next, reports, decode)
    requires Broken(StateOf(parent)) && SpacesOk(StateOf(parent), parent.idIndex) && parent.idIndex > 0
    ensures Broken(StateOf(next))
  {
    var x :| Stray(StateOf(parent), x);
    RunStray(Opened(parent), next.txs, reports, decode, x);
    CommitPrunes(parent, next, reports, decode);
    StrayKept(Run(Opened(parent), next.txs, reports, decode).state, StateOf(next), x);
  }

  // ---------------------------------------------------------------------------------------------
  // Chains
  // ---------------------------------------------------------------------------------------------

  ghost predicate Chain(chain: seq<Block>, reports: seq<Reports>, decode: Decoder) {
    |chain| == |reports| + 1 && forall i :: 0 <= i < |reports| ==> BuiltOn(chain[i], chain[i + 1], reports[i], decode)
  }

  /** The first `n` blocks after the start are safe. */
  ghost predicate AllSafe(chain: seq<Block>, reports: seq<Reports>, decode: Decoder, n: nat)
    requires Chain(chain, reports, decode) && n <= |reports|
  {
    forall i :: 0 <= i < n ==> Safe(chain[i], chain[i + 1], reports[i], decode)
  }

  /** Wallet ids are 64-bit numbers; a chain must not use them up. */
  ghost function TxCount(chain: seq<Block>, n: nat): nat
    requires n < |chain|
  {
    if n == 0 then 0 else TxCount(chain, n - 1) + |chain[n].txs|
  }

  /** Along every chain space ids stay below the next index, and wallet ids distinct and below theirs. */
  lemma {:induction false} ChainIds(chain: seq<Block>, reports: seq<Reports>, decode: Decoder, n: nat)
    requires Chain(chain, reports, decode) && n <= |reports|
    requires SpacesOk(StateOf(chain[0]), chain[0].idIndex) && WalletsOk(StateOf(chain[0]), chain[0].walletIndex)
    requires chain[0].walletIndex + TxCount(chain, n) < TWO64
    ensures SpacesOk(StateOf(chain[n]), chain[n].idIndex) && chain[0].idIndex <= chain[n].idIndex
    ensures WalletsOk(StateOf(chain[n]), chain[n].walletIndex) && chain[n].walletIndex <= chain[0].walletIndex + TxCount(chain, n)
    decreases n
  {
    if n > 0 {
      ChainIds(chain, reports, decode, n - 1);
      BlockIds(chain[n - 1], chain[n], reports[n - 1], decode);
      RunWallets(Opened(chain[n - 1]), chain[n].txs, reports[n - 1], decode);
    }
  }

  lemma {:induction false} RunWallets(e: Exec, txs: seq<Tx>, reports: Reports, decode: Decoder)
    requires AllKinded(txs) && e.nextWallet + |txs| < TWO64
    ensures Run(e, txs, reports, decode).nextWallet <= e.nextWallet + |txs|
    decreases |txs|
  {
    if txs != [] {
      ApplyIds(e, txs[0], reports, decode);
      RunWallets(Apply(e, txs[0], reports, decode), txs[1..], reports, decode);
    }
  }

  ghost predicate LinkedUpTo(chain: seq<Block>, reports: seq<Reports>, decode: Decoder, n: nat)
    requires Chain(chain, reports, decode) && n <= |reports|
  {
    forall i :: 0 <= i < n ==> LinkedThrough(chain[i], chain[i + 1], reports[i], decode)
  }

  /**
   All along a chain, an account names a space exactly when that space lists it once, if and only if every
   block was safe.
   */
  lemma {:induction false} ChainKeeps(chain: seq<Block>, reports: seq<Reports>, decode: Decoder, n: nat)
    requires Chain(chain, reports, decode) && n <= |reports| && Linked(StateOf(chain[0]))
    ensures LinkedUpTo(chain, reports, decode, n) <==> AllSafe(chain, reports, decode, n)
    ensures AllSafe(chain, reports, decode, n) ==> Linked(StateOf(chain[n]))
    decreases n
  {
    if n > 0 {
      ChainKeeps(chain, reports, decode, n - 1);
      if AllSafe(chain, reports, decode, n - 1) { BlockLinks(chain[n - 1], chain[n], reports[n - 1], decode); }
    }
  }

  /** Where the space index of the first block is above its spaces, the last block tells whether all were safe. */
  lemma {:induction false} ChainEnds(chain: seq<Block>, reports: seq<Reports>, decode: Decoder, n: nat)
    requires Chain(chain, reports, decode) && n <= |reports|
    requires Linked(StateOf(chain[0])) && SpacesOk(StateOf(chain[0]), chain[0].idIndex) && chain[0].idIndex > 0
    ensures SpacesOk(StateOf(chain[n]), chain[n].idIndex) && chain[n].idIndex > 0
    ensures Linked(StateOf(chain[n])) <==> AllSafe(chain, reports, decode, n)
    ensures !AllSafe(chain, reports, decode, n) ==> Broken(StateOf(chain[n]))
    decreases n
  {
    if n > 0 {
      ChainEnds(chain, reports, decode, n - 1);
      BlockIds(chain[n - 1], chain[n], reports[n - 1], decode);
      if AllSafe(chain, reports, decode, n - 1) {
        BlockEnds(chain[n - 1], chain[n], reports[n - 1], decode);
      } else {
        BlockStray(chain[n - 1], chain[n], reports[n - 1], decode);
        var x :| Stray(StateOf(chain[n]), x);
        StrayUnlinks(StateOf(chain[n]), x);
      }
    }
  }

  /** A chain that starts without a space 0 is always safe, whatever its indices. */
  lemma {:induction false} ChainWithoutZero(chain: seq<Block>, reports: seq<Reports>, decode: Decoder, n: nat)
    requires Chain(chain, reports, decode) && n <= |reports|
    requires Linked(StateOf(chain[0])) && 0 !in chain[0].spaces && chain[0].idIndex > 0
    ensures Linked(StateOf(chain[n])) && 0 !in chain[n].spaces && chain[n].idIndex > 0
    decreases n
  {
    if n > 0 {
      ChainWithoutZero(chain, reports, decode, n - 1);
      BlockIds(chain[n - 1], chain[n], reports[n - 1], decode);
      RunWithoutZero(Opened(chain[n - 1]), chain[n].txs, reports[n - 1], decode);
      CommitPrunes(chain[n - 1], chain[n], reports[n - 1], decode);
      CommitKeeps(Run(Opened(chain[n - 1]), chain[n].txs, reports[n - 1], decode).state, StateOf(chain[n]));
    }
  }

  // ---------------------------------------------------------------------------------------------
  // Genesis
  // ---------------------------------------------------------------------------------------------

  /** An account of the configuration. */
  datatype Entry = Entry(space: nat, wallet: nat, address: Address, balance: int)

  /** The state and the wallet index after the first `n` entries. */
  ghost function Configured(entries: seq<Entry>, n: nat): (State, nat)
    requires n <= |entries|
  {
    if n == 0 then (State(map[], map[], {}), 0)
    else
      var s, c := Configured(entries, n - 1).0, entries[n - 1];
      var f := Founded(s, c.space, c.wallet, c.address);
      (SetBalance(f.0, c.address, c.balance), if f.1 then (c.wallet + 1) % TWO64 else c.wallet)
  }

  /** genesis.go `ToBlock`: the configured spaces are founded and the space index is 1, whatever they are. */
  method ToBlock(entries: seq<Entry>, walk: Walk) returns (b: Option<Block>)
    requires WalkOk(walk)
    ensures var (s, wallets) := Configured(entries, |entries|);
            && (b.Some? <==> NonNegative(s))
            && (b.Some? ==> BlockOk(b.value) && b.value.idIndex == 1 && b.value.walletIndex == wallets)
            && (b.Some? ==> b.value.spaces == Lasting(s.spaces, EmptySpace) && AccountsOf(b.value.records) == Lasting(s.accounts, EmptyAccount))
  {
    var db := new StateDB(map[], map[], map[]);
    var walletindex := 0;
    for i := 0 to |entries|
      invariant db.Valid() && db.seen == Configured(entries, i).0 && walletindex == Configured(entries, i).1 && fresh(db)
    {
      walletindex := db.CreateSpaceAndBindAddr(entries[i].space, entries[i].wallet, entries[i].address);
      db.SetBalance(entries[i].address, entries[i].balance);
    }
    ghost var s := db.seen;
    var stored := db.CommitTo(walk);
    if stored.None? { return None; }
    CommittedIs(stored.value.0, stored.value.1, s);
    b := Some(Block(stored.value.0, stored.value.1, 1, walletindex, 0, []));
  }

  /** The entry is the first for its space. */
  ghost predicate Founds(entries: seq<Entry>, i: nat)
    requires i < |entries|
  {
    forall j :: 0 <= j < i ==> entries[j].space != entries[i].space
  }

  /** The space an address founded last among the first `n` entries; 0 if none. */
  ghost function SpaceAfter(entries: seq<Entry>, n: nat, a: Address): nat
    requires n <= |entries|
  {
    if n == 0 then 0
    else if entries[n - 1].address == a && Founds(entries, n - 1) then entries[n - 1].space
    else SpaceAfter(entries, n - 1, a)
  }

  /** The balance an address was given last; 0 if none. */
  ghost function BalanceAfter(entries: seq<Entry>, n: nat, a: Address): int
    requires n <= |entries|
  {
    if n == 0 then 0 else if entries[n - 1].address == a then entries[n - 1].balance else BalanceAfter(entries, n - 1, a)
  }

  /** Whether space 0 lists an address. */
  ghost predicate OnZero(entries: seq<Entry>, n: nat, a: Address)
    requires n <= |entries|
  {
    n > 0 &&
    if entries[n - 1].address != a || !Founds(entries, n - 1) then OnZero(entries, n - 1, a)
    else if entries[n - 1].space == 0 then true
    else OnZero(entries, n - 1, a) && (SpaceAfter(entries, n - 1, a) != 0 || BalanceAfter(entries, n - 1, a) == 0)
  }

  ghost predicate Configures(entries: seq<Entry>, n: nat, id: nat)
    requires n <= |entries|
  {
    exists i :: 0 <= i < n && entries[i].space == id
  }

  ghost predicate Mentions(entries: seq<Entry>, n: nat, a: Address)
    requires n <= |entries|
  {
    exists i :: 0 <= i < n && entries[i].address == a
  }

  /** The spaces are the configured ones, and the accounts stand where the configuration says. */
  ghost predicate Placed(entries: seq<Entry>, n: nat, s: State)
    requires n <= |entries|
  {
    && (forall id :: id in s.spaces <==> Configures(entries, n, id))
    && (forall a :: a in s.accounts <==> Mentions(entries, n, a))
    && (forall a :: a in s.accounts ==> var c := s.accounts[a];
          c.space == SpaceAfter(entries, n, a) && c.balance == BalanceAfter(entries, n, a) && c.attrs == map[])
  }

  lemma {:induction false} ConfiguredPlaced(entries: seq<Entry>, n: nat)
    requires n <= |entries|
    ensures Placed(entries, n, Configured(entries, n).0)
    decreases n
  {
    if n > 0 {
      ConfiguredPlaced(entries, n - 1);
      PlacedStep(entries, n, Configured(entries, n - 1).0);
    }
  }

  lemma WalletStep(s: State, c: Entry, a: Address)
    requires a in s.accounts || a == c.address
    ensures var s' := SetBalance(Founded(s, c.space, c.wallet, c.address).0, c.address, c.balance);
            a in s'.accounts && s'.accounts[a].wallet == if a in s.accounts then s.accounts[a].wallet else c.wallet
  {
  }

  /** The first entry of an address gives it its wallet id. */
  lemma {:induction false} ConfiguredWallets(entries: seq<Entry>, n: nat, i: nat)
    requires i < n <= |entries| && !Mentions(entries, i, entries[i].address)
    ensures var s := Configured(entries, n).0; entries[i].address in s.accounts && s.accounts[entries[i].address].wallet == entries[i].wallet
    decreases n
  {
    ConfiguredPlaced(entries, n - 1);
    if i < n - 1 { ConfiguredWallets(entries, n - 1, i); }
    WalletStep(Configured(entries, n - 1).0, entries[n - 1], entries[i].address);
  }

  /** The last entry of all gives the next wallet id. */
  lemma NextWallet(entries: seq<Entry>, n: nat)
    requires 0 < n <= |entries|
    ensures var last := entries[n - 1];
            Configured(entries, n).1 == if Mentions(entries, n - 1, last.address) then last.wallet else (last.wallet + 1) % TWO64
  {
    ConfiguredPlaced(entries, n - 1);
  }

  lemma PlacedStep(entries: seq<Entry>, n: nat, s: State)
    requires 0 < n <= |entries| && Placed(entries, n - 1, s)
    ensures var c := entries[n - 1];
            Placed(entries, n, SetBalance(Founded(s, c.space, c.wallet, c.address).0, c.address, c.balance))
  {
    var c := entries[n - 1];
    var s' := SetBalance(Founded(s, c.space, c.wallet, c.address).0, c.address, c.balance);
    assert Founds(entries, n - 1) <==> c.space !in s.spaces;
    forall id ensures id in s'.spaces <==> Configures(entries, n, id) {
      if id == c.space { assert entries[n - 1].space == id; }
      assert Configures(entries, n, id) <==> id == c.space || Configures(entries, n - 1, id);
    }
    forall a ensures a in s'.accounts <==> Mentions(entries, n, a) {
      if a == c.address { assert entries[n - 1].address == a; }
      assert Mentions(entries, n, a) <==> a == c.address || Mentions(entries, n - 1, a);
    }
    if c.address !in s.accounts { Unmentioned(entries, n - 1, c.address); }
  }

  lemma {:induction false} Unmentioned(entries: seq<Entry>, n: nat, a: Address)
    requires n <= |entries| && !Mentions(entries, n, a)
    ensures SpaceAfter(entries, n, a) == 0 && BalanceAfter(entries, n, a) == 0 && !OnZero(entries, n, a)
    decreases n
  {
    if n > 0 { Unmentioned(entries, n - 1, a); }
  }

  /** Every space but 0 lists just the accounts that name it; space 0 lists those that `OnZero` says. */
  lemma {:induction false} ConfiguredLists(entries: seq<Entry>, n: nat, id: nat, a: Address)
    requires n <= |entries|
    ensures var s := Configured(entries, n).0;
            Listed(s, id, a) == if id != 0 then Named(s, id, a) else if OnZero(entries, n, a) then 1 else 0
    decreases n
  {
    if n > 0 {
      ConfiguredPlaced(entries, n - 1);
      ConfiguredLists(entries, n - 1, id, a);
      ListsStep(entries, n, id, a, Configured(entries, n - 1).0);
    }
  }

  lemma ListsStep(entries: seq<Entry>, n: nat, id: nat, a: Address, s: State)
    requires 0 < n <= |entries| && Placed(entries, n - 1, s)
    requires Listed(s, id, a) == if id != 0 then Named(s, id, a) else if OnZero(entries, n - 1, a) then 1 else 0
    ensures var c := entries[n - 1];
            var s' := SetBalance(Founded(s, c.space, c.wallet, c.address).0, c.address, c.balance);
            Listed(s', id, a) == if id != 0 then Named(s', id, a) else if OnZero(entries, n, a) then 1 else 0
  {
    var c := entries[n - 1];
    var s1 := Founded(s, c.space, c.wallet, c.address).0;
    var s' := SetBalance(s1, c.address, c.balance);
    assert Listed(s', id, a) == Listed(s1, id, a) && Named(s', id, a) == Named(s1, id, a);
    assert Configures(entries, n - 1, c.space) <==> !Founds(entries, n - 1);
    assert Mentions(entries, n - 1, a) <==> a in s.accounts;
    SpaceConfigured(entries, n - 1, a);
    if a !in s.accounts { Unmentioned(entries, n - 1, a); }
    if c.space !in s.spaces { FoundedCounts(s, c.space, c.wallet, c.address, id, a); }
  }

  lemma {:induction false} SpaceConfigured(entries: seq<Entry>, n: nat, a: Address)
    requires n <= |entries|
    ensures SpaceAfter(entries, n, a) == 0 || Configures(entries, n, SpaceAfter(entries, n, a))
    decreases n
  {
    if n > 0 {
      SpaceConfigured(entries, n - 1, a);
      if SpaceAfter(entries, n, a) == entries[n - 1].space { assert Configures(entries, n, entries[n - 1].space); }
    }
  }

  /** Only the list of space 0 can go wrong. */
  lemma LinkedByZero(entries: seq<Entry>, n: nat)
    requires n <= |entries|
    ensures Linked(Configured(entries, n).0) <==>
            (Configures(entries, n, 0) ==> forall a :: Mentions(entries, n, a) ==> (OnZero(entries, n, a) <==> SpaceAfter(entries, n, a) == 0))
  {
    var s := Configured(entries, n).0;
    ConfiguredPlaced(entries, n);
    forall id, a ensures Listed(s, id, a) == if id != 0 then Named(s, id, a) else if OnZero(entries, n, a) then 1 else 0 {
      ConfiguredLists(entries, n, id, a);
    }
    forall a | a in s.accounts ensures s.accounts[a].space == 0 || s.accounts[a].space in s.spaces { SpaceConfigured(entries, n, a); }
    forall a | !Mentions(entries, n, a) ensures !OnZero(entries, n, a) { Unmentioned(entries, n, a); }
    if Linked(s) && 0 in s.spaces {
      forall a | Mentions(entries, n, a) ensures OnZero(entries, n, a) <==> SpaceAfter(entries, n, a) == 0 {
        assert Listed(s, 0, a) == Named(s, 0, a);
      }
    }
  }

  /** The address founded a space. */
  ghost predicate Founder(entries: seq<Entry>, n: nat, a: Address)
    requires n <= |entries|
  {
    exists i :: 0 <= i < n && entries[i].address == a && Founds(entries, i)
  }

  /** The founder of space 0, in entry `z`, founds another space in entry `k` while it has no balance. */
  ghost predicate LeavesEmpty(entries: seq<Entry>, z: nat, k: nat)
    requires z < k < |entries|
  {
    var a := entries[z].address;
    && Founds(entries, z) && entries[z].space == 0 && Founds(entries, k) && entries[k].address == a
    && SpaceAfter(entries, k, a) == 0 && BalanceAfter(entries, k, a) == 0
  }

  ghost predicate LeftEmpty(entries: seq<Entry>, n: nat, a: Address)
    requires n <= |entries|
  {
    exists z: nat, k: nat :: z < k < n && entries[k].address == a && LeavesEmpty(entries, z, k)
  }

  /** Of the addresses without another space, space 0 lists those that founded it. */
  lemma {:induction false} StillThere(entries: seq<Entry>, n: nat, a: Address)
    requires n <= |entries| && SpaceAfter(entries, n, a) == 0
    ensures OnZero(entries, n, a) <==> Founder(entries, n, a)
    ensures Founder(entries, n, a) ==> exists z :: 0 <= z < n && entries[z].address == a && Founds(entries, z) && entries[z].space == 0
    decreases n
  {
    if n > 0 && !(entries[n - 1].address == a && Founds(entries, n - 1)) { StillThere(entries, n - 1, a); }
  }

  /** Nobody founds space 0 twice, so nobody comes back to it. */
  lemma {:induction false} NeverBack(entries: seq<Entry>, z: nat, k: nat, n: nat)
    requires z < k < n <= |entries| && entries[z].space == 0 && Founds(entries, k)
    ensures SpaceAfter(entries, n, entries[k].address) != 0
    decreases n
  {
    if k < n - 1 { NeverBack(entries, z, k, n - 1); }
  }

  /** Of the addresses with another space, it lists those that left it with no balance. */
  lemma {:induction false} StillListed(entries: seq<Entry>, n: nat, a: Address)
    requires n <= |entries| && SpaceAfter(entries, n, a) != 0
    ensures OnZero(entries, n, a) <==> LeftEmpty(entries, n, a)
    decreases n
  {
    if entries[n - 1].address == a && Founds(entries, n - 1) {
      if SpaceAfter(entries, n - 1, a) == 0 {
        StillThere(entries, n - 1, a);
        forall z: nat, k: nat | z < k < n - 1 && entries[k].address == a ensures !LeavesEmpty(entries, z, k) {
          if LeavesEmpty(entries, z, k) { NeverBack(entries, z, k, n - 1); }
        }
        if OnZero(entries, n, a) {
          var z :| 0 <= z < n - 1 && entries[z].address == a && Founds(entries, z) && entries[z].space == 0;
          assert LeavesEmpty(entries, z, n - 1);
        }
      } else {
        StillListed(entries, n - 1, a);
        SameLeft(entries, n, a);
      }
    } else {
      StillListed(entries, n - 1, a);
      SameLeft(entries, n, a);
    }
  }

  lemma SameLeft(entries: seq<Entry>, n: nat, a: Address)
    requires 0 < n <= |entries|
    requires entries[n - 1].address == a && Founds(entries, n - 1) ==> SpaceAfter(entries, n - 1, a) != 0
    ensures LeftEmpty(entries, n, a) <==> LeftEmpty(entries, n - 1, a)
  {
    if LeftEmpty(entries, n, a) {
      var z: nat, k: nat :| z < k < n && entries[k].address == a && LeavesEmpty(entries, z, k);
      assert k < n - 1;
    }
  }

  /** Every address founded a space, and the founder of space 0 did not found another while it had no balance. */
  ghost predicate Settled(entries: seq<Entry>, n: nat)
    requires n <= |entries|
  {
    && (forall i :: 0 <= i < n ==> Founder(entries, n, entries[i].address))
    && (forall z: nat, k: nat :: z < k < n ==> !LeavesEmpty(entries, z, k))
  }

  /** The list of space 0 is right exactly then. */
  lemma ZeroIsRight(entries: seq<Entry>, n: nat)
    requires n <= |entries|
    ensures (forall a :: Mentions(entries, n, a) ==> (OnZero(entries, n, a) <==> SpaceAfter(entries, n, a) == 0)) <==> Settled(entries, n)
  {
    forall a ensures OnZero(entries, n, a) <==> if SpaceAfter(entries, n, a) == 0 then Founder(entries, n, a) else LeftEmpty(entries, n, a) {
      if SpaceAfter(entries, n, a) == 0 { StillThere(entries, n, a); } else { StillListed(entries, n, a); }
    }
    if forall a :: Mentions(entries, n, a) ==> (OnZero(entries, n, a) <==> SpaceAfter(entries, n, a) == 0) {
      forall i | 0 <= i < n ensures Founder(entries, n, entries[i].address) {
        assert Mentions(entries, n, entries[i].address);
        if SpaceAfter(entries, n, entries[i].address) != 0 { HasFounded(entries, n, entries[i].address); }
      }
      forall z: nat, k: nat | z < k < n ensures !LeavesEmpty(entries, z, k) {
        assert Mentions(entries, n, entries[k].address);
        if LeavesEmpty(entries, z, k) { NeverBack(entries, z, k, n); }
      }
    }
  }

  lemma {:induction false} HasFounded(entries: seq<Entry>, n: nat, a: Address)
    requires n <= |entries| && SpaceAfter(entries, n, a) != 0
    ensures Founder(entries, n, a)
    decreases n
  {
    if !(entries[n - 1].address == a && Founds(entries, n - 1)) { HasFounded(entries, n - 1, a); }
  }

  /** The configured spaces and accounts are related as they should be exactly when space 0 is not configured, or all are settled. */
  lemma GenesisLinked(entries: seq<Entry>, n: nat)
    requires n <= |entries|
    ensures Linked(Configured(entries, n).0) <==> (forall i :: 0 <= i < n ==> entries[i].space != 0) || Settled(entries, n)
  {
    LinkedByZero(entries, n);
    ZeroIsRight(entries, n);
    assert Configures(entries, n, 0) <==> !forall i :: 0 <= i < n ==> entries[i].space != 0;
  }

  /** No address is left in space 0 without a balance. */
  ghost predicate Funded(entries: seq<Entry>) {
    var n := |entries|;
    forall i :: 0 <= i < n ==> SpaceAfter(entries, n, entries[i].address) != 0 || BalanceAfter(entries, n, entries[i].address) != 0
  }

  lemma FundedIs(entries: seq<Entry>, s: State)
    requires Placed(entries, |entries|, s)
    ensures (forall a :: a in s.accounts ==> !Trapped(s, a)) <==> (forall i :: 0 <= i < |entries| ==> entries[i].space != 0) || Funded(entries)
  {
    assert 0 in s.spaces <==> Configures(entries, |entries|, 0);
    forall i | 0 <= i < |entries| ensures entries[i].address in s.accounts { assert Mentions(entries, |entries|, entries[i].address); }
    if !Funded(entries) {
      var i :| 0 <= i < |entries| && !(SpaceAfter(entries, |entries|, entries[i].address) != 0 || BalanceAfter(entries, |entries|, entries[i].address) != 0);
      assert entries[i].address in s.accounts;
    }
  }

  /** Committing them keeps that exactly when space 0 is not configured, or no address is left in it without a balance. */
  lemma GenesisBlock(entries: seq<Entry>, b: Block)
    requires Pruned(Configured(entries, |entries|).0, StateOf(b)) && Linked(Configured(entries, |entries|).0)
    ensures Linked(StateOf(b)) <==> (forall i :: 0 <= i < |entries| ==> entries[i].space != 0) || Funded(entries)
  {
    ConfiguredPlaced(entries, |entries|);
    FundedIs(entries, Configured(entries, |entries|).0);
    CommitKeeps(Configured(entries, |entries|).0, StateOf(b));
  }

  /** A chain from a configuration without space 0 keeps the relation for ever, whatever the configured ids. */
  lemma {:induction false} ChainFromGenesis(entries: seq<Entry>, chain: seq<Block>, reports: seq<Reports>, decode: Decoder, n: nat)
    requires forall i :: 0 <= i < |entries| ==> entries[i].space != 0
    requires Chain(chain, reports, decode) && n <= |reports|
    requires Pruned(Configured(entries, |entries|).0, StateOf(chain[0])) && chain[0].idIndex == 1
    ensures Linked(StateOf(chain[n]))
  {
    GenesisLinked(entries, |entries|);
    GenesisBlock(entries, chain[0]);
    ConfiguredPlaced(entries, |entries|);
    assert 0 !in chain[0].spaces;
    ChainWithoutZero(chain, reports, decode, n);
  }

  /** Founding space 0 over and over: it lists the first account only, and all others are left without a space. */
  lemma {:induction false} OnlyFirstListed(entries: seq<Entry>, n: nat)
    requires 0 < n <= |entries| && forall i :: 0 <= i < n ==> entries[i].space == 0
    ensures var s := Configured(entries, n).0;
            && s.spaces == map[0 := Space(0, 0, [entries[0].address])]
            && (forall i :: 0 <= i < n ==> entries[i].address in s.accounts)
            && (forall a :: a in s.accounts ==> s.accounts[a].space == 0 && exists i :: 0 <= i < n && entries[i].address == a)
    decreases n
  {
    var s := Configured(entries, n).0;
    if n == 1 {
      assert Configured(entries, 0).0 == State(map[], map[], {});
      assert NEW_SPACE.bound + [entries[0].address] == [entries[0].address];
    } else {
      OnlyFirstListed(entries, n - 1);
      forall a | a in s.accounts ensures exists i :: 0 <= i < n && entries[i].address == a {
        if a == entries[n - 1].address { assert entries[n - 1].address == a; }
      }
    }
  }

  /** The relation and the space index are right exactly for a configuration of one account, in space 0. */
  lemma GenesisSane(entries: seq<Entry>)
    requires entries != []
    ensures var s := Configured(entries, |entries|).0;
            Linked(s) && SpacesOk(s, 1) <==> forall i :: 0 <= i < |entries| ==> entries[i].space == 0 && entries[i].address == entries[0].address
  {
    var s, n := Configured(entries, |entries|).0, |entries|;
    if SpacesOk(s, 1) {
      ConfiguredPlaced(entries, n);
      forall i | 0 <= i < n ensures entries[i].space == 0 { assert Configures(entries, n, entries[i].space); }
    }
    if forall i :: 0 <= i < n ==> entries[i].space == 0 {
      OnlyFirstListed(entries, n);
      if forall i :: 0 <= i < n ==> entries[i].address == entries[0].address {
        forall id, a ensures Listed(s, id, a) == Named(s, id, a) {}
      }
      if Linked(s) {
        forall i | 0 <= i < n ensures entries[i].address == entries[0].address {
          assert Listed(s, 0, entries[i].address) == Named(s, 0, entries[i].address);
        }
      }
    }
  }

  /** Such a configuration makes a sane block exactly when the account is given a balance. */
  lemma GenesisCommitted(entries: seq<Entry>, b: Block)
    requires entries != [] && forall i :: 0 <= i < |entries| ==> entries[i].space == 0 && entries[i].address == entries[0].address
    requires Pruned(Configured(entries, |entries|).0, StateOf(b))
    ensures Linked(StateOf(b)) && SpacesOk(StateOf(b), 1) <==> entries[|entries| - 1].balance != 0
  {
    var s, n, a := Configured(entries, |entries|).0, |entries|, entries[0].address;
    GenesisSane(entries);
    OnlyFirstListed(entries, n);
    assert entries[n - 1].address == a && s.accounts[a].balance == entries[n - 1].balance;
    NoAttributes(entries, n, a);
    CommitKeeps(s, StateOf(b));
    CommitIds(s, StateOf(b), 1, 0);
  }

  lemma {:induction false} NoAttributes(entries: seq<Entry>, n: nat, a: Address)
    requires n <= |entries| && a in Configured(entries, n).0.accounts
    ensures Configured(entries, n).0.accounts[a].attrs == map[]
    decreases n
  {
    if n > 0 && a in Configured(entries, n - 1).0.accounts { NoAttributes(entries, n - 1, a); }
  }
}

/**
 Accounts and spaces (statemanage.go, account_object.go, space_object.go) as two maps, and what every
 change of them keeps: an account names a space exactly when that space lists the account, once.
 Addresses are only compared for equality, so numbers stand for them.
 */
module SpaceState {
  import opened Bytes

  type Address = int

  datatype Account = Account(space: nat, balance: int, wallet: nat, attrs: map<bytes, bytes>)

  datatype Space = Space(nonce: nat, balance: int, bound: seq<Address>)

  /** Accounts and spaces as readers see them, and the accounts changed since the state was opened. */
  datatype State = State(accounts: map<Address, Account>, spaces: map<nat, Space>, touched: set<Address>)

  const NEW_SPACE := Space(0, 0, [])

  function NewAccount(wallet: nat): Account { Account(0, 0, wallet, map[]) }

  /** account_object.go `empty`. */
  predicate EmptyAccount(a: Account) { a.space == 0 && a.attrs == map[] && a.balance == 0 }

  /** space_object.go `empty`. */
  predicate EmptySpace(s: Space) { s.nonce == 0 && s.balance == 0 && s.bound == [] }

  // ---------------------------------------------------------------------------------------------
  // Changes of one object
  // ---------------------------------------------------------------------------------------------

  function SetBalance(s: State, a: Address, x: int): State {
    if a in s.accounts then s.(accounts := s.accounts[a := s.accounts[a].(balance := x)], touched := s.touched + {a}) else s
  }

  function AddBalance(s: State, a: Address, x: int): State {
    if a in s.accounts && x != 0 then SetBalance(s, a, s.accounts[a].balance + x) else s
  }

  function SetAttribute(s: State, a: Address, k: bytes, v: bytes): State {
    if a in s.accounts then
      s.(accounts := s.accounts[a := s.accounts[a].(attrs := s.accounts[a].attrs[k := v])], touched := s.touched + {a})
    else s
  }

  /** space_object.go `SubBalance`: every change of a balance counts in the nonce. */
  function SubSpaceBalance(s: State, id: nat, x: int): State {
    if id in s.spaces && x != 0 then
      var sp := s.spaces[id];
      s.(spaces := s.spaces[id := Space((sp.nonce + 1) % TWO64, sp.balance - x, sp.bound)])
    else s
  }

  // ---------------------------------------------------------------------------------------------
  // Binding accounts to spaces
  // ---------------------------------------------------------------------------------------------

  /** space_object.go `RemoveAddress`. */
  function Without(bound: seq<Address>, a: Address): seq<Address> {
    if bound == [] then []
    else if bound[|bound| - 1] == a then Without(bound[..|bound| - 1], a)
    else Without(bound[..|bound| - 1], a) + [bound[|bound| - 1]]
  }

  /** statemanage.go `unassociateSpaceAndAccount`. */
  function Unassociated(s: State, id: nat, a: Address): State
    requires id in s.spaces && a in s.accounts
  {
    State(s.accounts[a := s.accounts[a].(space := 0)],
          s.spaces[id := s.spaces[id].(bound := Without(s.spaces[id].bound, a))],
          s.touched + {a})
  }

  /** statemanage.go `associateSpaceAndAccount`: an account leaves the space it was bound to before. */
  function Associated(s: State, id: nat, a: Address): State
    requires id in s.spaces && a in s.accounts
  {
    var prev := s.accounts[a].space;
    Attached(if !EmptyAccount(s.accounts[a]) && prev in s.spaces then Unassociated(s, prev, a) else s, id, a)
  }

  function Attached(s: State, id: nat, a: Address): State
    requires id in s.spaces && a in s.accounts
  {
    State(s.accounts[a := s.accounts[a].(space := id)],
          s.spaces[id := s.spaces[id].(bound := s.spaces[id].bound + [a])],
          s.touched + {a})
  }

  /** statemanage.go `CreateSpaceAndBindAddr`: the new state, and whether a wallet id was used. */
  function Founded(s: State, id: nat, wallet: nat, a: Address): (State, bool) {
    var s1 := if a in s.accounts then s else s.(accounts := s.accounts[a := NewAccount(wallet)]);
    (if id in s.spaces then s1 else Associated(s1.(spaces := s1.spaces[id := NEW_SPACE]), id, a), a !in s.accounts)
  }

  /** statemanage.go `BindAddr`: an account that does not exist is not created. */
  function Bound(s: State, id: nat, a: Address): State {
    if id in s.spaces && a in s.accounts then Associated(s, id, a) else s
  }

  /** statemanage.go `UnbindAddr`. */
  function Unbound(s: State, id: nat, a: Address): State {
    if id in s.spaces && a in s.accounts then Unassociated(s, id, a) else s
  }

  // ---------------------------------------------------------------------------------------------
  // The relation between accounts and spaces
  // ---------------------------------------------------------------------------------------------

  /** How often a space lists an account. */
  ghost function Listed(s: State, id: nat, a: Address): nat {
    if id in s.spaces then multiset(s.spaces[id].bound)[a] else 0
  }

  /** Whether an account names a space. */
  ghost function Named(s: State, id: nat, a: Address): nat {
    if id in s.spaces && a in s.accounts && s.accounts[a].space == id then 1 else 0
  }

  /** An account names a space exactly when the space lists it once; no account names a missing space. */
  ghost predicate Linked(s: State) {
    && (forall id, a {:trigger Listed(s, id, a)} :: Listed(s, id, a) == Named(s, id, a))
    && (forall a :: a in s.accounts ==> s.accounts[a].space == 0 || s.accounts[a].space in s.spaces)
  }

  lemma {:induction false} WithoutCounts(bound: seq<Address>, a: Address, x: Address)
    ensures multiset(Without(bound, a))[x] == if x == a then 0 else multiset(bound)[x]
    decreases |bound|
  {
    if bound != [] {
      WithoutCounts(bound[..|bound| - 1], a, x);
      assert bound == bound[..|bound| - 1] + [bound[|bound| - 1]];
    }
  }

  /** The others stay, in their order. */
  lemma {:induction false} WithoutOrder(bound: seq<Address>, a: Address, rest: seq<Address>)
    ensures Without(bound + rest, a) == Without(bound, a) + Without(rest, a)
    ensures a !in bound ==> Without(bound, a) == bound
    ensures a !in Without(bound, a)
    decreases |bound|, |rest|
  {
    if rest != [] {
      var init, last := rest[..|rest| - 1], rest[|rest| - 1];
      WithoutOrder(bound, a, init);
      assert (bound + rest)[..|bound + rest| - 1] == bound + init;
    } else {
      assert bound + rest == bound;
      if bound != [] { WithoutOrder(bound[..|bound| - 1], a, []); }
    }
  }

  lemma UnassociatedCounts(s: State, id: nat, a: Address, i: nat, x: Address)
    requires id in s.spaces && a in s.accounts
    ensures Listed(Unassociated(s, id, a), i, x) == if i == id && x == a then 0 else Listed(s, i, x)
    ensures Named(Unassociated(s, id, a), i, x) == if x == a then (if i == 0 && i in s.spaces then 1 else 0) else Named(s, i, x)
  {
    if i == id { WithoutCounts(s.spaces[id].bound, a, x); }
  }

  /**
   Unbinding keeps the relation exactly when the account is bound to that very space, or to none. Where
   there is a space 0 an account without a space counts as one of it, so there only the unbinding of an
   account of space 0 from another space, which does nothing, is safe.
   */
  lemma UnboundKeeps(s: State, id: nat, a: Address)
    requires Linked(s)
    ensures Linked(Unbound(s, id, a)) <==>
            || a !in s.accounts || id !in s.spaces
            || (s.accounts[a].space == 0 && (0 in s.spaces ==> id != 0))
            || (s.accounts[a].space == id && 0 !in s.spaces)
  {
    if a in s.accounts && id in s.spaces {
      var s', home := Unbound(s, id, a), s.accounts[a].space;
      UnassociatedCounts(s, id, a, home, a);
      UnassociatedCounts(s, id, a, 0, a);
      assert Listed(s, home, a) == Named(s, home, a) && Listed(s, 0, a) == Named(s, 0, a);
      if Linked(s') {
        assert Listed(s', home, a) == Named(s', home, a) && Listed(s', 0, a) == Named(s', 0, a);
      } else {
        forall i, x | !(0 in s.spaces && home != 0) && (home == id || home == 0) && !(0 in s.spaces && id == 0)
          ensures Listed(s', i, x) == Named(s', i, x)
        {
          UnassociatedCounts(s, id, a, i, x);
          assert Listed(s, i, x) == Named(s, i, x);
        }
      }
    }
  }

  /** Two accounts named by the same wallet id, or by one not handed out yet, do not exist. */
  ghost predicate WalletsOk(s: State, nextWallet: nat) {
    forall a, b {:trigger Wallet(s, a), Wallet(s, b)} :: a in s.accounts && b in s.accounts ==>
      Wallet(s, a) < nextWallet && (a != b ==> Wallet(s, a) != Wallet(s, b))
  }

  function Wallet(s: State, a: Address): int { if a in s.accounts then s.accounts[a].wallet else -1 }

  ghost predicate SpacesOk(s: State, nextSpace: nat) {
    forall id :: id in s.spaces ==> id < nextSpace
  }

  // ---------------------------------------------------------------------------------------------
  // Every change keeps the relation
  // ---------------------------------------------------------------------------------------------

  /** `associateSpaceAndAccount` does not ask an empty account where it was; space 0 may list it. */
  ghost predicate Trapped(s: State, a: Address) {
    a in s.accounts && EmptyAccount(s.accounts[a]) && 0 in s.spaces
  }

  lemma AssociatedCounts(s: State, id: nat, a: Address, i: nat, x: Address)
    requires id in s.spaces && a in s.accounts
    ensures var leaves := !EmptyAccount(s.accounts[a]) && s.accounts[a].space in s.spaces;
            Listed(Associated(s, id, a), i, x) ==
            if x != a then Listed(s, i, x)
            else (if leaves && i == s.accounts[a].space then 0 else Listed(s, i, a)) + (if i == id then 1 else 0)
    ensures Named(Associated(s, id, a), i, x) == if x != a then Named(s, i, x) else if i == id then 1 else 0
  {
    var prev := s.accounts[a].space;
    if prev in s.spaces { UnassociatedCounts(s, prev, a, i, x); }
    AttachedCounts(if !EmptyAccount(s.accounts[a]) && prev in s.spaces then Unassociated(s, prev, a) else s, id, a, i, x);
  }

  lemma AttachedCounts(s: State, id: nat, a: Address, i: nat, x: Address)
    requires id in s.spaces && a in s.accounts
    ensures Listed(Attached(s, id, a), i, x) == Listed(s, i, x) + if i == id && x == a then 1 else 0
    ensures Named(Attached(s, id, a), i, x) == if x != a then Named(s, i, x) else if i == id then 1 else 0
  {
  }

  /** Association keeps the relation exactly when the account is not an empty one that space 0 lists. */
  lemma AssociatedKeeps(s: State, id: nat, a: Address)
    requires Linked(s) && id in s.spaces && a in s.accounts
    ensures Linked(Associated(s, id, a)) <==> !Trapped(s, a)
    ensures Trapped(s, a) <==> EmptyAccount(s.accounts[a]) && Listed(s, 0, a) == 1
  {
    var s' := Associated(s, id, a);
    AssociatedCounts(s, id, a, 0, a);
    assert Listed(s, 0, a) == Named(s, 0, a);
    if Trapped(s, a) {
      assert Listed(s', 0, a) != Named(s', 0, a);
    } else {
      forall i, x ensures Listed(s', i, x) == Named(s', i, x) {
        AssociatedCounts(s, id, a, i, x);
        assert Listed(s, i, x) == Named(s, i, x);
      }
    }
  }

  /** What stands in the way of founding a space: it exists already, or is space 0, or the trap above. */
  ghost predicate FoundingFails(s: State, id: nat, a: Address) {
    if id in s.spaces then a !in s.accounts && 0 in s.spaces
    else if id == 0 then exists b :: b in s.accounts && b != a && s.accounts[b].space == 0
    else Trapped(s, a)
  }

  lemma FoundedCounts(s: State, id: nat, wallet: nat, a: Address, i: nat, x: Address)
    requires id !in s.spaces
    ensures var leaves := a in s.accounts && !EmptyAccount(s.accounts[a]) && s.accounts[a].space in s.spaces;
            Listed(Founded(s, id, wallet, a).0, i, x) ==
            if x != a then Listed(s, i, x)
            else if i == id then 1 else if leaves && i == s.accounts[a].space then 0 else Listed(s, i, a)
    ensures Named(Founded(s, id, wallet, a).0, i, x) ==
            if x == a then (if i == id then 1 else 0)
            else if i == id then (if x in s.accounts && s.accounts[x].space == id then 1 else 0) else Named(s, i, x)
  {
    var s1 := if a in s.accounts then s else s.(accounts := s.accounts[a := NewAccount(wallet)]);
    var s2 := s1.(spaces := s1.spaces[id := NEW_SPACE]);
    AssociatedCounts(s2, id, a, i, x);
  }

  /** Founding keeps the relation exactly when nothing stands in its way. */
  lemma FoundedKeeps(s: State, id: nat, wallet: nat, a: Address)
    requires Linked(s)
    ensures Linked(Founded(s, id, wallet, a).0) <==> !FoundingFails(s, id, a)
  {
    var s' := Founded(s, id, wallet, a).0;
    assert Listed(s, 0, a) == Named(s, 0, a);
    if id in s.spaces {
      RefusedKeeps(s, id, wallet, a);
    } else if FoundingFails(s, id, a) {
      if id == 0 {
        var b :| b in s.accounts && b != a && s.accounts[b].space == 0;
        FoundedCounts(s, id, wallet, a, 0, b);
        assert Listed(s', 0, b) != Named(s', 0, b);
      } else {
        FoundedCounts(s, id, wallet, a, 0, a);
        assert Listed(s', 0, a) != Named(s', 0, a);
      }
    } else {
      forall i, x ensures Listed(s', i, x) == Named(s', i, x) {
        FoundedCounts(s, id, wallet, a, i, x);
        assert Listed(s, i, x) == Named(s, i, x);
      }
    }
  }

  /** A space that exists is not founded again; the account may still be new. */
  lemma RefusedKeeps(s: State, id: nat, wallet: nat, a: Address)
    requires Linked(s) && id in s.spaces
    ensures Linked(Founded(s, id, wallet, a).0) <==> a in s.accounts || 0 !in s.spaces
  {
    var s' := Founded(s, id, wallet, a).0;
    assert Listed(s, 0, a) == Named(s, 0, a);
    if a !in s.accounts && 0 in s.spaces {
      assert Listed(s', 0, a) != Named(s', 0, a);
    } else {
      forall i, x ensures Listed(s', i, x) == Named(s', i, x) {
        assert Listed(s, i, x) == Named(s, i, x);
      }
    }
  }

  /** Ids stay below the next one, and wallet ids distinct, whatever the founding does to the relation. */
  lemma FoundedIds(s: State, id: nat, wallet: nat, a: Address)
    ensures SpacesOk(s, id) ==> SpacesOk(Founded(s, id, wallet, a).0, id + 1)
    ensures WalletsOk(s, wallet) ==>
              WalletsOk(Founded(s, id, wallet, a).0, if Founded(s, id, wallet, a).1 then wallet + 1 else wallet)
  {
    var s3, next := Founded(s, id, wallet, a).0, if Founded(s, id, wallet, a).1 then wallet + 1 else wallet;
    if WalletsOk(s, wallet) {
      forall x, y | x in s3.accounts && y in s3.accounts ensures Wallet(s3, x) < next && (x != y ==> Wallet(s3, x) != Wallet(s3, y)) {
        assert Wallet(s3, x) == if x !in s.accounts then wallet else Wallet(s, x);
        assert Wallet(s3, y) == if y !in s.accounts then wallet else Wallet(s, y);
      }
    }
  }

  /** Binding moves one account from the space it names, unless it is empty, to the end of another's list. */
  lemma BoundDoes(s: State, id: nat, a: Address)
    requires id in s.spaces && a in s.accounts
    ensures var s', was := Bound(s, id, a), s.accounts[a];
            var leaves := was.space != 0 || was.balance != 0 || was.attrs != map[];
            && s'.accounts == s.accounts[a := was.(space := id)] && s'.spaces.Keys == s.spaces.Keys
            && forall i :: i in s.spaces ==> var sp := s.spaces[i];
                 var left := if leaves && i == was.space then Without(sp.bound, a) else sp.bound;
                 s'.spaces[i] == Space(sp.nonce, sp.balance, if i == id then left + [a] else left)
  {
  }

  /** Unbinding takes an account off one list and leaves it without a space, whatever space it named. */
  lemma UnboundDoes(s: State, id: nat, a: Address)
    requires id in s.spaces && a in s.accounts
    ensures var s' := Unbound(s, id, a);
            && s'.accounts == s.accounts[a := s.accounts[a].(space := 0)]
            && s'.spaces == s.spaces[id := s.spaces[id].(bound := Without(s.spaces[id].bound, a))]
  {
  }

  lemma BoundKeeps(s: State, id: nat, a: Address)
    requires Linked(s)
    ensures Linked(Bound(s, id, a)) <==> id !in s.spaces || !Trapped(s, a)
  {
    if id in s.spaces && a in s.accounts { AssociatedKeeps(s, id, a); }
  }

  /** The trap is real: an empty account of space 0 founds space 1 and is listed by both. */
  lemma SpaceZeroTrap(s: State)
    requires s == State(map[9 := Account(0, 0, 0, map[])], map[0 := Space(0, 0, [9])], {})
    ensures Linked(s) && SpacesOk(s, 1) && WalletsOk(s, 1)
    ensures !Linked(Founded(s, 1, 1, 9).0) && Listed(Founded(s, 1, 1, 9).0, 0, 9) == 1 && Founded(s, 1, 1, 9).0.accounts[9].space == 1
  {
    forall i, x ensures Listed(s, i, x) == Named(s, i, x) {}
    FoundedKeeps(s, 1, 1, 9);
    FoundedCounts(s, 1, 1, 9, 0, 9);
  }

  /** A change that moves no account and no list. */
  ghost predicate SameBinding(s: State, s': State) {
    && s'.accounts.Keys == s.accounts.Keys && s'.spaces.Keys == s.spaces.Keys
    && (forall a :: a in s.accounts ==> s'.accounts[a].space == s.accounts[a].space && s'.accounts[a].wallet == s.accounts[a].wallet)
    && (forall id :: id in s.spaces ==> s'.spaces[id].bound == s.spaces[id].bound)
  }

  lemma SameLinks(s: State, s': State, nextSpace: nat, nextWallet: nat)
    requires SameBinding(s, s')
    ensures (Linked(s) ==> Linked(s')) && (SpacesOk(s, nextSpace) ==> SpacesOk(s', nextSpace))
    ensures WalletsOk(s, nextWallet) ==> WalletsOk(s', nextWallet)
  {
    if Linked(s) {
      forall i, x ensures Listed(s', i, x) == Named(s', i, x) {
        assert Listed(s, i, x) == Named(s, i, x);
      }
    }
    if WalletsOk(s, nextWallet) {
      forall a, b | a in s'.accounts && b in s'.accounts ensures Wallet(s', a) < nextWallet && (a != b ==> Wallet(s', a) != Wallet(s', b)) {
        assert Wallet(s', a) == Wallet(s, a) && Wallet(s', b) == Wallet(s, b);
      }
    }
  }

  /** The relation and both kinds of ids. */
  ghost predicate Sane(s: State, nextSpace: nat, nextWallet: nat) {
    Linked(s) && SpacesOk(s, nextSpace) && WalletsOk(s, nextWallet)
  }

  /** An account on a list of space 0 that is gone or names another space. */
  ghost predicate Stray(s: State, a: Address) {
    Listed(s, 0, a) > 0 && (a !in s.accounts || s.accounts[a].space != 0)
  }

  /** Founding further spaces does not repair it. */
  lemma StrayStays(s: State, id: nat, wallet: nat, a: Address, x: Address)
    requires Stray(s, x) && id > 0 && id !in s.spaces
    ensures Stray(Founded(s, id, wallet, a).0, x)
  {
    FoundedCounts(s, id, wallet, a, 0, x);
  }

  // ---------------------------------------------------------------------------------------------
  // Committing
  // ---------------------------------------------------------------------------------------------

  /** Dropping empty accounts and spaces, as a commit does. */
  ghost predicate Pruned(s: State, s': State) {
    && (forall a :: a in s'.accounts <==> a in s.accounts && !EmptyAccount(s.accounts[a]))
    && (forall a :: a in s'.accounts ==> s'.accounts[a] == s.accounts[a])
    && (forall id :: id in s'.spaces <==> id in s.spaces && !EmptySpace(s.spaces[id]))
    && (forall id :: id in s'.spaces ==> s'.spaces[id] == s.spaces[id])
  }

  /** A commit keeps the relation exactly when it drops no account that space 0 lists. */
  lemma CommitKeeps(s: State, s': State)
    requires Linked(s) && Pruned(s, s')
    ensures Linked(s') <==> forall a :: a in s.accounts ==> !Trapped(s, a)
    ensures forall a :: a in s.accounts && Trapped(s, a) ==> Stray(s', a)
  {
    forall a | a in s.accounts && Trapped(s, a) ensures Stray(s', a) {
      assert Listed(s, 0, a) == Named(s, 0, a);
      assert Listed(s', 0, a) == 1;
    }
    if forall a :: a in s.accounts ==> !Trapped(s, a) {
      forall i, x ensures Listed(s', i, x) == Named(s', i, x) {
        assert Listed(s, i, x) == Named(s, i, x);
      }
      forall a | a in s'.accounts ensures s'.accounts[a].space == 0 || s'.accounts[a].space in s'.spaces {
        var home := s.accounts[a].space;
        assert Listed(s, home, a) == Named(s, home, a);
      }
    } else {
      var a :| a in s.accounts && Trapped(s, a);
      assert Listed(s', 0, a) != Named(s', 0, a);
    }
  }

  lemma CommitIds(s: State, s': State, nextSpace: nat, nextWallet: nat)
    requires Pruned(s, s')
    ensures (SpacesOk(s, nextSpace) ==> SpacesOk(s', nextSpace)) && (WalletsOk(s, nextWallet) ==> WalletsOk(s', nextWallet))
  {
    if WalletsOk(s, nextWallet) {
      forall a, b | a in s'.accounts && b in s'.accounts ensures Wallet(s', a) < nextWallet && (a != b ==> Wallet(s', a) != Wallet(s', b)) {
        assert Wallet(s', a) == Wallet(s, a) && Wallet(s', b) == Wallet(s, b);
      }
    }
  }

  lemma StrayKept(s: State, s': State, a: Address)
    requires Pruned(s, s') && Stray(s, a)
    ensures Stray(s', a)
  {
  }

  // ---------------------------------------------------------------------------------------------
  // What can be written
  // ---------------------------------------------------------------------------------------------

  /** A negative number has no encoding (rlp/encode.go `writeBigInt`). */
  predicate Writable(a: Account) { a.balance >= 0 }

  predicate WritableSpace(s: Space) { s.balance >= 0 }
}

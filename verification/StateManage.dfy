/**
 statemanage.go: the state object, two object caches over two tries. Each operation does to what
 readers see what the function of the same purpose in `SpaceState` does, up to the first finalise.
 */
module StateManage {
  import opened Bytes
  import opened ObjectCache
  import opened SpaceState
  import opened AccountRecord

  /** space_object.go `RemoveAddress`. */
  method RemoveAddress(bound: seq<Address>, a: Address) returns (left: seq<Address>)
    ensures left == Without(bound, a)
  {
    left := [];
    for i := 0 to |bound|
      invariant left == Without(bound[..i], a)
    {
      assert bound[..i + 1][..i] == bound[..i];
      if bound[i] != a { left := left + [bound[i]]; }
    }
    assert bound[..|bound|] == bound;
  }

  /** Every balance can be written. */
  ghost predicate NonNegative(s: State) { AllFit(s.accounts, Writable) && AllFit(s.spaces, WritableSpace) }

  /**
   What a commit keeps: an account that names a space, has an attribute or has a balance, and a space that has a
   nonce, a balance or a bound address, as they are; and no others.
   */
  ghost predicate KeptOf(s: State, spaces: map<nat, Space>, accounts: map<Address, Account>) {
    && (forall a :: a in accounts <==> a in s.accounts && (s.accounts[a].space != 0 || s.accounts[a].attrs != map[] || s.accounts[a].balance != 0))
    && (forall a :: a in accounts ==> accounts[a] == s.accounts[a])
    && (forall i :: i in spaces <==> i in s.spaces && (s.spaces[i].nonce != 0 || s.spaces[i].balance != 0 || s.spaces[i].bound != []))
    && (forall i :: i in spaces ==> spaces[i] == s.spaces[i])
  }

  lemma KeptIs(s: State, spaces: map<nat, Space>, records: map<Address, Record>)
    requires spaces == Lasting(s.spaces, EmptySpace) && Stored(records, Lasting(s.accounts, EmptyAccount))
    ensures KeptOf(s, spaces, AccountsOf(records))
  {
    StoredDecodes(records, Lasting(s.accounts, EmptyAccount));
  }

  class StateDB {
    var accounts: Layer<Address, Account>
    var spaces: Layer<nat, Space>
    /** The stored accounts as they are encoded. */
    const records: map<Address, Record>
    /** What readers see, and the accounts changed so far. */
    ghost var seen: State

    ghost predicate Valid()
      reads this
    {
      Ok(accounts, seen.accounts, EmptyAccount) && Ok(spaces, seen.spaces, EmptySpace) && Rest()
    }

    /** The changed accounts are the dirty ones; what is stored can be stored. */
    ghost predicate Rest()
      reads this
    {
      && accounts.dirty == seen.touched && Stored(records, accounts.trie)
      && AllFit(accounts.trie, Writable) && AllFit(spaces.trie, WritableSpace)
    }

    /** statemanage.go `New`, over the stored accounts and spaces. */
    constructor (records: map<Address, Record>, ghost storedAccounts: map<Address, Account>, storedSpaces: map<nat, Space>)
      requires Stored(records, storedAccounts)
      requires NoneEmpty(storedAccounts, EmptyAccount) && NoneEmpty(storedSpaces, EmptySpace)
      requires AllFit(storedAccounts, Writable) && AllFit(storedSpaces, WritableSpace)
      ensures Valid() && seen == State(storedAccounts, storedSpaces, {}) && this.records == records
    {
      var decoded := map a | a in records :: AccountOf(records[a]);
      StoredDecodes(records, storedAccounts);
      this.records := records;
      accounts, spaces := Layer(decoded, map[], {}, {}), Layer(storedSpaces, map[], {}, {});
      seen := State(storedAccounts, storedSpaces, {});
      StartOk(storedAccounts, EmptyAccount);
      StartOk(storedSpaces, EmptySpace);
    }

    method GetAccountObject(a: Address) returns (r: Option<Account>)
      requires Valid()
      modifies `accounts, `seen
      ensures Valid() && seen == old(seen)
      ensures r == Lookup(seen.accounts, a)
      ensures (r.Some? ==> a in accounts.cache) && old(accounts.cache.Keys) <= accounts.cache.Keys
    {
      LoadIsLookup(accounts, seen.accounts, EmptyAccount, a);
      var l := Load(accounts, a);
      accounts, r := l.0, l.1;
    }

    method GetSpaceObject(id: nat) returns (r: Option<Space>)
      requires Valid()
      modifies `spaces, `seen
      ensures Valid() && seen == old(seen)
      ensures r == Lookup(seen.spaces, id)
      ensures (r.Some? ==> id in spaces.cache) && old(spaces.cache.Keys) <= spaces.cache.Keys
    {
      LoadIsLookup(spaces, seen.spaces, EmptySpace, id);
      var l := Load(spaces, id);
      spaces, r := l.0, l.1;
    }

    method SetBalance(a: Address, x: int)
      requires Valid()
      modifies `accounts, `seen
      ensures Valid() && seen == SpaceState.SetBalance(old(seen), a, x)
    {
      var acc := GetAccountObject(a);
      if acc.Some? {
        ChangeIsUpdate(accounts, seen.accounts, EmptyAccount, a, acc.value.(balance := x));
        accounts := Change(accounts, a, acc.value.(balance := x));
        seen := SpaceState.SetBalance(seen, a, x);
      }
    }

    method AddBalance(a: Address, x: int)
      requires Valid()
      modifies `accounts, `seen
      ensures Valid() && seen == SpaceState.AddBalance(old(seen), a, x)
    {
      var acc := GetAccountObject(a);
      if acc.Some? && x != 0 {
        ChangeIsUpdate(accounts, seen.accounts, EmptyAccount, a, acc.value.(balance := acc.value.balance + x));
        accounts := Change(accounts, a, acc.value.(balance := acc.value.balance + x));
        seen := SpaceState.AddBalance(seen, a, x);
      }
    }

    method SubBalance(a: Address, x: int)
      requires Valid()
      modifies `accounts, `seen
      ensures Valid() && seen == SpaceState.AddBalance(old(seen), a, -x)
    {
      AddBalance(a, -x);
    }

    /** statemanage.go `GetAttribute`. */
    method GetAttribute(a: Address, k: bytes) returns (v: Option<bytes>)
      requires Valid()
      modifies `accounts, `seen
      ensures Valid() && seen == old(seen)
      ensures v == if a in seen.accounts then Lookup(seen.accounts[a].attrs, k) else None
    {
      var acc := GetAccountObject(a);
      v := if acc.Some? && k in acc.value.attrs then Some(acc.value.attrs[k]) else None;
    }

    /** A reader finds the value under its key, and every other attribute as it was. */
    method SetAttribute(a: Address, k: bytes, v: bytes)
      requires Valid()
      modifies `accounts, `seen
      ensures Valid() && seen == SpaceState.SetAttribute(old(seen), a, k, v)
      ensures a in seen.accounts ==> Lookup(seen.accounts[a].attrs, k) == Some(v)
      ensures forall j :: a in old(seen.accounts) && j != k ==> a in seen.accounts && Lookup(seen.accounts[a].attrs, j) == Lookup(old(seen.accounts[a]).attrs, j)
    {
      var acc := GetAccountObject(a);
      if acc.Some? {
        ChangeIsUpdate(accounts, seen.accounts, EmptyAccount, a, acc.value.(attrs := acc.value.attrs[k := v]));
        accounts := Change(accounts, a, acc.value.(attrs := acc.value.attrs[k := v]));
        seen := SpaceState.SetAttribute(seen, a, k, v);
      }
    }

    method SubSpaceBalance(id: nat, x: int)
      requires Valid()
      modifies `spaces, `seen
      ensures Valid() && seen == SpaceState.SubSpaceBalance(old(seen), id, x)
    {
      var sp := GetSpaceObject(id);
      if sp.Some? && x != 0 {
        var sp' := Space((sp.value.nonce + 1) % TWO64, sp.value.balance - x, sp.value.bound);
        ChangeIsUpdate(spaces, seen.spaces, EmptySpace, id, sp');
        spaces := Change(spaces, id, sp');
        seen := SpaceState.SubSpaceBalance(seen, id, x);
      }
    }

    method Unassociate(id: nat, a: Address)
      requires Valid() && id in spaces.cache && a in accounts.cache
      requires id in seen.spaces && a in seen.accounts
      modifies this
      ensures Valid() && id in spaces.cache && a in accounts.cache && old(spaces.cache.Keys) <= spaces.cache.Keys
      ensures seen == Unassociated(old(seen), id, a)
    {
      CachedIsSeen(accounts, seen.accounts, EmptyAccount, a);
      CachedIsSeen(spaces, seen.spaces, EmptySpace, id);
      var acc, sp := accounts.cache[a], spaces.cache[id];
      var left := RemoveAddress(sp.bound, a);
      ChangeIsUpdate(accounts, seen.accounts, EmptyAccount, a, acc.(space := 0));
      ChangeIsUpdate(spaces, seen.spaces, EmptySpace, id, sp.(bound := left));
      accounts, spaces := Change(accounts, a, acc.(space := 0)), Change(spaces, id, sp.(bound := left));
      seen := Unassociated(seen, id, a);
    }

    method Associate(id: nat, a: Address)
      requires Valid() && id in spaces.cache && a in accounts.cache
      requires id in seen.spaces && a in seen.accounts
      modifies this
      ensures Valid() && seen == Associated(old(seen), id, a)
    {
      CachedIsSeen(accounts, seen.accounts, EmptyAccount, a);
      CachedIsSeen(spaces, seen.spaces, EmptySpace, id);
      var acc := accounts.cache[a];
      if !EmptyAccount(acc) {
        var prev := GetSpaceObject(acc.space);
        if prev.Some? { Unassociate(acc.space, a); }
      }
      Attach(id, a);
    }

    /** The end of `associateSpaceAndAccount`. */
    method Attach(id: nat, a: Address)
      requires Valid() && id in spaces.cache && a in accounts.cache
      requires id in seen.spaces && a in seen.accounts
      modifies this
      ensures Valid()
      ensures seen == Attached(old(seen), id, a)
    {
      CachedIsSeen(accounts, seen.accounts, EmptyAccount, a);
      CachedIsSeen(spaces, seen.spaces, EmptySpace, id);
      var acc, sp := accounts.cache[a], spaces.cache[id];
      ChangeIsUpdate(accounts, seen.accounts, EmptyAccount, a, acc.(space := id));
      ChangeIsUpdate(spaces, seen.spaces, EmptySpace, id, sp.(bound := sp.bound + [a]));
      accounts, spaces := Change(accounts, a, acc.(space := id)), Change(spaces, id, sp.(bound := sp.bound + [a]));
      seen := Attached(seen, id, a);
    }

    /** statemanage.go `CreateSpaceAndBindAddr`; wallet ids are 64-bit numbers. */
    method CreateSpaceAndBindAddr(id: nat, walletid: nat, a: Address) returns (next: nat)
      requires Valid()
      modifies this
      ensures Valid() && seen == Founded(old(seen), id, walletid, a).0
      ensures next == if Founded(old(seen), id, walletid, a).1 then (walletid + 1) % TWO64 else walletid
    {
      var acc := GetAccountObject(a);
      next := walletid;
      if acc.None? {
        CreateIsUpdate(accounts, seen.accounts, EmptyAccount, a, NewAccount(walletid));
        accounts := Create(accounts, a, NewAccount(walletid));
        seen := seen.(accounts := seen.accounts[a := NewAccount(walletid)]);
        next := (walletid + 1) % TWO64;
      }
      var sp := GetSpaceObject(id);
      if sp.None? {
        CreateIsUpdate(spaces, seen.spaces, EmptySpace, id, NEW_SPACE);
        spaces := Create(spaces, id, NEW_SPACE);
        seen := seen.(spaces := seen.spaces[id := NEW_SPACE]);
        Associate(id, a);
      }
    }

    /** statemanage.go `BindAddr`; the branch that would create an account is never taken. */
    method BindAddr(id: nat, walletid: nat, a: Address) returns (next: nat)
      requires Valid()
      modifies this
      ensures Valid() && seen == Bound(old(seen), id, a) && next == walletid
    {
      var sp := GetSpaceObject(id);
      var acc := GetAccountObject(a);
      if sp.Some? && acc.Some? { Associate(id, a); }
      next := walletid;
    }

    /** statemanage.go `UnbindAddr`. */
    method UnbindAddr(id: nat, a: Address)
      requires Valid()
      modifies this
      ensures Valid() && seen == Unbound(old(seen), id, a)
    {
      var sp := GetSpaceObject(id);
      if sp.Some? {
        var acc := GetAccountObject(a);
        if acc.Some? { Unassociate(id, a); }
      }
    }

    /**
     statemanage.go `CommitTo`: what readers saw is stored, without the empty objects; changed accounts are
     encoded anew, each in the order `walk` gives. There is no result when a balance is negative: it
     cannot be encoded and the program ends.
     */
    method CommitTo(walk: Walk) returns (r: Option<(map<nat, Space>, map<Address, Record>)>)
      requires Valid() && WalkOk(walk)
      modifies this
      ensures r.Some? <==> old(NonNegative(seen))
      ensures r.Some? ==> r.value.0 == Lasting(old(seen).spaces, EmptySpace)
      ensures r.Some? ==>
                var kept := Lasting(old(seen).accounts, EmptyAccount);
                r.value.1 == Recorded(records, kept, old(seen).touched, walk) && Stored(r.value.1, kept)
      ensures r.Some? ==> KeptOf(old(seen), r.value.0, AccountsOf(r.value.1))
    {
      WrittenIsSeen(spaces, seen.spaces, EmptySpace);
      WritesIsSeen(spaces, seen.spaces, EmptySpace, WritableSpace);
      WrittenIsSeen(accounts, seen.accounts, EmptyAccount);
      WritesIsSeen(accounts, seen.accounts, EmptyAccount, Writable);
      KeptIsStored(accounts, seen.accounts, records);
      ghost var was := seen;
      var written := accounts.dirty;
      var s := Finalise(spaces, EmptySpace, WritableSpace);
      if s.None? { return None; }
      spaces := s.value;
      var a := Finalise(accounts, EmptyAccount, Writable);
      if a.None? { return None; }
      accounts := a.value;
      RecordedStores(records, accounts.trie, written, walk);
      r := Some((spaces.trie, map x | x in accounts.trie && (x in written || x in records) ::
        if x in written then RecordOf(accounts.trie[x], walk(x, accounts.trie[x].attrs)) else records[x]));
      KeptIs(was, r.value.0, r.value.1);
    }
  }

  lemma StoredDecodes(records: map<Address, Record>, stored: map<Address, Account>)
    requires Stored(records, stored)
    ensures (map a | a in records :: AccountOf(records[a])) == stored
  {
    forall a | a in records ensures AccountOf(records[a]) == stored[a] { RecordRoundTrip(stored[a], records[a].keys); }
  }

  /** An account that was not changed is stored as it is. */
  lemma KeptIsStored(l: Layer<Address, Account>, seen: map<Address, Account>, records: map<Address, Record>)
    requires Ok(l, seen, EmptyAccount) && Stored(records, l.trie)
    ensures var kept := Lasting(seen, EmptyAccount);
            forall a :: a in kept && a !in l.dirty ==> a in records && Encodes(records[a], kept[a])
  {
    forall a | a in Lasting(seen, EmptyAccount) && a !in l.dirty ensures a in l.trie && seen[a] == l.trie[a] {
      OkAt(l, seen, EmptyAccount, a);
    }
  }
}

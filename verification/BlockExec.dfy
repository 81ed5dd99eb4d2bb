/**
 Executing the transactions of a block. The same interpreter is written three times in the source:
 for the proposer (worker.go `buildBlock`), the validator (worker.go `validateBlock`) and the inserter
 (blockchain.go `Process`). Senders and costs are taken as part of a transaction, and how attribute
 data decodes is a parameter.
 */
module BlockExec {
  import opened Bytes
  import opened ObjectCache
  import opened SpaceState
  import opened AccountRecord
  import opened StateManage

  /** A transaction; `data[0]` is its kind and the rest, for some kinds, an encoded attribute. */
  datatype Tx = Tx(hash: int, data: bytes, from: Address, to: Address, value: int, cost: int)

  type Decoder = bytes -> (bytes, bytes)

  /** What the pool hands to the proposer for a transaction. */
  datatype Message = Message(hash: int, to: Address, from: Address, cost: int, amount: int, data: bytes)

  type uint64 = x: int | 0 <= x < TWO64

  /** One entry of a liquidation report: gas to take from a space. */
  datatype Report = Report(space: nat, gas: uint64)

  type Reports = map<int, seq<Report>>

  /** The state of a run: accounts and spaces, the next space and wallet ids, and the cost so far. */
  datatype Exec = Exec(state: State, nextSpace: nat, nextWallet: nat, cost: int)

  // ---------------------------------------------------------------------------------------------
  // One interpreter
  // ---------------------------------------------------------------------------------------------

  /** What `Uint64` of a big integer gives: the low 64 bits of its absolute value. */
  function Low64(x: int): uint64 { (if x < 0 then -x else x) % TWO64 }

  /** `LiquidationToState`: at most the balance is taken, read as a 64-bit number. */
  function Liquidated(s: State, r: Report): State {
    var balance := if r.space in s.spaces then s.spaces[r.space].balance else 0;
    if Low64(balance) > r.gas then SubSpaceBalance(s, r.space, r.gas) else SubSpaceBalance(s, r.space, balance)
  }

  ghost function LiquidatedAll(s: State, rs: seq<Report>): State
    decreases |rs|
  {
    if rs == [] then s else LiquidatedAll(Liquidated(s, rs[0]), rs[1..])
  }

  ghost function ReportsOf(reports: Reports, hash: int): seq<Report> {
    if hash in reports then reports[hash] else []
  }

  ghost predicate Kinded(tx: Tx) { |tx.data| > 0 }

  /** The effect of one transaction. */
  ghost function Apply(e: Exec, tx: Tx, reports: Reports, decode: Decoder): Exec
    requires Kinded(tx)
  {
    var kind := tx.data[0];
    if kind == 1 then Founding(e, tx)
    else Exec(if kind == 2 then Transfer(e.state, tx)
              else if kind == 3 then Attribute(e.state, tx, decode)
              else if kind == 9 then LiquidatedAll(e.state, ReportsOf(reports, tx.hash))
              else if 4 <= kind <= 12 && kind != 6 then AddBalance(e.state, tx.from, -tx.cost)
              else e.state, e.nextSpace, e.nextWallet, e.cost + tx.cost)
  }

  /** Kind 1 founds the next space and binds the receiver to it. */
  ghost function Founding(e: Exec, tx: Tx): Exec {
    var (s, used) := Founded(e.state, e.nextSpace, e.nextWallet, tx.to);
    Exec(SetBalance(s, tx.to, 0), e.nextSpace + 1, if used then (e.nextWallet + 1) % TWO64 else e.nextWallet, e.cost + tx.cost)
  }

  /** Kind 2 moves a value; the cost is charged to the sender. */
  ghost function Transfer(s: State, tx: Tx): State {
    AddBalance(AddBalance(s, tx.to, tx.value), tx.from, -tx.cost)
  }

  /** Kind 3 sets an attribute of the receiver. */
  ghost function Attribute(s: State, tx: Tx, decode: Decoder): State
    requires Kinded(tx)
  {
    AddBalance(SetAttribute(s, tx.to, decode(tx.data[1..]).0, decode(tx.data[1..]).1), tx.from, -tx.cost)
  }

  ghost function Run(e: Exec, txs: seq<Tx>, reports: Reports, decode: Decoder): Exec
    requires forall i :: 0 <= i < |txs| ==> Kinded(txs[i])
    decreases |txs|
  {
    if txs == [] then e else Run(Apply(e, txs[0], reports, decode), txs[1..], reports, decode)
  }

  // ---------------------------------------------------------------------------------------------
  // What each kind of transaction does
  // ---------------------------------------------------------------------------------------------

  /** What `x` gains by a payment of `value` to `to` at a cost to `from`. */
  function Gain(x: Address, to: Address, value: int, from: Address, cost: int): int {
    (if x == to then value else 0) - (if x == from then cost else 0)
  }

  /** Only balances differ: each account that exists has gained what `gain` says. */
  ghost predicate OnlyGains(e: Exec, e': Exec, tx: Tx, to: Address, value: int) {
    && e'.state.accounts.Keys == e.state.accounts.Keys && e'.state.spaces == e.state.spaces
    && e'.nextSpace == e.nextSpace && e'.nextWallet == e.nextWallet && e'.cost == e.cost + tx.cost
    && forall x :: x in e.state.accounts ==> var was, now := e.state.accounts[x], e'.state.accounts[x];
         && now.balance == was.balance + Gain(x, to, value, tx.from, tx.cost)
         && now.space == was.space && now.wallet == was.wallet && now.attrs == was.attrs
  }

  /** Kind 2: the receiver gains the value, the sender loses the cost, and nothing else changes. */
  lemma PaymentDoes(e: Exec, tx: Tx, reports: Reports, decode: Decoder)
    requires Kinded(tx) && tx.data[0] == 2
    ensures OnlyGains(e, Apply(e, tx, reports, decode), tx, tx.to, tx.value)
  {
  }

  /** Kinds 4, 5, 7, 8, 10, 11 and 12: the sender loses the cost, and nothing else changes. */
  lemma ChargeDoes(e: Exec, tx: Tx, reports: Reports, decode: Decoder)
    requires Kinded(tx) && tx.data[0] in {4, 5, 7, 8, 10, 11, 12}
    ensures OnlyGains(e, Apply(e, tx, reports, decode), tx, tx.to, 0)
  {
  }

  /** Kind 6 and unknown kinds only count the cost. */
  lemma OthersDo(e: Exec, tx: Tx, reports: Reports, decode: Decoder)
    requires Kinded(tx) && (tx.data[0] in {0, 6} || tx.data[0] > 12)
    ensures Apply(e, tx, reports, decode) == e.(cost := e.cost + tx.cost)
  {
  }

  /** Kind 3: the receiver, if there is one, has the attribute, and the sender pays; nothing else changes. */
  lemma AttributeDoes(e: Exec, tx: Tx, reports: Reports, decode: Decoder)
    requires Kinded(tx) && tx.data[0] == 3
    ensures var e' := Apply(e, tx, reports, decode);
            var (k, v) := decode(tx.data[1..]);
            && e'.state.accounts.Keys == e.state.accounts.Keys && e'.state.spaces == e.state.spaces
            && e'.nextSpace == e.nextSpace && e'.nextWallet == e.nextWallet && e'.cost == e.cost + tx.cost
            && (tx.to in e.state.accounts ==> k in e'.state.accounts[tx.to].attrs && e'.state.accounts[tx.to].attrs[k] == v)
            && forall x :: x in e.state.accounts ==> var was, now := e.state.accounts[x], e'.state.accounts[x];
                 && now.balance == was.balance + Gain(x, tx.to, 0, tx.from, tx.cost) && now.space == was.space && now.wallet == was.wallet
                 && now.attrs - {k} == was.attrs - {k} && (x != tx.to ==> now.attrs == was.attrs)
  {
    var s1 := SetAttribute(e.state, tx.to, decode(tx.data[1..]).0, decode(tx.data[1..]).1);
    var k := decode(tx.data[1..]).0;
    if tx.to in e.state.accounts { assert s1.accounts[tx.to].attrs - {k} == e.state.accounts[tx.to].attrs - {k}; }
  }

  /** Kind 1, where the next space id is free: the receiver founds that space, leaves its old one, and has no balance. */
  lemma FoundingDoes(e: Exec, tx: Tx, reports: Reports, decode: Decoder)
    requires Kinded(tx) && tx.data[0] == 1 && e.nextSpace !in e.state.spaces
    ensures var e' := Apply(e, tx, reports, decode);
            var known := tx.to in e.state.accounts;
            var now := e'.state.accounts[tx.to];
            && e'.state.accounts.Keys == e.state.accounts.Keys + {tx.to} && e'.state.spaces.Keys == e.state.spaces.Keys + {e.nextSpace}
            && now.space == e.nextSpace && now.balance == 0
            && now.wallet == (if known then e.state.accounts[tx.to].wallet else e.nextWallet)
            && now.attrs == (if known then e.state.accounts[tx.to].attrs else map[])
            && e'.state.spaces[e.nextSpace] == Space(0, 0, [tx.to])
            && (forall x :: x in e.state.accounts && x != tx.to ==> e'.state.accounts[x] == e.state.accounts[x])
            && (forall i :: i in e.state.spaces ==> var was := e.state.spaces[i];
                  e'.state.spaces[i] == if Leaves(e.state, tx.to, i) then Space(was.nonce, was.balance, Without(was.bound, tx.to)) else was)
            && e'.nextSpace == e.nextSpace + 1 && e'.cost == e.cost + tx.cost
            && e'.nextWallet == (if known then e.nextWallet else (e.nextWallet + 1) % TWO64)
  {
    assert [] + [tx.to] == [tx.to];
  }

  /** An account leaves the space it names, if it has anything at all. */
  ghost predicate Leaves(s: State, a: Address, i: nat) {
    && a in s.accounts && s.accounts[a].space == i
    && (i != 0 || s.accounts[a].balance != 0 || s.accounts[a].attrs != map[])
  }

  /** Kind 1, where it is not free: the receiver has no balance, and a new one has no space; the id is used up all the same. */
  lemma RefusalDoes(e: Exec, tx: Tx, reports: Reports, decode: Decoder)
    requires Kinded(tx) && tx.data[0] == 1 && e.nextSpace in e.state.spaces
    ensures var e' := Apply(e, tx, reports, decode);
            var known := tx.to in e.state.accounts;
            && e'.state.accounts == e.state.accounts[tx.to := if known then e.state.accounts[tx.to].(balance := 0) else Account(0, 0, e.nextWallet, map[])]
            && e'.state.spaces == e.state.spaces && e'.nextSpace == e.nextSpace + 1 && e'.cost == e.cost + tx.cost
            && e'.nextWallet == (if known then e.nextWallet else (e.nextWallet + 1) % TWO64)
  {
  }

  /** What a report takes from a balance: the gas, or all there is; a balance is compared by its low 64 bits. */
  function Taken(balance: int, gas: uint64): int { if Low64(balance) > gas then gas else balance }

  /** Kind 9, one report: the space gives up what is taken, which counts in its nonce unless it is nothing. */
  lemma ReportDoes(s: State, r: Report)
    ensures var s' := Liquidated(s, r);
            && s'.accounts == s.accounts && s'.spaces.Keys == s.spaces.Keys
            && forall i :: i in s.spaces ==> var was, now := s.spaces[i], s'.spaces[i];
                 var taken := if i == r.space then Taken(was.balance, r.gas) else 0;
                 && now.balance == was.balance - taken && now.bound == was.bound
                 && now.nonce == if taken == 0 then was.nonce else (was.nonce + 1) % TWO64
  {
  }

  /** The report takes its gas, or the whole of a smaller balance, exactly when the low 64 bits do not mislead it. */
  lemma TakesTheLess(balance: nat, gas: uint64)
    ensures Taken(balance, gas) == (if balance < gas then balance else gas as int) <==> balance < TWO64 || Low64(balance) > gas
    ensures balance < TWO64 ==> balance - Taken(balance, gas) == if balance > gas then balance - gas else 0
  {
    SmallLow(balance);
  }

  lemma SmallLow(balance: nat)
    ensures (balance < TWO64 ==> Low64(balance) == balance) && Low64(0 - balance as int) == Low64(balance)
  {
  }

  /** Kind 9: the reports of the transaction are applied one after the other. */
  lemma {:induction false} LiquidationDoes(e: Exec, tx: Tx, reports: Reports, decode: Decoder)
    requires Kinded(tx) && tx.data[0] == 9
    ensures var e' := Apply(e, tx, reports, decode);
            && e'.state.accounts == e.state.accounts && e'.nextSpace == e.nextSpace && e'.nextWallet == e.nextWallet && e'.cost == e.cost + tx.cost
            && (tx.hash !in reports || reports[tx.hash] == [] ==> e'.state == e.state)
            && (tx.hash in reports && |reports[tx.hash]| == 1 ==> e'.state == Liquidated(e.state, reports[tx.hash][0]))
    ensures forall rs, r :: LiquidatedAll(e.state, rs + [r]) == Liquidated(LiquidatedAll(e.state, rs), r)
  {
    LiquidatedSame(e.state, ReportsOf(reports, tx.hash));
    forall rs, r ensures LiquidatedAll(e.state, rs + [r]) == Liquidated(LiquidatedAll(e.state, rs), r) { LastReport(e.state, rs, r); }
  }

  lemma {:induction false} LastReport(s: State, rs: seq<Report>, r: Report)
    ensures LiquidatedAll(s, rs + [r]) == Liquidated(LiquidatedAll(s, rs), r)
    decreases |rs|
  {
    if rs == [] {
      assert [r][1..] == [] && rs + [r] == [r];
    } else {
      assert (rs + [r])[0] == rs[0] && (rs + [r])[1..] == rs[1..] + [r];
      LastReport(Liquidated(s, rs[0]), rs[1..], r);
    }
  }

  // ---------------------------------------------------------------------------------------------
  // What every run keeps
  // ---------------------------------------------------------------------------------------------

  lemma {:induction false} LiquidatedSame(s: State, rs: seq<Report>)
    ensures SameBinding(s, LiquidatedAll(s, rs)) && LiquidatedAll(s, rs).accounts == s.accounts
    decreases |rs|
  {
    if rs != [] { LiquidatedSame(Liquidated(s, rs[0]), rs[1..]); }
  }

  /** Only kind 1 moves accounts or uses ids. */
  lemma OthersSame(e: Exec, tx: Tx, reports: Reports, decode: Decoder)
    requires Kinded(tx) && tx.data[0] != 1
    ensures var e' := Apply(e, tx, reports, decode);
            SameBinding(e.state, e'.state) && e'.nextSpace == e.nextSpace && e'.nextWallet == e.nextWallet
  {
    if tx.data[0] == 9 { LiquidatedSame(e.state, ReportsOf(reports, tx.hash)); }
  }

  /** Space ids stay below the next index; wallet ids stay distinct and below the next wallet index. */
  lemma ApplyIds(e: Exec, tx: Tx, reports: Reports, decode: Decoder)
    requires Kinded(tx)
    ensures var e' := Apply(e, tx, reports, decode);
            && e.nextSpace <= e'.nextSpace && (SpacesOk(e.state, e.nextSpace) ==> SpacesOk(e'.state, e'.nextSpace))
            && (e.nextWallet + 1 < TWO64 ==> e'.nextWallet <= e.nextWallet + 1)
            && (e.nextWallet + 1 < TWO64 && WalletsOk(e.state, e.nextWallet) ==> WalletsOk(e'.state, e'.nextWallet))
  {
    var e' := Apply(e, tx, reports, decode);
    if tx.data[0] == 1 {
      FoundedIds(e.state, e.nextSpace, e.nextWallet, tx.to);
      SameLinks(Founded(e.state, e.nextSpace, e.nextWallet, tx.to).0, e'.state, e'.nextSpace, e'.nextWallet);
    } else {
      OthersSame(e, tx, reports, decode);
      SameLinks(e.state, e'.state, e.nextSpace, e.nextWallet);
    }
  }

  /** A transaction that founds a space, where something stands in the way of founding it. */
  ghost predicate Traps(e: Exec, tx: Tx)
    requires Kinded(tx)
  {
    tx.data[0] == 1 && FoundingFails(e.state, e.nextSpace, tx.to)
  }

  /** A transaction keeps the relation between accounts and spaces exactly when it is not of that kind. */
  lemma ApplyLinks(e: Exec, tx: Tx, reports: Reports, decode: Decoder)
    requires Linked(e.state) && Kinded(tx)
    ensures Linked(Apply(e, tx, reports, decode).state) <==> !Traps(e, tx)
  {
    var s' := Apply(e, tx, reports, decode).state;
    if tx.data[0] == 1 {
      var s1 := Founded(e.state, e.nextSpace, e.nextWallet, tx.to).0;
      FoundedKeeps(e.state, e.nextSpace, e.nextWallet, tx.to);
      SameLinks(s1, s', 0, 0);
      SameLinks(s', s1, 0, 0);
    } else {
      OthersSame(e, tx, reports, decode);
      SameLinks(e.state, s', 0, 0);
    }
  }

  /** Where the next space id is free, it leaves an account on the list of space 0 that names another space. */
  lemma TrapStrays(e: Exec, tx: Tx, reports: Reports, decode: Decoder)
    requires Linked(e.state) && Kinded(tx) && Traps(e, tx) && e.nextSpace > 0 && e.nextSpace !in e.state.spaces
    ensures Stray(Apply(e, tx, reports, decode).state, tx.to)
  {
    var s' := Apply(e, tx, reports, decode).state;
    assert Listed(e.state, 0, tx.to) == Named(e.state, 0, tx.to);
    FoundedCounts(e.state, e.nextSpace, e.nextWallet, tx.to, 0, tx.to);
    assert Listed(s', 0, tx.to) == Listed(Founded(e.state, e.nextSpace, e.nextWallet, tx.to).0, 0, tx.to);
  }

  /** No transaction repairs the list of space 0. */
  lemma ApplyStray(e: Exec, tx: Tx, reports: Reports, decode: Decoder, x: Address)
    requires Stray(e.state, x) && Kinded(tx) && e.nextSpace > 0 && e.nextSpace !in e.state.spaces
    ensures Stray(Apply(e, tx, reports, decode).state, x)
  {
    var s' := Apply(e, tx, reports, decode).state;
    if tx.data[0] == 1 {
      StrayStays(e.state, e.nextSpace, e.nextWallet, tx.to, x);
      assert Listed(s', 0, x) == Listed(Founded(e.state, e.nextSpace, e.nextWallet, tx.to).0, 0, x);
    } else {
      OthersSame(e, tx, reports, decode);
      assert Listed(s', 0, x) == Listed(e.state, 0, x);
    }
  }

  /** No transaction of the run is of that kind at its turn. */
  ghost predicate Untrapped(e: Exec, txs: seq<Tx>, reports: Reports, decode: Decoder)
    requires forall i :: 0 <= i < |txs| ==> Kinded(txs[i])
    decreases |txs|
  {
    txs == [] || (!Traps(e, txs[0]) && Untrapped(Apply(e, txs[0], reports, decode), txs[1..], reports, decode))
  }

  /** The relation holds before the run and after each of its transactions. */
  ghost predicate AlwaysLinked(e: Exec, txs: seq<Tx>, reports: Reports, decode: Decoder)
    requires forall i :: 0 <= i < |txs| ==> Kinded(txs[i])
    decreases |txs|
  {
    Linked(e.state) && (txs != [] ==> AlwaysLinked(Apply(e, txs[0], reports, decode), txs[1..], reports, decode))
  }

  lemma {:induction false} RunStray(e: Exec, txs: seq<Tx>, reports: Reports, decode: Decoder, x: Address)
    requires (forall i :: 0 <= i < |txs| ==> Kinded(txs[i])) && SpacesOk(e.state, e.nextSpace) && e.nextSpace > 0 && Stray(e.state, x)
    ensures Stray(Run(e, txs, reports, decode).state, x)
    decreases |txs|
  {
    if txs != [] {
      ApplyIds(e, txs[0], reports, decode);
      ApplyStray(e, txs[0], reports, decode, x);
      RunStray(Apply(e, txs[0], reports, decode), txs[1..], reports, decode, x);
    }
  }

  /** Over every run, space ids stay below the next index, and wallet ids distinct and below theirs. */
  lemma {:induction false} RunIds(e: Exec, txs: seq<Tx>, reports: Reports, decode: Decoder)
    requires forall i :: 0 <= i < |txs| ==> Kinded(txs[i])
    ensures var e' := Run(e, txs, reports, decode);
            && e.nextSpace <= e'.nextSpace && (SpacesOk(e.state, e.nextSpace) ==> SpacesOk(e'.state, e'.nextSpace))
            && (e.nextWallet + |txs| < TWO64 && WalletsOk(e.state, e.nextWallet) ==> WalletsOk(e'.state, e'.nextWallet))
    decreases |txs|
  {
    if txs != [] {
      ApplyIds(e, txs[0], reports, decode);
      RunIds(Apply(e, txs[0], reports, decode), txs[1..], reports, decode);
    }
  }

  /**
   All through a run an account names a space exactly when that space lists it once, if and only if no
   transaction of the run founds a space that something stands in the way of.
   */
  lemma {:induction false} RunKeeps(e: Exec, txs: seq<Tx>, reports: Reports, decode: Decoder)
    requires Linked(e.state) && forall i :: 0 <= i < |txs| ==> Kinded(txs[i])
    ensures AlwaysLinked(e, txs, reports, decode) <==> Untrapped(e, txs, reports, decode)
    ensures AlwaysLinked(e, txs, reports, decode) ==> Linked(Run(e, txs, reports, decode).state)
    decreases |txs|
  {
    if txs != [] {
      ApplyLinks(e, txs[0], reports, decode);
      if !Traps(e, txs[0]) { RunKeeps(Apply(e, txs[0], reports, decode), txs[1..], reports, decode); }
    }
  }

  /** Where the next space id is above all that exist, what a run breaks it never repairs, so its end tells. */
  lemma {:induction false} RunEnds(e: Exec, txs: seq<Tx>, reports: Reports, decode: Decoder)
    requires Linked(e.state) && SpacesOk(e.state, e.nextSpace) && e.nextSpace > 0
    requires forall i :: 0 <= i < |txs| ==> Kinded(txs[i])
    ensures Linked(Run(e, txs, reports, decode).state) <==> Untrapped(e, txs, reports, decode)
    ensures !Untrapped(e, txs, reports, decode) ==> exists x :: Stray(Run(e, txs, reports, decode).state, x)
    decreases |txs|
  {
    if txs != [] {
      var e' := Apply(e, txs[0], reports, decode);
      ApplyLinks(e, txs[0], reports, decode);
      ApplyIds(e, txs[0], reports, decode);
      if Traps(e, txs[0]) {
        TrapStrays(e, txs[0], reports, decode);
        RunStray(e', txs[1..], reports, decode, txs[0].to);
        StrayUnlinks(Run(e, txs, reports, decode).state, txs[0].to);
      } else {
        RunEnds(e', txs[1..], reports, decode);
      }
    }
  }

  /** Elsewhere it does not: what the refused founding of space 1 breaks, the founding of space 2 repairs. */
  lemma RefusedThenRepaired(e: Exec, t: Tx, reports: Reports, decode: Decoder)
    requires e == Exec(State(map[], map[0 := NEW_SPACE, 1 := NEW_SPACE], {}), 1, 1, 0) && t == Tx(7, [1], 9, 9, 0, 0)
    ensures Linked(e.state) && !Linked(Apply(e, t, reports, decode).state) && Linked(Run(e, [t, t], reports, decode).state)
  {
    var e1 := Apply(e, t, reports, decode);
    var e2 := Apply(e1, t, reports, decode);
    assert Listed(e1.state, 0, 9) != Named(e1.state, 0, 9);
    assert [t, t][1..] == [t] && [t][1..] == [];
    assert Run(e, [t, t], reports, decode) == Run(e1, [t], reports, decode) == Run(e2, [], reports, decode);
    forall i, x ensures Listed(e2.state, i, x) == Named(e2.state, i, x) {
      FoundedCounts(e1.state, 2, e1.nextWallet, 9, i, x);
    }
  }

  lemma StrayUnlinks(s: State, x: Address)
    requires Stray(s, x)
    ensures !Linked(s)
  {
    assert Listed(s, 0, x) != Named(s, 0, x);
  }

  /** Without a space 0 no run breaks the relation, whatever the indices. */
  lemma {:induction false} RunWithoutZero(e: Exec, txs: seq<Tx>, reports: Reports, decode: Decoder)
    requires Linked(e.state) && 0 !in e.state.spaces && e.nextSpace > 0
    requires forall i :: 0 <= i < |txs| ==> Kinded(txs[i])
    ensures var e' := Run(e, txs, reports, decode);
            Linked(e'.state) && 0 !in e'.state.spaces && Untrapped(e, txs, reports, decode)
    decreases |txs|
  {
    if txs != [] {
      ApplyLinks(e, txs[0], reports, decode);
      ApplyIds(e, txs[0], reports, decode);
      if txs[0].data[0] != 1 { OthersSame(e, txs[0], reports, decode); }
      RunWithoutZero(Apply(e, txs[0], reports, decode), txs[1..], reports, decode);
    }
  }

  // ---------------------------------------------------------------------------------------------
  // What can be written after a run
  // ---------------------------------------------------------------------------------------------

  lemma {:induction false} LiquidatedWritable(s: State, rs: seq<Report>)
    requires AllFit(s.spaces, WritableSpace)
    ensures AllFit(LiquidatedAll(s, rs).spaces, WritableSpace)
    decreases |rs|
  {
    if rs != [] {
      assert AllFit(Liquidated(s, rs[0]).spaces, WritableSpace);
      LiquidatedWritable(Liquidated(s, rs[0]), rs[1..]);
    }
  }

  /** A run never overdraws a space, so only accounts can keep a state from being written. */
  lemma {:induction false} RunSpacesWritable(e: Exec, txs: seq<Tx>, reports: Reports, decode: Decoder)
    requires AllFit(e.state.spaces, WritableSpace) && forall i :: 0 <= i < |txs| ==> Kinded(txs[i])
    ensures AllFit(Run(e, txs, reports, decode).state.spaces, WritableSpace)
    decreases |txs|
  {
    if txs != [] {
      if txs[0].data[0] == 9 { LiquidatedWritable(e.state, ReportsOf(reports, txs[0].hash)); }
      assert AllFit(Apply(e, txs[0], reports, decode).state.spaces, WritableSpace);
      RunSpacesWritable(Apply(e, txs[0], reports, decode), txs[1..], reports, decode);
    }
  }

  /** tx_pool.go `validateTx`, as far as the state goes: each transaction is judged by the last block alone. */
  ghost predicate Admitted(s: State, tx: Tx) {
    tx.value >= 0 && tx.from in s.accounts && Low64(s.accounts[tx.from].balance) >= (Low64(tx.cost) + Low64(tx.value)) % TWO64
  }

  function Spender(balance: int, touched: set<Address>): Exec {
    Exec(State(map[1 := Account(0, balance, 0, map[])], map[], touched), 1, 1, 0)
  }

  /** Two transactions that are admitted one by one can overdraw an account, and then nothing can be written. */
  lemma OverdrawnPool(t: Tx, u: Tx, reports: Reports, decode: Decoder)
    requires t == Tx(7, [4], 1, 1, 0, 3) && u == Tx(8, [4], 1, 1, 0, 3)
    ensures var e := Spender(5, {}); Sane(e.state, 1, 1) && NonNegative(e.state) && Admitted(e.state, t) && Admitted(e.state, u)
    ensures Run(Spender(5, {}), [t, u], reports, decode).state == Spender(-1, {1}).state
    ensures !NonNegative(Spender(-1, {1}).state)
  {
    var e := Spender(5, {});
    assert Apply(e, t, reports, decode).state == Spender(2, {1}).state;
    assert Run(e, [t, u], reports, decode) == Run(Apply(e, t, reports, decode), [u], reports, decode) by { assert [t, u][1..] == [u]; }
    assert Run(Apply(e, t, reports, decode), [u], reports, decode).state == Spender(-1, {1}).state by { assert [u][1..] == []; }
    assert !Writable(Spender(-1, {1}).state.accounts[1]);
    forall i, x ensures Listed(e.state, i, x) == Named(e.state, i, x) {}
  }

  // ---------------------------------------------------------------------------------------------
  // The three loops
  // ---------------------------------------------------------------------------------------------

  /** worker.go and blockchain.go `LiquidationToState`. */
  method LiquidationToState(db: StateDB, rs: seq<Report>)
    requires db.Valid()
    modifies db
    ensures db.Valid() && db.seen == LiquidatedAll(old(db.seen), rs)
  {
    ghost var goal := LiquidatedAll(db.seen, rs);
    assert rs[0..] == rs;
    for i := 0 to |rs|
      invariant db.Valid() && LiquidatedAll(db.seen, rs[i..]) == goal
    {
      assert rs[i..][0] == rs[i] && rs[i..][1..] == rs[i + 1..];
      var sp := db.GetSpaceObject(rs[i].space);
      var balance := if sp.Some? then sp.value.balance else 0;
      if Low64(balance) > rs[i].gas {
        db.SubSpaceBalance(rs[i].space, rs[i].gas);
      } else {
        db.SubSpaceBalance(rs[i].space, balance);
      }
    }
  }

  /** tx_pool.go `GetAllTx`: the message of a transaction. */
  function MessageOf(tx: Tx): Message { Message(tx.hash, tx.to, tx.from, tx.cost, tx.value, tx.data) }

  /** Kind 1, as all three loops write it. */
  method Found(db: StateDB, spaceid: nat, walletid: nat, to: Address) returns (next: nat)
    requires db.Valid()
    modifies db
    ensures db.Valid() && db.seen == SetBalance(Founded(old(db.seen), spaceid, walletid, to).0, to, 0)
    ensures next == if Founded(old(db.seen), spaceid, walletid, to).1 then (walletid + 1) % TWO64 else walletid
  {
    next := db.CreateSpaceAndBindAddr(spaceid, walletid, to);
    db.SetBalance(to, 0);
  }

  /** Kind 2. */
  method Pay(db: StateDB, to: Address, value: int, from: Address, cost: int)
    requires db.Valid()
    modifies db
    ensures db.Valid() && db.seen == AddBalance(AddBalance(old(db.seen), to, value), from, -cost)
  {
    db.AddBalance(to, value);
    db.SubBalance(from, cost);
  }

  /** Kind 3. */
  method Describe(db: StateDB, to: Address, attr: (bytes, bytes), from: Address, cost: int)
    requires db.Valid()
    modifies db
    ensures db.Valid() && db.seen == AddBalance(SetAttribute(old(db.seen), to, attr.0, attr.1), from, -cost)
  {
    db.SetAttribute(to, attr.0, attr.1);
    db.SubBalance(from, cost);
  }

  /** What a loop has computed is the state of a run. */
  ghost predicate Ran(s: State, spaceid: nat, walletid: nat, cost: int, e: Exec) {
    s == e.state && spaceid == e.nextSpace && walletid == e.nextWallet && cost == e.cost
  }

  /** The body of the loop of `buildBlock`. */
  method BuildStep(db: StateDB, msg: Message, tx: Tx, spaceid: nat, walletid: nat, cost: int, reports: Reports, decode: Decoder)
    returns (spaceid': nat, walletid': nat, cost': int)
    requires db.Valid() && Kinded(tx) && msg == MessageOf(tx)
    modifies db
    ensures db.Valid()
    ensures Ran(db.seen, spaceid', walletid', cost', Apply(Exec(old(db.seen), spaceid, walletid, cost), tx, reports, decode))
  {
    spaceid', walletid', cost' := spaceid, walletid, cost + msg.cost;
    var kind := msg.data[0];
    if kind == 1 {
      walletid' := Found(db, spaceid, walletid, msg.to);
      spaceid' := spaceid + 1;
    } else if kind == 2 {
      Pay(db, msg.to, msg.amount, msg.from, msg.cost);
    } else if kind == 3 {
      Describe(db, msg.to, decode(msg.data[1..]), msg.from, msg.cost);
    } else if kind == 9 {
      if tx.hash in reports && |reports[tx.hash]| > 0 {
        LiquidationToState(db, reports[tx.hash]);
      }
    } else if 4 <= kind <= 12 && kind != 6 {
      db.SubBalance(msg.from, msg.cost);
    }
  }

  /** The body of the loop of `validateBlock`. */
  method ValidateStep(db: StateDB, tx: Tx, spaceid: nat, walletid: nat, cost: int, reports: Reports, decode: Decoder)
    returns (spaceid': nat, walletid': nat, cost': int)
    requires db.Valid() && Kinded(tx)
    modifies db
    ensures db.Valid()
    ensures Ran(db.seen, spaceid', walletid', cost', Apply(Exec(old(db.seen), spaceid, walletid, cost), tx, reports, decode))
  {
    spaceid', walletid', cost' := spaceid, walletid, cost + tx.cost;
    var kind := tx.data[0];
    if kind == 1 {
      walletid' := Found(db, spaceid, walletid, tx.to);
      spaceid' := spaceid + 1;
    } else if kind == 2 {
      Pay(db, tx.to, tx.value, tx.from, tx.cost);
    } else if kind == 3 {
      Describe(db, tx.to, decode(tx.data[1..]), tx.from, tx.cost);
    } else if kind == 9 {
      if tx.hash in reports && |reports[tx.hash]| > 0 {
        LiquidationToState(db, reports[tx.hash]);
      }
    } else if 4 <= kind <= 12 && kind != 6 {
      db.SubBalance(tx.from, tx.cost);
    }
  }

  /** blockchain.go `ApplyTransaction`: a liquidation report is deleted once it is applied. */
  method ApplyTransaction(db: StateDB, tx: Tx, spaceid: nat, walletid: nat, cost: int, reports: Reports, decode: Decoder)
    returns (spaceid': nat, walletid': nat, cost': int, reports': Reports)
    requires db.Valid() && Kinded(tx)
    modifies db
    ensures db.Valid()
    ensures Ran(db.seen, spaceid', walletid', cost', Apply(Exec(old(db.seen), spaceid, walletid, cost), tx, reports, decode))
    ensures reports' == Consumed(reports, tx)
  {
    spaceid', walletid', cost', reports' := spaceid, walletid, cost + tx.cost, reports;
    var kind := tx.data[0];
    if kind == 1 {
      walletid' := Found(db, spaceid, walletid, tx.to);
      spaceid' := spaceid + 1;
    } else if kind == 2 {
      Pay(db, tx.to, tx.value, tx.from, tx.cost);
    } else if kind == 3 {
      Describe(db, tx.to, decode(tx.data[1..]), tx.from, tx.cost);
    } else if kind == 9 {
      if tx.hash in reports && |reports[tx.hash]| > 0 {
        LiquidationToState(db, reports[tx.hash]);
        reports' := reports - {tx.hash};
      }
    } else if 4 <= kind <= 12 && kind != 6 {
      db.SubBalance(tx.from, tx.cost);
    }
  }

  ghost predicate AllKinded(txs: seq<Tx>) { forall i :: 0 <= i < |txs| ==> Kinded(txs[i]) }

  ghost predicate Distinct(txs: seq<Tx>) {
    forall i, j :: 0 <= i < j < |txs| ==> txs[i].hash != txs[j].hash
  }

  lemma RunStep(e: Exec, txs: seq<Tx>, i: nat, next: nat, reports: Reports, decode: Decoder)
    requires next == i + 1 <= |txs| && AllKinded(txs)
    ensures Run(e, txs[i..], reports, decode) == Run(Apply(e, txs[i], reports, decode), txs[next..], reports, decode)
  {
    assert txs[i..][0] == txs[i] && txs[i..][1..] == txs[next..];
  }

  /** The messages are those of the transactions. */
  ghost predicate MessagesOf(msgs: seq<(Message, Tx)>, all: seq<Tx>) {
    |msgs| == |all| && forall i :: 0 <= i < |all| ==> msgs[i] == (MessageOf(all[i]), all[i])
  }

  /** The transaction loop of `buildBlock`. */
  method BuildLoop(db: StateDB, msgs: seq<(Message, Tx)>, spaceid: nat, walletid: nat, reports: Reports, decode: Decoder, ghost all: seq<Tx>)
    returns (spaceid': nat, walletid': nat, cost: int, txs: seq<Tx>)
    requires db.Valid() && AllKinded(all) && MessagesOf(msgs, all)
    modifies db
    ensures db.Valid() && txs == all
    ensures Ran(db.seen, spaceid', walletid', cost, Run(Exec(old(db.seen), spaceid, walletid, 0), all, reports, decode))
  {
    ghost var goal := Run(Exec(db.seen, spaceid, walletid, 0), all, reports, decode);
    spaceid', walletid', cost, txs := spaceid, walletid, 0, [];
    assert all[0..] == all;
    for i := 0 to |msgs|
      invariant db.Valid() && txs == all[..i]
      invariant Run(Exec(db.seen, spaceid', walletid', cost), all[i..], reports, decode) == goal
    {
      RunStep(Exec(db.seen, spaceid', walletid', cost), all, i, i + 1, reports, decode);
      spaceid', walletid', cost := BuildStep(db, msgs[i].0, msgs[i].1, spaceid', walletid', cost, reports, decode);
      txs := txs + [msgs[i].1];
    }
  }

  /** The transaction loop of `validateBlock`. */
  method ValidateLoop(db: StateDB, txs: seq<Tx>, spaceid: nat, walletid: nat, reports: Reports, decode: Decoder)
    returns (spaceid': nat, walletid': nat, cost: int)
    requires db.Valid() && AllKinded(txs)
    modifies db
    ensures db.Valid() && Ran(db.seen, spaceid', walletid', cost, Run(Exec(old(db.seen), spaceid, walletid, 0), txs, reports, decode))
  {
    ghost var goal := Run(Exec(db.seen, spaceid, walletid, 0), txs, reports, decode);
    spaceid', walletid', cost := spaceid, walletid, 0;
    assert txs[0..] == txs;
    for i := 0 to |txs|
      invariant db.Valid() && Run(Exec(db.seen, spaceid', walletid', cost), txs[i..], reports, decode) == goal
    {
      RunStep(Exec(db.seen, spaceid', walletid', cost), txs, i, i + 1, reports, decode);
      spaceid', walletid', cost := ValidateStep(db, txs[i], spaceid', walletid', cost, reports, decode);
    }
  }

  /** The reports left once the inserter has applied a transaction. */
  ghost function Consumed(reports: Reports, tx: Tx): Reports
    requires Kinded(tx)
  {
    if tx.data[0] == 9 && ReportsOf(reports, tx.hash) != [] then reports - {tx.hash} else reports
  }

  /** A run in which every liquidation report is used at most once. */
  ghost function RunOnce(e: Exec, txs: seq<Tx>, reports: Reports, decode: Decoder): Exec
    requires AllKinded(txs)
    decreases |txs|
  {
    if txs == [] then e else RunOnce(Apply(e, txs[0], reports, decode), txs[1..], Consumed(reports, txs[0]), decode)
  }

  /** blockchain.go `Process`: applied reports are deleted on the way. */
  method Process(db: StateDB, txs: seq<Tx>, spaceid: nat, walletid: nat, reports0: Reports, decode: Decoder)
    returns (spaceid': nat, walletid': nat, cost: int, reports: Reports)
    requires db.Valid() && AllKinded(txs)
    modifies db
    ensures db.Valid() && Ran(db.seen, spaceid', walletid', cost, RunOnce(Exec(old(db.seen), spaceid, walletid, 0), txs, reports0, decode))
  {
    ghost var goal := RunOnce(Exec(db.seen, spaceid, walletid, 0), txs, reports0, decode);
    spaceid', walletid', cost, reports := spaceid, walletid, 0, reports0;
    assert txs[0..] == txs;
    for i := 0 to |txs|
      invariant db.Valid() && RunOnce(Exec(db.seen, spaceid', walletid', cost), txs[i..], reports, decode) == goal
    {
      assert txs[i..][0] == txs[i] && txs[i..][1..] == txs[i + 1..];
      spaceid', walletid', cost, reports := ApplyTransaction(db, txs[i], spaceid', walletid', cost, reports, decode);
    }
  }

  /** Transactions whose hashes have the same reports in two stores run alike. */
  lemma {:induction false} SameReports(e: Exec, txs: seq<Tx>, r1: Reports, r2: Reports, decode: Decoder)
    requires AllKinded(txs) && forall i :: 0 <= i < |txs| ==> ReportsOf(r1, txs[i].hash) == ReportsOf(r2, txs[i].hash)
    ensures Run(e, txs, r1, decode) == Run(e, txs, r2, decode)
    decreases |txs|
  {
    if txs != [] { SameReports(Apply(e, txs[0], r1, decode), txs[1..], r1, r2, decode); }
  }

  /** With distinct hashes, deleting applied reports changes nothing: inserter and validator agree. */
  lemma {:induction false} OnceIsRun(e: Exec, txs: seq<Tx>, reports: Reports, decode: Decoder)
    requires AllKinded(txs) && Distinct(txs)
    ensures RunOnce(e, txs, reports, decode) == Run(e, txs, reports, decode)
    decreases |txs|
  {
    if txs != [] {
      var e1 := Apply(e, txs[0], reports, decode);
      OnceIsRun(e1, txs[1..], Consumed(reports, txs[0]), decode);
      forall i | 0 <= i < |txs[1..]| ensures ReportsOf(Consumed(reports, txs[0]), txs[1..][i].hash) == ReportsOf(reports, txs[1..][i].hash) {
        assert txs[1..][i] == txs[i + 1];
      }
      SameReports(e1, txs[1..], Consumed(reports, txs[0]), reports, decode);
    }
  }

  /** A single space with a nonce and a balance. */
  function OneSpace(nonce: nat, balance: int): Exec { Exec(State(map[], map[1 := Space(nonce, balance, [])], {}), 2, 0, 0) }

  lemma TakeThree(nonce: nat, balance: int, tx: Tx, reports: Reports, decode: Decoder)
    requires nonce < 2 && 3 < balance < 11 && tx == Tx(7, [9], 0, 0, 0, 0) && reports == map[7 := [Report(1, 3)]]
    ensures Apply(OneSpace(nonce, balance), tx, reports, decode) == OneSpace(nonce + 1, balance - 3)
  {
    var s, s' := OneSpace(nonce, balance).state, OneSpace(nonce + 1, balance - 3).state;
    assert Liquidated(s, Report(1, 3)).spaces == s'.spaces;
    assert LiquidatedAll(s', [Report(1, 3)][1..]) == s';
  }

  /** Without distinct hashes they need not agree: a liquidation listed twice is applied once or twice. */
  lemma RepeatedLiquidation(tx: Tx, reports: Reports, decode: Decoder)
    requires tx == Tx(7, [9], 0, 0, 0, 0) && reports == map[7 := [Report(1, 3)]]
    ensures RunOnce(OneSpace(0, 10), [tx, tx], reports, decode) == OneSpace(1, 7)
    ensures Run(OneSpace(0, 10), [tx, tx], reports, decode) == OneSpace(2, 4)
  {
    TakeThree(0, 10, tx, reports, decode);
    TakeThree(1, 7, tx, reports, decode);
    assert [tx, tx][1..] == [tx] && [tx][1..] == [];
    assert Consumed(reports, tx) == map[];
    assert Apply(OneSpace(1, 7), tx, map[], decode) == OneSpace(1, 7);
    assert RunOnce(OneSpace(1, 7), [tx], map[], decode) == OneSpace(1, 7);
    assert Run(OneSpace(1, 7), [tx], reports, decode) == OneSpace(2, 4);
  }

  /** The pool is keyed by transaction hash; `order` is the order in which the map is walked. */
  ghost predicate PoolOk(pool: map<int, Tx>, order: seq<int>) {
    && (forall h :: h in pool ==> pool[h].hash == h && Kinded(pool[h]))
    && (forall i, j :: 0 <= i < j < |order| ==> order[i] != order[j])
    && (forall i :: 0 <= i < |order| ==> order[i] in pool)
    && (forall h :: h in pool ==> h in order)
  }

  /** tx_pool.go `GetAllTx`: every pooled transaction once, in the order of the walk. */
  method GetAllTx(pool: map<int, Tx>, order: seq<int>) returns (msgs: seq<(Message, Tx)>)
    requires PoolOk(pool, order)
    ensures |msgs| == |order|
    ensures forall i :: 0 <= i < |msgs| ==> order[i] in pool && msgs[i] == (MessageOf(pool[order[i]]), pool[order[i]])
    ensures forall i :: 0 <= i < |msgs| ==> Kinded(msgs[i].1) && msgs[i].1.hash == order[i]
  {
    msgs := [];
    for i := 0 to |order|
      invariant |msgs| == i
      invariant forall j :: 0 <= j < i ==> order[j] in pool && msgs[j] == (MessageOf(pool[order[j]]), pool[order[j]])
      invariant forall j :: 0 <= j < i ==> Kinded(msgs[j].1) && msgs[j].1.hash == order[j]
    {
      var tx := pool[order[i]];
      msgs := msgs + [(MessageOf(tx), tx)];
    }
  }

  // ---------------------------------------------------------------------------------------------
  // Blocks
  // ---------------------------------------------------------------------------------------------

  /** A block: the stored spaces and accounts its roots are the roots of, the next ids and the cost. */
  datatype Block = Block(spaces: map<nat, Space>, records: map<Address, Record>, idIndex: nat, walletIndex: nat, gasUsed: int, txs: seq<Tx>)

  /** What a block stores was written: nothing empty, nothing negative. */
  ghost predicate BlockOk(b: Block) {
    && Stored(b.records, AccountsOf(b.records))
    && NoneEmpty(b.spaces, EmptySpace) && NoneEmpty(AccountsOf(b.records), EmptyAccount)
    && AllFit(b.spaces, WritableSpace) && AllFit(AccountsOf(b.records), Writable)
  }

  ghost function StateOf(b: Block): State { State(AccountsOf(b.records), b.spaces, {}) }

  ghost function Opened(b: Block): Exec { Exec(StateOf(b), b.idIndex, b.walletIndex, 0) }

  /** The block a proposer seals over a run. */
  ghost function Sealed(parent: Block, e: Exec, txs: seq<Tx>, walk: Walk): Block
    requires WalkOk(walk)
  {
    Block(Lasting(e.state.spaces, EmptySpace),
          Recorded(parent.records, Lasting(e.state.accounts, EmptyAccount), e.state.touched, walk),
          e.nextSpace, e.nextWallet, e.cost, txs)
  }

  /** What was committed can be opened again, and holds the accounts and spaces that were not empty. */
  lemma CommittedIs(spaces: map<nat, Space>, records: map<Address, Record>, s: State)
    requires NonNegative(s) && spaces == Lasting(s.spaces, EmptySpace) && Stored(records, Lasting(s.accounts, EmptyAccount))
    ensures AccountsOf(records) == Lasting(s.accounts, EmptyAccount)
    ensures NoneEmpty(spaces, EmptySpace) && NoneEmpty(AccountsOf(records), EmptyAccount)
    ensures AllFit(spaces, WritableSpace) && AllFit(AccountsOf(records), Writable)
  {
    StoredDecodes(records, Lasting(s.accounts, EmptyAccount));
    LastingNoneEmpty(s.spaces, EmptySpace);
    LastingNoneEmpty(s.accounts, EmptyAccount);
  }

  /** The pooled transactions in the order of the walk. */
  ghost function TxsOf(pool: map<int, Tx>, order: seq<int>): seq<Tx>
    requires forall i :: 0 <= i < |order| ==> order[i] in pool
  {
    seq(|order|, i requires 0 <= i < |order| => pool[order[i]])
  }

  /** worker.go `buildBlock`, as far as the state goes; there is no block for an empty pool, or if the commit fails. */
  method BuildBlock(parent: Block, pool: map<int, Tx>, order: seq<int>, reports: Reports, decode: Decoder, walk: Walk)
    returns (b: Option<Block>)
    requires BlockOk(parent) && PoolOk(pool, order) && WalkOk(walk)
    ensures AllKinded(TxsOf(pool, order)) && Distinct(TxsOf(pool, order))
    ensures var e := Run(Opened(parent), TxsOf(pool, order), reports, decode);
            && (b.Some? <==> order != [] && NonNegative(e.state))
            && (b.Some? ==> b.value == Sealed(parent, e, TxsOf(pool, order), walk) && BlockOk(b.value))
            && (b.Some? ==> AccountsOf(b.value.records) == Lasting(e.state.accounts, EmptyAccount))
            && (b.Some? ==> KeptOf(e.state, b.value.spaces, AccountsOf(b.value.records)))
  {
    var msgs := GetAllTx(pool, order);
    if msgs == [] { return None; }
    ghost var all := TxsOf(pool, order);
    var db := new StateDB(parent.records, AccountsOf(parent.records), parent.spaces);
    var spaceid, walletid, cost, txs := BuildLoop(db, msgs, parent.idIndex, parent.walletIndex, reports, decode, all);
    ghost var s := db.seen;
    var stored := db.CommitTo(walk);
    if stored.None? { return None; }
    CommittedIs(stored.value.0, stored.value.1, s);
    KeptIs(s, stored.value.0, stored.value.1);
    b := Some(Block(stored.value.0, stored.value.1, spaceid, walletid, cost, txs));
  }

  /**
   worker.go `validateBlock`: the roots, the space index and the cost must agree. The roots are of the spaces
   and of the accounts as they are encoded, so they can differ for one state; there is no answer if the
   commit fails.
   */
  method ValidateBlock(parent: Block, b: Block, reports: Reports, decode: Decoder, walk: Walk) returns (ok: Option<bool>)
    requires BlockOk(parent) && AllKinded(b.txs) && WalkOk(walk)
    ensures var e := Run(Opened(parent), b.txs, reports, decode);
            var ours := Sealed(parent, e, b.txs, walk);
            && (ok.Some? <==> NonNegative(e.state))
            && (ok.Some? ==> (ok.value <==> b.spaces == ours.spaces && b.records == ours.records
                                            && Low64(b.idIndex) == Low64(ours.idIndex) && Low64(b.gasUsed) == Low64(ours.gasUsed)))
  {
    var db := new StateDB(parent.records, AccountsOf(parent.records), parent.spaces);
    var spaceid, walletid, cost := ValidateLoop(db, b.txs, parent.idIndex, parent.walletIndex, reports, decode);
    var stored := db.CommitTo(walk);
    if stored.None? { return None; }
    ok := Some(b.spaces == stored.value.0 && b.records == stored.value.1 && Low64(b.idIndex) == Low64(spaceid) && Low64(b.gasUsed) == Low64(cost));
  }

  /** blockchain.go `Insert`, as far as the state goes: what the inserter stores. */
  method InsertBlock(parent: Block, b: Block, reports: Reports, decode: Decoder, walk: Walk) returns (stored: Option<Block>)
    requires BlockOk(parent) && AllKinded(b.txs) && WalkOk(walk)
    ensures var e := RunOnce(Opened(parent), b.txs, reports, decode);
            && (stored.Some? <==> NonNegative(e.state))
            && (stored.Some? ==> stored.value == Sealed(parent, e, b.txs, walk))
            && (stored.Some? ==> AccountsOf(stored.value.records) == Lasting(e.state.accounts, EmptyAccount))
  {
    var db := new StateDB(parent.records, AccountsOf(parent.records), parent.spaces);
    var spaceid, walletid, cost, left := Process(db, b.txs, parent.idIndex, parent.walletIndex, reports, decode);
    ghost var s := db.seen;
    var r := db.CommitTo(walk);
    if r.None? { return None; }
    CommittedIs(r.value.0, r.value.1, s);
    stored := Some(Block(r.value.0, r.value.1, spaceid, walletid, cost, b.txs));
  }

  /**
   A block is built exactly when the pool is not empty and its transactions, one after the other, leave no account
   with a negative balance in the end. The inserter then stores the very accounts, spaces, indices and cost of the proposer. Validator and inserter also reach the
   proposer's roots, in whatever order each walks the attributes, if no written account has two attributes.
   */
  method BuildValidateInsert(parent: Block, pool: map<int, Tx>, order: seq<int>, reports: Reports, decode: Decoder,
                             mine: Walk, theirs: Walk, last: Walk)
    returns (b: Option<Block>, ok: bool, stored: Option<Block>)
    requires BlockOk(parent) && PoolOk(pool, order) && WalkOk(mine) && WalkOk(theirs) && WalkOk(last)
    ensures AllKinded(TxsOf(pool, order))
    ensures var e := Run(Opened(parent), TxsOf(pool, order), reports, decode);
            && (b.Some? <==> order != [] && AllFit(e.state.accounts, Writable)) && (stored.Some? <==> b.Some?)
            && (b.Some? ==> AccountsOf(stored.value.records) == AccountsOf(b.value.records)
                            && stored.value.(records := b.value.records) == b.value)
            && (b.Some? && Plain(Lasting(e.state.accounts, EmptyAccount), e.state.touched) ==> ok && stored == b)
  {
    ghost var e0, txs := Opened(parent), TxsOf(pool, order);
    b := BuildBlock(parent, pool, order, reports, decode, mine);
    ghost var e := Run(e0, txs, reports, decode);
    RunSpacesWritable(e0, txs, reports, decode);
    if b.None? { return b, false, None; }
    var valid := ValidateBlock(parent, b.value, reports, decode, theirs);
    stored := InsertBlock(parent, b.value, reports, decode, last);
    OnceIsRun(e0, txs, reports, decode);
    ok := valid == Some(true);
    if Plain(Lasting(e.state.accounts, EmptyAccount), e.state.touched) {
      WalksAgree(parent.records, Lasting(e.state.accounts, EmptyAccount), e.state.touched, mine, theirs);
      WalksAgree(parent.records, Lasting(e.state.accounts, EmptyAccount), e.state.touched, mine, last);
    }
  }

  /** If some written account has two attributes, there are walks for which an honest validator refuses the block. */
  lemma HonestRefusal(parent: Block, txs: seq<Tx>, reports: Reports, decode: Decoder, walk: Walk) returns (mine: Walk, theirs: Walk)
    requires AllKinded(txs) && WalkOk(walk)
    requires var s := Run(Opened(parent), txs, reports, decode).state; !Plain(Lasting(s.accounts, EmptyAccount), s.touched)
    ensures WalkOk(mine) && WalkOk(theirs)
    ensures var e := Run(Opened(parent), txs, reports, decode); Sealed(parent, e, txs, mine).records != Sealed(parent, e, txs, theirs).records
  {
    var s := Run(Opened(parent), txs, reports, decode).state;
    mine, theirs := WalksDiffer(parent.records, Lasting(s.accounts, EmptyAccount), s.touched, walk);
  }
}

/**
 account_object.go: how an account is written. Its attributes are a Go map and are written in the order in
 which the map happens to be walked, so one account can have several encodings, and one state several roots.
 */
module AccountRecord {
  import opened Bytes
  import opened SpaceState

  /** What is encoded for an account: two parallel lists hold its attributes. */
  datatype Record = Record(space: nat, balance: int, wallet: nat, keys: seq<bytes>, values: seq<bytes>)

  /** An order in which the attributes can be walked: every key once. */
  ghost predicate Walks(order: seq<bytes>, attrs: map<bytes, bytes>) {
    && (forall i, j :: 0 <= i < j < |order| ==> order[i] != order[j])
    && (forall k :: k in order <==> k in attrs)
  }

  function RecordOf(a: Account, order: seq<bytes>): Record
    requires forall k :: k in order ==> k in a.attrs
  {
    Record(a.space, a.balance, a.wallet, order, seq(|order|, i requires 0 <= i < |order| => a.attrs[order[i]]))
  }

  /** The attributes in the first `n` places of the two lists; a later one replaces an earlier one. */
  function AttrsOf(keys: seq<bytes>, values: seq<bytes>, n: nat): map<bytes, bytes>
    requires n <= |keys| && n <= |values|
  {
    if n == 0 then map[] else AttrsOf(keys, values, n - 1)[keys[n - 1] := values[n - 1]]
  }

  function AccountOf(r: Record): Account {
    var n := if |r.keys| > |r.values| then |r.values| else |r.keys|;
    Account(r.space, r.balance, r.wallet, AttrsOf(r.keys, r.values, n))
  }

  ghost function AccountsOf(records: map<Address, Record>): map<Address, Account> {
    map a | a in records :: AccountOf(records[a])
  }

  /** account_object.go `newAccountObject`. */
  method NewAccountObject(r: Record) returns (a: Account)
    ensures a == AccountOf(r)
  {
    var attrs, size := map[], |r.keys|;
    if size > |r.values| { size := |r.values|; }
    for i := 0 to size
      invariant attrs == AttrsOf(r.keys, r.values, i)
    {
      attrs := attrs[r.keys[i] := r.values[i]];
    }
    a := Account(r.space, r.balance, r.wallet, attrs);
  }

  lemma {:induction false} AttrsAt(keys: seq<bytes>, values: seq<bytes>, n: nat, k: bytes)
    requires n <= |keys| && n <= |values| && forall i, j :: 0 <= i < j < |keys| ==> keys[i] != keys[j]
    ensures k in AttrsOf(keys, values, n) <==> exists i :: 0 <= i < n && keys[i] == k
    ensures forall i :: 0 <= i < n && keys[i] == k ==> AttrsOf(keys, values, n)[k] == values[i]
    decreases n
  {
    if n > 0 { AttrsAt(keys, values, n - 1, k); }
  }

  /** In whatever order an account was written, reading gives it back; the two lists hold keys and values side by side. */
  lemma RecordRoundTrip(a: Account, order: seq<bytes>)
    requires Walks(order, a.attrs)
    ensures AccountOf(RecordOf(a, order)) == a
    ensures var r := RecordOf(a, order);
            && r.keys == order && |r.values| == |order| && r.space == a.space && r.balance == a.balance && r.wallet == a.wallet
            && forall i :: 0 <= i < |order| ==> order[i] in a.attrs && r.values[i] == a.attrs[order[i]]
  {
    var r := RecordOf(a, order);
    var m := AttrsOf(r.keys, r.values, |order|);
    forall k ensures (k in m <==> k in a.attrs) && (k in m ==> m[k] == a.attrs[k]) {
      AttrsAt(r.keys, r.values, |order|, k);
      if k in a.attrs {
        var i :| 0 <= i < |order| && order[i] == k;
        assert r.values[i] == a.attrs[k];
      }
    }
    assert m == a.attrs;
  }

  // ---------------------------------------------------------------------------------------------
  // How many orders there are
  // ---------------------------------------------------------------------------------------------

  /** Some order that starts with `first`. */
  lemma {:induction false} OrderFrom(ks: set<bytes>, first: bytes) returns (order: seq<bytes>)
    requires first in ks
    ensures |order| > 0 && order[0] == first && forall k :: k in order <==> k in ks
    ensures forall i, j :: 0 <= i < j < |order| ==> order[i] != order[j]
    decreases ks
  {
    var left := ks - {first};
    if left == {} {
      order := [first];
    } else {
      var next :| next in left;
      var rest := OrderFrom(left, next);
      order := [first] + rest;
    }
  }

  lemma {:induction false} OrderLength(order: seq<bytes>, ks: set<bytes>)
    requires (forall i, j :: 0 <= i < j < |order| ==> order[i] != order[j]) && forall k :: k in order <==> k in ks
    ensures |order| == |ks|
    decreases |order|
  {
    if order == [] {
      assert ks == {};
    } else {
      var rest, first := order[1..], order[0];
      forall k ensures k in rest <==> k in ks - {first} {
        if k in rest {
          var i :| 0 <= i < |rest| && rest[i] == k;
          assert order[0] != order[i + 1];
        }
      }
      OrderLength(rest, ks - {first});
    }
  }

  /** An account with at most one attribute has one encoding. */
  lemma OneRecord(a: Account, o: seq<bytes>, p: seq<bytes>)
    requires |a.attrs| <= 1 && Walks(o, a.attrs) && Walks(p, a.attrs)
    ensures RecordOf(a, o) == RecordOf(a, p)
  {
    OrderLength(o, a.attrs.Keys);
    OrderLength(p, a.attrs.Keys);
    if |o| == 1 {
      assert o[0] in a.attrs;
      var i :| 0 <= i < |p| && p[i] == o[0];
      assert o == p;
    } else {
      assert o == p;
    }
  }

  /** An account with more attributes has several. */
  lemma TwoRecords(a: Account) returns (o: seq<bytes>, p: seq<bytes>)
    requires |a.attrs| > 1
    ensures Walks(o, a.attrs) && Walks(p, a.attrs) && RecordOf(a, o) != RecordOf(a, p)
  {
    var x :| x in a.attrs.Keys;
    assert |a.attrs.Keys - {x}| > 0;
    var y :| y in a.attrs.Keys - {x};
    o := OrderFrom(a.attrs.Keys, x);
    p := OrderFrom(a.attrs.Keys, y);
  }

  /** Two encodings of one account: its two attributes one way round and the other. */
  lemma TwoAttributes(a: Account)
    requires a == Account(1, 5, 0, map[[1] := [7], [2] := [8]])
    ensures Walks([[1], [2]], a.attrs) && Walks([[2], [1]], a.attrs)
    ensures RecordOf(a, [[1], [2]]) != RecordOf(a, [[2], [1]])
    ensures AccountOf(RecordOf(a, [[1], [2]])) == a == AccountOf(RecordOf(a, [[2], [1]]))
  {
    var x: bytes, y: bytes := [1], [2];
    assert x != y && a.attrs.Keys == {x, y};
    assert RecordOf(a, [x, y]).keys[0] != RecordOf(a, [y, x]).keys[0];
    RecordRoundTrip(a, [x, y]);
    RecordRoundTrip(a, [y, x]);
  }

  // ---------------------------------------------------------------------------------------------
  // What a commit writes
  // ---------------------------------------------------------------------------------------------

  /** The order in which each account's attributes are walked when it is written. */
  type Walk = (Address, map<bytes, bytes>) -> seq<bytes>

  ghost predicate WalkOk(walk: Walk) {
    forall a, m {:trigger walk(a, m)} :: Walks(walk(a, m), m)
  }

  ghost predicate Stored(records: map<Address, Record>, accounts: map<Address, Account>) {
    && records.Keys == accounts.Keys
    && forall a :: a in records ==> Encodes(records[a], accounts[a])
  }

  /** A record that writing the account can produce. */
  ghost predicate Encodes(r: Record, a: Account) {
    Walks(r.keys, a.attrs) && r == RecordOf(a, r.keys)
  }

  /** The records of the accounts in `kept`: written ones anew, the others as they were. */
  ghost function Recorded(records: map<Address, Record>, kept: map<Address, Account>, written: set<Address>, walk: Walk): map<Address, Record>
    requires WalkOk(walk)
  {
    map a | a in kept && (a in written || a in records) :: if a in written then RecordOf(kept[a], walk(a, kept[a].attrs)) else records[a]
  }

  lemma RecordedStores(records: map<Address, Record>, kept: map<Address, Account>, written: set<Address>, walk: Walk)
    requires WalkOk(walk) && forall a :: a in kept && a !in written ==> a in records && Encodes(records[a], kept[a])
    ensures Stored(Recorded(records, kept, written, walk), kept)
  {
    var out := Recorded(records, kept, written, walk);
    forall a ensures a in out <==> a in kept {}
    assert out.Keys == kept.Keys;
    forall a | a in out && a in written ensures Encodes(out[a], kept[a]) {
      assert Walks(walk(a, kept[a].attrs), kept[a].attrs);
    }
  }

  /** At most one attribute on every written account. */
  ghost predicate Plain(kept: map<Address, Account>, written: set<Address>) {
    forall a :: a in kept && a in written ==> |kept[a].attrs| <= 1
  }

  /** Then the walks do not matter: proposer and validator get the same records, and so the same root. */
  lemma WalksAgree(records: map<Address, Record>, kept: map<Address, Account>, written: set<Address>, v: Walk, w: Walk)
    requires WalkOk(v) && WalkOk(w) && Plain(kept, written)
    ensures Recorded(records, kept, written, v) == Recorded(records, kept, written, w)
  {
    forall a | a in kept && a in written
      ensures RecordOf(kept[a], v(a, kept[a].attrs)) == RecordOf(kept[a], w(a, kept[a].attrs))
    {
      OneRecord(kept[a], v(a, kept[a].attrs), w(a, kept[a].attrs));
    }
  }

  /** The walk `walk`, but for one account. */
  function But(walk: Walk, x: Address, m: map<bytes, bytes>, order: seq<bytes>): Walk {
    (a, n) => if a == x && n == m then order else walk(a, n)
  }

  /** Otherwise they do: some two walks of one state give two roots. */
  lemma WalksDiffer(records: map<Address, Record>, kept: map<Address, Account>, written: set<Address>, walk: Walk)
    returns (v: Walk, w: Walk)
    requires WalkOk(walk) && !Plain(kept, written)
    ensures WalkOk(v) && WalkOk(w) && Recorded(records, kept, written, v) != Recorded(records, kept, written, w)
  {
    var x :| x in kept && x in written && |kept[x].attrs| > 1;
    var o, p := TwoRecords(kept[x]);
    v, w := But(walk, x, kept[x].attrs, o), But(walk, x, kept[x].attrs, p);
    ButRecords(records, kept, written, walk, x, o);
    ButRecords(records, kept, written, walk, x, p);
  }

  lemma ButRecords(records: map<Address, Record>, kept: map<Address, Account>, written: set<Address>, walk: Walk, x: Address, order: seq<bytes>)
    requires WalkOk(walk) && x in kept && x in written && Walks(order, kept[x].attrs)
    ensures WalkOk(But(walk, x, kept[x].attrs, order))
    ensures var r := Recorded(records, kept, written, But(walk, x, kept[x].attrs, order)); x in r && r[x] == RecordOf(kept[x], order)
  {
    var v := But(walk, x, kept[x].attrs, order);
    forall a, m ensures Walks(v(a, m), m) { assert Walks(walk(a, m), m); }
  }
}

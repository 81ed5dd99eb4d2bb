/**
 The dependency bookkeeping of the trie downloader (sync.go): which pending requests wait for which,
 kept as counters and parent lists. Requests are named by keys of any type.
 */
module SyncLinks {
  import opened Bytes

  /** sync.go `request`; `parents` names the requests waiting for this one. */
  datatype Request<K, C> = Request(data: Option<bytes>, raw: bool, parents: seq<K>, deps: int, callback: C)

  type Requests<K(==), C> = map<K, Request<K, C>>
  type Links<K(==)> = map<K, multiset<K>>

  ghost function At<K(!new)>(links: Links<K>, a: K, b: K): nat {
    if a in links then links[a][b] else 0
  }

  /** `deps` is the number of requests a request waits for (`extra` more for `r`). */
  ghost predicate Counted<K(!new), C(!new)>(rs: Requests<K, C>, waits: Links<K>, r: K, extra: nat) {
    waits.Keys == rs.Keys && forall p :: p in rs ==> rs[p].deps == |waits[p]| + if p == r then extra else 0
  }

  /** `p` waits for `c` once for every time `p` is still to be told about `c`. */
  ghost predicate Mirror<K(!new)>(waits: Links<K>, owed: Links<K>) {
    forall p, c :: At(waits, p, c) == At(owed, c, p)
  }

  /** Whoever is still to be told is pending and has its data. */
  ghost predicate Alive<K(!new), C(!new)>(rs: Requests<K, C>, owed: Links<K>) {
    forall c, p :: At(owed, c, p) > 0 ==> p in rs && rs[p].data.Some?
  }

  /** The parents of a pending request are those to be told about it. */
  ghost predicate Parents<K(!new), C(!new)>(rs: Requests<K, C>, owed: Links<K>) {
    forall c :: c in rs ==> c in owed && owed[c] == multiset(rs[c].parents)
  }

  /**
   Dependency counts. `owed[c]` are the parents still to be told about `c`: those of a pending
   request, or the rest of them while `c` is being committed. `waits[p]` are the requests `p` waits
   for, with multiplicity.
   */
  ghost predicate LinksOk<K(!new), C(!new)>(rs: Requests<K, C>, waits: Links<K>, owed: Links<K>, r: K, extra: nat) {
    Counted(rs, waits, r, extra) && Mirror(waits, owed) && Alive(rs, owed) && Parents(rs, owed)
  }

  /** A request that waits for something waits for all it needs that is not known (`busy` exempts `r`). */
  ghost predicate CoverOk<K(!new), C(!new)>(rs: Requests<K, C>, waits: Links<K>, needs: map<K, set<K>>, known: set<K>, r: K, busy: bool) {
    forall p :: p in rs && p in waits && waits[p] != multiset{} && !(busy && p == r) ==> Covered(p, waits[p], needs, known)
  }

  ghost predicate Covered<K(!new)>(p: K, wait: multiset<K>, needs: map<K, set<K>>, known: set<K>) {
    p in needs && forall x :: x in needs[p] ==> x in known || x in wait
  }

  // ---------------------------------------------------------------------------------------------
  // Scheduling
  // ---------------------------------------------------------------------------------------------

  /** sync.go `schedule`. */
  function Scheduled<K, C>(rs: Requests<K, C>, x: K, req: Request<K, C>): Requests<K, C> {
    if x in rs then rs[x := rs[x].(parents := rs[x].parents + req.parents)] else rs[x := req]
  }

  ghost function AddWait<K>(waits: Links<K>, p: K, x: K): Links<K>
    requires p in waits
  {
    waits[p := waits[p] + multiset{x}]
  }

  /** The links with an empty entry for a request that is new. */
  ghost function Opened<K>(links: Links<K>, x: K): Links<K> {
    if x in links then links else links[x := multiset{}]
  }

  lemma OpenedAt<K(!new)>(links: Links<K>, x: K)
    ensures forall a, b :: At(Opened(links, x), a, b) == At(links, a, b)
  {
  }

  lemma AddWaitAt<K(!new)>(links: Links<K>, p: K, x: K)
    requires p in links
    ensures forall a, b :: At(AddWait(links, p, x), a, b) == At(links, a, b) + if a == p && b == x then 1 else 0
  {
  }

  /** A request is scheduled without a parent, or is already pending. */
  lemma NewStep<K(!new), C(!new)>(rs: Requests<K, C>, waits: Links<K>, owed: Links<K>, x: K, req: Request<K, C>, r: K, extra: nat)
    requires LinksOk(rs, waits, owed, r, extra) && (x in owed ==> x in rs) && (x in rs || x != r || extra == 0)
    requires req.parents == [] && req.deps == 0 && req.data.None?
    ensures LinksOk(Scheduled(rs, x, req), Opened(waits, x), Opened(owed, x), r, extra)
  {
    var rs', waits', owed' := Scheduled(rs, x, req), Opened(waits, x), Opened(owed, x);
    OpenedAt(waits, x);
    OpenedAt(owed, x);
    assert Counted(rs', waits', r, extra);
    assert Parents(rs', owed') by {
      if x in rs { assert rs[x].parents + [] == rs[x].parents; }
    }
  }

  /** `p`, whose counter is ahead, starts to wait for `x`, which is new or already pending. */
  lemma LinkStep<K(!new), C(!new)>(rs: Requests<K, C>, waits: Links<K>, owed: Links<K>, x: K, req: Request<K, C>, p: K, extra: nat, left: nat)
    requires LinksOk(rs, waits, owed, p, extra) && extra == left + 1 && p in rs && rs[p].data.Some?
    requires x in owed ==> x in rs
    requires req.parents == [p] && req.deps == 0 && req.data.None?
    ensures LinksOk(Scheduled(rs, x, req), AddWait(Opened(waits, x), p, x), AddWait(Opened(owed, x), x, p), p, left)
  {
    var rs', waits', owed' := Scheduled(rs, x, req), AddWait(Opened(waits, x), p, x), AddWait(Opened(owed, x), x, p);
    OpenedAt(waits, x);
    OpenedAt(owed, x);
    AddWaitAt(Opened(waits, x), p, x);
    AddWaitAt(Opened(owed, x), x, p);
    assert Mirror(waits', owed') by {
      forall a, b ensures At(waits', a, b) == At(owed', b, a) { assert At(waits, a, b) == At(owed, b, a); }
    }
    assert Counted(rs', waits', p, left);
    assert Alive(rs', owed') by {
      forall c, q | At(owed', c, q) > 0 ensures q in rs' && rs'[q].data.Some? { assert q == p || At(owed, c, q) > 0; }
    }
    assert Parents(rs', owed') by {
      if x in rs { assert multiset(rs[x].parents + [p]) == multiset(rs[x].parents) + multiset{p}; }
    }
  }

  lemma CoverOpened<K(!new), C(!new)>(rs: Requests<K, C>, waits: Links<K>, needs: map<K, set<K>>, known: set<K>, r: K,
                                      busy: bool, x: K, req: Request<K, C>)
    requires CoverOk(rs, waits, needs, known, r, busy) && waits.Keys == rs.Keys
    ensures CoverOk(Scheduled(rs, x, req), Opened(waits, x), needs, known, r, busy)
  {
  }

  lemma CoverScheduled<K(!new), C(!new)>(rs: Requests<K, C>, waits: Links<K>, needs: map<K, set<K>>, known: set<K>, r: K,
                                         x: K, req: Request<K, C>)
    requires CoverOk(rs, waits, needs, known, r, true) && waits.Keys == rs.Keys && r in rs
    ensures CoverOk(Scheduled(rs, x, req), AddWait(Opened(waits, x), r, x), needs, known, r, true)
  {
  }

  // ---------------------------------------------------------------------------------------------
  // Committing
  // ---------------------------------------------------------------------------------------------

  /** A request that waits for nothing leaves the table. */
  lemma DropStep<K(!new), C(!new)>(rs: Requests<K, C>, waits: Links<K>, owed: Links<K>, h: K, r: K)
    requires LinksOk(rs, waits, owed, r, 0) && h in rs && waits[h] == multiset{}
    ensures LinksOk(rs - {h}, waits - {h}, owed, r, 0)
  {
    forall c, p | At(owed, c, p) > 0 ensures p in rs - {h} && (rs - {h})[p].data.Some? {
      assert At(waits, p, c) == At(owed, c, p);
    }
    assert Mirror(waits - {h}, owed) by {
      forall a, b ensures At(waits - {h}, a, b) == At(owed, b, a) { assert At(waits, a, b) == At(owed, b, a); }
    }
  }

  ghost function DropWait<K>(waits: Links<K>, p: K, x: K): Links<K>
    requires p in waits
  {
    waits[p := waits[p] - multiset{x}]
  }

  lemma DropWaitAt<K(!new)>(links: Links<K>, p: K, x: K)
    requires p in links && x in links[p]
    ensures forall a, b :: At(DropWait(links, p, x), a, b) == At(links, a, b) - if a == p && b == x then 1 else 0
  {
  }

  /** A parent is told that one of the requests it waits for was committed. */
  lemma NotifyStep<K(!new), C(!new)>(rs: Requests<K, C>, waits: Links<K>, owed: Links<K>, h: K, p: K, r: K)
    requires LinksOk(rs, waits, owed, r, 0) && h in owed && h !in rs && p in owed[h]
    ensures p in rs && p in waits && h in waits[p]
    ensures LinksOk(rs[p := rs[p].(deps := rs[p].deps - 1)], DropWait(waits, p, h), DropWait(owed, h, p), r, 0)
  {
    assert At(owed, h, p) > 0;
    assert At(waits, p, h) == At(owed, h, p);
    var rs', waits', owed' := rs[p := rs[p].(deps := rs[p].deps - 1)], DropWait(waits, p, h), DropWait(owed, h, p);
    DropWaitAt(waits, p, h);
    DropWaitAt(owed, h, p);
    assert Counted(rs', waits', r, 0);
    assert Parents(rs', owed');
  }

  lemma FinishStep<K(!new), C(!new)>(rs: Requests<K, C>, waits: Links<K>, owed: Links<K>, h: K, r: K)
    requires LinksOk(rs, waits, owed, r, 0) && h in owed && h !in rs && owed[h] == multiset{}
    ensures LinksOk(rs, waits, owed - {h}, r, 0)
  {
    assert forall a, b :: At(owed - {h}, a, b) == At(owed, a, b);
  }

  /** Once `h` is known, whoever waited for it may stop waiting. */
  lemma CoverNotify<K(!new), C(!new)>(rs: Requests<K, C>, waits: Links<K>, needs: map<K, set<K>>, known: set<K>, r: K, h: K, p: K, req: Request<K, C>)
    requires CoverOk(rs, waits, needs, known, r, false) && h in known && p in rs && p in waits && h in waits[p]
    ensures CoverOk(rs[p := req], DropWait(waits, p, h), needs, known, r, false)
    ensures Covered(p, DropWait(waits, p, h)[p], needs, known)
  {
    assert Covered(p, waits[p], needs, known);
    forall x | x in needs[p] ensures x in known || x in waits[p] - multiset{h} {
      assert x in known || x in waits[p];
    }
  }

  lemma CoverDrop<K(!new), C(!new)>(rs: Requests<K, C>, waits: Links<K>, needs: map<K, set<K>>, known: set<K>, r: K, h: K)
    requires CoverOk(rs, waits, needs, known, r, false)
    ensures CoverOk(rs - {h}, waits - {h}, needs, known + {h}, r, false)
  {
    forall p | p in rs - {h} && p in waits - {h} && waits[p] != multiset{} ensures Covered(p, waits[p], needs, known + {h}) {
      assert Covered(p, waits[p], needs, known);
    }
  }
}

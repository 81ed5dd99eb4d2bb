/**
 sync.go: the scheduler that downloads a trie node by node. A request counts the requests it waits
 for and is committed to an ordered in-memory batch when none is left, so that children are always
 written before their parents. How node data is decoded is a parameter, so entries may be named by
 keys of any type; `TrieDownload` plugs in trie nodes and their hashes.
 Where a contract says `P(...) == true`, the predicate is meant as one fact, not as the list of its parts.
 */
module TrieSync {
  import opened Bytes
  import opened SyncLinks

  /** What `children` tells apart in a decoded node. */
  datatype Child<K> = Leaf(v: bytes) | Ref(h: K) | Inner

  /** What a leaf callback does: sub-tries and raw entries it registers below the leaf, and its error. */
  datatype Reply<K> = Reply(subtries: seq<K>, raws: seq<K>, ok: bool)

  type Callback<K> = Option<bytes -> Reply<K>>
  type Parser<!K> = (K, bytes) -> Option<seq<Child<K>>>
  type Store<K(==)> = map<K, bytes>
  type Table<K(==)> = Requests<K, Callback<K>>

  // ---------------------------------------------------------------------------------------------
  // Closed stores
  // ---------------------------------------------------------------------------------------------

  ghost function Refs<K>(cs: seq<Child<K>>): set<K> {
    set i | 0 <= i < |cs| && cs[i].Ref? :: cs[i].h
  }

  /** Data of a trie node decodes, and what it refers to is among `need`. */
  ghost predicate Understood<K(!new)>(parse: Parser<K>, h: K, data: bytes, need: set<K>, raws: set<K>) {
    h !in raws ==> parse(h, data).Some? && Refs(parse(h, data).value) <= need
  }

  /** Every trie node in the store decodes and has all nodes it refers to in the store. */
  ghost predicate Closed<K(!new)>(parse: Parser<K>, db: Store<K>, raws: set<K>) {
    forall h :: h in db ==> Understood(parse, h, db[h], db.Keys, raws)
  }

  // ---------------------------------------------------------------------------------------------
  // The batch
  // ---------------------------------------------------------------------------------------------

  /** Everything an entry of the batch needs was stored or put in the batch before it. */
  ghost predicate Ordered<K(!new)>(stored: set<K>, order: seq<K>, needs: map<K, set<K>>) {
    forall i :: 0 <= i < |order| ==> order[i] in needs && Before(stored, order[..i], needs[order[i]])
  }

  ghost predicate Before<K(!new)>(stored: set<K>, earlier: seq<K>, need: set<K>) {
    forall x :: x in need ==> x in stored || x in earlier
  }

  lemma OrderedAppend<K(!new)>(stored: set<K>, order: seq<K>, needs: map<K, set<K>>, h: K)
    requires Ordered(stored, order, needs) && h in needs && Before(stored, order, needs[h])
    ensures Ordered(stored, order + [h], needs)
  {
    var order' := order + [h];
    forall i | 0 <= i < |order'| ensures order'[i] in needs && Before(stored, order'[..i], needs[order'[i]]) {
      assert order'[..i] == if i < |order| then order[..i] else order;
    }
  }

  ghost predicate BatchOk<K(!new)>(parse: Parser<K>, batch: Store<K>, order: seq<K>, needs: map<K, set<K>>, raws: set<K>) {
    && (forall h :: h in batch <==> h in order)
    && forall h :: h in batch ==> h in needs && Understood(parse, h, batch[h], needs[h], raws)
  }

  /** The store after writing part of the batch. */
  ghost function Written<K>(database: Store<K>, batch: Store<K>, part: seq<K>): Store<K> {
    database + map h | h in part && h in batch :: batch[h]
  }

  /** After writing any prefix of the batch, every stored node has its whole subtrie stored. */
  lemma PrefixIsClosed<K(!new)>(parse: Parser<K>, database: Store<K>, batch: Store<K>, order: seq<K>, needs: map<K, set<K>>, raws: set<K>, n: nat)
    requires Closed(parse, database, raws) && Ordered(database.Keys, order, needs) && BatchOk(parse, batch, order, needs, raws)
    requires n <= |order|
    ensures Closed(parse, Written(database, batch, order[..n]), raws)
  {
    var db := Written(database, batch, order[..n]);
    forall h | h in db ensures Understood(parse, h, db[h], db.Keys, raws) {
      if h in order[..n] {
        assert h in batch;
        var i :| 0 <= i < n && order[i] == h;
        assert Before(database.Keys, order[..i], needs[h]);
        forall x | x in needs[h] ensures x in db {
          if x in order[..i] { assert x in order[..n] && x in order; }
        }
      }
    }
  }

  // ---------------------------------------------------------------------------------------------
  // The scheduler
  // ---------------------------------------------------------------------------------------------

  /** Pending requests are not in the batch, and those with data are understood. */
  ghost predicate TableOk<K(!new)>(parse: Parser<K>, rs: Table<K>, batch: Store<K>, needs: map<K, set<K>>, raws: set<K>, terms: Terms<K>) {
    forall h :: h in rs ==> h !in batch && RequestOk(parse, h, rs[h], needs, raws, terms)
  }

  ghost predicate RequestOk<K(!new)>(parse: Parser<K>, h: K, req: Request<K, Callback<K>>, needs: map<K, set<K>>, raws: set<K>, terms: Terms<K>) {
    && (req.data.Some? ==> !req.raw && h in needs && Understood(parse, h, req.data.value, needs[h], raws))
    && (req.data.Some? ==> (h, req.data.value) in terms.given)
    && (req.raw ==> h in raws) && Obeys(req.callback, terms)
  }

  /** The callback is harmless if all are said to be, and declares no raw entries but those allowed. */
  ghost predicate Obeys<K(!new)>(callback: Callback<K>, terms: Terms<K>) {
    && (terms.harmless ==> MeansWell(callback))
    && (callback.Some? ==> forall leaf, x :: x in callback.value(leaf).raws ==> x in terms.allowed)
  }

  /** The raw entries a callback may ever declare. */
  ghost function Declarable<K(!new)>(callback: Callback<K>): iset<K> {
    iset leaf, x | callback.Some? && x in callback.value(leaf).raws :: x
  }

  ghost predicate MeansWell<K(!new)>(callback: Callback<K>) { callback.Some? ==> Harmless(callback.value) }

  /** A callback that fails has registered nothing. */
  ghost predicate Harmless<K(!new)>(callback: bytes -> Reply<K>) {
    forall leaf :: !callback(leaf).ok ==> callback(leaf).subtries == [] && callback(leaf).raws == []
  }

  ghost predicate RootsOk<K(!new)>(roots: set<K>, rs: Table<K>, database: Store<K>, batch: Store<K>) {
    forall x :: x in roots ==> x in rs || x in database || x in batch
  }

  /** The scheduler's state: database, membatch and table of pending requests. */
  datatype State<!K(==)> = State(database: Store<K>, batch: Store<K>, order: seq<K>, rs: Table<K>)

  /**
   What has been said so far: whether all callbacks are harmless, which entries may be raw (named by a
   caller or by some callback), and which data was handed in for which entry.
   */
  datatype Terms<!K(==)> = Terms(harmless: bool, allowed: iset<K>, given: set<(K, bytes)>)

  /**
   What the proof keeps beside it: who waits for whom, what each entry needs, the names of entries whose
   references do not count, the roots that were asked for, the nodes whose references were lost because
   their callback failed, and the terms.
   */
  datatype Proof<!K(==)> = Proof(waits: Links<K>, owed: Links<K>, needs: map<K, set<K>>, raws: set<K>, roots: set<K>,
                                 slips: set<K>, terms: Terms<K>)

  ghost function Known<K>(s: State<K>): set<K> { s.database.Keys + s.batch.Keys }

  ghost predicate LinksGood<K(!new)>(s: State<K>, g: Proof<K>, r: K, extra: nat, busy: bool) {
    LinksOk(s.rs, g.waits, g.owed, r, extra) && CoverOk(s.rs, g.waits, g.needs, Known(s), r, busy)
  }

  ghost predicate StoreGood<K(!new)>(parse: Parser<K>, s: State<K>, g: Proof<K>) {
    && Closed(parse, s.database, g.raws) && Ordered(s.database.Keys, s.order, g.needs)
    && BatchOk(parse, s.batch, s.order, g.needs, g.raws) && TableOk(parse, s.rs, s.batch, g.needs, g.raws, g.terms)
    && RootsOk(g.roots, s.rs, s.database, s.batch) && AllGiven(s.batch, g.terms)
  }

  /** What is in the batch was handed in. */
  ghost predicate AllGiven<K(!new)>(batch: Store<K>, terms: Terms<K>) {
    forall h :: h in batch ==> (h, batch[h]) in terms.given
  }

  /** The invariant; `r` may be in the middle of scheduling its children. */
  ghost predicate Good<K(!new)>(parse: Parser<K>, s: State<K>, g: Proof<K>, r: K, extra: nat, busy: bool) {
    LinksGood(s, g, r, extra, busy) && StoreGood(parse, s, g)
  }

  // ---------------------------------------------------------------------------------------------
  // commit
  // ---------------------------------------------------------------------------------------------

  /** The request moves from the table to the batch. */
  function Retired<K>(s: State<K>, h: K, data: bytes): State<K> {
    s.(batch := s.batch[h := data], order := s.order + [h], rs := s.rs - {h})
  }

  ghost function RetiredLinks<K>(g: Proof<K>, h: K): Proof<K> { g.(waits := g.waits - {h}) }

  ghost predicate CanRetire<K(!new)>(parse: Parser<K>, s: State<K>, g: Proof<K>, h: K, data: bytes) {
    && h in s.rs && h in g.waits && g.waits[h] == multiset{}
    && h in g.needs && g.needs[h] <= Known(s) && Understood(parse, h, data, g.needs[h], g.raws)
    && (h, data) in g.terms.given
  }

  lemma RetireLinks<K(!new)>(parse: Parser<K>, s: State<K>, g: Proof<K>, h: K, data: bytes, r: K)
    requires LinksGood(s, g, r, 0, false) && CanRetire(parse, s, g, h, data)
    ensures LinksGood(Retired(s, h, data), RetiredLinks(g, h), r, 0, false)
  {
    DropStep(s.rs, g.waits, g.owed, h, r);
    CoverDrop(s.rs, g.waits, g.needs, Known(s), r, h);
    assert Known(Retired(s, h, data)) == Known(s) + {h};
  }

  lemma RetireStore<K(!new)>(parse: Parser<K>, s: State<K>, g: Proof<K>, h: K, data: bytes)
    requires StoreGood(parse, s, g) && CanRetire(parse, s, g, h, data)
    ensures StoreGood(parse, Retired(s, h, data), RetiredLinks(g, h))
  {
    var s' := Retired(s, h, data);
    assert Before(s.database.Keys, s.order, g.needs[h]);
    OrderedAppend(s.database.Keys, s.order, g.needs, h);
    assert BatchOk(parse, s'.batch, s'.order, g.needs, g.raws);
    assert TableOk(parse, s'.rs, s'.batch, g.needs, g.raws, g.terms);
    assert RootsOk(g.roots, s'.rs, s.database, s'.batch);
  }

  /** `parent.deps--`. */
  function Told<K>(s: State<K>, p: K): State<K>
    requires p in s.rs
  {
    s.(rs := s.rs[p := s.rs[p].(deps := s.rs[p].deps - 1)])
  }

  ghost function ToldLinks<K>(g: Proof<K>, h: K, p: K): Proof<K>
    requires p in g.waits && h in g.owed
  {
    g.(waits := DropWait(g.waits, p, h), owed := DropWait(g.owed, h, p))
  }

  /** What `commit` leaves: the entry is in the batch, and so is every parent whose counter came to 0. */
  ghost function Committed<K>(s: State<K>, h: K, data: bytes): (s': State<K>)
    requires h in s.rs
    ensures s'.rs.Keys <= s.rs.Keys - {h}
    decreases s.rs.Keys, 0, 0
  {
    ToldAll(Retired(s, h, data), s.rs[h].parents)
  }

  ghost function ToldOne<K>(s: State<K>, p: K): (s': State<K>)
    ensures s'.rs.Keys <= s.rs.Keys
    decreases s.rs.Keys, 0, 1
  {
    if p !in s.rs then s
    else if Told(s, p).rs[p].deps == 0 && s.rs[p].data.Some? then Committed(Told(s, p), p, s.rs[p].data.value)
    else Told(s, p)
  }

  ghost function ToldAll<K>(s: State<K>, parents: seq<K>): (s': State<K>)
    ensures s'.rs.Keys <= s.rs.Keys
    decreases s.rs.Keys, 1, |parents|
  {
    if parents == [] then s else ToldAll(ToldOne(s, parents[0]), parents[1..])
  }

  /** `h` is committed and its remaining parents are `left`. */
  ghost predicate Telling<K(!new)>(s: State<K>, g: Proof<K>, h: K, left: multiset<K>) {
    h in s.batch && h !in s.rs && h in g.owed && g.owed[h] == left
  }

  /** Telling a parent; if it waits for nothing more, it can be committed itself. */
  lemma TellLinks<K(!new)>(s: State<K>, g: Proof<K>, h: K, p: K, left: multiset<K>, r: K)
    requires LinksGood(s, g, r, 0, false) && Telling(s, g, h, left) && p in left
    ensures p in s.rs && p in g.waits && s.rs[p].data.Some?
    ensures LinksGood(Told(s, p), ToldLinks(g, h, p), r, 0, false)
    ensures Told(s, p).rs[p].deps == 0 ==>
              ToldLinks(g, h, p).waits[p] == multiset{} && p in g.needs && g.needs[p] <= Known(s)
    ensures Telling(Told(s, p), ToldLinks(g, h, p), h, left - multiset{p})
  {
    NotifyStep(s.rs, g.waits, g.owed, h, p, r);
    assert At(g.owed, h, p) > 0;
    var s', g' := Told(s, p), ToldLinks(g, h, p);
    CoverNotify(s.rs, g.waits, g.needs, Known(s), r, h, p, s'.rs[p]);
    assert Covered(p, g'.waits[p], g.needs, Known(s));
    assert s'.rs[p].deps == |g'.waits[p]|;
  }

  lemma TellStore<K(!new)>(parse: Parser<K>, s: State<K>, g: Proof<K>, h: K, p: K)
    requires StoreGood(parse, s, g) && p in s.rs && p in g.waits && h in g.owed && s.rs[p].data.Some?
    ensures StoreGood(parse, Told(s, p), ToldLinks(g, h, p))
    ensures p in g.needs && Understood(parse, p, s.rs[p].data.value, g.needs[p], g.raws)
    ensures (p, s.rs[p].data.value) in g.terms.given
  {
    assert RequestOk(parse, p, s.rs[p], g.needs, g.raws, g.terms);
  }

  lemma FinishLinks<K(!new)>(s: State<K>, g: Proof<K>, h: K, r: K)
    requires LinksGood(s, g, r, 0, false) && Telling(s, g, h, multiset{})
    ensures LinksGood(s, g.(owed := g.owed - {h}), r, 0, false)
  {
    FinishStep(s.rs, g.waits, g.owed, h, r);
  }

  /** What committing leaves alone: the table only shrinks, the batch only grows. */
  ghost predicate Kept<K(!new)>(s: State<K>, g: Proof<K>, s': State<K>, g': Proof<K>) {
    && s'.database == s.database && g'.needs == g.needs && g'.raws == g.raws && g'.roots == g.roots
    && g'.terms == g.terms && g'.slips == g.slips
    && s.order <= s'.order && s.batch.Keys <= s'.batch.Keys && s'.rs.Keys <= s.rs.Keys
  }

  /** Requests in the middle of being committed, other than `h`, stay as they are. */
  ghost predicate FlightKept<K(!new)>(s: State<K>, g: Proof<K>, s': State<K>, g': Proof<K>, h: K) {
    forall c :: c != h ==> SameFlight(s, g, s', g', c)
  }

  ghost predicate SameFlight<K(!new)>(s: State<K>, g: Proof<K>, s': State<K>, g': Proof<K>, c: K) {
    && (c in g'.owed && c !in s'.rs <==> c in g.owed && c !in s.rs)
    && (c in g.owed && c !in s.rs && c in g'.owed ==> g'.owed[c] == g.owed[c])
  }

  /** sync.go `commit`: the entry goes to the batch, then every parent that waits for nothing more. */
  method CommitRequest<K(!new, ==)>(s: State<K>, h: K, data: bytes, ghost parse: Parser<K>, ghost g: Proof<K>, ghost r: K)
    returns (s': State<K>, ghost g': Proof<K>)
    requires Good(parse, s, g, r, 0, false) && CanRetire(parse, s, g, h, data)
    ensures Good(parse, s', g', r, 0, false) && h in s'.batch && h !in s'.rs && h !in g'.owed
    ensures Kept(s, g, s', g') && FlightKept(s, g, s', g', h) && s' == Committed(s, h, data)
    decreases s.rs.Keys, 2
  {
    RetireLinks(parse, s, g, h, data, r);
    RetireStore(parse, s, g, h, data);
    s', g' := TellParents(Retired(s, h, data), h, s.rs[h].parents, parse, RetiredLinks(g, h), r, s.rs.Keys);
    FinishLinks(s', g', h, r);
    FlightRetired(s, g, h, data, s', g');
    g' := g'.(owed := g'.owed - {h});
  }

  lemma FlightRetired<K(!new)>(s: State<K>, g: Proof<K>, h: K, data: bytes, s': State<K>, g': Proof<K>)
    requires FlightKept(Retired(s, h, data), RetiredLinks(g, h), s', g', h)
    ensures FlightKept(s, g, s', g'.(owed := g'.owed - {h}), h)
  {
    forall c | c != h ensures SameFlight(s, g, s', g'.(owed := g'.owed - {h}), c) {
      assert SameFlight(Retired(s, h, data), RetiredLinks(g, h), s', g', c);
    }
  }

  lemma OneLess<K>(parents: seq<K>, i: nat)
    requires i < |parents|
    ensures parents[i] in multiset(parents[i..])
    ensures multiset(parents[i..]) - multiset{parents[i]} == multiset(parents[i + 1..])
  {
    assert parents[i..] == [parents[i]] + parents[i + 1..];
  }

  lemma ToldNext<K(!new)>(s: State<K>, parents: seq<K>, i: nat, next: nat)
    requires next == i + 1 <= |parents|
    ensures ToldAll(s, parents[i..]) == ToldAll(ToldOne(s, parents[i]), parents[next..])
  {
    assert parents[i..][0] == parents[i] && parents[i..][1..] == parents[next..];
  }

  /** The loop of `commit` over the parents. */
  method TellParents<K(!new, ==)>(s: State<K>, h: K, parents: seq<K>, ghost parse: Parser<K>, ghost g: Proof<K>, ghost r: K, ghost size: set<K>)
    returns (s': State<K>, ghost g': Proof<K>)
    requires Good(parse, s, g, r, 0, false) && Telling(s, g, h, multiset(parents)) && s.rs.Keys < size
    ensures Good(parse, s', g', r, 0, false) && Telling(s', g', h, multiset{})
    ensures Kept(s, g, s', g') && FlightKept(s, g, s', g', h) && s' == ToldAll(s, parents)
    decreases size, 1
  {
    s', g' := s, g;
    assert parents[0..] == parents;
    for i := 0 to |parents|
      invariant Good(parse, s', g', r, 0, false) && Telling(s', g', h, multiset(parents[i..]))
      invariant Kept(s, g, s', g') && FlightKept(s, g, s', g', h) && ToldAll(s', parents[i..]) == ToldAll(s, parents)
    {
      OneLess(parents, i);
      ToldNext(s', parents, i, i + 1);
      s', g' := TellParent(s', h, parents[i], parse, g', r, multiset(parents[i..]), size, s, g);
    }
  }

  method TellParent<K(!new, ==)>(s: State<K>, h: K, p: K, ghost parse: Parser<K>, ghost g: Proof<K>, ghost r: K,
                                 ghost left: multiset<K>, ghost size: set<K>, ghost s0: State<K>, ghost g0: Proof<K>)
    returns (s': State<K>, ghost g': Proof<K>)
    requires Good(parse, s, g, r, 0, false) && Telling(s, g, h, left) && p in left && s.rs.Keys < size
    requires Kept(s0, g0, s, g) && FlightKept(s0, g0, s, g, h)
    ensures Good(parse, s', g', r, 0, false) && Telling(s', g', h, left - multiset{p})
    ensures Kept(s0, g0, s', g') && FlightKept(s0, g0, s', g', h) && s' == ToldOne(s, p)
    decreases size, 0
  {
    TellLinks(s, g, h, p, left, r);
    TellStore(parse, s, g, h, p);
    s', g' := Told(s, p), ToldLinks(g, h, p);
    FlightTold(s0, g0, s, g, h, p);
    if s'.rs[p].deps == 0 {
      ghost var s1, g1 := s', g';
      s', g' := CommitRequest(s', p, s'.rs[p].data.value, parse, g', r);
      assert SameFlight(s1, g1, s', g', h);
      FlightStep(s0, g0, s1, g1, s', g', h, p);
    }
  }

  lemma FlightTold<K(!new)>(s0: State<K>, g0: Proof<K>, s: State<K>, g: Proof<K>, h: K, p: K)
    requires FlightKept(s0, g0, s, g, h) && h in g.owed && p in s.rs && p in g.waits
    ensures FlightKept(s0, g0, Told(s, p), ToldLinks(g, h, p), h)
  {
    forall c | c != h ensures SameFlight(s0, g0, Told(s, p), ToldLinks(g, h, p), c) { assert SameFlight(s0, g0, s, g, c); }
  }

  lemma FlightStep<K(!new)>(s0: State<K>, g0: Proof<K>, s: State<K>, g: Proof<K>, s': State<K>, g': Proof<K>, h: K, p: K)
    requires FlightKept(s0, g0, s, g, h) && FlightKept(s, g, s', g', p) && p in s.rs && p !in g'.owed
    ensures FlightKept(s0, g0, s', g', h)
  {
    forall c | c != h ensures SameFlight(s0, g0, s', g', c) {
      assert SameFlight(s0, g0, s, g, c);
      if c != p { assert SameFlight(s, g, s', g', c); }
    }
  }

  // ---------------------------------------------------------------------------------------------
  // Scheduling
  // ---------------------------------------------------------------------------------------------

  /** Nothing is in the middle of being committed. */
  ghost predicate Idle<K(!new)>(s: State<K>, g: Proof<K>) { g.owed.Keys == s.rs.Keys }

  /** sync.go `schedule`. */
  function Schedule<K>(s: State<K>, x: K, req: Request<K, Callback<K>>): State<K> {
    s.(rs := Scheduled(s.rs, x, req))
  }

  ghost function OpenedLinks<K>(g: Proof<K>, x: K): Proof<K> {
    g.(waits := Opened(g.waits, x), owed := Opened(g.owed, x))
  }

  /** The links once `p` waits for `x`. */
  ghost function Linked<K>(g: Proof<K>, x: K, p: K): Proof<K>
    requires p in g.waits
  {
    g.(waits := AddWait(Opened(g.waits, x), p, x), owed := AddWait(Opened(g.owed, x), x, p))
  }

  /** A request fit to be scheduled: without data or dependencies. */
  ghost predicate Fresh<K(!new)>(parse: Parser<K>, x: K, req: Request<K, Callback<K>>, parents: seq<K>, raws: set<K>, terms: Terms<K>) {
    && req.parents == parents && req.deps == 0 && req.data.None? && (req.raw ==> x in raws)
    && Obeys(req.callback, terms)
  }

  lemma ScheduleStore<K(!new)>(parse: Parser<K>, s: State<K>, g: Proof<K>, x: K, req: Request<K, Callback<K>>, parents: seq<K>)
    requires StoreGood(parse, s, g) && Fresh(parse, x, req, parents, g.raws, g.terms) && x !in s.batch
    ensures StoreGood(parse, Schedule(s, x, req), OpenedLinks(g, x))
    ensures forall p :: p in g.waits ==> StoreGood(parse, Schedule(s, x, req), Linked(g, x, p))
  {
    var s' := Schedule(s, x, req);
    assert TableOk(parse, s'.rs, s'.batch, g.needs, g.raws, g.terms) by {
      forall h | h in s'.rs ensures h !in s'.batch && RequestOk(parse, h, s'.rs[h], g.needs, g.raws, g.terms) {
        if h in s.rs { assert RequestOk(parse, h, s.rs[h], g.needs, g.raws, g.terms); }
      }
    }
    assert RootsOk(g.roots, s'.rs, s'.database, s'.batch);
  }

  /** `r`, whose counter is ahead by `extra`, has the request for `x` scheduled and linked. */
  lemma ScheduleGood<K(!new)>(parse: Parser<K>, s: State<K>, g: Proof<K>, x: K, req: Request<K, Callback<K>>, r: K, extra: nat, left: nat)
    requires Good(parse, s, g, r, extra, true) && Idle(s, g) && extra == left + 1
    requires r in s.rs && s.rs[r].data.Some? && Fresh(parse, x, req, [r], g.raws, g.terms) && x !in s.batch
    ensures r in g.waits
    ensures Good(parse, Schedule(s, x, req), Linked(g, x, r), r, left, true) == true
    ensures Idle(Schedule(s, x, req), Linked(g, x, r))
  {
    ScheduleLinks(s, g, x, req, r, extra, left);
    ScheduleStore(parse, s, g, x, req, [r]);
  }

  lemma ScheduleLinks<K(!new)>(s: State<K>, g: Proof<K>, x: K, req: Request<K, Callback<K>>, r: K, extra: nat, left: nat)
    requires LinksGood(s, g, r, extra, true) && Idle(s, g) && extra == left + 1
    requires r in s.rs && s.rs[r].data.Some? && req.parents == [r] && req.deps == 0 && req.data.None?
    ensures r in g.waits
    ensures LinksGood(Schedule(s, x, req), Linked(g, x, r), r, left, true)
    ensures Idle(Schedule(s, x, req), Linked(g, x, r))
  {
    LinkStep(s.rs, g.waits, g.owed, x, req, r, extra, left);
    CoverScheduled(s.rs, g.waits, g.needs, Known(s), r, x, req);
  }

  /** A request nobody waits for. */
  lemma ScheduleRoot<K(!new)>(parse: Parser<K>, s: State<K>, g: Proof<K>, x: K, req: Request<K, Callback<K>>, r: K)
    requires Good(parse, s, g, r, 0, false) && Idle(s, g) && Fresh(parse, x, req, [], g.raws, g.terms) && x !in s.batch
    ensures Good(parse, Schedule(s, x, req), OpenedLinks(g, x), r, 0, false)
    ensures Idle(Schedule(s, x, req), OpenedLinks(g, x))
  {
    RootLinks(s, g, x, req, r);
    ScheduleStore(parse, s, g, x, req, []);
  }

  lemma RootLinks<K(!new)>(s: State<K>, g: Proof<K>, x: K, req: Request<K, Callback<K>>, r: K)
    requires LinksGood(s, g, r, 0, false) && Idle(s, g) && req.parents == [] && req.deps == 0 && req.data.None?
    ensures LinksGood(Schedule(s, x, req), OpenedLinks(g, x), r, 0, false)
    ensures Idle(Schedule(s, x, req), OpenedLinks(g, x))
  {
    NewStep(s.rs, g.waits, g.owed, x, req, r, 0);
    CoverOpened(s.rs, g.waits, g.needs, Known(s), r, false, x, req);
  }

  // ---------------------------------------------------------------------------------------------
  // Changing one request
  // ---------------------------------------------------------------------------------------------

  /** The counter of the request whose children are being scheduled runs ahead. */
  function Bumped<K>(s: State<K>, r: K, n: nat): State<K>
    requires r in s.rs
  {
    s.(rs := s.rs[r := s.rs[r].(deps := s.rs[r].deps + n)])
  }

  lemma BumpGood<K(!new)>(parse: Parser<K>, s: State<K>, g: Proof<K>, r: K, extra: nat, n: nat)
    requires Good(parse, s, g, r, extra, true) && r in s.rs
    ensures Good(parse, Bumped(s, r, n), g, r, extra + n, true)
  {
    var s' := Bumped(s, r, n);
    assert Counted(s'.rs, g.waits, r, extra + n);
    assert Alive(s'.rs, g.owed) by {
      forall c, p | At(g.owed, c, p) > 0 ensures p in s'.rs && s'.rs[p].data.Some? { assert p in s.rs; }
    }
    assert Known(s') == Known(s);
    assert RequestOk(parse, r, s.rs[r], g.needs, g.raws, g.terms);
    assert TableOk(parse, s'.rs, s'.batch, g.needs, g.raws, g.terms);
    assert RootsOk(g.roots, s'.rs, s'.database, s'.batch);
  }

  function WithData<K>(s: State<K>, h: K, data: bytes): State<K>
    requires h in s.rs
  {
    s.(rs := s.rs[h := s.rs[h].(data := Some(data))])
  }

  ghost function WithNeeds<K>(g: Proof<K>, h: K, need: set<K>): Proof<K> { g.(needs := g.needs[h := need]) }

  lemma NeedsStore<K(!new)>(parse: Parser<K>, s: State<K>, s': State<K>, g: Proof<K>, h: K, need: set<K>)
    requires StoreGood(parse, s, g) && h in s.rs && h in s'.rs
    requires s' == s.(rs := s.rs[h := s'.rs[h]]) && RequestOk(parse, h, s'.rs[h], g.needs[h := need], g.raws, g.terms)
    ensures StoreGood(parse, s', WithNeeds(g, h, need))
  {
    var needs := g.needs[h := need];
    assert h !in s.batch;
    assert Ordered(s.database.Keys, s.order, needs) by {
      forall i | 0 <= i < |s.order| ensures s.order[i] in needs && Before(s.database.Keys, s.order[..i], needs[s.order[i]]) {
        assert s.order[i] in s.batch;
      }
    }
    assert BatchOk(parse, s.batch, s.order, needs, g.raws);
    assert TableOk(parse, s'.rs, s.batch, needs, g.raws, g.terms) by {
      forall x | x in s'.rs ensures x !in s.batch && RequestOk(parse, x, s'.rs[x], needs, g.raws, g.terms) {
        if x != h { assert RequestOk(parse, x, s.rs[x], g.needs, g.raws, g.terms); }
      }
    }
    assert RootsOk(g.roots, s'.rs, s.database, s.batch);
  }

  lemma NeedsLinks<K(!new)>(s: State<K>, s': State<K>, g: Proof<K>, h: K, need: set<K>, r: K, extra: nat, busy: bool)
    requires LinksGood(s, g, r, extra, busy) && (busy ==> r == h) && (!busy ==> extra == 0)
    requires h in s.rs && h in s'.rs && s' == s.(rs := s.rs[h := s'.rs[h]])
    requires s'.rs[h] == s.rs[h] || (s'.rs[h] == s.rs[h].(data := s'.rs[h].data) && s'.rs[h].data.Some?)
    ensures LinksGood(s', WithNeeds(g, h, need), h, if busy then extra else 0, true) == true
  {
    NeedsCounted(s, s', g, h, r, extra, busy);
    NeedsCover(s, s', g, h, need, r, busy);
  }

  lemma NeedsCounted<K(!new)>(s: State<K>, s': State<K>, g: Proof<K>, h: K, r: K, extra: nat, busy: bool)
    requires LinksOk(s.rs, g.waits, g.owed, r, extra) && (busy ==> r == h) && (!busy ==> extra == 0)
    requires h in s.rs && h in s'.rs && s' == s.(rs := s.rs[h := s'.rs[h]])
    requires s'.rs[h] == s.rs[h] || (s'.rs[h] == s.rs[h].(data := s'.rs[h].data) && s'.rs[h].data.Some?)
    ensures LinksOk(s'.rs, g.waits, g.owed, h, if busy then extra else 0) == true
  {
    assert Counted(s'.rs, g.waits, h, if busy then extra else 0);
    assert Alive(s'.rs, g.owed) by {
      forall c, p | At(g.owed, c, p) > 0 ensures p in s'.rs && s'.rs[p].data.Some? { assert p in s.rs; }
    }
  }

  lemma NeedsCover<K(!new)>(s: State<K>, s': State<K>, g: Proof<K>, h: K, need: set<K>, r: K, busy: bool)
    requires CoverOk(s.rs, g.waits, g.needs, Known(s), r, busy) && (busy ==> r == h)
    requires h in s.rs && h in s'.rs && s' == s.(rs := s.rs[h := s'.rs[h]])
    ensures CoverOk(s'.rs, g.waits, g.needs[h := need], Known(s'), h, true)
  {
    var needs := g.needs[h := need];
    forall p | p in s'.rs && p in g.waits && g.waits[p] != multiset{} && p != h
      ensures Covered(p, g.waits[p], needs, Known(s'))
    {
      assert Covered(p, g.waits[p], g.needs, Known(s));
    }
  }

  /** A request without data waits for nothing. */
  lemma NoDataNoWait<K(!new)>(s: State<K>, g: Proof<K>, h: K, r: K, extra: nat, busy: bool)
    requires LinksGood(s, g, r, extra, busy) && h in s.rs && s.rs[h].data.None?
    ensures h in g.waits && g.waits[h] == multiset{}
  {
    forall c ensures g.waits[h][c] == 0 {
      assert At(g.waits, h, c) == At(g.owed, c, h);
    }
  }

  /** Once all it needs is known or waited for, a request counts like any other. */
  lemma BusyDone<K(!new)>(s: State<K>, g: Proof<K>, h: K, r: K)
    requires LinksGood(s, g, h, 0, true) && h in g.waits
    requires g.waits[h] == multiset{} || Covered(h, g.waits[h], g.needs, Known(s))
    ensures LinksGood(s, g, r, 0, false)
  {
  }

  // ---------------------------------------------------------------------------------------------
  // Adding sub-tries and raw entries
  // ---------------------------------------------------------------------------------------------

  /** Scheduling leaves stores and needs alone; `r` keeps its data and waits for no less. */
  ghost predicate Extends<K(!new)>(s: State<K>, g: Proof<K>, s': State<K>, g': Proof<K>, r: K) {
    && s'.database == s.database && s'.batch == s.batch && s'.order == s.order
    && g'.needs == g.needs && g'.roots == g.roots && g.raws <= g'.raws && s.rs.Keys <= s'.rs.Keys
    && g'.terms == g.terms && g'.slips == g.slips
    && (r in s.rs ==> r in s'.rs && s'.rs[r].data == s.rs[r].data && s'.rs[r].callback == s.rs[r].callback)
    && (r in g.waits ==> r in g'.waits && g.waits[r] <= g'.waits[r])
  }

  /** An entry asked for below `r` is trivial, known, or waited for. */
  ghost predicate Provided<K(!new)>(s: State<K>, g: Proof<K>, x: K, trivial: K, r: K) {
    x == trivial || x in Known(s) || (r in g.waits && x in g.waits[r])
  }

  lemma ProvidedStays<K(!new)>(s: State<K>, g: Proof<K>, s': State<K>, g': Proof<K>, x: K, trivial: K, r: K)
    requires Provided(s, g, x, trivial, r) && Extends(s, g, s', g', r)
    ensures Provided(s', g', x, trivial, r)
  {
  }

  /** `ancestor.deps++`, then `schedule`. */
  function Below<K>(s: State<K>, x: K, req: Request<K, Callback<K>>, r: K): State<K>
    requires r in s.rs
  {
    Schedule(Bumped(s, r, 1), x, req)
  }

  /** Link a new request below `r`. */
  method LinkBelow<K(!new, ==)>(s: State<K>, x: K, req: Request<K, Callback<K>>, r: K, ghost parse: Parser<K>, ghost g: Proof<K>)
    returns (s': State<K>, ghost g': Proof<K>)
    requires Good(parse, s, g, r, 0, true) && Idle(s, g) && r in s.rs && s.rs[r].data.Some?
    requires Fresh(parse, x, req, [r], g.raws, g.terms) && x !in s.batch
    ensures Good(parse, s', g', r, 0, true) == true && Idle(s', g') && Extends(s, g, s', g', r) == true && MoreWaited(g, g', r, {x}) && g'.raws == g.raws
    ensures s' == Below(s, x, req, r)
  {
    BumpGood(parse, s, g, r, 0, 1);
    var s1 := Bumped(s, r, 1);
    ScheduleGood(parse, s1, g, x, req, r, 1, 0);
    s', g' := Schedule(s1, x, req), Linked(g, x, r);
    LinkExtends(s, g, x, req, r);
  }

  lemma LinkExtends<K(!new)>(s: State<K>, g: Proof<K>, x: K, req: Request<K, Callback<K>>, r: K)
    requires r in s.rs && r in g.waits
    ensures Extends(s, g, Schedule(Bumped(s, r, 1), x, req), Linked(g, x, r), r) == true
    ensures MoreWaited(g, Linked(g, x, r), r, {x}) && Linked(g, x, r).raws == g.raws
  {
  }

  /** The request `r` waits for `x`. */
  ghost predicate Waited<K(!new)>(g: Proof<K>, x: K, r: K) { r in g.waits && x in g.waits[r] }

  /** Now `r` also waits for the entries in `more`, and for no others. */
  ghost predicate MoreWaited<K(!new)>(g: Proof<K>, g': Proof<K>, r: K, more: set<K>) {
    forall x :: Waited(g', x, r) <==> Waited(g, x, r) || x in more
  }

  lemma MoreTwice<K(!new)>(g: Proof<K>, g1: Proof<K>, g2: Proof<K>, r: K, a: set<K>, b: set<K>)
    requires MoreWaited(g, g1, r, a) && MoreWaited(g1, g2, r, b)
    ensures MoreWaited(g, g2, r, a + b)
  {
  }

  /** The sub-tries among `xs` that a new request is made for. */
  ghost function NewTries<K>(parse: Parser<K>, database: Store<K>, batch: Store<K>, xs: seq<K>, emptyRoot: K): set<K> {
    set x | x in xs && x != emptyRoot && x !in batch && !(x in database && parse(x, database[x]).Some?)
  }

  ghost function NewRaws<K>(database: Store<K>, batch: Store<K>, xs: seq<K>, emptyState: K): set<K> {
    set x | x in xs && x != emptyState && x !in batch && x !in database
  }

  /** A sub-trie needs no request if it is empty, in the batch, or stored and decodes. */
  predicate HasTrie<K>(parse: Parser<K>, s: State<K>, x: K, emptyRoot: K) {
    x == emptyRoot || x in s.batch || (x in s.database && parse(x, s.database[x]).Some?)
  }

  predicate HasRaw<K>(s: State<K>, x: K, emptyState: K) { x == emptyState || x in s.batch || x in s.database }

  ghost function TrieBelow<K>(parse: Parser<K>, s: State<K>, x: K, r: K, emptyRoot: K): State<K> {
    if HasTrie(parse, s, x, emptyRoot) || r !in s.rs then s else Below(s, x, Request(None, false, [r], 0, None), r)
  }

  ghost function RawBelow<K>(s: State<K>, x: K, r: K, emptyState: K): State<K> {
    if HasRaw(s, x, emptyState) || r !in s.rs then s else Below(s, x, Request(None, true, [r], 0, None), r)
  }

  ghost function TriesBelow<K>(parse: Parser<K>, s: State<K>, xs: seq<K>, r: K, emptyRoot: K): State<K> {
    if xs == [] then s else TrieBelow(parse, TriesBelow(parse, s, xs[..|xs| - 1], r, emptyRoot), xs[|xs| - 1], r, emptyRoot)
  }

  ghost function RawsBelow<K>(s: State<K>, xs: seq<K>, r: K, emptyState: K): State<K> {
    if xs == [] then s else RawBelow(RawsBelow(s, xs[..|xs| - 1], r, emptyState), xs[|xs| - 1], r, emptyState)
  }

  /** sync.go `AddSubTrie` with the parent whose leaf a callback was given. */
  method AddSubTrieBelow<K(!new, ==)>(s: State<K>, root: K, r: K, parse: Parser<K>, emptyRoot: K, ghost g: Proof<K>)
    returns (s': State<K>, ghost g': Proof<K>)
    requires Good(parse, s, g, r, 0, true) && Idle(s, g) && r in s.rs && s.rs[r].data.Some?
    ensures Good(parse, s', g', r, 0, true) == true && Idle(s', g') && Extends(s, g, s', g', r) == true
    ensures Provided(s', g', root, emptyRoot, r) && MoreWaited(g, g', r, NewTries(parse, s.database, s.batch, [root], emptyRoot)) && g'.raws == g.raws
    ensures s' == TrieBelow(parse, s, root, r, emptyRoot)
  {
    OneTrie(parse, s.database, s.batch, root, emptyRoot);
    if root == emptyRoot || root in s.batch { return s, g; }
    if root in s.database && parse(root, s.database[root]).Some? { return s, g; }
    s', g' := LinkBelow(s, root, Request(None, false, [r], 0, None), r, parse, g);
  }

  lemma RawsGood<K(!new)>(parse: Parser<K>, s: State<K>, g: Proof<K>, x: K, r: K, extra: nat, busy: bool)
    requires Good(parse, s, g, r, extra, busy)
    ensures Good(parse, s, g.(raws := g.raws + {x}), r, extra, busy)
  {
    var raws := g.raws + {x};
    assert BatchOk(parse, s.batch, s.order, g.needs, raws);
    assert TableOk(parse, s.rs, s.batch, g.needs, raws, g.terms) by {
      forall h | h in s.rs ensures h !in s.batch && RequestOk(parse, h, s.rs[h], g.needs, raws, g.terms) {
        assert RequestOk(parse, h, s.rs[h], g.needs, g.raws, g.terms);
      }
    }
  }

  /** sync.go `AddRawEntry` with a parent; the entry is never read as a trie node. */
  method AddRawEntryBelow<K(!new, ==)>(s: State<K>, hash: K, r: K, emptyState: K, ghost parse: Parser<K>, ghost g: Proof<K>)
    returns (s': State<K>, ghost g': Proof<K>)
    requires Good(parse, s, g, r, 0, true) && Idle(s, g) && r in s.rs && s.rs[r].data.Some?
    ensures Good(parse, s', g', r, 0, true) == true && Idle(s', g') && Extends(s, g, s', g', r) == true
    ensures Provided(s', g', hash, emptyState, r) && MoreWaited(g, g', r, NewRaws(s.database, s.batch, [hash], emptyState))
    ensures g'.raws == g.raws + NewRaws(s.database, s.batch, [hash], emptyState) && s' == RawBelow(s, hash, r, emptyState)
  {
    OneRaw(s.database, s.batch, hash, emptyState);
    if hash == emptyState || hash in s.batch || hash in s.database { return s, g; }
    RawsGood(parse, s, g, hash, r, 0, true);
    ghost var g1 := g.(raws := g.raws + {hash});
    s', g' := LinkBelow(s, hash, Request(None, true, [r], 0, None), r, parse, g1);
    MoreRaws(s, g, g1, s', g', r, hash);
  }

  lemma OneRaw<K>(database: Store<K>, batch: Store<K>, x: K, emptyState: K)
    ensures NewRaws(database, batch, [x], emptyState) == if x == emptyState || x in batch || x in database then {} else {x}
  {
    assert x in [x];
  }

  lemma OneTrie<K>(parse: Parser<K>, database: Store<K>, batch: Store<K>, x: K, emptyRoot: K)
    ensures NewTries(parse, database, batch, [x], emptyRoot)
         == if x == emptyRoot || x in batch || (x in database && parse(x, database[x]).Some?) then {} else {x}
  {
    assert x in [x];
  }

  lemma MoreRaws<K(!new)>(s: State<K>, g: Proof<K>, g1: Proof<K>, s': State<K>, g': Proof<K>, r: K, x: K)
    requires g1 == g.(raws := g.raws + {x}) && Extends(s, g1, s', g', r) && MoreWaited(g1, g', r, {x})
    ensures Extends(s, g, s', g', r) == true && MoreWaited(g, g', r, {x})
  {
  }

  ghost predicate AllProvided<K(!new)>(s: State<K>, g: Proof<K>, xs: seq<K>, trivial: K, r: K) {
    forall i :: 0 <= i < |xs| ==> Provided(s, g, xs[i], trivial, r)
  }

  lemma AllStay<K(!new)>(s: State<K>, g: Proof<K>, s': State<K>, g': Proof<K>, xs: seq<K>, trivial: K, r: K)
    requires AllProvided(s, g, xs, trivial, r) && Extends(s, g, s', g', r)
    ensures AllProvided(s', g', xs, trivial, r)
  {
    forall i | 0 <= i < |xs| ensures Provided(s', g', xs[i], trivial, r) { ProvidedStays(s, g, s', g', xs[i], trivial, r); }
  }

  lemma OneMoreProvided<K(!new)>(s: State<K>, g: Proof<K>, xs: seq<K>, i: nat, trivial: K, r: K)
    requires i < |xs| && AllProvided(s, g, xs[..i], trivial, r) && Provided(s, g, xs[i], trivial, r)
    ensures AllProvided(s, g, xs[..i + 1], trivial, r)
  {
    assert xs[..i + 1] == xs[..i] + [xs[i]];
  }

  lemma ExtendsTwice<K(!new)>(s: State<K>, g: Proof<K>, s1: State<K>, g1: Proof<K>, s2: State<K>, g2: Proof<K>, r: K)
    requires Extends(s, g, s1, g1, r) && Extends(s1, g1, s2, g2, r)
    ensures Extends(s, g, s2, g2, r)
  {
  }

  /** A request with data whose children are being looked at. */
  ghost predicate Opening<K(!new)>(parse: Parser<K>, s: State<K>, g: Proof<K>, r: K) {
    Good(parse, s, g, r, 0, true) && Idle(s, g) && r in s.rs && s.rs[r].data.Some?
  }

  lemma OneMoreTrie<K>(parse: Parser<K>, database: Store<K>, batch: Store<K>, xs: seq<K>, i: nat, next: nat, emptyRoot: K)
    requires next == i + 1 <= |xs|
    ensures NewTries(parse, database, batch, xs[..next], emptyRoot)
         == NewTries(parse, database, batch, xs[..i], emptyRoot) + NewTries(parse, database, batch, [xs[i]], emptyRoot)
  {
    assert xs[..next] == xs[..i] + [xs[i]];
  }

  lemma UnionTwice<K>(a: set<K>, b: set<K>, c: set<K>)
    ensures a + b + c == a + (b + c)
  {
  }

  lemma OneMoreRaw<K>(database: Store<K>, batch: Store<K>, xs: seq<K>, i: nat, next: nat, emptyState: K)
    requires next == i + 1 <= |xs|
    ensures NewRaws(database, batch, xs[..next], emptyState)
         == NewRaws(database, batch, xs[..i], emptyState) + NewRaws(database, batch, [xs[i]], emptyState)
  {
    assert xs[..next] == xs[..i] + [xs[i]];
  }

  lemma TriesNext<K(!new)>(parse: Parser<K>, s: State<K>, xs: seq<K>, i: nat, next: nat, r: K, emptyRoot: K)
    requires next == i + 1 <= |xs|
    ensures TriesBelow(parse, s, xs[..next], r, emptyRoot) == TrieBelow(parse, TriesBelow(parse, s, xs[..i], r, emptyRoot), xs[i], r, emptyRoot)
  {
    assert xs[..next][..i] == xs[..i];
  }

  lemma RawsNext<K(!new)>(s: State<K>, xs: seq<K>, i: nat, next: nat, r: K, emptyState: K)
    requires next == i + 1 <= |xs|
    ensures RawsBelow(s, xs[..next], r, emptyState) == RawBelow(RawsBelow(s, xs[..i], r, emptyState), xs[i], r, emptyState)
  {
    assert xs[..next][..i] == xs[..i];
  }

  method RegisterTries<K(!new, ==)>(s: State<K>, xs: seq<K>, r: K, parse: Parser<K>, emptyRoot: K, ghost g: Proof<K>)
    returns (s': State<K>, ghost g': Proof<K>)
    requires Opening(parse, s, g, r)
    ensures Opening(parse, s', g', r) && Extends(s, g, s', g', r) && AllProvided(s', g', xs, emptyRoot, r)
    ensures MoreWaited(g, g', r, NewTries(parse, s.database, s.batch, xs, emptyRoot)) && g'.raws == g.raws
    ensures s' == TriesBelow(parse, s, xs, r, emptyRoot)
  {
    s', g' := s, g;
    for i := 0 to |xs|
      invariant Opening(parse, s', g', r) && Extends(s, g, s', g', r) && AllProvided(s', g', xs[..i], emptyRoot, r)
      invariant MoreWaited(g, g', r, NewTries(parse, s.database, s.batch, xs[..i], emptyRoot)) && g'.raws == g.raws
      invariant s' == TriesBelow(parse, s, xs[..i], r, emptyRoot)
    {
      ghost var s1, g1 := s', g';
      s', g' := AddSubTrieBelow(s', xs[i], r, parse, emptyRoot, g');
      AllStay(s1, g1, s', g', xs[..i], emptyRoot, r);
      OneMoreProvided(s', g', xs, i, emptyRoot, r);
      ExtendsTwice(s, g, s1, g1, s', g', r);
      MoreTwice(g, g1, g', r, NewTries(parse, s.database, s.batch, xs[..i], emptyRoot), NewTries(parse, s.database, s.batch, [xs[i]], emptyRoot));
      OneMoreTrie(parse, s.database, s.batch, xs, i, i + 1, emptyRoot);
      TriesNext(parse, s, xs, i, i + 1, r, emptyRoot);
    }
    assert xs[..|xs|] == xs;
  }

  method RegisterRaws<K(!new, ==)>(s: State<K>, xs: seq<K>, r: K, emptyState: K, ghost parse: Parser<K>, ghost g: Proof<K>)
    returns (s': State<K>, ghost g': Proof<K>)
    requires Opening(parse, s, g, r)
    ensures Opening(parse, s', g', r) && Extends(s, g, s', g', r) && AllProvided(s', g', xs, emptyState, r)
    ensures MoreWaited(g, g', r, NewRaws(s.database, s.batch, xs, emptyState))
    ensures g'.raws == g.raws + NewRaws(s.database, s.batch, xs, emptyState) && s' == RawsBelow(s, xs, r, emptyState)
  {
    s', g' := s, g;
    for i := 0 to |xs|
      invariant Opening(parse, s', g', r) && Extends(s, g, s', g', r) && AllProvided(s', g', xs[..i], emptyState, r)
      invariant MoreWaited(g, g', r, NewRaws(s.database, s.batch, xs[..i], emptyState))
      invariant g'.raws == g.raws + NewRaws(s.database, s.batch, xs[..i], emptyState) && s' == RawsBelow(s, xs[..i], r, emptyState)
    {
      ghost var s1, g1 := s', g';
      s', g' := AddRawEntryBelow(s', xs[i], r, emptyState, parse, g');
      AllStay(s1, g1, s', g', xs[..i], emptyState, r);
      OneMoreProvided(s', g', xs, i, emptyState, r);
      ExtendsTwice(s, g, s1, g1, s', g', r);
      MoreTwice(g, g1, g', r, NewRaws(s.database, s.batch, xs[..i], emptyState), NewRaws(s.database, s.batch, [xs[i]], emptyState));
      OneMoreRaw(s.database, s.batch, xs, i, i + 1, emptyState);
      RawsNext(s, xs, i, i + 1, r, emptyState);
      UnionTwice(g.raws, NewRaws(s.database, s.batch, xs[..i], emptyState), NewRaws(s.database, s.batch, [xs[i]], emptyState));
    }
    assert xs[..|xs|] == xs;
  }

  // ---------------------------------------------------------------------------------------------
  // Process
  // ---------------------------------------------------------------------------------------------

  /** Each entry is known or waited for by `r`. */
  ghost predicate Satisfied<K(!new)>(s: State<K>, g: Proof<K>, need: set<K>, r: K) {
    forall x :: x in need ==> x in Known(s) || (r in g.waits && x in g.waits[r])
  }

  /** The entries a reply asks for, but for the trivial ones. */
  ghost function Asked<K>(reply: Reply<K>, emptyRoot: K, emptyState: K): set<K> {
    (set x | x in reply.subtries && x != emptyRoot) + (set x | x in reply.raws && x != emptyState)
  }

  /** What a reply makes new requests for. */
  ghost function Registered<K>(parse: Parser<K>, s: State<K>, reply: Reply<K>, emptyRoot: K, emptyState: K): set<K> {
    NewTries(parse, s.database, s.batch, reply.subtries, emptyRoot) + NewRaws(s.database, s.batch, reply.raws, emptyState)
  }

  /** The table once a reply's sub-tries and raw entries are registered below `r`. */
  ghost function Replied<K>(parse: Parser<K>, s: State<K>, reply: Reply<K>, r: K, emptyRoot: K, emptyState: K): State<K> {
    RawsBelow(TriesBelow(parse, s, reply.subtries, r, emptyRoot), reply.raws, r, emptyState)
  }

  /** The callback of a leaf: what it registers is linked below `r`, whether it fails or not. */
  method Notify<K(!new, ==)>(s: State<K>, callback: bytes -> Reply<K>, leaf: bytes, r: K, parse: Parser<K>,
                             emptyRoot: K, emptyState: K, ghost g: Proof<K>)
    returns (s': State<K>, failed: bool, ghost g': Proof<K>)
    requires Opening(parse, s, g, r)
    ensures Opening(parse, s', g', r) && Extends(s, g, s', g', r) && failed == !callback(leaf).ok
    ensures Satisfied(s', g', Asked(callback(leaf), emptyRoot, emptyState), r)
    ensures MoreWaited(g, g', r, Registered(parse, s, callback(leaf), emptyRoot, emptyState))
    ensures g'.raws == g.raws + NewRaws(s.database, s.batch, callback(leaf).raws, emptyState)
    ensures s' == Replied(parse, s, callback(leaf), r, emptyRoot, emptyState)
  {
    var reply := callback(leaf);
    ghost var s1, g1;
    s', g' := RegisterTries(s, reply.subtries, r, parse, emptyRoot, g);
    s1, g1 := s', g';
    s', g' := RegisterRaws(s', reply.raws, r, emptyState, parse, g');
    AllStay(s1, g1, s', g', reply.subtries, emptyRoot, r);
    ExtendsTwice(s, g, s1, g1, s', g', r);
    MoreTwice(g, g1, g', r, NewTries(parse, s.database, s.batch, reply.subtries, emptyRoot), NewRaws(s.database, s.batch, reply.raws, emptyState));
    failed := !reply.ok;
    AskedSatisfied(s', g', reply, emptyRoot, emptyState, r);
  }

  lemma AskedSatisfied<K(!new)>(s: State<K>, g: Proof<K>, reply: Reply<K>, emptyRoot: K, emptyState: K, r: K)
    requires AllProvided(s, g, reply.subtries, emptyRoot, r) && AllProvided(s, g, reply.raws, emptyState, r)
    ensures Satisfied(s, g, Asked(reply, emptyRoot, emptyState), r)
  {
    forall x | x in Asked(reply, emptyRoot, emptyState) ensures x in Known(s) || (r in g.waits && x in g.waits[r]) {
      if x in reply.subtries && x != emptyRoot {
        var i :| 0 <= i < |reply.subtries| && reply.subtries[i] == x;
        assert Provided(s, g, reply.subtries[i], emptyRoot, r);
      } else {
        var i :| 0 <= i < |reply.raws| && reply.raws[i] == x;
        assert Provided(s, g, reply.raws[i], emptyState, r);
      }
    }
  }

  /** Every reference among the first children is known or listed. */
  ghost predicate Listed<K(!new)>(s: State<K>, cs: seq<Child<K>>, list: seq<K>) {
    forall x :: x in Refs(cs) ==> x in Known(s) || x in list
  }

  ghost predicate Unknown<K(!new)>(s: State<K>, list: seq<K>) {
    forall i :: 0 <= i < |list| ==> list[i] !in Known(s)
  }

  lemma RefsAppend<K>(cs: seq<Child<K>>, c: Child<K>)
    ensures Refs(cs + [c]) == Refs(cs) + if c.Ref? then {c.h} else {}
  {
    var all := cs + [c];
    assert all[|cs|] == c;
    assert forall i :: 0 <= i < |cs| ==> all[i] == cs[i];
    forall x | x in Refs(cs) ensures x in Refs(all) {
      var i :| 0 <= i < |cs| && cs[i].Ref? && cs[i].h == x;
      assert all[i].Ref? && all[i].h == x;
    }
  }

  lemma ListStep<K(!new)>(s: State<K>, cs: seq<Child<K>>, j: nat, list: seq<K>)
    requires j < |cs| && Listed(s, cs[..j], list) && Unknown(s, list)
    ensures !cs[j].Ref? || cs[j].h in Known(s) ==> Listed(s, cs[..j + 1], list)
    ensures cs[j].Ref? ==> Listed(s, cs[..j + 1], list + [cs[j].h])
  {
    assert cs[..j + 1] == cs[..j] + [cs[j]];
    RefsAppend(cs[..j], cs[j]);
  }

  /** The references of a node that are not known, in order and with repetitions. */
  ghost function Missing<K>(s: State<K>, cs: seq<Child<K>>): seq<K> {
    if cs == [] then []
    else
      var c := cs[|cs| - 1];
      Missing(s, cs[..|cs| - 1]) + if c.Ref? && c.h !in s.batch && c.h !in s.database then [c.h] else []
  }

  /** The loop of `children` over the references of a node. */
  method MissingRefs<K(!new, ==)>(s: State<K>, cs: seq<Child<K>>) returns (list: seq<K>)
    ensures Listed(s, cs, list) && Unknown(s, list) && list == Missing(s, cs)
  {
    list := [];
    for j := 0 to |cs|
      invariant Listed(s, cs[..j], list) && Unknown(s, list) && list == Missing(s, cs[..j])
    {
      ListStep(s, cs, j, list);
      assert cs[..j + 1][..j] == cs[..j];
      if cs[j].Ref? && cs[j].h !in s.batch && cs[j].h !in s.database { list := list + [cs[j].h]; }
    }
    assert cs[..|cs|] == cs;
  }

  /** The value of a node, if it has one. */
  function LeafOf<K>(cs: seq<Child<K>>): Option<bytes> {
    if cs == [] then None else if cs[0].Leaf? then Some(cs[0].v) else LeafOf(cs[1..])
  }

  /**
   sync.go `children`: runs the callback on the leaf and lists the references that are not known.
   The callback touches neither the batch nor the database, so the two do not interfere.
   */
  method FindMissing<K(!new, ==)>(s: State<K>, cs: seq<Child<K>>, r: K, parse: Parser<K>, emptyRoot: K, emptyState: K, ghost g: Proof<K>)
    returns (s': State<K>, list: seq<K>, failed: bool, ghost g': Proof<K>)
    requires Opening(parse, s, g, r)
    ensures Opening(parse, s', g', r) && Extends(s, g, s', g', r) && failed == !ReplyTo(s.rs[r].callback, cs).ok
    ensures !failed ==> Listed(s', cs, list) && Unknown(s', list)
    ensures Satisfied(s', g', Asked(ReplyTo(s.rs[r].callback, cs), emptyRoot, emptyState), r)
    ensures MoreWaited(g, g', r, Registered(parse, s, ReplyTo(s.rs[r].callback, cs), emptyRoot, emptyState))
    ensures g'.raws == g.raws + NewRaws(s.database, s.batch, ReplyTo(s.rs[r].callback, cs).raws, emptyState)
    ensures s' == Replied(parse, s, ReplyTo(s.rs[r].callback, cs), r, emptyRoot, emptyState) && (!failed ==> list == Missing(s', cs))
  {
    s', g', list, failed := s, g, [], false;
    var leaf := LeafOf(cs);
    if leaf.Some? && s.rs[r].callback.Some? {
      s', failed, g' := Notify(s, s.rs[r].callback.value, leaf.value, r, parse, emptyRoot, emptyState, g);
      if failed { return; }
    }
    list := MissingRefs(s', cs);
  }

  /** What the callback says about the leaf of a node; nothing, if there is no leaf or no callback. */
  ghost function ReplyTo<K>(callback: Callback<K>, cs: seq<Child<K>>): Reply<K> {
    if LeafOf(cs).Some? && callback.Some? then callback.value(LeafOf(cs).value) else Reply([], [], true)
  }

  /** `r` has its data and its counter runs ahead by `extra`. */
  ghost predicate Ahead<K(!new)>(parse: Parser<K>, s: State<K>, g: Proof<K>, r: K, extra: nat) {
    && Good(parse, s, g, r, extra, true) && Idle(s, g) && r in s.rs && s.rs[r].data.Some?
    && Obeys(s.rs[r].callback, g.terms)
  }

  /** `r` waits for every entry of a list. */
  ghost predicate AllWaited<K(!new)>(g: Proof<K>, list: seq<K>, r: K) {
    forall i :: 0 <= i < |list| ==> Waited(g, list[i], r)
  }

  /** A missing child of `r` is asked for with the callback of `r`. */
  ghost function ChildBelow<K>(s: State<K>, x: K, r: K): State<K> {
    if r in s.rs then Schedule(s, x, Request(None, false, [r], 0, s.rs[r].callback)) else s
  }

  ghost function ChildrenBelow<K>(s: State<K>, list: seq<K>, r: K): State<K> {
    if list == [] then s else ChildBelow(ChildrenBelow(s, list[..|list| - 1], r), list[|list| - 1], r)
  }

  /** One missing child of `r` is scheduled. */
  method ScheduleChild<K(!new, ==)>(s: State<K>, x: K, r: K, ghost parse: Parser<K>, ghost g: Proof<K>, ghost extra: nat, ghost left: nat)
    returns (s': State<K>, ghost g': Proof<K>)
    requires Ahead(parse, s, g, r, extra) && extra == left + 1 && x !in s.batch
    ensures Ahead(parse, s', g', r, left) == true && Extends(s, g, s', g', r) == true && Waited(g', x, r) && g'.raws == g.raws
    ensures s' == ChildBelow(s, x, r)
  {
    var req := Request(None, false, [r], 0, s.rs[r].callback);
    ScheduleGood(parse, s, g, x, req, r, extra, left);
    s', g' := Schedule(s, x, req), Linked(g, x, r);
    ScheduleExtends(s, g, x, req, r);
  }

  lemma ScheduleExtends<K(!new)>(s: State<K>, g: Proof<K>, x: K, req: Request<K, Callback<K>>, r: K)
    requires r in s.rs && r in g.waits
    ensures Extends(s, g, Schedule(s, x, req), Linked(g, x, r), r) == true && Waited(Linked(g, x, r), x, r)
  {
  }

  /** The first `i` entries of the list are scheduled, the counter of `r` includes the others. */
  ghost predicate UpTo<K(!new)>(parse: Parser<K>, s0: State<K>, g0: Proof<K>, s: State<K>, g: Proof<K>, list: seq<K>, i: nat, left: nat, r: K) {
    && i + left == |list| && Ahead(parse, s, g, r, left)
    && Extends(s0, g0, s, g, r) && AllWaited(g, list[..i], r) && g.raws == g0.raws
  }

  lemma UpToNext<K(!new)>(parse: Parser<K>, s0: State<K>, g0: Proof<K>, s: State<K>, g: Proof<K>, s': State<K>, g': Proof<K>,
                          list: seq<K>, i: nat, next: nat, extra: nat, left: nat, r: K)
    requires next == i + 1 && extra == left + 1 && UpTo(parse, s0, g0, s, g, list, i, extra, r)
    requires Ahead(parse, s', g', r, left) && Extends(s, g, s', g', r) && Waited(g', list[i], r) && g'.raws == g.raws
    ensures UpTo(parse, s0, g0, s', g', list, next, left, r) == true
  {
    WaitedStep(s, g, s', g', list, i, r);
    ExtendsTwice(s0, g0, s, g, s', g', r);
  }

  lemma ChildrenNext<K(!new)>(s: State<K>, list: seq<K>, i: nat, next: nat, r: K)
    requires next == i + 1 <= |list|
    ensures ChildrenBelow(s, list[..next], r) == ChildBelow(ChildrenBelow(s, list[..i], r), list[i], r)
  {
    assert list[..next][..i] == list[..i];
  }

  /** Scheduling the missing children of `r`, whose counter already includes them. */
  method ScheduleAll<K(!new, ==)>(s: State<K>, list: seq<K>, r: K, ghost parse: Parser<K>, ghost g: Proof<K>)
    returns (s': State<K>, ghost g': Proof<K>)
    requires Ahead(parse, s, g, r, |list|) && Unknown(s, list)
    ensures Ahead(parse, s', g', r, 0) == true && Extends(s, g, s', g', r) == true && AllWaited(g', list, r) && g'.raws == g.raws
    ensures s' == ChildrenBelow(s, list, r)
  {
    s', g' := s, g;
    ghost var left := |list|;
    UpToStart(parse, s, g, list, left, r);
    for i := 0 to |list|
      invariant i + left == |list| && UpTo(parse, s, g, s', g', list, i, left, r) == true && s' == ChildrenBelow(s, list[..i], r)
    {
      ghost var s1, g1, extra := s', g', left;
      left := left - 1;
      NotInBatch(s, g, s', g', list, i, r);
      s', g' := ScheduleChild(s', list[i], r, parse, g', extra, left);
      UpToNext(parse, s, g, s1, g1, s', g', list, i, i + 1, extra, left, r);
      ChildrenNext(s, list, i, i + 1, r);
    }
    assert list[..|list|] == list;
    UpToEnd(parse, s, g, s', g', list, |list|, r);
  }

  lemma UpToStart<K(!new)>(parse: Parser<K>, s: State<K>, g: Proof<K>, list: seq<K>, n: nat, r: K)
    requires n == |list| && Ahead(parse, s, g, r, n)
    ensures UpTo(parse, s, g, s, g, list, 0, n, r) == true
  {
  }

  lemma UpToEnd<K(!new)>(parse: Parser<K>, s0: State<K>, g0: Proof<K>, s: State<K>, g: Proof<K>, list: seq<K>, n: nat, r: K)
    requires n == |list| && UpTo(parse, s0, g0, s, g, list, n, 0, r)
    ensures Ahead(parse, s, g, r, 0) == true && Extends(s0, g0, s, g, r) == true && AllWaited(g, list, r) && g.raws == g0.raws
  {
    assert list[..n] == list;
  }

  lemma NotInBatch<K(!new)>(s: State<K>, g: Proof<K>, s': State<K>, g': Proof<K>, list: seq<K>, i: nat, r: K)
    requires i < |list| && Unknown(s, list) && Extends(s, g, s', g', r)
    ensures list[i] !in s'.batch
  {
  }

  lemma WaitedStep<K(!new)>(s: State<K>, g: Proof<K>, s': State<K>, g': Proof<K>, list: seq<K>, i: nat, r: K)
    requires i < |list| && AllWaited(g, list[..i], r) && Extends(s, g, s', g', r) && Waited(g', list[i], r)
    ensures AllWaited(g', list[..i + 1], r)
  {
    var xs, ys := list[..i], list[..i + 1];
    forall j | 0 <= j < |ys| ensures Waited(g', ys[j], r) {
      if j < i { assert Waited(g, xs[j], r); }
    }
  }

  lemma SatisfiedStays<K(!new)>(s: State<K>, g: Proof<K>, s': State<K>, g': Proof<K>, need: set<K>, r: K)
    requires Satisfied(s, g, need, r) && Extends(s, g, s', g', r)
    ensures Satisfied(s', g', need, r)
  {
  }

  datatype Status = Accepted(committed: bool) | NotRequested | AlreadyProcessed | BadData | CallbackFailed

  /** The data of an entry was taken in: it is stored, or kept until all it needs is. */
  ghost predicate Taken<K(!new)>(s: State<K>, h: K) { h in Known(s) || (h in s.rs && s.rs[h].data.Some?) }

  /** What processing changes: nothing known or asked for is lost. */
  ghost predicate Progress<K(!new)>(s: State<K>, g: Proof<K>, s': State<K>, g': Proof<K>) {
    && s'.database == s.database && s.order <= s'.order && s.batch.Keys <= s'.batch.Keys
    && g'.roots == g.roots && g.raws <= g'.raws && g.slips <= g'.slips
    && g'.terms.harmless == g.terms.harmless && g'.terms.allowed == g.terms.allowed && g.terms.given <= g'.terms.given
  }

  /** The invariant between calls. */
  ghost predicate Steady<K(!new)>(parse: Parser<K>, s: State<K>, g: Proof<K>, r: K) {
    Good(parse, s, g, r, 0, false) && Idle(s, g)
  }

  /** The node data of `h` enters its request, whose children are looked at next. */
  lemma OpenData<K(!new)>(parse: Parser<K>, s: State<K>, g: Proof<K>, h: K, data: bytes, r: K)
    requires Steady(parse, s, g, r) && h in s.rs && s.rs[h].data.None? && !s.rs[h].raw && parse(h, data).Some?
    requires (h, data) in g.terms.given
    ensures Opening(parse, WithData(s, h, data), WithNeeds(g, h, Refs(parse(h, data).value)), h)
    ensures h in g.waits && g.waits[h] == multiset{} && Obeys(s.rs[h].callback, g.terms)
  {
    var s', need := WithData(s, h, data), Refs(parse(h, data).value);
    assert RequestOk(parse, h, s.rs[h], g.needs, g.raws, g.terms);
    NeedsStore(parse, s, s', g, h, need);
    NeedsLinks(s, s', g, h, need, r, 0, false);
    NoDataNoWait(s, g, h, r, 0, false);
  }

  /** The needs of `h` are settled: what its node refers to and what its callback asked for. */
  lemma SettleNeeds<K(!new)>(parse: Parser<K>, s: State<K>, g: Proof<K>, h: K, asked: set<K>)
    requires Opening(parse, s, g, h) && h in g.needs
    ensures Opening(parse, s, WithNeeds(g, h, g.needs[h] + asked), h)
  {
    assert RequestOk(parse, h, s.rs[h], g.needs, g.raws, g.terms);
    assert s.rs[h := s.rs[h]] == s.rs;
    NeedsStore(parse, s, s, g, h, g.needs[h] + asked);
    NeedsLinks(s, s, g, h, g.needs[h] + asked, h, 0, true);
  }

  lemma Close<K(!new)>(parse: Parser<K>, s: State<K>, g: Proof<K>, h: K, r: K)
    requires Opening(parse, s, g, h) && h in g.needs && Satisfied(s, g, g.needs[h], h)
    ensures Steady(parse, s, g, r)
    ensures h in g.waits && (s.rs[h].deps == 0 ==> CanRetire(parse, s, g, h, s.rs[h].data.value))
  {
    assert h in g.waits && s.rs[h].deps == |g.waits[h]|;
    BusyDone(s, g, h, r);
    assert RequestOk(parse, h, s.rs[h], g.needs, g.raws, g.terms);
  }

  /** A failed callback leaves the references of a node unread: they are lost if it waits for something, but not for them. */
  ghost predicate Loses<K(!new)>(s: State<K>, cs: seq<Child<K>>, registered: set<K>) {
    registered != {} && exists x :: x in Refs(cs) && x !in Known(s) && x !in registered
  }

  /** Processing `data` for `h` runs a callback that registers something, fails, and so loses references of the node. */
  ghost predicate Slips<K(!new)>(parse: Parser<K>, s: State<K>, h: K, data: bytes, emptyRoot: K, emptyState: K) {
    && h in s.rs && s.rs[h].data.None? && !s.rs[h].raw && parse(h, data).Some?
    && var reply := ReplyTo(s.rs[h].callback, parse(h, data).value);
       !reply.ok && Loses(s, parse(h, data).value, Registered(parse, s, reply, emptyRoot, emptyState))
  }

  /** The proof's view of a node whose references were lost: it is stored like a raw entry. */
  ghost function Slipped<K>(g: Proof<K>, h: K): Proof<K> {
    g.(raws := g.raws + {h}, needs := g.needs[h := {}], slips := g.slips + {h})
  }

  lemma CloseFailed<K(!new)>(parse: Parser<K>, s: State<K>, g: Proof<K>, h: K, r: K, cs: seq<Child<K>>, registered: set<K>)
    requires Opening(parse, s, g, h) && h in g.waits && h in g.needs && g.needs[h] == Refs(cs)
    requires forall x :: Waited(g, x, h) <==> x in registered
    ensures Steady(parse, s, if Loses(s, cs, registered) then Slipped(g, h) else g, r)
  {
    if Loses(s, cs, registered) {
      RawsGood(parse, s, g, h, h, 0, true);
      var g1 := g.(raws := g.raws + {h});
      assert RequestOk(parse, h, s.rs[h], g1.needs, g1.raws, g1.terms);
      assert s.rs[h := s.rs[h]] == s.rs;
      NeedsStore(parse, s, s, g1, h, {});
      NeedsLinks(s, s, g1, h, {}, h, 0, true);
      BusyDone(s, WithNeeds(g1, h, {}), h, r);
      SlipsFree(parse, s, WithNeeds(g1, h, {}), r, g.slips + {h});
    } else if registered == {} {
      forall x ensures g.waits[h][x] == 0 { assert !Waited(g, x, h); }
      BusyDone(s, g, h, r);
    } else {
      forall x | x in g.needs[h] ensures x in Known(s) || x in g.waits[h] {
        if x in registered { assert Waited(g, x, h); }
      }
      BusyDone(s, g, h, r);
    }
  }

  /** The record of lost nodes plays no part in the invariant. */
  lemma SlipsFree<K(!new)>(parse: Parser<K>, s: State<K>, g: Proof<K>, r: K, slips: set<K>)
    requires Steady(parse, s, g, r)
    ensures Steady(parse, s, g.(slips := slips), r)
  {
  }

  lemma RawRetires<K(!new)>(parse: Parser<K>, s: State<K>, g: Proof<K>, h: K, data: bytes, r: K)
    requires Steady(parse, s, g, r) && h in s.rs && s.rs[h].raw && (h, data) in g.terms.given
    ensures Steady(parse, s, WithNeeds(g, h, {}), r) && CanRetire(parse, s, WithNeeds(g, h, {}), h, data)
  {
    assert RequestOk(parse, h, s.rs[h], g.needs, g.raws, g.terms);
    NoDataNoWait(s, g, h, r, 0, false);
    assert s.rs[h := s.rs[h]] == s.rs;
    NeedsStore(parse, s, s, g, h, {});
    NeedsLinks(s, s, g, h, {}, r, 0, false);
    BusyDone(s, WithNeeds(g, h, {}), h, r);
  }

  /** What one round of the loop of `Process` does to the scheduler, and the error it ends with. */
  ghost function Step<K>(parse: Parser<K>, s: State<K>, h: K, data: bytes, emptyRoot: K, emptyState: K): (State<K>, Status) {
    if h !in s.rs then (s, NotRequested)
    else if s.rs[h].data.Some? then (s, AlreadyProcessed)
    else if s.rs[h].raw then (Committed(s, h, data), Accepted(true))
    else if parse(h, data).None? then (s, BadData)
    else NodeStep(parse, WithData(s, h, data), h, data, parse(h, data).value, emptyRoot, emptyState)
  }

  /** The children of a node whose data has come: the callback, then what is missing. */
  ghost function NodeStep<K>(parse: Parser<K>, s: State<K>, h: K, data: bytes, cs: seq<Child<K>>, emptyRoot: K, emptyState: K): (State<K>, Status)
    requires h in s.rs
  {
    var reply := ReplyTo(s.rs[h].callback, cs);
    var s1 := Replied(parse, s, reply, h, emptyRoot, emptyState);
    if !reply.ok then (s1, CallbackFailed) else SettleStep(s1, h, data, Missing(s1, cs))
  }

  ghost function SettleStep<K>(s: State<K>, h: K, data: bytes, list: seq<K>): (State<K>, Status) {
    if h !in s.rs then (s, Accepted(false))
    else if list == [] && s.rs[h].deps == 0 then (Committed(s, h, data), Accepted(true))
    else (ChildrenBelow(Bumped(s, h, |list|), list, h), Accepted(false))
  }

  /** One result of `Process`: the data of an entry, which may complete it and others above it. */
  method ProcessItem<K(!new, ==)>(s: State<K>, h: K, data: bytes, parse: Parser<K>, emptyRoot: K, emptyState: K, ghost g: Proof<K>, ghost r: K)
    returns (s': State<K>, status: Status, ghost g': Proof<K>)
    requires Steady(parse, s, g, r)
    ensures Steady(parse, s', g', r) == true && Progress(s, g, s', g') == true
    ensures status.NotRequested? <==> h !in s.rs
    ensures status.AlreadyProcessed? <==> h in s.rs && s.rs[h].data.Some?
    ensures status.Accepted? ==> Taken(s', h)
    ensures status.Accepted? && status.committed ==> h in s'.batch
    ensures Recorded(g, g', if Slips(parse, s, h, data, emptyRoot, emptyState) then {h} else {}, DeclaredBy(parse, s, h, data, emptyState)) == true
    ensures g'.terms.given <= g.terms.given + {(h, data)}
    ensures (s', status) == Step(parse, s, h, data, emptyRoot, emptyState)
  {
    if h !in s.rs { return s, NotRequested, g; }
    if s.rs[h].data.Some? { return s, AlreadyProcessed, g; }
    ghost var g1 := Given(g, h, data);
    NewTerms(parse, s, g, r, g1.terms);
    if s.rs[h].raw {
      s', g' := ProcessRaw(s, h, data, parse, g1, r);
      return s', Accepted(true), g';
    }
    s', status, g' := ProcessData(s, h, data, parse, emptyRoot, emptyState, g1, r);
  }

  ghost function Given<K>(g: Proof<K>, h: K, data: bytes): Proof<K> {
    g.(terms := g.terms.(given := g.terms.given + {(h, data)}))
  }

  /** The raw entries that the callback of the node `data` makes new requests for. */
  ghost function DeclaredBy<K>(parse: Parser<K>, s: State<K>, h: K, data: bytes, emptyState: K): set<K> {
    if h in s.rs && s.rs[h].data.None? && !s.rs[h].raw && parse(h, data).Some?
    then NewRaws(s.database, s.batch, ReplyTo(s.rs[h].callback, parse(h, data).value).raws, emptyState) else {}
  }

  /** Promising less of the callbacks, allowing more or having been given more keeps the invariant. */
  lemma NewTerms<K(!new)>(parse: Parser<K>, s: State<K>, g: Proof<K>, r: K, terms: Terms<K>)
    requires Steady(parse, s, g, r)
    requires (terms.harmless ==> g.terms.harmless) && g.terms.allowed <= terms.allowed && g.terms.given <= terms.given
    ensures Steady(parse, s, g.(terms := terms), r)
  {
    forall h | h in s.rs ensures h !in s.batch && RequestOk(parse, h, s.rs[h], g.needs, g.raws, terms) {
      assert RequestOk(parse, h, s.rs[h], g.needs, g.raws, g.terms);
    }
  }

  /** A raw entry is committed as it comes. */
  method ProcessRaw<K(!new, ==)>(s: State<K>, h: K, data: bytes, ghost parse: Parser<K>, ghost g: Proof<K>, ghost r: K)
    returns (s': State<K>, ghost g': Proof<K>)
    requires Steady(parse, s, g, r) && h in s.rs && s.rs[h].raw && (h, data) in g.terms.given
    ensures Steady(parse, s', g', r) == true && Progress(s, g, s', g') == true && Recorded(g, g', {}, {}) == true && h in s'.batch
    ensures g'.terms == g.terms && s' == Committed(s, h, data)
  {
    RawRetires(parse, s, g, h, data, r);
    s', g' := CommitRequest(s, h, data, parse, WithNeeds(g, h, {}), r);
    CommitIdle(s, WithNeeds(g, h, {}), s', g', h);
    KeptProgress(s, WithNeeds(g, h, {}), s', g');
  }

  /** The data of a trie node. */
  method ProcessData<K(!new, ==)>(s: State<K>, h: K, data: bytes, parse: Parser<K>, emptyRoot: K, emptyState: K, ghost g: Proof<K>, ghost r: K)
    returns (s': State<K>, status: Status, ghost g': Proof<K>)
    requires Steady(parse, s, g, r) && h in s.rs && s.rs[h].data.None? && !s.rs[h].raw && (h, data) in g.terms.given
    ensures Steady(parse, s', g', r) == true && Progress(s, g, s', g') == true && g'.terms == g.terms
    ensures status.BadData? || status.CallbackFailed? || (status.Accepted? && Taken(s', h) && (status.committed ==> h in s'.batch))
    ensures Recorded(g, g', if Slips(parse, s, h, data, emptyRoot, emptyState) then {h} else {}, DeclaredBy(parse, s, h, data, emptyState)) == true
    ensures (s', status) == Step(parse, s, h, data, emptyRoot, emptyState)
  {
    var cs := parse(h, data);
    if cs.None? { return s, BadData, g; }
    OpenData(parse, s, g, h, data, r);
    s', status, g' := ProcessNode(WithData(s, h, data), h, data, cs.value, parse, emptyRoot, emptyState,
                                  WithNeeds(g, h, Refs(cs.value)), r);
    SlipsThere(parse, s, h, data, emptyRoot, emptyState);
  }

  /** Exactly `lost` joins the record of lost nodes, and exactly they and the entries in `raw` are no longer read. */
  ghost predicate Recorded<K(!new)>(g: Proof<K>, g': Proof<K>, lost: set<K>, raw: set<K>) {
    g'.slips == g.slips + lost && g'.raws == g.raws + lost + raw
  }

  lemma SlipsThere<K(!new)>(parse: Parser<K>, s: State<K>, h: K, data: bytes, emptyRoot: K, emptyState: K)
    requires h in s.rs && s.rs[h].data.None? && !s.rs[h].raw && parse(h, data).Some?
    ensures var s1, cs := WithData(s, h, data), parse(h, data).value;
            var reply := ReplyTo(s1.rs[h].callback, cs);
            Slips(parse, s, h, data, emptyRoot, emptyState) <==> !reply.ok && Loses(s1, cs, Registered(parse, s1, reply, emptyRoot, emptyState))
  {
    assert Known(WithData(s, h, data)) == Known(s);
  }

  /** A harmless callback loses nothing. */
  lemma HarmlessKeeps<K(!new)>(parse: Parser<K>, s: State<K>, g: Proof<K>, r: K, h: K, data: bytes, emptyRoot: K, emptyState: K)
    requires Steady(parse, s, g, r) && g.terms.harmless
    ensures !Slips(parse, s, h, data, emptyRoot, emptyState)
  {
    if h in s.rs { assert RequestOk(parse, h, s.rs[h], g.needs, g.raws, g.terms); }
  }

  lemma CommitIdle<K(!new)>(s: State<K>, g: Proof<K>, s': State<K>, g': Proof<K>, h: K)
    requires Idle(s, g) && FlightKept(s, g, s', g', h) && h !in g'.owed && s'.rs.Keys <= g'.owed.Keys
    ensures Idle(s', g')
  {
    forall c | c in g'.owed ensures c in s'.rs {
      assert SameFlight(s, g, s', g', c);
    }
  }

  method ProcessNode<K(!new, ==)>(s: State<K>, h: K, data: bytes, cs: seq<Child<K>>, parse: Parser<K>, emptyRoot: K, emptyState: K,
                                  ghost g: Proof<K>, ghost r: K)
    returns (s': State<K>, status: Status, ghost g': Proof<K>)
    requires Opening(parse, s, g, h) && s.rs[h].data == Some(data) && h in g.waits && g.waits[h] == multiset{}
    requires h in g.needs && g.needs[h] == Refs(cs) && Obeys(s.rs[h].callback, g.terms)
    ensures Steady(parse, s', g', r) == true && Progress(s, g, s', g') == true && g'.terms == g.terms
    ensures status.CallbackFailed? || (status.Accepted? && Taken(s', h) && (status.committed ==> h in s'.batch))
    ensures var reply := ReplyTo(s.rs[h].callback, cs);
            Recorded(g, g', if !reply.ok && Loses(s, cs, Registered(parse, s, reply, emptyRoot, emptyState)) then {h} else {},
                     NewRaws(s.database, s.batch, reply.raws, emptyState)) == true
    ensures (s', status) == NodeStep(parse, s, h, data, cs, emptyRoot, emptyState)
  {
    ghost var reply := ReplyTo(s.rs[h].callback, cs);
    ghost var asked, registered := Asked(reply, emptyRoot, emptyState), Registered(parse, s, reply, emptyRoot, emptyState);
    var s1, list, failed;
    ghost var g1;
    s1, list, failed, g1 := FindMissing(s, cs, h, parse, emptyRoot, emptyState, g);
    if failed {
      NodeFailed(parse, s, g, s1, g1, h, r, cs, registered, NewRaws(s.database, s.batch, reply.raws, emptyState));
      return s1, CallbackFailed, if Loses(s, cs, registered) then Slipped(g1, h) else g1;
    }
    SettleNeeds(parse, s1, g1, h, asked);
    ghost var g2 := WithNeeds(g1, h, g1.needs[h] + asked);
    s', status, g' := Settle(s1, h, data, list, parse, g2, r, Refs(cs), asked);
    ProgressOn(s, g, s1, g1, g2, s', g', h, Refs(cs) + asked, NewRaws(s.database, s.batch, reply.raws, emptyState));
  }

  lemma NodeFailed<K(!new)>(parse: Parser<K>, s: State<K>, g: Proof<K>, s1: State<K>, g1: Proof<K>, h: K, r: K, cs: seq<Child<K>>,
                             registered: set<K>, raw: set<K>)
    requires Opening(parse, s1, g1, h) && Extends(s, g, s1, g1, h) && MoreWaited(g, g1, h, registered) && g1.raws == g.raws + raw
    requires h in g.waits && g.waits[h] == multiset{} && h in g.needs && g.needs[h] == Refs(cs)
    ensures var g' := if Loses(s, cs, registered) then Slipped(g1, h) else g1;
            && Steady(parse, s1, g', r) == true && Progress(s, g, s1, g') == true
            && Recorded(g, g', if Loses(s, cs, registered) then {h} else {}, raw) == true
  {
    OnlyRegistered(g, g1, h, registered);
    CloseFailed(parse, s1, g1, h, r, cs, registered);
    FailedProgress(s, g, s1, g1, h, cs, registered, raw);
  }

  lemma OnlyRegistered<K(!new)>(g: Proof<K>, g1: Proof<K>, h: K, registered: set<K>)
    requires MoreWaited(g, g1, h, registered) && h in g.waits && g.waits[h] == multiset{}
    ensures forall x :: Waited(g1, x, h) <==> x in registered
  {
    forall x ensures Waited(g1, x, h) <==> x in registered { assert !Waited(g, x, h); }
  }

  lemma FailedProgress<K(!new)>(s: State<K>, g: Proof<K>, s1: State<K>, g1: Proof<K>, h: K, cs: seq<Child<K>>, registered: set<K>, raw: set<K>)
    requires Extends(s, g, s1, g1, h) && g1.raws == g.raws + raw
    ensures Loses(s, cs, registered) <==> Loses(s1, cs, registered)
    ensures var g' := if Loses(s, cs, registered) then Slipped(g1, h) else g1;
            Progress(s, g, s1, g') == true && Recorded(g, g', if Loses(s, cs, registered) then {h} else {}, raw) == true
  {
    assert Known(s1) == Known(s);
  }

  lemma ProgressOn<K(!new)>(s: State<K>, g: Proof<K>, s1: State<K>, g1: Proof<K>, g2: Proof<K>, s': State<K>, g': Proof<K>, h: K, need: set<K>, raw: set<K>)
    requires Extends(s, g, s1, g1, h) && g2 == WithNeeds(g1, h, need) && Progress(s1, g2, s', g') && Recorded(g2, g', {}, {}) && g1.raws == g.raws + raw
    ensures Progress(s, g, s', g') == true && Recorded(g, g', {}, raw) == true
  {
  }

  lemma AllSatisfied<K(!new)>(s: State<K>, g: Proof<K>, s': State<K>, g': Proof<K>, list: seq<K>, refs: set<K>, asked: set<K>, r: K)
    requires AllWaited(g', list, r) && Extends(s, g, s', g', r) && Satisfied(s', g', asked, r)
    requires forall x :: x in refs ==> x in Known(s) || x in list
    ensures Satisfied(s', g', refs + asked, r)
  {
    forall x | x in refs ensures x in Known(s') || (r in g'.waits && x in g'.waits[r]) {
      if x in list {
        var i :| 0 <= i < |list| && list[i] == x;
        assert Waited(g', list[i], r);
      }
    }
  }

  /** The end of `Process` for one node: commit it, or schedule what it misses. */
  method Settle<K(!new, ==)>(s: State<K>, h: K, data: bytes, list: seq<K>, ghost parse: Parser<K>, ghost g: Proof<K>, ghost r: K,
                             ghost refs: set<K>, ghost asked: set<K>)
    returns (s': State<K>, status: Status, ghost g': Proof<K>)
    requires Opening(parse, s, g, h) && s.rs[h].data == Some(data)
    requires Obeys(s.rs[h].callback, g.terms)
    requires h in g.needs && g.needs[h] == refs + asked && Satisfied(s, g, asked, h)
    requires Unknown(s, list) && forall x :: x in refs ==> x in Known(s) || x in list
    ensures Steady(parse, s', g', r) == true && Progress(s, g, s', g') == true && g'.terms == g.terms
    ensures status.Accepted? && Taken(s', h) && (status.committed ==> h in s'.batch) && Recorded(g, g', {}, {}) == true
    ensures (s', status) == SettleStep(s, h, data, list)
  {
    if |list| == 0 && s.rs[h].deps == 0 {
      Close(parse, s, g, h, r);
      s', g' := CommitRequest(s, h, data, parse, g, r);
      CommitIdle(s, g, s', g', h);
      KeptProgress(s, g, s', g');
      return s', Accepted(true), g';
    }
    BumpGood(parse, s, g, h, 0, |list|);
    s', g' := SettleLater(Bumped(s, h, |list|), h, list, parse, g, r, refs, asked);
    status := Accepted(false);
  }

  lemma KeptProgress<K(!new)>(s: State<K>, g: Proof<K>, s': State<K>, g': Proof<K>)
    requires Kept(s, g, s', g')
    ensures Progress(s, g, s', g') == true && Recorded(g, g', {}, {}) == true
  {
  }

  lemma ExtendsProgress<K(!new)>(s: State<K>, g: Proof<K>, s': State<K>, g': Proof<K>, r: K)
    requires Extends(s, g, s', g', r)
    ensures Progress(s, g, s', g') == true && (g'.raws == g.raws ==> Recorded(g, g', {}, {}) == true)
  {
  }

  /** What the node misses is scheduled; its counter already includes it. */
  method SettleLater<K(!new, ==)>(s: State<K>, h: K, list: seq<K>, ghost parse: Parser<K>, ghost g: Proof<K>, ghost r: K,
                                  ghost refs: set<K>, ghost asked: set<K>)
    returns (s': State<K>, ghost g': Proof<K>)
    requires Ahead(parse, s, g, h, |list|) && Unknown(s, list)
    requires h in g.needs && g.needs[h] == refs + asked && Satisfied(s, g, asked, h)
    requires forall x :: x in refs ==> x in Known(s) || x in list
    ensures Steady(parse, s', g', r) == true && Progress(s, g, s', g') == true && Recorded(g, g', {}, {}) == true
    ensures h in s'.rs && s'.rs[h].data.Some? && g'.terms == g.terms && s' == ChildrenBelow(s, list, h)
  {
    s', g' := ScheduleAll(s, list, h, parse, g);
    SatisfiedStays(s, g, s', g', asked, h);
    AllSatisfied(s, g, s', g', list, refs, asked, h);
    Close(parse, s', g', h, r);
    ExtendsProgress(s, g, s', g', h);
  }

  // ---------------------------------------------------------------------------------------------
  // Callbacks that fail after registering something
  // ---------------------------------------------------------------------------------------------

  /** A store in which all but the lost nodes are closed is closed exactly when these have their references too. */
  lemma ClosedExactly<K(!new)>(parse: Parser<K>, db: Store<K>, raws: set<K>, slips: set<K>)
    requires Closed(parse, db, raws) && slips <= raws
    ensures Closed(parse, db, raws - slips) <==>
            forall h :: h in slips && h in db ==> parse(h, db[h]).Some? && Refs(parse(h, db[h]).value) <= db.Keys
  {
    if Closed(parse, db, raws - slips) {
      forall h | h in slips && h in db ensures parse(h, db[h]).Some? && Refs(parse(h, db[h]).value) <= db.Keys {
        assert Understood(parse, h, db[h], db.Keys, raws - slips);
      }
    }
  }

  /** All that is known, as `Commit` would leave it. */
  ghost function Flushed<K>(s: State<K>): Store<K> { Written(s.database, s.batch, s.order) }

  /** Committing a node keeps a closed store closed exactly when all its references are known by then. */
  lemma CommitClosed<K(!new)>(parse: Parser<K>, s: State<K>, h: K, data: bytes, raws: set<K>)
    requires Closed(parse, Flushed(s), raws) && h !in raws && h !in Known(s) && forall k :: k in s.batch <==> k in s.order
    ensures Closed(parse, Flushed(Retired(s, h, data)), raws) <==> parse(h, data).Some? && Refs(parse(h, data).value) <= Known(s) + {h}
  {
    FlushedMore(s, h, data);
    ClosedMore(parse, Flushed(s), h, data, raws);
  }

  lemma FlushedMore<K(!new)>(s: State<K>, h: K, data: bytes)
    requires h !in Known(s) && forall k :: k in s.batch <==> k in s.order
    ensures Flushed(Retired(s, h, data)) == Flushed(s)[h := data] && Flushed(s).Keys == Known(s)
  {
  }

  lemma ClosedMore<K(!new)>(parse: Parser<K>, db: Store<K>, h: K, data: bytes, raws: set<K>)
    requires Closed(parse, db, raws) && h !in raws && h !in db
    ensures Closed(parse, db[h := data], raws) <==> parse(h, data).Some? && Refs(parse(h, data).value) <= db.Keys + {h}
  {
    var db' := db[h := data];
    assert db'.Keys == db.Keys + {h};
    forall k | k in db ensures Understood(parse, k, db'[k], db'.Keys, raws) {
      assert Understood(parse, k, db[k], db.Keys, raws);
    }
    if Closed(parse, db', raws) { assert Understood(parse, h, db'[h], db'.Keys, raws); }
  }

  // ---------------------------------------------------------------------------------------------
  // Writing the batch
  // ---------------------------------------------------------------------------------------------

  lemma RootsGood<K(!new)>(parse: Parser<K>, s: State<K>, g: Proof<K>, root: K, r: K)
    requires Steady(parse, s, g, r) && (root in s.rs || root in Known(s))
    ensures Steady(parse, s, g.(roots := g.roots + {root}), r)
  {
  }

  /** Writing a prefix of the batch keeps the invariant: the store stays closed and nothing new is known. */
  lemma PrefixWritten<K(!new)>(parse: Parser<K>, s: State<K>, g: Proof<K>, n: nat, r: K)
    requires Steady(parse, s, g, r) && n <= |s.order|
    ensures var s' := s.(database := Written(s.database, s.batch, s.order[..n]));
            Steady(parse, s', g, r) && Known(s') == Known(s) && (n == |s.order| ==> s.batch.Keys <= s'.database.Keys)
  {
    var s' := s.(database := Written(s.database, s.batch, s.order[..n]));
    PrefixIsClosed(parse, s.database, s.batch, s.order, g.needs, g.raws, n);
    assert Known(s') == Known(s);
    assert Ordered(s'.database.Keys, s.order, g.needs) by {
      forall i | 0 <= i < |s.order| ensures s.order[i] in g.needs && Before(s'.database.Keys, s.order[..i], g.needs[s.order[i]]) {
        assert Before(s.database.Keys, s.order[..i], g.needs[s.order[i]]);
      }
    }
    if n == |s.order| {
      assert s.order[..n] == s.order;
      forall h | h in s.batch ensures h in s'.database { assert h in s.order; }
    }
  }

  /** A batch that is in the database can be dropped. */
  lemma BatchDropped<K(!new)>(parse: Parser<K>, s: State<K>, g: Proof<K>, r: K)
    requires Steady(parse, s, g, r) && s.batch.Keys <= s.database.Keys
    ensures var s' := State(s.database, map[], [], s.rs); Steady(parse, s', g, r) && Known(s') == Known(s)
  {
    var s' := State(s.database, map[], [], s.rs);
    assert Known(s') == Known(s);
    assert TableOk(parse, s'.rs, s'.batch, g.needs, g.raws, g.terms) by {
      forall h | h in s.rs ensures h !in s'.batch && RequestOk(parse, h, s.rs[h], g.needs, g.raws, g.terms) { assert h !in s.batch; }
    }
  }

  lemma WrittenNone<K(!new)>(database: Store<K>, batch: Store<K>)
    ensures Written(database, batch, []) == database
  {
  }

  lemma WrittenStep<K(!new)>(database: Store<K>, batch: Store<K>, order: seq<K>, n: nat)
    requires n < |order| && order[n] in batch
    ensures Written(database, batch, order[..n])[order[n] := batch[order[n]]] == Written(database, batch, order[..n + 1])
  {
    assert order[..n + 1] == order[..n] + [order[n]];
  }

  /** The loop of `Commit`: entries are put in order, as far as there is room. */
  method WriteBatch<K(!new, ==)>(s: State<K>, room: nat) returns (db: Store<K>, written: nat)
    requires forall h :: h in s.order ==> h in s.batch
    ensures written == if room < |s.order| then room else |s.order|
    ensures db == Written(s.database, s.batch, s.order[..written])
  {
    var order, batch := s.order, s.batch;
    db, written := s.database, if room < |order| then room else |order|;
    WrittenNone(s.database, batch);
    assert order[..0] == [];
    for i := 0 to written
      invariant db == Written(s.database, batch, order[..i])
    {
      assert order[i] in order;
      WrittenStep(s.database, batch, order, i);
      db := db[order[i] := batch[order[i]]];
    }
  }

  /** Every stored entry was there at the start or was handed in since. */
  ghost predicate Sourced<K(!new)>(db: Store<K>, initial: Store<K>, given: set<(K, bytes)>) {
    forall h :: h in db ==> (h in initial && initial[h] == db[h]) || (h, db[h]) in given
  }

  /** Entries that are not read as nodes were allowed to be raw, or lost their references. */
  ghost predicate Bounded<K(!new)>(g: Proof<K>) {
    g.slips <= g.raws && forall x :: x in g.raws ==> x in g.slips || x in g.terms.allowed
  }

  lemma StillBounded<K(!new)>(parse: Parser<K>, s: State<K>, g: Proof<K>, g': Proof<K>, r: K, h: K, data: bytes, lost: set<K>, emptyState: K)
    requires Steady(parse, s, g, r) && Bounded(g) && Recorded(g, g', lost, DeclaredBy(parse, s, h, data, emptyState))
    requires g'.terms.allowed == g.terms.allowed
    ensures Bounded(g')
  {
    forall x | x in DeclaredBy(parse, s, h, data, emptyState) ensures x in g.terms.allowed {
      assert RequestOk(parse, h, s.rs[h], g.needs, g.raws, g.terms);
    }
  }

  lemma StillSourced<K(!new)>(s: State<K>, initial: Store<K>, terms: Terms<K>, n: nat)
    requires Sourced(s.database, initial, terms.given) && AllGiven(s.batch, terms) && n <= |s.order|
    ensures Sourced(Written(s.database, s.batch, s.order[..n]), initial, terms.given)
  {
  }
}

/**
 The scheduler object of sync.go, whole runs of it, and that a download ends: as long as something is missing
 it is asked for, and once all that was asked for has come nothing is pending.
 */
module Scheduler {
  import opened Bytes
  import opened SyncLinks
  import opened TrieSync
  import opened SyncSteps

  // ---------------------------------------------------------------------------------------------
  // The scheduler object
  // ---------------------------------------------------------------------------------------------

  /** The scheduler after the first `n` results. */
  ghost function Fold<K>(parse: Parser<K>, s: State<K>, results: seq<(K, bytes)>, n: nat, emptyRoot: K, emptyState: K): State<K>
    requires n <= |results|
  {
    if n == 0 then s
    else Step(parse, Fold(parse, s, results, n - 1, emptyRoot, emptyState), results[n - 1].0, results[n - 1].1, emptyRoot, emptyState).0
  }

  /** The first `n` results were taken one after the other, each in a state in which it fails no test. */
  ghost predicate Took<K(!new)>(parse: Parser<K>, s: State<K>, results: seq<(K, bytes)>, n: nat, s': State<K>, emptyRoot: K, emptyState: K)
    requires n <= |results|
  {
    && s' == Fold(parse, s, results, n, emptyRoot, emptyState)
    && forall i :: 0 <= i < n ==> Passes(parse, s, results, i, emptyRoot, emptyState)
  }

  /** At its turn the result fails no test. */
  ghost predicate Passes<K(!new)>(parse: Parser<K>, s: State<K>, results: seq<(K, bytes)>, i: nat, emptyRoot: K, emptyState: K)
    requires i < |results|
  {
    Verdict(parse, Fold(parse, s, results, i, emptyRoot, emptyState), results[i].0, results[i].1) == None
  }

  /** The first `n` were, and the next one failed the test that the status names. */
  ghost predicate Failed<K(!new)>(parse: Parser<K>, s: State<K>, results: seq<(K, bytes)>, n: nat, s': State<K>, status: Status, emptyRoot: K, emptyState: K)
    requires n < |results|
  {
    var s1 := Fold(parse, s, results, n, emptyRoot, emptyState);
    && Took(parse, s, results, n, s1, emptyRoot, emptyState)
    && Verdict(parse, s1, results[n].0, results[n].1) == Some(status)
    && s' == Step(parse, s1, results[n].0, results[n].1, emptyRoot, emptyState).0
  }

  /** What any number of results leaves true. */
  ghost predicate Ran<K(!new)>(s: State<K>, s': State<K>, committed: bool, failed: bool) {
    && |s.order| <= |s'.order| && (committed <==> |s.order| < |s'.order|)
    && (Moving(s) && !failed ==> Moving(s'))
    && (forall h :: Stuck(s, h) ==> Stuck(s', h))
  }

  ghost predicate AllHeld<K(!new)>(s: State<K>, results: seq<(K, bytes)>, n: nat)
    requires n <= |results|
  {
    forall i :: 0 <= i < n ==> Holds(s, results[i].0, results[i].1)
  }

  /** The loop of `Process` after `n` results. */
  ghost predicate Going<K(!new)>(parse: Parser<K>, s: State<K>, results: seq<(K, bytes)>, n: nat, s': State<K>, committed: bool, emptyRoot: K, emptyState: K)
    requires n <= |results|
  {
    Took(parse, s, results, n, s', emptyRoot, emptyState) && Ran(s, s', committed, false) && AllHeld(s', results, n)
  }

  /** And at its end. */
  ghost predicate Ended<K(!new)>(parse: Parser<K>, s: State<K>, results: seq<(K, bytes)>, s': State<K>, committed: bool, index: nat,
                                 status: Status, emptyRoot: K, emptyState: K)
  {
    if status.Accepted? then index == 0 && Going(parse, s, results, |results|, s', committed, emptyRoot, emptyState)
    else index < |results| && Failed(parse, s, results, index, s', status, emptyRoot, emptyState)
         && Ran(s, s', committed, status.CallbackFailed?) && AllHeld(s', results, index)
  }

  ghost predicate AllCounted<K(!new)>(s: State<K>) { forall h :: h in s.rs ==> s.rs[h].deps >= 0 }

  lemma SteadyFacts<K(!new)>(parse: Parser<K>, s: State<K>, g: Proof<K>, r: K)
    requires Steady(parse, s, g, r)
    ensures Disjoint(s) == true && AllCounted(s) == true
  {
  }

  lemma GoingOn<K(!new)>(parse: Parser<K>, s: State<K>, results: seq<(K, bytes)>, i: nat, next: nat, s1: State<K>, s2: State<K>,
                         one: Status, committed: bool, emptyRoot: K, emptyState: K)
    requires next == i + 1 <= |results| && Going(parse, s, results, i, s1, committed, emptyRoot, emptyState) && Disjoint(s1) && AllCounted(s1)
    requires (s2, one) == Step(parse, s1, results[i].0, results[i].1, emptyRoot, emptyState)
    ensures one.Accepted? ==> Going(parse, s, results, next, s2, committed || one.committed, emptyRoot, emptyState) == true
    ensures !one.Accepted? ==> Ended(parse, s, results, s2, committed, i, one, emptyRoot, emptyState) == true
    ensures results[i] in results
  {
    StepKeeps(parse, s1, results[i].0, results[i].1, emptyRoot, emptyState);
    RanNext(parse, s, s1, s2, results[i].0, results[i].1, emptyRoot, emptyState, one, committed);
    HeldNext(s1, s2, results, i, next, results[i].0);
    if one.Accepted? { TookNext(parse, s, results, i, next, s1, s2, emptyRoot, emptyState); }
  }

  lemma {:induction false} TookNext<K(!new)>(parse: Parser<K>, s: State<K>, results: seq<(K, bytes)>, i: nat, next: nat, s1: State<K>, s2: State<K>,
                          emptyRoot: K, emptyState: K)
    requires next == i + 1 <= |results| && Took(parse, s, results, i, s1, emptyRoot, emptyState)
    requires Verdict(parse, s1, results[i].0, results[i].1) == None
    requires s2 == Step(parse, s1, results[i].0, results[i].1, emptyRoot, emptyState).0
    ensures Took(parse, s, results, next, s2, emptyRoot, emptyState) == true
  {
    assert Passes(parse, s, results, i, emptyRoot, emptyState);
    forall j | 0 <= j < next ensures Passes(parse, s, results, j, emptyRoot, emptyState) {}
  }

  lemma HeldNext<K(!new)>(s1: State<K>, s2: State<K>, results: seq<(K, bytes)>, n: nat, next: nat, h: K)
    requires next == n + 1 <= |results| && AllHeld(s1, results, n) && Keeps(s1, s2, h)
    ensures AllHeld(s2, results, n) == true
    ensures Holds(s2, results[n].0, results[n].1) ==> AllHeld(s2, results, next) == true
  {
    forall i | 0 <= i < n ensures Holds(s2, results[i].0, results[i].1) { assert Holds(s1, results[i].0, results[i].1); }
  }

  lemma RanNext<K(!new)>(parse: Parser<K>, s: State<K>, s1: State<K>, s2: State<K>, h: K, data: bytes, emptyRoot: K, emptyState: K, one: Status, committed: bool)
    requires Ran(s, s1, committed, false) && Disjoint(s1) && AllCounted(s1) && (s2, one) == Step(parse, s1, h, data, emptyRoot, emptyState)
    ensures Ran(s, s2, committed || (one.Accepted? && one.committed), one.CallbackFailed?) == true
  {
    StepKeeps(parse, s1, h, data, emptyRoot, emptyState);
    if Moving(s1) { StepMoves(parse, s1, h, data, emptyRoot, emptyState); }
    forall x | Stuck(s, x) ensures Stuck(s2, x) { StepStuck(parse, s1, h, data, emptyRoot, emptyState, x); }
  }

  lemma NoParents<K(!new)>(rs: Table<K>, x: K, req: Request<K, Callback<K>>)
    requires req.parents == []
    ensures Scheduled(rs, x, req) == if x in rs then rs else rs[x := req]
  {
    if x in rs { assert rs[x].parents + [] == rs[x].parents; }
  }

  class Sync<K(!new, ==)> {
    const parse: Parser<K>
    const emptyRoot: K
    const emptyState: K
    ghost const initial: Store<K>
    var st: State<K>
    ghost var g: Proof<K>

    ghost predicate Valid()
      reads this
    {
      && Steady(parse, st, g, emptyRoot) && Bounded(g) && (g.terms.harmless ==> g.slips == {})
      && Sourced(st.database, initial, g.terms.given)
    }

    /** sync.go `NewTrieSync`, before the first sub-trie is added. */
    constructor (parse: Parser<K>, emptyRoot: K, emptyState: K, database: Store<K>, ghost raws: set<K>)
      requires Closed(parse, database, raws)
      ensures this.parse == parse && this.emptyRoot == emptyRoot && this.emptyState == emptyState && initial == database
      ensures st == State(database, map[], [], map[]) && g.raws == raws && g.roots == {} && g.slips == {}
      ensures g.terms == Terms(true, iset x | x in raws, {}) && Valid()
    {
      this.parse, this.emptyRoot, this.emptyState, this.initial := parse, emptyRoot, emptyState, database;
      st := State(database, map[], [], map[]);
      g := Proof(map[], map[], map[], raws, {}, {}, Terms(true, iset x | x in raws, {}));
    }

    /** sync.go `AddSubTrie` without a parent. The raw entries its callback may declare are allowed from now on. */
    method AddSubTrie(root: K, callback: Callback<K>)
      requires Valid()
      modifies this
      ensures Valid() && st.database == old(st.database) && st.batch == old(st.batch)
      ensures g.roots == old(g.roots) + (if root == emptyRoot then {} else {root})
      ensures g.slips == old(g.slips) && g.raws == old(g.raws) && st.order == old(st.order)
      ensures st.rs == if HasTrie(parse, old(st), root, emptyRoot) || root in old(st.rs) then old(st.rs)
                       else old(st.rs)[root := Request(None, false, [], 0, callback)]
      ensures var was := old(g.terms);
              g.terms == Terms(was.harmless && MeansWell(callback), was.allowed + Declarable(callback), was.given)
    {
      ghost var terms := Terms(g.terms.harmless && MeansWell(callback), g.terms.allowed + Declarable(callback), g.terms.given);
      NewTerms(parse, st, g, emptyRoot, terms);
      g := g.(terms := terms);
      if root == emptyRoot { return; }
      if root !in st.batch && !(root in st.database && parse(root, st.database[root]).Some?) {
        var req := Request(None, false, [], 0, callback);
        ScheduleRoot(parse, st, g, root, req, emptyRoot);
        NoParents(st.rs, root, req);
        st, g := Schedule(st, root, req), OpenedLinks(g, root);
      }
      RootsGood(parse, st, g, root, emptyRoot);
      g := g.(roots := g.roots + {root});
    }

    /** sync.go `AddRawEntry` without a parent. */
    method AddRawEntry(hash: K)
      requires Valid()
      modifies this
      ensures Valid() && st.database == old(st.database) && st.batch == old(st.batch)
      ensures hash == emptyState || hash in Known(st) || hash in st.rs
      ensures g.slips == old(g.slips) && g.roots == old(g.roots) && old(g.raws) <= g.raws <= old(g.raws) + {hash} && st.order == old(st.order)
      ensures st.rs == if HasRaw(old(st), hash, emptyState) || hash in old(st.rs) then old(st.rs)
                       else old(st.rs)[hash := Request(None, true, [], 0, None)]
      ensures var was := old(g.terms); g.terms == was || g.terms == was.(allowed := was.allowed + iset{hash})
    {
      if hash == emptyState || hash in st.batch || hash in st.database { return; }
      ghost var terms := g.terms.(allowed := g.terms.allowed + iset{hash});
      NewTerms(parse, st, g, emptyRoot, terms);
      g := g.(terms := terms);
      RawsGood(parse, st, g, hash, emptyRoot, 0, false);
      g := g.(raws := g.raws + {hash});
      var req := Request(None, true, [], 0, None);
      ScheduleRoot(parse, st, g, hash, req, emptyRoot);
      NoParents(st.rs, hash, req);
      st, g := Schedule(st, hash, req), OpenedLinks(g, hash);
    }

    /** One round of the loop of `Process`. */
    method Take(h: K, data: bytes, ghost s0: State<K>, ghost g0: Proof<K>) returns (one: Status)
      requires Valid() && Progress(s0, g0, st, g)
      modifies this
      ensures Valid() && Progress(s0, g0, st, g) && g.terms.given <= old(g.terms.given) + {(h, data)}
      ensures (st, one) == Step(parse, old(st), h, data, emptyRoot, emptyState)
    {
      if g.terms.harmless { HarmlessKeeps(parse, st, g, emptyRoot, h, data, emptyRoot, emptyState); }
      var s';
      ghost var g';
      s', one, g' := ProcessItem(st, h, data, parse, emptyRoot, emptyState, g, emptyRoot);
      StillBounded(parse, st, g, g', emptyRoot, h, data, if Slips(parse, st, h, data, emptyRoot, emptyState) then {h} else {}, emptyState);
      st, g := s', g';
    }

    /**
     sync.go `Process`: results are taken one by one up to the first that fails a test. Those before it are held
     from then on, in the batch or by their requests, and something was committed exactly when the batch grew.
     */
    method Process(results: seq<(K, bytes)>) returns (committed: bool, index: nat, status: Status)
      requires Valid()
      modifies this
      ensures Valid() && Progress(old(st), old(g), st, g)
      ensures status.Accepted? ==> index == 0 && Took(parse, old(st), results, |results|, st, emptyRoot, emptyState)
      ensures !status.Accepted? ==> index < |results| && Failed(parse, old(st), results, index, st, status, emptyRoot, emptyState)
      ensures forall i :: 0 <= i < (if status.Accepted? then |results| else index) ==> Holds(st, results[i].0, results[i].1)
      ensures committed <==> |old(st.order)| < |st.order|
      ensures Moving(old(st)) && !status.CallbackFailed? ==> Moving(st)
      ensures forall h :: Stuck(old(st), h) ==> Stuck(st, h)
      ensures forall x :: x in g.terms.given ==> x in old(g.terms.given) || x in results
    {
      committed, index, status := Rounds(results);
    }

    /** The loop of `Process`. */
    method Rounds(results: seq<(K, bytes)>) returns (committed: bool, index: nat, status: Status)
      requires Valid()
      modifies this
      ensures Valid() == true && Progress(old(st), old(g), st, g) == true
      ensures Ended(parse, old(st), results, st, committed, index, status, emptyRoot, emptyState) == true
      ensures forall x :: x in g.terms.given ==> x in old(g.terms.given) || x in results
    {
      committed, index, status := false, 0, Accepted(false);
      ghost var s0, g0 := st, g;
      for i := 0 to |results|
        invariant Valid() == true && Progress(s0, g0, st, g) == true && index == 0
        invariant Going(parse, s0, results, i, st, committed, emptyRoot, emptyState) == true
        invariant forall x :: x in g.terms.given ==> x in g0.terms.given || x in results
      {
        ghost var s1 := st;
        SteadyFacts(parse, st, g, emptyRoot);
        var one := Take(results[i].0, results[i].1, s0, g0);
        GoingOn(parse, s0, results, i, i + 1, s1, st, one, committed, emptyRoot, emptyState);
        if !one.Accepted? { return committed, i, one; }
        committed := committed || one.committed;
      }
      status := Accepted(committed);
    }

    /**
     sync.go `Commit`: writes the batch in order to the database. A write may fail after `room`
     entries; then those are stored and the batch stays. Either way the database is closed, but for nodes
     that lost their references; and it is closed for these too exactly when it has what they refer to.
     */
    method Commit(room: nat) returns (written: nat)
      requires Valid()
      modifies this
      ensures Valid() && Closed(parse, st.database, g.raws)
      ensures Closed(parse, st.database, g.raws - g.slips) <==>
              forall h :: h in g.slips && h in st.database ==>
                parse(h, st.database[h]).Some? && Refs(parse(h, st.database[h]).value) <= st.database.Keys
      ensures written == if room < |old(st.order)| then room else |old(st.order)|
      ensures st.database == Written(old(st.database), old(st.batch), old(st.order)[..written])
      ensures written == |old(st.order)| ==> st.batch == map[] && st.order == []
      ensures Known(st) == Known(old(st)) && st.rs == old(st.rs) && g == old(g)
    {
      var db;
      db, written := WriteBatch(st, room);
      PrefixWritten(parse, st, g, written, emptyRoot);
      StillSourced(st, initial, g.terms, written);
      var s1 := st.(database := db);
      if written == |st.order| {
        BatchDropped(parse, s1, g, emptyRoot);
        s1 := State(db, map[], [], st.rs);
      }
      st := s1;
      ClosedExactly(parse, st.database, g.raws, g.slips);
    }

    /** `Commit` when every write succeeds. */
    method CommitAll()
      requires Valid()
      modifies this
      ensures Valid() && st.database == old(Flushed(st)) && st.batch == map[] && st.rs == old(st.rs) && g == old(g)
    {
      ghost var s := st;
      assert s.order[..|s.order|] == s.order;
      var written := Commit(|st.order|);
    }

    /** The entries still to be delivered. */
    method Missing() returns (open: set<K>)
      ensures open == set h | h in st.rs && st.rs[h].data.None?
    {
      open := set h | h in st.rs && st.rs[h].data.None?;
    }

    /** sync.go `Pending`. */
    method Pending() returns (n: nat)
      ensures n == |st.rs|
    {
      n := |st.rs|;
    }
  }

  // ---------------------------------------------------------------------------------------------
  // Downloading everything
  // ---------------------------------------------------------------------------------------------

  /** The entries whose data has been taken in. */
  ghost function HeldKeys<K(!new)>(s: State<K>, content: Store<K>): set<K> {
    set h | h in content && Holds(s, h, content[h])
  }

  /** In the middle of a download of what there is. */
  ghost predicate Fetching<K(!new)>(s: State<K>, g: Proof<K>, w: Supply<K>, s0: State<K>, g0: Proof<K>) {
    && Moving(s) && Expected(s, w) && Progress(s0, g0, s, g)
    && forall x :: x in g.terms.given ==> x in g0.terms.given || (x.0 in w.content && x.1 == w.content[x.0])
  }

  /** An open request was answered with what there is. */
  lemma Delivered<K(!new)>(parse: Parser<K>, s1: State<K>, s2: State<K>, h: K, w: Supply<K>, results: seq<(K, bytes)>,
                           committed: bool, index: nat, status: Status, emptyRoot: K, emptyState: K)
    requires SupplyOk(parse, w, emptyRoot, emptyState) && Expected(s1, w) && Disjoint(s1) && Open(s1, h)
    requires h in w.content && results == [(h, w.content[h])] && Ended(parse, s1, results, s2, committed, index, status, emptyRoot, emptyState)
    ensures Expected(s2, w) == true && (Moving(s1) ==> Moving(s2) == true)
    ensures h in HeldKeys(s2, w.content) && h !in HeldKeys(s1, w.content) && HeldKeys(s1, w.content) <= HeldKeys(s2, w.content)
  {
    StepExpected(parse, s1, h, w, emptyRoot, emptyState);
    StepKeeps(parse, s1, h, w.content[h], emptyRoot, emptyState);
    assert Fold(parse, s1, results, 0, emptyRoot, emptyState) == s1;
    assert Fold(parse, s1, results, 1, emptyRoot, emptyState) == Step(parse, s1, h, w.content[h], emptyRoot, emptyState).0;
  }

  lemma FetchingOn<K(!new)>(s1: State<K>, g1: Proof<K>, s2: State<K>, g2: Proof<K>, w: Supply<K>, s0: State<K>, g0: Proof<K>, results: seq<(K, bytes)>, h: K)
    requires Fetching(s1, g1, w, s0, g0) && Progress(s1, g1, s2, g2) && Expected(s2, w) && Moving(s2)
    requires h in w.content && results == [(h, w.content[h])] && forall x :: x in g2.terms.given ==> x in g1.terms.given || x in results
    ensures Fetching(s2, g2, w, s0, g0) == true
  {
  }

  lemma AllAnswered<K(!new)>(parse: Parser<K>, s: State<K>, g: Proof<K>, r: K, w: Supply<K>, s0: State<K>, g0: Proof<K>, open: set<K>)
    requires Steady(parse, s, g, r) && Fetching(s, g, w, s0, g0) && open == {} && open == set h | h in s.rs && s.rs[h].data.None?
    ensures s.rs == map[] && Progress(s0, g0, s, g) == true
    ensures forall x :: x in g.terms.given ==> x in g0.terms.given || (x.0 in w.content && x.1 == w.content[x.0])
  {
    forall x | x in s.rs ensures s.rs[x].data.Some? { assert x !in open; }
    NonePending(parse, s, g, r, w);
  }

  lemma InContent<K(!new)>(s: State<K>, w: Supply<K>, h: K)
    requires Expected(s, w) && h in s.rs
    ensures h in w.content
  {
    assert Fits(w, h, s.rs[h]);
  }

  /**
   As long as a request has no data, one of them, whichever, is answered with what there is. This ends, with
   nothing pending.
   */
  method Fetch<K(!new, ==)>(s: Sync<K>, content: Store<K>, ghost w: Supply<K>)
    requires s.Valid() && Moving(s.st) && Expected(s.st, w) && content == w.content
    requires SupplyOk(s.parse, w, s.emptyRoot, s.emptyState)
    modifies s
    ensures s.Valid() && s.st.rs == map[] && Progress(old(s.st), old(s.g), s.st, s.g)
    ensures forall x :: x in s.g.terms.given ==> x in old(s.g.terms.given) || (x.0 in content && x.1 == content[x.0])
  {
    ghost var s0, g0 := s.st, s.g;
    var open := s.Missing();
    while open != {}
      invariant s.Valid() == true && Fetching(s.st, s.g, w, s0, g0) == true && open == (set h | h in s.st.rs && s.st.rs[h].data.None?)
      decreases content.Keys - HeldKeys(s.st, content)
    {
      var h :| h in open;
      FetchOne(s, h, content, w, s0, g0);
      open := s.Missing();
    }
    AllAnswered(s.parse, s.st, s.g, s.emptyRoot, w, s0, g0, open);
  }

  method FetchOne<K(!new, ==)>(s: Sync<K>, h: K, content: Store<K>, ghost w: Supply<K>, ghost s0: State<K>, ghost g0: Proof<K>)
    requires s.Valid() && Fetching(s.st, s.g, w, s0, g0) && content == w.content && Open(s.st, h)
    requires SupplyOk(s.parse, w, s.emptyRoot, s.emptyState) == true
    modifies s
    ensures s.Valid() == true && Fetching(s.st, s.g, w, s0, g0) == true
    ensures h in content && h in HeldKeys(s.st, content) && h !in old(HeldKeys(s.st, content)) && old(HeldKeys(s.st, content)) <= HeldKeys(s.st, content)
  {
    ghost var s1, g1 := s.st, s.g;
    InContent(s1, w, h);
    SteadyFacts(s.parse, s1, s.g, s.emptyRoot);
    var results := [(h, content[h])];
    var committed, index, status := s.Rounds(results);
    Delivered(s.parse, s1, s.st, h, w, results, committed, index, status, s.emptyRoot, s.emptyState);
    FetchingOn(s1, g1, s.st, s.g, w, s0, g0, results, h);
  }

  // ---------------------------------------------------------------------------------------------
  // Callbacks that fail
  // ---------------------------------------------------------------------------------------------

  function ParseOne(h: int, data: bytes): Option<seq<Child<int>>> {
    if h == 0 then Some([Ref(1), Leaf([7])]) else Some([])
  }

  function FailLate(leaf: bytes): Reply<int> { Reply([2], [], false) }

  /**
   The run that loses a child: node 0 refers to node 1 and has a leaf; its callback registers sub-trie 2 and
   fails. When 2 arrives, 0 waits for nothing more and is committed after it, without 1, and nothing is pending.
   */
  lemma LostChild()
    ensures Slips(ParseOne, Asked0(), 0, [0], -1, -1)
    ensures Step(ParseOne, Asked0(), 0, [0], -1, -1) == (Waiting0(), CallbackFailed)
    ensures Step(ParseOne, Waiting0(), 2, [2], -1, -1) == (State(map[], map[2 := [2], 0 := [0]], [2, 0], map[]), Accepted(true))
    ensures !Closed(ParseOne, Flushed(State(map[], map[2 := [2], 0 := [0]], [2, 0], map[])), {})
  {
    LostSlips();
    LostFirst();
    LostSecond();
    LostOpen();
  }

  lemma LostFirst()
    ensures Step(ParseOne, Asked0(), 0, [0], -1, -1) == (Waiting0(), CallbackFailed)
  {
    var s, cs := WithData(Asked0(), 0, [0]), ParseOne(0, [0]).value;
    assert LeafOf(cs) == Some([7]) by { assert cs[1..] == [Leaf([7])]; }
    assert TriesBelow(ParseOne, s, [2], 0, -1) == Below(s, 2, Request(None, false, [0], 0, None), 0);
    assert Below(s, 2, Request(None, false, [0], 0, None), 0).rs == Waiting0().rs;
  }

  lemma LostSecond()
    ensures Step(ParseOne, Waiting0(), 2, [2], -1, -1) == (State(map[], map[2 := [2], 0 := [0]], [2, 0], map[]), Accepted(true))
  {
    var s := WithData(Waiting0(), 2, [2]);
    assert NodeStep(ParseOne, s, 2, [2], [], -1, -1) == (Committed(s, 2, [2]), Accepted(true));
    var s1 := Retired(s, 2, [2]);
    assert s1.rs == map[0 := Request(Some([0]), false, [], 1, Some(FailLate))];
    assert ToldAll(s1, [0]) == ToldAll(ToldOne(s1, 0), []) by { assert [0][1..] == []; }
    var s2 := Told(s1, 0);
    assert s2.rs == map[0 := Request(Some([0]), false, [], 0, Some(FailLate))];
    assert ToldOne(s1, 0) == Committed(s2, 0, [0]) == ToldAll(Retired(s2, 0, [0]), []) == Retired(s2, 0, [0]);
    var end := Retired(s2, 0, [0]);
    assert end.rs == map[] && end.batch == map[2 := [2], 0 := [0]] && end.order == [2, 0] && end.database == map[];
    assert Committed(s, 2, [2]) == end;
    assert Step(ParseOne, Waiting0(), 2, [2], -1, -1) == NodeStep(ParseOne, s, 2, [2], [], -1, -1);
  }

  /** The same with a scheduler: two deliveries, and the batch is not closed though nothing is pending. */
  method LostRun() returns (s: Sync<int>, first: Status, second: Status)
    ensures fresh(s) && s.Valid() && first.CallbackFailed? && second.Accepted? && s.st.rs == map[] && s.st.order == [2, 0]
    ensures !Closed(ParseOne, Flushed(s.st), {})
  {
    LostChild();
    s := new Sync(ParseOne, -1, -1, map[], {});
    s.AddSubTrie(0, Some(FailLate));
    assert s.st == Asked0();
    var c, i;
    c, i, first := s.Process([(0, [0])]);
    OneResult(ParseOne, Asked0(), (0, [0]), -1, -1);
    assert s.st == Waiting0();
    c, i, second := s.Process([(2, [2])]);
    OneResult(ParseOne, Waiting0(), (2, [2]), -1, -1);
  }

  lemma OneResult<K(!new)>(parse: Parser<K>, s: State<K>, x: (K, bytes), emptyRoot: K, emptyState: K)
    ensures Fold(parse, s, [x], 0, emptyRoot, emptyState) == s
    ensures Fold(parse, s, [x], 1, emptyRoot, emptyState) == Step(parse, s, x.0, x.1, emptyRoot, emptyState).0
    ensures Passes(parse, s, [x], 0, emptyRoot, emptyState) <==> Verdict(parse, s, x.0, x.1) == None
  {
  }

  function FailEarly(leaf: bytes): Reply<int> { Reply([], [], false) }

  /** A callback need not register anything to do harm: a node it fails for is pending for ever, whatever is delivered. */
  method StuckRun(results: seq<(int, bytes)>) returns (s: Sync<int>, first: Status)
    ensures fresh(s) && s.Valid() && MeansWell(Some(FailEarly)) && first.CallbackFailed? && 0 in s.st.rs
  {
    s := new Sync(ParseOne, -1, -1, map[], {});
    s.AddSubTrie(0, Some(FailEarly));
    var s1 := s.st;
    ghost var g1 := s.g;
    var cs := ParseOne(0, [0]).value;
    assert LeafOf(cs) == Some([7]) by { assert cs[1..] == [Leaf([7])]; }
    FailedIsStuck(ParseOne, s1, g1, -1, 0, [0], -1, -1);
    var c, i;
    c, i, first := s.Process([(0, [0])]);
    OneResult(ParseOne, s1, (0, [0]), -1, -1);
    assert Stuck(s.st, 0);
    var last;
    c, i, last := s.Process(results);
  }

  /** The root of the trie is asked for; then its data has come and its callback has run. */
  function Asked0(): State<int> { State(map[], map[], [], map[0 := Request(None, false, [], 0, Some(FailLate))]) }

  function Waiting0(): State<int> {
    State(map[], map[], [], map[0 := Request(Some([0]), false, [], 1, Some(FailLate)), 2 := Request(None, false, [0], 0, None)])
  }

  lemma LostSlips()
    ensures Slips(ParseOne, Asked0(), 0, [0], -1, -1)
  {
    var cs := ParseOne(0, [0]).value;
    assert cs[0].Ref? && cs[0].h == 1;
    assert 1 in Refs(cs);
    assert LeafOf(cs) == Some([7]) by { assert cs[1..] == [Leaf([7])]; }
    assert FailLate([7]).subtries == [2];
    assert 2 in Registered(ParseOne, Asked0(), FailLate([7]), -1, -1) && 1 !in Registered(ParseOne, Asked0(), FailLate([7]), -1, -1);
  }

  lemma LostOpen()
    ensures !Closed(ParseOne, Flushed(State(map[], map[2 := [2], 0 := [0]], [2, 0], map[])), {})
  {
    var db, cs := Flushed(State(map[], map[2 := [2], 0 := [0]], [2, 0], map[])), ParseOne(0, [0]).value;
    assert 0 in [2, 0] && 1 !in [2, 0];
    assert 0 in db && 1 !in db && db[0] == [0];
    assert cs[0].Ref? && cs[0].h == 1;
    assert !Understood(ParseOne, 0, db[0], db.Keys, {});
  }
}

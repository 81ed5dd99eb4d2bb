/**
 What the steps of the downloader (sync.go) do to its state, apart from the invariant of `TrieSync`: what was
 taken in is kept, a request with data always waits for something, and once every request has its data there
 is none left.
 */
module SyncSteps {
  import opened Bytes
  import opened SyncLinks
  import opened TrieSync

  // ---------------------------------------------------------------------------------------------
  // What was taken in is kept
  // ---------------------------------------------------------------------------------------------

  /** The data of an entry is in the batch, or waits in its request. */
  ghost predicate Holds<K(!new)>(s: State<K>, h: K, data: bytes) {
    (h in s.batch && s.batch[h] == data) || (h in s.rs && s.rs[h].data == Some(data))
  }

  /** No pending entry is in the batch. */
  ghost predicate Disjoint<K(!new)>(s: State<K>) { forall h :: h in s.rs ==> h !in s.batch }

  /** A request that is pending without data. */
  ghost predicate Open<K(!new)>(s: State<K>, h: K) { h in s.rs && s.rs[h].data.None? }

  /** What was held is held, the batch is only added to, and open requests other than `h` stay open. */
  ghost predicate Keeps<K(!new)>(s: State<K>, s': State<K>, h: K) {
    && s'.database == s.database && s.order <= s'.order
    && (forall x, d :: Holds(s, x, d) ==> Holds(s', x, d))
    && (forall x :: x in s.batch ==> x in s'.batch)
    && (forall x :: x != h && Open(s, x) ==> Open(s', x))
  }

  lemma KeepsTwice<K(!new)>(s: State<K>, s1: State<K>, s2: State<K>, h: K)
    requires Keeps(s, s1, h) && Keeps(s1, s2, h)
    ensures Keeps(s, s2, h)
  {
  }

  lemma {:induction false} CommittedKeeps<K(!new)>(s: State<K>, h: K, data: bytes)
    requires Disjoint(s) && h in s.rs && (s.rs[h].data.Some? ==> s.rs[h].data.value == data)
    ensures var s' := Committed(s, h, data); Keeps(s, s', h) && Disjoint(s') && h in s'.batch && Holds(s', h, data) && |s.order| < |s'.order|
    decreases s.rs.Keys, 0, 0
  {
    var s1 := Retired(s, h, data);
    assert Holds(s1, h, data) && Keeps(s, s1, h) && !Open(s1, h);
    ToldAllKeeps(s1, s.rs[h].parents, h);
  }

  lemma {:induction false} ToldOneKeeps<K(!new)>(s: State<K>, p: K, h: K)
    requires Disjoint(s)
    ensures var s' := ToldOne(s, p); Keeps(s, s', h) && Disjoint(s')
    decreases s.rs.Keys, 0, 1
  {
    if p in s.rs {
      var s1 := Told(s, p);
      assert Keeps(s, s1, h);
      if s1.rs[p].deps == 0 && s.rs[p].data.Some? {
        CommittedKeeps(s1, p, s.rs[p].data.value);
        assert !Open(s1, p);
      }
    }
  }

  lemma {:induction false} ToldAllKeeps<K(!new)>(s: State<K>, parents: seq<K>, h: K)
    requires Disjoint(s)
    ensures var s' := ToldAll(s, parents); Keeps(s, s', h) && Disjoint(s')
    decreases s.rs.Keys, 1, |parents|
  {
    if parents != [] {
      ToldOneKeeps(s, parents[0], h);
      ToldAllKeeps(ToldOne(s, parents[0]), parents[1..], h);
    }
  }

  /** Scheduling stores nothing, and changes no request but in its parents and its counter. */
  ghost predicate Schedules<K(!new)>(s: State<K>, s': State<K>) {
    && s'.database == s.database && s'.batch == s.batch && s'.order == s.order
    && forall x :: x in s.rs ==> x in s'.rs && s'.rs[x].data == s.rs[x].data && s'.rs[x].raw == s.rs[x].raw && s'.rs[x].callback == s.rs[x].callback
  }

  lemma SchedulesKeeps<K(!new)>(s: State<K>, s': State<K>, h: K)
    requires Schedules(s, s')
    ensures Keeps(s, s', h)
  {
  }

  lemma {:induction false} TriesSchedule<K(!new)>(parse: Parser<K>, s: State<K>, xs: seq<K>, r: K, emptyRoot: K)
    requires Disjoint(s)
    ensures var s' := TriesBelow(parse, s, xs, r, emptyRoot); Schedules(s, s') && Disjoint(s')
    decreases |xs|
  {
    if xs != [] { TriesSchedule(parse, s, xs[..|xs| - 1], r, emptyRoot); }
  }

  lemma {:induction false} RawsSchedule<K(!new)>(s: State<K>, xs: seq<K>, r: K, emptyState: K)
    requires Disjoint(s)
    ensures var s' := RawsBelow(s, xs, r, emptyState); Schedules(s, s') && Disjoint(s')
    decreases |xs|
  {
    if xs != [] { RawsSchedule(s, xs[..|xs| - 1], r, emptyState); }
  }

  lemma RepliedSchedule<K(!new)>(parse: Parser<K>, s: State<K>, reply: Reply<K>, r: K, emptyRoot: K, emptyState: K)
    requires Disjoint(s)
    ensures var s' := Replied(parse, s, reply, r, emptyRoot, emptyState); Schedules(s, s') && Disjoint(s')
  {
    TriesSchedule(parse, s, reply.subtries, r, emptyRoot);
    RawsSchedule(TriesBelow(parse, s, reply.subtries, r, emptyRoot), reply.raws, r, emptyState);
  }

  lemma {:induction false} ChildrenSchedule<K(!new)>(s: State<K>, list: seq<K>, r: K)
    requires Disjoint(s) && forall x :: x in list ==> x !in s.batch
    ensures var s' := ChildrenBelow(s, list, r); Schedules(s, s') && Disjoint(s')
    decreases |list|
  {
    if list != [] { ChildrenSchedule(s, list[..|list| - 1], r); }
  }

  /** The missing references are those that are neither in the batch nor stored. */
  lemma {:induction false} MissingIs<K(!new)>(s: State<K>, cs: seq<Child<K>>)
    ensures forall x :: x in Missing(s, cs) <==> x in Refs(cs) && x !in Known(s)
    decreases |cs|
  {
    if cs != [] {
      MissingIs(s, cs[..|cs| - 1]);
      RefsAppend(cs[..|cs| - 1], cs[|cs| - 1]);
      assert cs == cs[..|cs| - 1] + [cs[|cs| - 1]];
    }
  }

  /** Which test a result fails, if it fails one. */
  ghost function Verdict<K(!new)>(parse: Parser<K>, s: State<K>, h: K, data: bytes): Option<Status> {
    if h !in s.rs then Some(NotRequested)
    else if s.rs[h].data.Some? then Some(AlreadyProcessed)
    else if s.rs[h].raw then None
    else if parse(h, data).None? then Some(BadData)
    else if !ReplyTo(s.rs[h].callback, parse(h, data).value).ok then Some(CallbackFailed)
    else None
  }

  /**
   One result: it is accepted exactly when it fails no test, and then it is held; all that was held is kept; and
   the batch grows exactly when the step says that something was committed.
   */
  lemma StepKeeps<K(!new)>(parse: Parser<K>, s: State<K>, h: K, data: bytes, emptyRoot: K, emptyState: K)
    requires Disjoint(s)
    ensures var (s', status) := Step(parse, s, h, data, emptyRoot, emptyState);
            && Keeps(s, s', h) && Disjoint(s')
            && (status.Accepted? <==> Verdict(parse, s, h, data).None?) && (!status.Accepted? ==> Verdict(parse, s, h, data) == Some(status))
            && (status.Accepted? ==> Holds(s', h, data))
            && (status.Accepted? && status.committed <==> |s.order| < |s'.order|)
  {
    if h in s.rs && s.rs[h].data.None? {
      if s.rs[h].raw {
        CommittedKeeps(s, h, data);
      } else if parse(h, data).Some? {
        NodeKeeps(parse, s, h, data, parse(h, data).value, emptyRoot, emptyState);
      }
    }
  }

  lemma NodeKeeps<K(!new)>(parse: Parser<K>, s: State<K>, h: K, data: bytes, cs: seq<Child<K>>, emptyRoot: K, emptyState: K)
    requires Disjoint(s) && Open(s, h)
    ensures var (s', status) := NodeStep(parse, WithData(s, h, data), h, data, cs, emptyRoot, emptyState);
            && Keeps(s, s', h) && Disjoint(s')
            && (status.Accepted? <==> ReplyTo(s.rs[h].callback, cs).ok) && (!status.Accepted? ==> status.CallbackFailed? && Holds(s', h, data))
            && (status.Accepted? ==> Holds(s', h, data))
            && (status.Accepted? && status.committed <==> |s.order| < |s'.order|)
  {
    var s0 := WithData(s, h, data);
    assert Keeps(s, s0, h) && Holds(s0, h, data);
    var reply := ReplyTo(s.rs[h].callback, cs);
    var s1 := Replied(parse, s0, reply, h, emptyRoot, emptyState);
    RepliedSchedule(parse, s0, reply, h, emptyRoot, emptyState);
    SchedulesKeeps(s0, s1, h);
    if reply.ok { SettleKeeps(s1, h, data, Missing(s1, cs), cs); }
  }

  lemma SettleKeeps<K(!new)>(s: State<K>, h: K, data: bytes, list: seq<K>, cs: seq<Child<K>>)
    requires Disjoint(s) && h in s.rs && s.rs[h].data == Some(data) && list == Missing(s, cs)
    ensures var (s', status) := SettleStep(s, h, data, list);
            && Keeps(s, s', h) && Disjoint(s') && Holds(s', h, data) && status.Accepted?
            && (status.committed <==> |s.order| < |s'.order|)
  {
    MissingIs(s, cs);
    if list == [] && s.rs[h].deps == 0 {
      CommittedKeeps(s, h, data);
    } else {
      var s1 := Bumped(s, h, |list|);
      assert Schedules(s, s1);
      SchedulesKeeps(s, s1, h);
      ChildrenSchedule(s1, list, h);
      SchedulesKeeps(s1, ChildrenBelow(s1, list, h), h);
      assert Holds(s, h, data);
    }
  }

  // ---------------------------------------------------------------------------------------------
  // What is asked for
  // ---------------------------------------------------------------------------------------------

  /** A new request, made below `r` and nobody else. */
  ghost predicate NewBelow<K(!new)>(req: Request<K, Callback<K>>, r: K, raw: bool, callback: Callback<K>) {
    && req.data.None? && req.raw == raw && req.deps == 0 && req.callback == callback
    && req.parents != [] && forall p :: p in req.parents ==> p == r
  }

  /** Requests made below `r` stay so while more are made there; those that are newer are as given. */
  ghost predicate Adds<K(!new)>(s: State<K>, s': State<K>, r: K, xs: seq<K>, raw: bool, callback: Callback<K>) {
    && (r in s.rs ==> r in s'.rs && s'.rs[r].callback == s.rs[r].callback)
    && (forall x, b, c :: x in s.rs && x != r && NewBelow(s.rs[x], r, b, c) ==> x in s'.rs && NewBelow(s'.rs[x], r, b, c))
    && (forall x :: x in s'.rs && x !in s.rs ==> x in xs && NewBelow(s'.rs[x], r, raw, callback))
  }

  /** Whatever is registered below `r` is counted. */
  ghost predicate Counts<K(!new)>(s: State<K>, s': State<K>, r: K) {
    r in s.rs && r in s'.rs && s.rs[r].deps <= s'.rs[r].deps && (s.rs[r].deps == s'.rs[r].deps ==> s' == s)
  }

  lemma {:induction false} TriesAdd<K(!new)>(parse: Parser<K>, s: State<K>, xs: seq<K>, r: K, emptyRoot: K)
    requires r in s.rs
    ensures Adds(s, TriesBelow(parse, s, xs, r, emptyRoot), r, xs, false, None) && Counts(s, TriesBelow(parse, s, xs, r, emptyRoot), r)
    decreases |xs|
  {
    if xs != [] { TriesAdd(parse, s, xs[..|xs| - 1], r, emptyRoot); }
  }

  lemma {:induction false} RawsAdd<K(!new)>(s: State<K>, xs: seq<K>, r: K, emptyState: K)
    requires r in s.rs
    ensures Adds(s, RawsBelow(s, xs, r, emptyState), r, xs, true, None) && Counts(s, RawsBelow(s, xs, r, emptyState), r)
    decreases |xs|
  {
    if xs != [] { RawsAdd(s, xs[..|xs| - 1], r, emptyState); }
  }

  lemma {:induction false} ChildrenAdd<K(!new)>(s: State<K>, list: seq<K>, r: K)
    requires r in s.rs
    ensures Adds(s, ChildrenBelow(s, list, r), r, list, false, s.rs[r].callback)
    decreases |list|
  {
    if list != [] { ChildrenAdd(s, list[..|list| - 1], r); }
  }

  /**
   Every request that a node's data gives rise to is one of its callback's sub-tries or raw entries, without a
   callback, or one of the references of the node, with the callback of the node.
   */
  lemma NewRequests<K(!new)>(parse: Parser<K>, s: State<K>, h: K, data: bytes, x: K, emptyRoot: K, emptyState: K)
    requires Open(s, h) && !s.rs[h].raw && s.rs[h].deps >= 0 && parse(h, data).Some? && x !in s.rs
    requires x in Step(parse, s, h, data, emptyRoot, emptyState).0.rs
    ensures var req, reply := Step(parse, s, h, data, emptyRoot, emptyState).0.rs[x], ReplyTo(s.rs[h].callback, parse(h, data).value);
            || (x in reply.subtries && NewBelow(req, h, false, None))
            || (x in reply.raws && NewBelow(req, h, true, None))
            || (x in Refs(parse(h, data).value) && x !in Known(s) && NewBelow(req, h, false, s.rs[h].callback))
  {
    var s0, cs := WithData(s, h, data), parse(h, data).value;
    var reply := ReplyTo(s.rs[h].callback, cs);
    var s1 := TriesBelow(parse, s0, reply.subtries, h, emptyRoot);
    TriesAdd(parse, s0, reply.subtries, h, emptyRoot);
    var s2 := RawsBelow(s1, reply.raws, h, emptyState);
    RawsAdd(s1, reply.raws, h, emptyState);
    if reply.ok && !(Missing(s2, cs) == [] && s2.rs[h].deps == 0) {
      var s3 := Bumped(s2, h, |Missing(s2, cs)|);
      ChildrenAdd(s3, Missing(s2, cs), h);
      MissingIs(s2, cs);
      SameKnown(parse, s0, reply, h, emptyRoot, emptyState);
    }
  }

  lemma SameKnown<K(!new)>(parse: Parser<K>, s: State<K>, reply: Reply<K>, r: K, emptyRoot: K, emptyState: K)
    ensures Known(Replied(parse, s, reply, r, emptyRoot, emptyState)) == Known(s)
  {
    SameTries(parse, s, reply.subtries, r, emptyRoot);
    SameRaws(TriesBelow(parse, s, reply.subtries, r, emptyRoot), reply.raws, r, emptyState);
  }

  lemma {:induction false} SameTries<K(!new)>(parse: Parser<K>, s: State<K>, xs: seq<K>, r: K, emptyRoot: K)
    ensures var s' := TriesBelow(parse, s, xs, r, emptyRoot); s'.database == s.database && s'.batch == s.batch
    decreases |xs|
  {
    if xs != [] { SameTries(parse, s, xs[..|xs| - 1], r, emptyRoot); }
  }

  lemma {:induction false} SameRaws<K(!new)>(s: State<K>, xs: seq<K>, r: K, emptyState: K)
    ensures var s' := RawsBelow(s, xs, r, emptyState); s'.database == s.database && s'.batch == s.batch
    decreases |xs|
  {
    if xs != [] { SameRaws(s, xs[..|xs| - 1], r, emptyState); }
  }

  // ---------------------------------------------------------------------------------------------
  // Whoever has its data waits for something
  // ---------------------------------------------------------------------------------------------

  /** Every request with data, but for `h`, waits for something. */
  ghost predicate MovingBut<K(!new)>(s: State<K>, h: Option<K>) {
    forall p :: p in s.rs && Some(p) != h && s.rs[p].data.Some? ==> s.rs[p].deps > 0
  }

  ghost predicate Moving<K(!new)>(s: State<K>) { MovingBut(s, None) }

  lemma {:induction false} CommittedMoves<K(!new)>(s: State<K>, h: K, data: bytes)
    requires MovingBut(s, Some(h)) && h in s.rs
    ensures Moving(Committed(s, h, data))
    decreases s.rs.Keys, 0, 0
  {
    ToldAllMoves(Retired(s, h, data), s.rs[h].parents);
  }

  lemma {:induction false} ToldOneMoves<K(!new)>(s: State<K>, p: K)
    requires Moving(s)
    ensures Moving(ToldOne(s, p))
    decreases s.rs.Keys, 0, 1
  {
    if p in s.rs && Told(s, p).rs[p].deps == 0 && s.rs[p].data.Some? { CommittedMoves(Told(s, p), p, s.rs[p].data.value); }
  }

  lemma {:induction false} ToldAllMoves<K(!new)>(s: State<K>, parents: seq<K>)
    requires Moving(s)
    ensures Moving(ToldAll(s, parents))
    decreases s.rs.Keys, 1, |parents|
  {
    if parents != [] {
      ToldOneMoves(s, parents[0]);
      ToldAllMoves(ToldOne(s, parents[0]), parents[1..]);
    }
  }

  /** `r` is in the middle of scheduling; its counter is not negative. */
  ghost predicate MovingUnder<K(!new)>(s: State<K>, r: K) { MovingBut(s, Some(r)) && r in s.rs && s.rs[r].deps >= 0 }

  lemma {:induction false} TriesMove<K(!new)>(parse: Parser<K>, s: State<K>, xs: seq<K>, r: K, emptyRoot: K)
    requires MovingUnder(s, r)
    ensures MovingUnder(TriesBelow(parse, s, xs, r, emptyRoot), r)
    decreases |xs|
  {
    if xs != [] { TriesMove(parse, s, xs[..|xs| - 1], r, emptyRoot); }
  }

  lemma {:induction false} RawsMove<K(!new)>(s: State<K>, xs: seq<K>, r: K, emptyState: K)
    requires MovingUnder(s, r)
    ensures MovingUnder(RawsBelow(s, xs, r, emptyState), r)
    decreases |xs|
  {
    if xs != [] { RawsMove(s, xs[..|xs| - 1], r, emptyState); }
  }

  lemma {:induction false} ChildrenMove<K(!new)>(s: State<K>, list: seq<K>, r: K)
    requires Moving(s)
    ensures Moving(ChildrenBelow(s, list, r))
    decreases |list|
  {
    if list != [] { ChildrenMove(s, list[..|list| - 1], r); }
  }

  /** A step keeps that, unless a callback fails. */
  lemma StepMoves<K(!new)>(parse: Parser<K>, s: State<K>, h: K, data: bytes, emptyRoot: K, emptyState: K)
    requires Moving(s) && (h in s.rs ==> s.rs[h].deps >= 0)
    ensures var (s', status) := Step(parse, s, h, data, emptyRoot, emptyState); !status.CallbackFailed? ==> Moving(s')
  {
    if h in s.rs && s.rs[h].data.None? {
      if s.rs[h].raw {
        CommittedMoves(s, h, data);
      } else if parse(h, data).Some? {
        NodeMoves(parse, WithData(s, h, data), h, data, parse(h, data).value, emptyRoot, emptyState);
      }
    }
  }

  lemma NodeMoves<K(!new)>(parse: Parser<K>, s: State<K>, h: K, data: bytes, cs: seq<Child<K>>, emptyRoot: K, emptyState: K)
    requires MovingUnder(s, h)
    ensures var (s', status) := NodeStep(parse, s, h, data, cs, emptyRoot, emptyState); !status.CallbackFailed? ==> Moving(s')
  {
    var reply := ReplyTo(s.rs[h].callback, cs);
    TriesMove(parse, s, reply.subtries, h, emptyRoot);
    RawsMove(TriesBelow(parse, s, reply.subtries, h, emptyRoot), reply.raws, h, emptyState);
    var s1 := Replied(parse, s, reply, h, emptyRoot, emptyState);
    var list := Missing(s1, cs);
    if list == [] && s1.rs[h].deps == 0 {
      CommittedMoves(s1, h, data);
    } else {
      ChildrenMove(Bumped(s1, h, |list|), list, h);
    }
  }

  // ---------------------------------------------------------------------------------------------
  // Everything there is to download
  // ---------------------------------------------------------------------------------------------

  /**
   What there is to download: the data of every entry, which of them are trie nodes, how far each is from
   the leaves, and the callbacks that are used.
   */
  datatype Supply<!K(==)> = Supply(content: Store<K>, nodes: set<K>, rank: K -> nat, callbacks: Callback<K> -> bool)

  /** An entry below `h`. */
  ghost predicate Under<K(!new)>(w: Supply<K>, x: K, h: K) { x in w.content && w.rank(x) < w.rank(h) }

  /** The node decodes, its callback does not fail, and what either asks for is there, nearer to the leaves. */
  ghost predicate NodeThere<K(!new)>(parse: Parser<K>, w: Supply<K>, h: K, callback: Callback<K>, emptyRoot: K, emptyState: K)
    requires h in w.content
  {
    && parse(h, w.content[h]).Some?
    && var cs := parse(h, w.content[h]).value;
       var reply := ReplyTo(callback, cs);
       && reply.ok
       && (forall x :: x in Refs(cs) ==> x in w.nodes && Under(w, x, h))
       && (forall x :: x in reply.subtries ==> x == emptyRoot || (x in w.nodes && Under(w, x, h)))
       && (forall x :: x in reply.raws ==> x == emptyState || Under(w, x, h))
  }

  ghost predicate SupplyOk<K(!new)>(parse: Parser<K>, w: Supply<K>, emptyRoot: K, emptyState: K) {
    && w.callbacks(None)
    && forall h, callback :: h in w.nodes && w.callbacks(callback) ==> h in w.content && NodeThere(parse, w, h, callback, emptyRoot, emptyState)
  }

  /** Every request is for something that there is, holds nothing else, and has parents further from the leaves. */
  ghost predicate Expected<K(!new)>(s: State<K>, w: Supply<K>) {
    forall x :: x in s.rs ==> Fits(w, x, s.rs[x])
  }

  ghost predicate Fits<K(!new)>(w: Supply<K>, x: K, req: Request<K, Callback<K>>) {
    && x in w.content && (!req.raw ==> x in w.nodes && w.callbacks(req.callback))
    && (req.data.Some? ==> req.data.value == w.content[x])
    && forall p :: p in req.parents ==> w.rank(x) < w.rank(p)
  }

  lemma {:induction false} CommittedExpected<K(!new)>(s: State<K>, h: K, data: bytes, w: Supply<K>)
    requires Expected(s, w) && h in s.rs
    ensures Expected(Committed(s, h, data), w)
    decreases s.rs.Keys, 0, 0
  {
    ToldAllExpected(Retired(s, h, data), s.rs[h].parents, w);
  }

  lemma {:induction false} ToldOneExpected<K(!new)>(s: State<K>, p: K, w: Supply<K>)
    requires Expected(s, w)
    ensures Expected(ToldOne(s, p), w)
    decreases s.rs.Keys, 0, 1
  {
    if p in s.rs {
      var s1 := Told(s, p);
      assert Fits(w, p, s1.rs[p]) by { assert Fits(w, p, s.rs[p]); }
      if s1.rs[p].deps == 0 && s.rs[p].data.Some? { CommittedExpected(s1, p, s.rs[p].data.value, w); }
    }
  }

  lemma {:induction false} ToldAllExpected<K(!new)>(s: State<K>, parents: seq<K>, w: Supply<K>)
    requires Expected(s, w)
    ensures Expected(ToldAll(s, parents), w)
    decreases s.rs.Keys, 1, |parents|
  {
    if parents != [] {
      ToldOneExpected(s, parents[0], w);
      ToldAllExpected(ToldOne(s, parents[0]), parents[1..], w);
    }
  }

  lemma ScheduleExpected<K(!new)>(s: State<K>, x: K, req: Request<K, Callback<K>>, w: Supply<K>)
    requires Expected(s, w) && Fits(w, x, req)
    ensures Expected(Schedule(s, x, req), w)
  {
    if x in s.rs { assert Fits(w, x, s.rs[x]); }
  }

  lemma BumpExpected<K(!new)>(s: State<K>, r: K, n: nat, w: Supply<K>)
    requires Expected(s, w) && r in s.rs
    ensures Expected(Bumped(s, r, n), w)
  {
    assert Fits(w, r, s.rs[r]);
  }

  lemma {:induction false} TriesExpected<K(!new)>(parse: Parser<K>, s: State<K>, xs: seq<K>, r: K, emptyRoot: K, w: Supply<K>)
    requires Expected(s, w) && w.callbacks(None) && forall x :: x in xs ==> x == emptyRoot || (x in w.nodes && Under(w, x, r))
    ensures Expected(TriesBelow(parse, s, xs, r, emptyRoot), w)
    decreases |xs|
  {
    if xs != [] {
      var s1, x := TriesBelow(parse, s, xs[..|xs| - 1], r, emptyRoot), xs[|xs| - 1];
      TriesExpected(parse, s, xs[..|xs| - 1], r, emptyRoot, w);
      assert x in xs;
      if !HasTrie(parse, s1, x, emptyRoot) && r in s1.rs {
        BumpExpected(s1, r, 1, w);
        ScheduleExpected(Bumped(s1, r, 1), x, Request(None, false, [r], 0, None), w);
      }
    }
  }

  lemma {:induction false} RawsExpected<K(!new)>(s: State<K>, xs: seq<K>, r: K, emptyState: K, w: Supply<K>)
    requires Expected(s, w) && forall x :: x in xs ==> x == emptyState || Under(w, x, r)
    ensures Expected(RawsBelow(s, xs, r, emptyState), w)
    decreases |xs|
  {
    if xs != [] {
      var s1, x := RawsBelow(s, xs[..|xs| - 1], r, emptyState), xs[|xs| - 1];
      RawsExpected(s, xs[..|xs| - 1], r, emptyState, w);
      assert x in xs;
      if !HasRaw(s1, x, emptyState) && r in s1.rs {
        BumpExpected(s1, r, 1, w);
        ScheduleExpected(Bumped(s1, r, 1), x, Request(None, true, [r], 0, None), w);
      }
    }
  }

  lemma {:induction false} ChildrenExpected<K(!new)>(s: State<K>, list: seq<K>, r: K, w: Supply<K>)
    requires Expected(s, w) && r in s.rs && w.callbacks(s.rs[r].callback) && forall x :: x in list ==> x in w.nodes && Under(w, x, r)
    ensures var s' := ChildrenBelow(s, list, r); Expected(s', w) && r in s'.rs && s'.rs[r].callback == s.rs[r].callback
    decreases |list|
  {
    if list != [] {
      var s1 := ChildrenBelow(s, list[..|list| - 1], r);
      ChildrenExpected(s, list[..|list| - 1], r, w);
      assert list[|list| - 1] in list;
      ScheduleExpected(s1, list[|list| - 1], Request(None, false, [r], 0, s1.rs[r].callback), w);
    }
  }

  /** An open request is accepted with what there is for it, and what is asked for then is there as well. */
  lemma StepExpected<K(!new)>(parse: Parser<K>, s: State<K>, h: K, w: Supply<K>, emptyRoot: K, emptyState: K)
    requires SupplyOk(parse, w, emptyRoot, emptyState) && Expected(s, w) && Disjoint(s) && Open(s, h)
    ensures h in w.content
    ensures var (s', status) := Step(parse, s, h, w.content[h], emptyRoot, emptyState); status.Accepted? && Expected(s', w)
  {
    assert Fits(w, h, s.rs[h]);
    var data := w.content[h];
    if s.rs[h].raw {
      CommittedExpected(s, h, data, w);
    } else {
      assert NodeThere(parse, w, h, s.rs[h].callback, emptyRoot, emptyState);
      var s0 := WithData(s, h, data);
      assert Fits(w, h, s0.rs[h]);
      NodeExpected(parse, s0, h, parse(h, data).value, w, emptyRoot, emptyState);
    }
  }

  lemma NodeExpected<K(!new)>(parse: Parser<K>, s: State<K>, h: K, cs: seq<Child<K>>, w: Supply<K>, emptyRoot: K, emptyState: K)
    requires Expected(s, w) && Disjoint(s) && h in s.rs && h in w.content && parse(h, w.content[h]) == Some(cs) && w.callbacks(None)
    requires w.callbacks(s.rs[h].callback) && NodeThere(parse, w, h, s.rs[h].callback, emptyRoot, emptyState)
    ensures var (s', status) := NodeStep(parse, s, h, w.content[h], cs, emptyRoot, emptyState); status.Accepted? && Expected(s', w)
  {
    var reply := ReplyTo(s.rs[h].callback, cs);
    var s1 := Replied(parse, s, reply, h, emptyRoot, emptyState);
    RepliedSchedule(parse, s, reply, h, emptyRoot, emptyState);
    TriesExpected(parse, s, reply.subtries, h, emptyRoot, w);
    RawsExpected(TriesBelow(parse, s, reply.subtries, h, emptyRoot), reply.raws, h, emptyState, w);
    var list := Missing(s1, cs);
    MissingIs(s1, cs);
    if list == [] && s1.rs[h].deps == 0 {
      CommittedExpected(s1, h, w.content[h], w);
    } else {
      BumpExpected(s1, h, |list|, w);
      ChildrenExpected(Bumped(s1, h, |list|), list, h, w);
    }
  }

  /** If every request has its data, there is none: the one nearest to the leaves would wait for a nearer one. */
  lemma NonePending<K(!new)>(parse: Parser<K>, s: State<K>, g: Proof<K>, r: K, w: Supply<K>)
    requires Steady(parse, s, g, r) && Moving(s) && Expected(s, w) && forall x :: x in s.rs ==> s.rs[x].data.Some?
    ensures s.rs == map[]
  {
    forall p ensures p !in s.rs { NotPending(parse, s, g, r, w, p); }
  }

  lemma {:induction false} NotPending<K(!new)>(parse: Parser<K>, s: State<K>, g: Proof<K>, r: K, w: Supply<K>, p: K)
    requires Steady(parse, s, g, r) && Moving(s) && Expected(s, w) && (forall x :: x in s.rs ==> s.rs[x].data.Some?)
    ensures p !in s.rs
    decreases w.rank(p)
  {
    if p in s.rs {
      assert s.rs[p].deps == |g.waits[p]|;
      var c :| c in g.waits[p];
      assert At(g.waits, p, c) == At(g.owed, c, p);
      assert Fits(w, c, s.rs[c]) && p in multiset(s.rs[c].parents);
      NotPending(parse, s, g, r, w, c);
    }
  }

  // ---------------------------------------------------------------------------------------------
  // Nodes that never leave
  // ---------------------------------------------------------------------------------------------

  /** A pending request that has its data and is not told by anybody. */
  ghost predicate Stuck<K(!new)>(s: State<K>, h: K) {
    h in s.rs && s.rs[h].data.Some? && forall x :: x in s.rs ==> h !in s.rs[x].parents
  }

  lemma {:induction false} CommittedStuck<K(!new)>(s: State<K>, x: K, data: bytes, h: K)
    requires Stuck(s, h) && x in s.rs && x != h
    ensures Stuck(Committed(s, x, data), h)
    decreases s.rs.Keys, 0, 0
  {
    ToldAllStuck(Retired(s, x, data), s.rs[x].parents, h);
  }

  lemma {:induction false} ToldOneStuck<K(!new)>(s: State<K>, p: K, h: K)
    requires Stuck(s, h) && p != h
    ensures Stuck(ToldOne(s, p), h)
    decreases s.rs.Keys, 0, 1
  {
    if p in s.rs && Told(s, p).rs[p].deps == 0 && s.rs[p].data.Some? { CommittedStuck(Told(s, p), p, s.rs[p].data.value, h); }
  }

  lemma {:induction false} ToldAllStuck<K(!new)>(s: State<K>, parents: seq<K>, h: K)
    requires Stuck(s, h) && h !in parents
    ensures Stuck(ToldAll(s, parents), h)
    decreases s.rs.Keys, 1, |parents|
  {
    if parents != [] {
      ToldOneStuck(s, parents[0], h);
      ToldAllStuck(ToldOne(s, parents[0]), parents[1..], h);
    }
  }

  lemma {:induction false} TriesStuck<K(!new)>(parse: Parser<K>, s: State<K>, xs: seq<K>, r: K, emptyRoot: K, h: K)
    requires Stuck(s, h) && r != h
    ensures Stuck(TriesBelow(parse, s, xs, r, emptyRoot), h)
    decreases |xs|
  {
    if xs != [] { TriesStuck(parse, s, xs[..|xs| - 1], r, emptyRoot, h); }
  }

  lemma {:induction false} RawsStuck<K(!new)>(s: State<K>, xs: seq<K>, r: K, emptyState: K, h: K)
    requires Stuck(s, h) && r != h
    ensures Stuck(RawsBelow(s, xs, r, emptyState), h)
    decreases |xs|
  {
    if xs != [] { RawsStuck(s, xs[..|xs| - 1], r, emptyState, h); }
  }

  lemma {:induction false} ChildrenStuck<K(!new)>(s: State<K>, list: seq<K>, r: K, h: K)
    requires Stuck(s, h) && r != h
    ensures Stuck(ChildrenBelow(s, list, r), h)
    decreases |list|
  {
    if list != [] { ChildrenStuck(s, list[..|list| - 1], r, h); }
  }

  /** No result ever moves it: its own is refused, and no other tells it. */
  lemma StepStuck<K(!new)>(parse: Parser<K>, s: State<K>, x: K, data: bytes, emptyRoot: K, emptyState: K, h: K)
    requires Stuck(s, h)
    ensures var (s', status) := Step(parse, s, x, data, emptyRoot, emptyState); Stuck(s', h) && (x == h ==> status.AlreadyProcessed?)
  {
    if x != h && Open(s, x) {
      if s.rs[x].raw {
        CommittedStuck(s, x, data, h);
      } else if parse(x, data).Some? {
        var s0, cs := WithData(s, x, data), parse(x, data).value;
        var reply := ReplyTo(s.rs[x].callback, cs);
        TriesStuck(parse, s0, reply.subtries, x, emptyRoot, h);
        RawsStuck(TriesBelow(parse, s0, reply.subtries, x, emptyRoot), reply.raws, x, emptyState, h);
        SettleStuck(Replied(parse, s0, reply, x, emptyRoot, emptyState), x, data, cs, h);
      }
    }
  }

  lemma SettleStuck<K(!new)>(s: State<K>, x: K, data: bytes, cs: seq<Child<K>>, h: K)
    requires Stuck(s, h) && x != h
    ensures Stuck(SettleStep(s, x, data, Missing(s, cs)).0, h)
  {
    if x in s.rs {
      var list := Missing(s, cs);
      if list == [] && s.rs[x].deps == 0 { CommittedStuck(s, x, data, h); } else { ChildrenStuck(Bumped(s, x, |list|), list, x, h); }
    }
  }

  /** A node whose callback fails without having registered anything is such a request from then on. */
  lemma FailedIsStuck<K(!new)>(parse: Parser<K>, s: State<K>, g: Proof<K>, r: K, h: K, data: bytes, emptyRoot: K, emptyState: K)
    requires Steady(parse, s, g, r) && Verdict(parse, s, h, data) == Some(CallbackFailed)
    requires var reply := ReplyTo(s.rs[h].callback, parse(h, data).value); reply.subtries == [] && reply.raws == []
    ensures Stuck(Step(parse, s, h, data, emptyRoot, emptyState).0, h)
  {
    forall x | x in s.rs ensures h !in s.rs[x].parents {
      assert At(g.owed, x, h) == multiset(s.rs[x].parents)[h];
    }
  }
}

/**
 event/feed.go: one-to-many delivery while subscribers come and go. The feed is a state machine; its
 steps are what the goroutines do between two synchronisation points, under `mu`, under `sendLock` or
 in a rendezvous on `removeSub`. The select case for `removeSub` itself is left out of the lists.
 */
module Feed {
  /** Whether a Send holds the send lock, and whether it has taken over the inbox yet. */
  datatype Phase = Idle | Locked | Sending

  /**
   `cases` is `sendCases`; while sending, its first `active` entries are still to be served. `waiting`
   are the channels whose Unsubscribe has passed the inbox. The rest is history: `live` are the
   subscriptions whose Unsubscribe has not returned, and of the current Send, `start` are the channels it
   began with, `delivered` those it has served and `dropped` those removed before they were.
   */
  datatype State<!C(==)> = State(
    phase: Phase, inbox: seq<C>, cases: seq<C>, active: nat, waiting: multiset<C>, nsent: nat,
    live: multiset<C>, start: multiset<C>, delivered: multiset<C>, dropped: multiset<C>)

  // ---------------------------------------------------------------------------------------------
  // Case lists
  // ---------------------------------------------------------------------------------------------

  /** feed.go `find`. */
  function Find<C(==)>(cs: seq<C>, c: C): (i: int)
    ensures -1 <= i < |cs|
    ensures i >= 0 ==> cs[i] == c && c !in cs[..i]
    ensures i == -1 <==> c !in cs
  {
    if cs == [] then -1
    else if cs[0] == c then 0
    else
      var i := Find(cs[1..], c);
      if i < 0 then -1 else
        assert cs[..i + 1] == [cs[0]] + cs[1..][..i];
        i + 1
  }

  /** feed.go `delete`. */
  function Deleted<C>(cs: seq<C>, i: nat): seq<C>
    requires i < |cs|
  {
    cs[..i] + cs[i + 1..]
  }

  /** feed.go `deactivate` of entry `i` of the first `n`, seen in the whole list. */
  function Deactivated<C>(cs: seq<C>, i: nat, n: nat): seq<C>
    requires i < n <= |cs|
  {
    cs[i := cs[n - 1]][n - 1 := cs[i]]
  }

  lemma DeletedCounts<C>(cs: seq<C>, i: nat, n: nat)
    requires i < |cs| && n <= |cs|
    ensures multiset(Deleted(cs, i)) == multiset(cs) - multiset{cs[i]}
    ensures i < n ==> multiset(Deleted(cs, i)[..n - 1]) == multiset(cs[..n]) - multiset{cs[i]}
    ensures n <= i ==> Deleted(cs, i)[..n] == cs[..n]
  {
    assert cs == cs[..i] + [cs[i]] + cs[i + 1..];
    if i < n {
      assert cs[..n] == cs[..i] + [cs[i]] + cs[i + 1..n];
      assert Deleted(cs, i)[..n - 1] == cs[..i] + cs[i + 1..n];
    }
  }

  lemma DeactivatedCounts<C>(cs: seq<C>, i: nat, n: nat)
    requires i < n <= |cs|
    ensures multiset(Deactivated(cs, i, n)) == multiset(cs)
    ensures multiset(Deactivated(cs, i, n)[..n - 1]) == multiset(cs[..n]) - multiset{cs[i]}
  {
    var ds := Deactivated(cs, i, n);
    PrefixCounts(cs, i, n);
    assert cs == cs[..n] + cs[n..] && ds == ds[..n - 1] + [cs[i]] + cs[n..];
    assert cs[..n][i] == cs[i];
    WholeCounts(cs[..n], ds[..n - 1], cs[i], cs[n..]);
  }

  lemma WholeCounts<C>(head: seq<C>, front: seq<C>, x: C, tail: seq<C>)
    requires multiset(front) == multiset(head) - multiset{x} && x in head
    ensures multiset(front + [x] + tail) == multiset(head + tail)
  {
  }

  lemma PrefixCounts<C>(cs: seq<C>, i: nat, n: nat)
    requires i < n <= |cs|
    ensures multiset(Deactivated(cs, i, n)[..n - 1]) == multiset(cs[..n]) - multiset{cs[i]}
  {
    var front := Deactivated(cs, i, n)[..n - 1];
    if i == n - 1 {
      assert front == cs[..i] && cs[..n] == cs[..i] + [cs[i]];
    } else {
      var a, b := cs[..i], cs[i + 1..n - 1];
      assert front == a + [cs[n - 1]] + b;
      assert cs[..n] == a + [cs[i]] + b + [cs[n - 1]];
      SwapCounts(a, cs[i], b, cs[n - 1]);
    }
  }

  lemma SwapCounts<C>(a: seq<C>, x: C, b: seq<C>, y: C)
    ensures multiset(a + [y] + b) == multiset(a + [x] + b + [y]) - multiset{x}
  {
  }

  // ---------------------------------------------------------------------------------------------
  // Steps
  // ---------------------------------------------------------------------------------------------

  datatype Step<C> =
    | Subscribe(c: C)
    /** `remove` finds the channel in the inbox and returns. */
    | LeaveInbox(c: C)
    /** `remove` does not find it there and waits at its select. */
    | Wait(c: C)
    /** The waiting `remove` gets the send lock and deletes the case itself. */
    | LeaveIdle(c: C)
    /** Send takes the send lock. */
    | Lock
    /** Send takes over the inbox. */
    | Absorb
    /** A TrySend or a chosen send case delivers to the `i`-th active channel. */
    | Deliver(i: nat)
    /** Select receives a channel on removeSub. */
    | LeaveSending(c: C)
    /** All channels are served; the send lock is handed back. */
    | Finish

  /** When a step can happen. Every subscription is unsubscribed at most once. */
  ghost predicate Enabled<C>(s: State<C>, step: Step<C>) {
    match step
    case Subscribe(_) => true
    case LeaveInbox(c) => c in s.inbox && s.waiting[c] < s.live[c]
    case Wait(c) => c !in s.inbox && s.waiting[c] < s.live[c]
    case LeaveIdle(c) => c in s.waiting && s.phase.Idle?
    case Lock => s.phase.Idle?
    case Absorb => s.phase.Locked?
    case Deliver(i) => s.phase.Sending? && i < s.active
    case LeaveSending(c) => s.phase.Sending? && s.active > 0 && c in s.waiting
    case Finish => s.phase.Sending? && s.active == 0
  }

  /** No subscription is lost, and what a Send has done adds up. */
  ghost predicate Inv<C(!new)>(s: State<C>) {
    && s.live == multiset(s.inbox) + multiset(s.cases)
    && s.waiting <= multiset(s.cases)
    && s.active <= |s.cases|
    && (s.phase.Sending? ==> SendInv(s))
  }

  ghost predicate SendInv<C(!new)>(s: State<C>)
    requires s.active <= |s.cases|
  {
    && multiset(s.cases[..s.active]) + s.delivered + s.dropped == s.start
    && s.nsent == |s.delivered|
  }

  /** A feed nobody has subscribed to. */
  function Unused<C>(): State<C> { State(Idle, [], [], 0, multiset{}, 0, multiset{}, multiset{}, multiset{}, multiset{}) }

  lemma UnusedInv<C(!new)>()
    ensures Inv<C>(Unused())
  {
  }

  /** A removal always finds its channel in the list. */
  lemma RemovalFinds<C(!new)>(s: State<C>, c: C)
    requires Inv(s) && c in s.waiting
    ensures Find(s.cases, c) >= 0
  {
    assert c in multiset(s.cases);
  }

  /** The effect of a step. */
  ghost function After<C(!new)>(s: State<C>, step: Step<C>): State<C>
    requires Inv(s) && Enabled(s, step)
  {
    match step
    case Subscribe(c) => s.(inbox := s.inbox + [c], live := s.live + multiset{c})
    case LeaveInbox(c) => s.(inbox := Deleted(s.inbox, Find(s.inbox, c)), live := s.live - multiset{c})
    case Wait(c) => s.(waiting := s.waiting + multiset{c})
    case LeaveIdle(c) =>
      RemovalFinds(s, c);
      s.(cases := Deleted(s.cases, Find(s.cases, c)), active := 0, waiting := s.waiting - multiset{c}, live := s.live - multiset{c})
    case Lock => s.(phase := Locked)
    case Absorb =>
      s.(phase := Sending, cases := s.cases + s.inbox, inbox := [], active := |s.cases + s.inbox|, nsent := 0,
         start := multiset(s.cases + s.inbox), delivered := multiset{}, dropped := multiset{})
    case Deliver(i) =>
      s.(cases := Deactivated(s.cases, i, s.active), active := s.active - 1, nsent := s.nsent + 1,
         delivered := s.delivered + multiset{s.cases[i]})
    case LeaveSending(c) =>
      RemovalFinds(s, c);
      var i := Find(s.cases, c);
      s.(cases := Deleted(s.cases, i), waiting := s.waiting - multiset{c}, live := s.live - multiset{c},
         active := if i < s.active then s.active - 1 else s.active,
         dropped := if i < s.active then s.dropped + multiset{c} else s.dropped)
    case Finish => s.(phase := Idle, active := 0)
  }

  lemma LeaveInboxKeeps<C(!new)>(s: State<C>, c: C)
    requires Inv(s) && Enabled(s, LeaveInbox(c))
    ensures Inv(After(s, LeaveInbox(c)))
  {
    DeletedCounts(s.inbox, Find(s.inbox, c), 0);
  }

  lemma LeaveIdleKeeps<C(!new)>(s: State<C>, c: C)
    requires Inv(s) && Enabled(s, LeaveIdle(c))
    ensures Inv(After(s, LeaveIdle(c)))
  {
    RemovalFinds(s, c);
    DeletedCounts(s.cases, Find(s.cases, c), 0);
    TakeOne(multiset(s.inbox), multiset(s.cases), s.waiting, c);
  }

  lemma AbsorbKeeps<C(!new)>(s: State<C>)
    requires Inv(s) && s.phase.Locked?
    ensures Inv(After(s, Absorb))
  {
    assert (s.cases + s.inbox)[..|s.cases + s.inbox|] == s.cases + s.inbox;
  }

  lemma DeliverKeeps<C(!new)>(s: State<C>, i: nat)
    requires Inv(s) && Enabled(s, Deliver(i))
    ensures Inv(After(s, Deliver(i)))
  {
    DeactivatedCounts(s.cases, i, s.active);
    assert s.cases[i] in multiset(s.cases[..s.active]) by { assert s.cases[i] == s.cases[..s.active][i]; }
  }

  lemma MoveOne<C>(m: multiset<C>, d: multiset<C>, p: multiset<C>, c: C)
    requires c in m
    ensures (m - multiset{c}) + d + (p + multiset{c}) == m + d + p
  {
  }

  lemma TakeOne<C>(m: multiset<C>, n: multiset<C>, w: multiset<C>, c: C)
    requires c in w && w <= n
    ensures m + (n - multiset{c}) == (m + n) - multiset{c} && w - multiset{c} <= n - multiset{c}
  {
  }

  lemma LeaveSendingKeeps<C(!new)>(s: State<C>, c: C)
    requires Inv(s) && Enabled(s, LeaveSending(c))
    ensures Inv(After(s, LeaveSending(c)))
  {
    RemovalFinds(s, c);
    var i := Find(s.cases, c);
    DeletedCounts(s.cases, i, s.active);
    TakeOne(multiset(s.inbox), multiset(s.cases), s.waiting, c);
    if i < s.active {
      assert s.cases[i] == s.cases[..s.active][i];
      MoveOne(multiset(s.cases[..s.active]), s.delivered, s.dropped, c);
    }
  }

  lemma StepKeeps<C(!new)>(s: State<C>, step: Step<C>)
    requires Inv(s) && Enabled(s, step)
    ensures Inv(After(s, step))
  {
    match step
    case LeaveInbox(c) => LeaveInboxKeeps(s, c);
    case Wait(c) => assert s.waiting[c] < multiset(s.cases)[c];
    case LeaveIdle(c) => LeaveIdleKeeps(s, c);
    case Absorb => AbsorbKeeps(s);
    case Deliver(i) => DeliverKeeps(s, i);
    case LeaveSending(c) => LeaveSendingKeeps(s, c);
    case _ =>
  }

  // ---------------------------------------------------------------------------------------------
  // Every interleaving
  // ---------------------------------------------------------------------------------------------

  ghost predicate CanRun<C(!new)>(s: State<C>, steps: seq<Step<C>>)
    requires Inv(s)
    decreases |steps|
  {
    steps == [] || (Enabled(s, steps[0]) && (StepKeeps(s, steps[0]); CanRun(After(s, steps[0]), steps[1..])))
  }

  ghost function Ran<C(!new)>(s: State<C>, steps: seq<Step<C>>): (s': State<C>)
    requires Inv(s) && CanRun(s, steps)
    ensures Inv(s')
    decreases |steps|
  {
    if steps == [] then s else StepKeeps(s, steps[0]); Ran(After(s, steps[0]), steps[1..])
  }

  /** How often a run delivers to a channel. */
  ghost function Deliveries<C(!new)>(s: State<C>, steps: seq<Step<C>>, c: C): nat
    requires Inv(s) && CanRun(s, steps)
    decreases |steps|
  {
    if steps == [] then 0
    else
      StepKeeps(s, steps[0]);
      (if steps[0].Deliver? && s.cases[steps[0].i] == c then 1 else 0) + Deliveries(After(s, steps[0]), steps[1..], c)
  }

  /** How often a run removes a channel while a value is being sent. */
  ghost function Removals<C>(steps: seq<Step<C>>, c: C): nat {
    if steps == [] then 0 else (if steps[0] == LeaveSending(c) then 1 else 0) + Removals(steps[1..], c)
  }

  /** A channel without a live subscription gets nothing until it is subscribed again. */
  lemma {:induction false} NothingAfterUnsubscribe<C(!new)>(s: State<C>, steps: seq<Step<C>>, c: C)
    requires Inv(s) && CanRun(s, steps) && s.live[c] == 0 && Subscribe(c) !in steps
    ensures Deliveries(s, steps, c) == 0
    decreases |steps|
  {
    if steps != [] {
      StepKeeps(s, steps[0]);
      DeliverIsLive(s, steps[0], c);
      NothingAfterUnsubscribe(After(s, steps[0]), steps[1..], c);
    }
  }

  lemma DeliverIsLive<C(!new)>(s: State<C>, step: Step<C>, c: C)
    requires Inv(s) && Enabled(s, step) && s.live[c] == 0 && step != Subscribe(c)
    ensures After(s, step).live[c] == 0
    ensures step.Deliver? ==> s.cases[step.i] != c
  {
    if step.Deliver? { assert s.cases[step.i] in multiset(s.cases); }
  }

  /** One Send: it stays in progress over the whole run. */
  ghost predicate OneSend<C>(steps: seq<Step<C>>) {
    forall i :: 0 <= i < |steps| ==> steps[i] != Absorb && steps[i] != Finish
  }

  lemma OneSendTail<C>(steps: seq<Step<C>>)
    requires OneSend(steps) && steps != []
    ensures steps[0] != Absorb && steps[0] != Finish && OneSend(steps[1..])
  {
    var tail := steps[1..];
    forall i | 0 <= i < |tail| ensures tail[i] != Absorb && tail[i] != Finish { assert tail[i] == steps[i + 1]; }
  }

  lemma StepCounts<C(!new)>(s: State<C>, step: Step<C>, c: C)
    requires Inv(s) && s.phase.Sending? && Enabled(s, step) && step != Absorb && step != Finish
    ensures var s' := After(s, step);
            && s'.phase.Sending? && s'.start == s.start
            && s'.delivered[c] == s.delivered[c] + (if step.Deliver? && s.cases[step.i] == c then 1 else 0)
            && s.dropped[c] <= s'.dropped[c] <= s.dropped[c] + (if step == LeaveSending(c) then 1 else 0)
  {
    match step
    case Deliver(i) => OneMoreCounts(s.delivered, s.cases[i], c);
    case LeaveSending(d) => OneMoreCounts(s.dropped, d, c);
    case _ =>
  }

  lemma OneMoreCounts<C>(m: multiset<C>, x: C, c: C)
    ensures (m + multiset{x})[c] == m[c] + if x == c then 1 else 0
  {
  }

  lemma {:induction false} DeliveredCounts<C(!new)>(s: State<C>, steps: seq<Step<C>>, c: C)
    requires Inv(s) && s.phase.Sending? && CanRun(s, steps) && OneSend(steps)
    ensures var s' := Ran(s, steps);
            && s'.phase.Sending? && s'.start == s.start
            && s'.delivered[c] == s.delivered[c] + Deliveries(s, steps, c)
            && s.dropped[c] <= s'.dropped[c] <= s.dropped[c] + Removals(steps, c)
    decreases |steps|
  {
    if steps != [] {
      StepKeeps(s, steps[0]);
      StepCounts(s, steps[0], c);
      OneSendTail(steps);
      DeliveredCounts(After(s, steps[0]), steps[1..], c);
    }
  }

  /**
   In every interleaving, a Send that comes to its end has delivered to each channel once for every
   subscription it had at the start, less those removed meanwhile, and `nsent` counts the deliveries.
   */
  lemma SendDeliversOnce<C(!new)>(s: State<C>, steps: seq<Step<C>>, c: C)
    requires Inv(s) && s.phase.Locked?
    requires Inv(After(s, Absorb)) && CanRun(After(s, Absorb), steps) && OneSend(steps)
    requires Ran(After(s, Absorb), steps).active == 0
    ensures var s1 := After(s, Absorb); var s2 := Ran(s1, steps);
            && multiset(s.cases + s.inbox)[c] - Removals(steps, c) <= Deliveries(s1, steps, c) <= multiset(s.cases + s.inbox)[c]
            && s2.nsent == |s2.delivered| && s2.delivered[c] == Deliveries(s1, steps, c)
            && s2.delivered + s2.dropped == multiset(s.cases + s.inbox)
  {
    var s1 := After(s, Absorb);
    DeliveredCounts(s1, steps, c);
    AllServed(Ran(s1, steps));
  }

  lemma AllServed<C(!new)>(s: State<C>)
    requires Inv(s) && s.phase.Sending? && s.active == 0
    ensures s.delivered + s.dropped == s.start && s.nsent == |s.delivered|
  {
    assert s.cases[..s.active] == [];
    assert multiset(s.cases[..s.active]) + s.delivered + s.dropped == s.delivered + s.dropped;
  }

  /** A Send that has begun can always come to its end: delivering to the first active channel is never blocked by the feed. */
  lemma {:induction false} SendCanEnd<C(!new)>(s: State<C>) returns (steps: seq<Step<C>>)
    requires Inv(s) && s.phase.Sending?
    ensures CanRun(s, steps) && OneSend(steps) && Ran(s, steps).active == 0 && |steps| == s.active
    ensures Enabled(Ran(s, steps), Finish)
    decreases s.active
  {
    if s.active == 0 { return []; }
    StepKeeps(s, Deliver(0));
    var rest := SendCanEnd(After(s, Deliver(0)));
    steps := [Deliver(0)] + rest;
    FirstStep(s, Deliver(0), rest);
    assert Ran(After(s, Deliver(0)), rest).phase.Sending?;
  }

  lemma FirstStep<C(!new)>(s: State<C>, step: Step<C>, rest: seq<Step<C>>)
    requires Inv(s) && Enabled(s, step) && Inv(After(s, step)) && CanRun(After(s, step), rest)
    ensures CanRun(s, [step] + rest) && Ran(s, [step] + rest) == Ran(After(s, step), rest)
    ensures OneSend(rest) && step != Absorb && step != Finish ==> OneSend([step] + rest)
  {
    assert ([step] + rest)[0] == step && ([step] + rest)[1..] == rest;
  }

  /** Whatever goes on, an Unsubscribe that waits can go on, or a Send can. */
  lemma NoDeadlock<C(!new)>(s: State<C>, c: C) returns (step: Step<C>)
    requires Inv(s) && c in s.waiting
    ensures Enabled(s, step) && !step.Subscribe? && !step.Wait? && !step.Lock?
  {
    match s.phase
    case Idle => step := LeaveIdle(c);
    case Locked => step := Absorb;
    case Sending => step := if s.active == 0 then Finish else LeaveSending(c);
  }
}

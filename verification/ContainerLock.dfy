/**
 chaincodecore/container/controller.go: one lock per container id, counted by its users and deleted
 when the last one leaves. Processes interleave at every step between two lock operations; `global` is
 the controller's own mutex. A process is in its critical section while its request runs.
 */
module ContainerLock {
  import opened Bytes

  /** Where a process is; `l` is the lock object it has got from the table. */
  datatype Pc =
    | Idle
    | Entering
    | Entered(l: nat)
    | Waiting(l: nat)
    | Critical(l: nat)
    | Leaving(l: nat)
    | Released(l: nat)
    | Dropped

  /** `refCountedLock`: the count, and who holds the lock. */
  datatype Lock<P> = Lock(refCount: int, holder: Option<P>)

  /** The processes, the controller's mutex, its table, and the `next` lock objects made so far. */
  datatype State<!P(==), !K(==)> = State(pc: map<P, Pc>, global: Option<P>, table: map<K, nat>, locks: map<nat, Lock<P>>, next: nat)

  // ---------------------------------------------------------------------------------------------
  // The invariant
  // ---------------------------------------------------------------------------------------------

  /** A process that has counted itself in at a lock and has not left it. */
  predicate Uses(pc: Pc, l: nat) {
    pc == Entered(l) || pc == Waiting(l) || pc == Critical(l) || pc == Leaving(l) || pc == Released(l)
  }

  predicate Holds(pc: Pc, l: nat) { pc == Critical(l) || pc == Leaving(l) }

  predicate InController(pc: Pc) { pc.Entering? || pc.Entered? || pc.Leaving? || pc.Released? || pc.Dropped? }

  ghost function Users<P(!new)>(pc: map<P, Pc>, l: nat): set<P> { set p | p in pc && Uses(pc[p], l) }

  ghost predicate ProcOk<P(!new), K(!new)>(s: State<P, K>, id: P -> K, p: P)
    requires p in s.pc
  {
    && (s.global == Some(p) <==> InController(s.pc[p]))
    && forall l :: Uses(s.pc[p], l) ==> id(p) in s.table && s.table[id(p)] == l
  }

  ghost predicate LockOk<P(!new), K(!new)>(s: State<P, K>, k: K)
    requires k in s.table
  {
    var l := s.table[k];
    && l < s.next && l in s.locks
    && s.locks[l].refCount == |Users(s.pc, l)| > 0
    && (forall p :: p in s.pc ==> (s.locks[l].holder == Some(p) <==> Holds(s.pc[p], l)))
    && (s.locks[l].holder.Some? ==> s.locks[l].holder.value in s.pc)
  }

  ghost predicate Inv<P(!new), K(!new)>(s: State<P, K>, id: P -> K) {
    && (s.global.Some? ==> s.global.value in s.pc)
    && (forall p :: p in s.pc ==> ProcOk(s, id, p))
    && (forall k :: k in s.table ==> LockOk(s, k))
    && (forall j, k :: j in s.table && k in s.table && j != k ==> s.table[j] != s.table[k])
  }

  /** At most one process per container id is in its critical section. */
  lemma MutualExclusion<P(!new), K(!new)>(s: State<P, K>, id: P -> K, p: P, q: P)
    requires Inv(s, id) && p in s.pc && q in s.pc && p != q && id(p) == id(q)
    ensures !(s.pc[p].Critical? && s.pc[q].Critical?)
  {
    HolderIsIt(s, id, p);
    HolderIsIt(s, id, q);
  }

  lemma HolderIsIt<P(!new), K(!new)>(s: State<P, K>, id: P -> K, p: P)
    requires Inv(s, id) && p in s.pc
    ensures s.pc[p].Critical? || s.pc[p].Leaving? ==>
              id(p) in s.table && LockOk(s, id(p)) && s.locks[s.table[id(p)]].holder == Some(p) && s.table[id(p)] == s.pc[p].l
  {
    assert ProcOk(s, id, p);
    if s.pc[p].Critical? || s.pc[p].Leaving? {
      assert Uses(s.pc[p], s.pc[p].l);
      assert LockOk(s, id(p));
    }
  }

  /** While nobody is in the controller, a lock's count is the number of its waiters plus its holder. */
  lemma CountIsWaitersAndHolder<P(!new), K(!new)>(s: State<P, K>, id: P -> K, k: K)
    requires Inv(s, id) && k in s.table && s.global == None
    ensures var l := s.table[k];
            && l in s.locks
            && s.locks[l].refCount == |set p | p in s.pc && s.pc[p] == Waiting(l)| + if s.locks[l].holder.Some? then 1 else 0
  {
    assert LockOk(s, k);
    var l := s.table[k];
    var waiters := set p | p in s.pc && s.pc[p] == Waiting(l);
    forall p | p in s.pc ensures !InController(s.pc[p]) { assert ProcOk(s, id, p); }
    if s.locks[l].holder.Some? {
      var h := s.locks[l].holder.value;
      assert Users(s.pc, l) == waiters + {h};
    } else {
      assert Users(s.pc, l) == waiters;
    }
  }

  // ---------------------------------------------------------------------------------------------
  // Steps
  // ---------------------------------------------------------------------------------------------

  function Moved<P, K>(s: State<P, K>, p: P, pc: Pc): State<P, K> { s.(pc := s.pc[p := pc]) }

  datatype Step = LockGlobal | Register | Unregister | Acquire | LockAgain | Release | Drop | UnlockGlobal

  /** What each step waits for: a mutex is taken only when it is free. */
  ghost predicate Enabled<P(!new), K(!new)>(s: State<P, K>, p: P, step: Step)
    requires p in s.pc
  {
    match step
    case LockGlobal => s.pc[p].Idle? && s.global == None
    case Register => s.pc[p].Entering?
    case Unregister => s.pc[p].Entered?
    case Acquire => s.pc[p].Waiting? && s.pc[p].l in s.locks && s.locks[s.pc[p].l].holder == None
    case LockAgain => s.pc[p].Critical? && s.global == None
    case Release => s.pc[p].Leaving?
    case Drop => s.pc[p].Released?
    case UnlockGlobal => s.pc[p].Dropped?
  }

  /** `unlockContainer` never finds its lock missing, uncounted or held by someone else. */
  lemma ReleaseIsSafe<P(!new), K(!new)>(s: State<P, K>, id: P -> K, p: P)
    requires Inv(s, id) && p in s.pc && s.pc[p].Leaving?
    ensures id(p) in s.table && s.table[id(p)] == s.pc[p].l && s.pc[p].l in s.locks
    ensures s.locks[s.pc[p].l].refCount > 0 && s.locks[s.pc[p].l].holder == Some(p)
  {
    HolderIsIt(s, id, p);
  }

  lemma UserIsListed<P(!new), K(!new)>(s: State<P, K>, id: P -> K, p: P, l: nat)
    requires Inv(s, id) && p in s.pc && Uses(s.pc[p], l)
    ensures id(p) in s.table && s.table[id(p)] == l && LockOk(s, id(p))
  {
    assert ProcOk(s, id, p);
  }

  ghost function After<P(!new), K(!new)>(s: State<P, K>, id: P -> K, p: P, step: Step): State<P, K>
    requires Inv(s, id) && p in s.pc && Enabled(s, p, step)
  {
    match step
    case LockGlobal => Moved(s, p, Entering).(global := Some(p))
    case Register =>
      if id(p) in s.table then
        assert LockOk(s, id(p));
        var l := s.table[id(p)];
        Moved(s, p, Entered(l)).(locks := s.locks[l := s.locks[l].(refCount := s.locks[l].refCount + 1)])
      else
        Moved(s, p, Entered(s.next)).(table := s.table[id(p) := s.next], locks := s.locks[s.next := Lock(1, None)], next := s.next + 1)
    case Unregister => Moved(s, p, Waiting(s.pc[p].l)).(global := None)
    case Acquire =>
      var l := s.pc[p].l;
      Moved(s, p, Critical(l)).(locks := s.locks[l := s.locks[l].(holder := Some(p))])
    case LockAgain => Moved(s, p, Leaving(s.pc[p].l)).(global := Some(p))
    case Release =>
      ReleaseIsSafe(s, id, p);
      var l := s.table[id(p)];
      Moved(s, p, Released(l)).(locks := s.locks[l := s.locks[l].(holder := None)])
    case Drop =>
      UserIsListed(s, id, p, s.pc[p].l);
      var l := s.pc[p].l;
      var n := s.locks[l].refCount - 1;
      Moved(s, p, Dropped).(locks := s.locks[l := s.locks[l].(refCount := n)], table := if n == 0 then s.table - {id(p)} else s.table)
    case UnlockGlobal => Moved(s, p, Idle).(global := None)
  }

  // ---------------------------------------------------------------------------------------------
  // Every step keeps the invariant
  // ---------------------------------------------------------------------------------------------

  lemma UsersMove<P(!new)>(pc: map<P, Pc>, p: P, x: Pc, l: nat)
    requires p in pc
    ensures Users(pc[p := x], l) == if Uses(x, l) then Users(pc, l) + {p} else Users(pc, l) - {p}
    ensures |Users(pc[p := x], l)| == |Users(pc, l)| + (if Uses(x, l) then 1 else 0) - (if Uses(pc[p], l) then 1 else 0)
  {
    var a, b := Users(pc, l), Users(pc[p := x], l);
    assert b == if Uses(x, l) then a + {p} else a - {p};
  }

  /** A lock whose users, count and holder p's step does not touch stays as it is. */
  lemma OtherLock<P(!new), K(!new)>(s: State<P, K>, s': State<P, K>, p: P, k: K)
    requires k in s.table && LockOk(s, k) && p in s.pc && p in s'.pc && s'.pc == s.pc[p := s'.pc[p]] && s.next <= s'.next
    requires k in s'.table && s'.table[k] == s.table[k] && s.table[k] in s'.locks && s'.locks[s.table[k]] == s.locks[s.table[k]]
    requires var l := s.table[k]; (Uses(s.pc[p], l) <==> Uses(s'.pc[p], l)) && (Holds(s.pc[p], l) <==> Holds(s'.pc[p], l))
    ensures LockOk(s', k)
  {
    UsersMove(s.pc, p, s'.pc[p], s.table[k]);
  }

  /** A process whose own place, entry and hold on the controller do not change stays as it is. */
  lemma OtherProc<P(!new), K(!new)>(s: State<P, K>, s': State<P, K>, id: P -> K, q: P)
    requires q in s.pc && q in s'.pc && s'.pc[q] == s.pc[q] && ProcOk(s, id, q)
    requires s'.global == Some(q) <==> s.global == Some(q)
    requires id(q) in s.table && (exists l :: Uses(s.pc[q], l)) ==> id(q) in s'.table && s'.table[id(q)] == s.table[id(q)]
    ensures ProcOk(s', id, q)
  {
  }

  /** A step that only takes or gives back the controller's mutex. */
  lemma MutexKeeps<P(!new), K(!new)>(s: State<P, K>, s': State<P, K>, id: P -> K, p: P)
    requires Inv(s, id) && p in s.pc && p in s'.pc && s' == s.(pc := s.pc[p := s'.pc[p]], global := s'.global)
    requires (s.global == None && s'.global == Some(p)) || (s.global == Some(p) && s'.global == None)
    requires InController(s'.pc[p]) <==> s'.global == Some(p)
    requires forall l :: (Uses(s.pc[p], l) <==> Uses(s'.pc[p], l)) && (Holds(s.pc[p], l) <==> Holds(s'.pc[p], l))
    ensures Inv(s', id)
  {
    forall q | q in s'.pc ensures ProcOk(s', id, q) {
      assert ProcOk(s, id, q);
      if q != p { OtherProc(s, s', id, q); }
    }
    forall k | k in s'.table ensures LockOk(s', k) {
      assert LockOk(s, k);
      OtherLock(s, s', p, k);
    }
  }

  lemma OthersOk<P(!new), K(!new)>(s: State<P, K>, s': State<P, K>, id: P -> K, p: P)
    requires Inv(s, id) && p in s.pc && p in s'.pc && s'.pc == s.pc[p := s'.pc[p]] && s'.global == s.global && ProcOk(s', id, p)
    requires forall k :: k in s.table ==> k in s'.table && s'.table[k] == s.table[k]
    ensures forall q :: q in s'.pc ==> ProcOk(s', id, q)
  {
    forall q | q in s'.pc ensures ProcOk(s', id, q) {
      if q != p {
        assert ProcOk(s, id, q);
        OtherProc(s, s', id, q);
      }
    }
  }

  /** `p` counts itself in at a lock that is in the table. */
  lemma RegisterOld<P(!new), K(!new)>(s: State<P, K>, id: P -> K, p: P)
    requires Inv(s, id) && p in s.pc && s.pc[p].Entering? && id(p) in s.table
    ensures Inv(After(s, id, p, Register), id)
  {
    var s', l := After(s, id, p, Register), s.table[id(p)];
    assert ProcOk(s, id, p) && LockOk(s, id(p));
    OthersOk(s, s', id, p);
    UsersMove(s.pc, p, Entered(l), l);
    assert LockOk(s', id(p));
    forall k | k in s'.table && k != id(p) ensures LockOk(s', k) {
      assert LockOk(s, k);
      OtherLock(s, s', p, k);
    }
  }

  /** `p` makes a new lock for its container. */
  lemma RegisterNew<P(!new), K(!new)>(s: State<P, K>, id: P -> K, p: P)
    requires Inv(s, id) && p in s.pc && s.pc[p].Entering? && id(p) !in s.table
    ensures Inv(After(s, id, p, Register), id)
  {
    var s', l := After(s, id, p, Register), s.next;
    assert ProcOk(s, id, p);
    OthersOk(s, s', id, p);
    forall q | q in s.pc ensures !Uses(s.pc[q], l) {
      assert ProcOk(s, id, q);
      assert id(q) in s.table ==> LockOk(s, id(q));
    }
    assert Users(s.pc, l) == {};
    UsersMove(s.pc, p, Entered(l), l);
    assert LockOk(s', id(p));
    forall k | k in s'.table && k != id(p) ensures LockOk(s', k) && s'.table[k] < l {
      assert LockOk(s, k);
      OtherLock(s, s', p, k);
    }
  }

  /** `p` gets or gives back a lock it uses; nothing else changes. */
  lemma HolderKeeps<P(!new), K(!new)>(s: State<P, K>, s': State<P, K>, id: P -> K, p: P, l: nat)
    requires Inv(s, id) && p in s.pc && p in s'.pc && l in s.locks && l in s'.locks
    requires s' == s.(pc := s.pc[p := s'.pc[p]], locks := s.locks[l := s.locks[l].(holder := s'.locks[l].holder)])
    requires Uses(s.pc[p], l) && Uses(s'.pc[p], l) && (InController(s.pc[p]) <==> InController(s'.pc[p]))
    requires (s.locks[l].holder == None && s'.locks[l].holder == Some(p) && Holds(s'.pc[p], l))
          || (s.locks[l].holder == Some(p) && s'.locks[l].holder == None && !Holds(s'.pc[p], l))
    ensures Inv(s', id)
  {
    UserIsListed(s, id, p, l);
    forall q | q in s'.pc ensures ProcOk(s', id, q) {
      assert ProcOk(s, id, q);
      if q != p { OtherProc(s, s', id, q); }
    }
    UsersMove(s.pc, p, s'.pc[p], l);
    assert LockOk(s', id(p));
    forall k | k in s'.table && k != id(p) ensures LockOk(s', k) {
      assert LockOk(s, k);
      OtherLock(s, s', p, k);
    }
  }

  /** `p` counts itself out; the last user deletes the entry. */
  lemma DropKeeps<P(!new), K(!new)>(s: State<P, K>, id: P -> K, p: P)
    requires Inv(s, id) && p in s.pc && s.pc[p].Released?
    ensures Inv(After(s, id, p, Drop), id)
  {
    var s', l := After(s, id, p, Drop), s.pc[p].l;
    UserIsListed(s, id, p, l);
    UsersMove(s.pc, p, Dropped, l);
    forall q | q in s'.pc ensures ProcOk(s', id, q) {
      assert ProcOk(s, id, q);
      if q != p {
        if s'.locks[l].refCount == 0 { assert q !in Users(s'.pc, l); }
        OtherProc(s, s', id, q);
      }
    }
    if id(p) in s'.table { assert LockOk(s', id(p)); }
    forall k | k in s'.table && k != id(p) ensures LockOk(s', k) {
      assert LockOk(s, k);
      OtherLock(s, s', p, k);
    }
  }

  lemma StepKeeps<P(!new), K(!new)>(s: State<P, K>, id: P -> K, p: P, step: Step)
    requires Inv(s, id) && p in s.pc && Enabled(s, p, step)
    ensures Inv(After(s, id, p, step), id)
  {
    assert ProcOk(s, id, p);
    match step
    case Register => if id(p) in s.table { RegisterOld(s, id, p); } else { RegisterNew(s, id, p); }
    case Acquire => HolderKeeps(s, After(s, id, p, step), id, p, s.pc[p].l);
    case Release =>
      ReleaseIsSafe(s, id, p);
      HolderKeeps(s, After(s, id, p, step), id, p, s.pc[p].l);
    case Drop => DropKeeps(s, id, p);
    case _ => MutexKeeps(s, After(s, id, p, step), id, p);
  }

  // ---------------------------------------------------------------------------------------------
  // Every interleaving
  // ---------------------------------------------------------------------------------------------

  ghost predicate CanRun<P(!new), K(!new)>(s: State<P, K>, id: P -> K, run: seq<(P, Step)>)
    requires Inv(s, id)
    decreases |run|
  {
    run == [] || (run[0].0 in s.pc && Enabled(s, run[0].0, run[0].1) &&
                  (StepKeeps(s, id, run[0].0, run[0].1); CanRun(After(s, id, run[0].0, run[0].1), id, run[1..])))
  }

  ghost function Ran<P(!new), K(!new)>(s: State<P, K>, id: P -> K, run: seq<(P, Step)>): (s': State<P, K>)
    requires Inv(s, id) && CanRun(s, id, run)
    ensures Inv(s', id)
    decreases |run|
  {
    if run == [] then s else StepKeeps(s, id, run[0].0, run[0].1); Ran(After(s, id, run[0].0, run[0].1), id, run[1..])
  }

  /** Before anything runs, nobody waits and the table is empty. */
  ghost predicate Initial<P(!new), K(!new)>(s: State<P, K>) {
    s.global == None && s.table == map[] && forall p :: p in s.pc ==> s.pc[p].Idle?
  }

  lemma InitialInv<P(!new), K(!new)>(s: State<P, K>, id: P -> K)
    requires Initial(s)
    ensures Inv(s, id)
  {
    forall p | p in s.pc ensures ProcOk(s, id, p) {}
  }

  /** In every interleaving, no two requests for one container run at the same time. */
  lemma NeverTwo<P(!new), K(!new)>(s: State<P, K>, id: P -> K, run: seq<(P, Step)>, p: P, q: P)
    requires Initial(s) && (InitialInv(s, id); CanRun(s, id, run))
    requires p in Ran(s, id, run).pc && q in Ran(s, id, run).pc && p != q && id(p) == id(q)
    ensures !(Ran(s, id, run).pc[p].Critical? && Ran(s, id, run).pc[q].Critical?)
  {
    MutualExclusion(Ran(s, id, run), id, p, q);
  }

  /** As long as a request is under way, somebody under way can take a step: the two kinds of locks never deadlock. */
  lemma NoDeadlock<P(!new), K(!new)>(s: State<P, K>, id: P -> K, p: P) returns (q: P, step: Step)
    requires Inv(s, id) && p in s.pc && !s.pc[p].Idle?
    ensures q in s.pc && !s.pc[q].Idle? && Enabled(s, q, step)
  {
    assert ProcOk(s, id, p);
    if s.global.Some? {
      q := s.global.value;
      assert ProcOk(s, id, q);
      step := match s.pc[q] case Entering => Register case Entered(_) => Unregister case Leaving(_) => Release case Released(_) => Drop case _ => UnlockGlobal;
    } else if s.pc[p].Critical? {
      q, step := p, LockAgain;
    } else {
      var l := s.pc[p].l;
      UserIsListed(s, id, p, l);
      if s.locks[l].holder.None? {
        q, step := p, Acquire;
      } else {
        q, step := s.locks[l].holder.value, LockAgain;
        assert ProcOk(s, id, q) && Holds(s.pc[q], l);
      }
    }
  }

  /** Once nobody is under way, no lock is left behind. */
  lemma NothingLeft<P(!new), K(!new)>(s: State<P, K>, id: P -> K)
    requires Inv(s, id) && forall p :: p in s.pc ==> s.pc[p].Idle?
    ensures s.table == map[]
  {
    forall l ensures Users(s.pc, l) == {} {}
    forall k ensures k !in s.table {}
  }
}

/** The in-memory request queue of libs/ukfusefs/fuse_queue.c: a tail queue under a mutex
    and a counting semaphore, shared by any number of producers and consumers.

    Every action of the state machine is one atomic step of one thread: taking or dropping the
    mutex, changing the list while holding it, or one semaphore operation.  `failed` records
    that the non-NULL assertion of the pop path was violated. */
module RequestQueue {
  import opened Wrappers

  type Tid = nat

  /** Where a thread stands inside push or pop.  Each value names what the thread does next. */
  datatype Pc<R> =
    | Idle
    | PushWant(r: R)      // lock the mutex
    | PushCrit(r: R)      // holds the mutex: insert at the tail
    | PushInserted(r: R)  // holds the mutex, request inserted: unlock
    | PushUp(r: R)        // unlocked: up the semaphore
    | PopWait             // down the semaphore, blocking while it is 0
    | PopWant             // took one unit: lock the mutex
    | PopCrit             // holds the mutex: remove the first request
    | PopRemoved(r: R)    // holds the mutex, request removed: unlock
    | PopDone(r: R)       // pop has returned r to its caller

  /** `inserted` and `removed` are histories: the requests in the order they entered and left. */
  datatype State<R> = State(
    items: seq<R>,
    lock: Option<Tid>,
    count: nat,
    pc: map<Tid, Pc<R>>,
    failed: bool,
    inserted: seq<R>,
    removed: seq<R>)

  function Init<R>(): State<R> {
    State([], None, 0, map[], false, [], [])
  }

  function PcOf<R>(s: State<R>, t: Tid): Pc<R> {
    if t in s.pc then s.pc[t] else Idle
  }

  predicate HoldsLock<R>(pc: Pc<R>) {
    pc.PushCrit? || pc.PushInserted? || pc.PopCrit? || pc.PopRemoved?
  }

  /** A producer that inserted its request but has not yet upped the semaphore. */
  predicate Inserting<R>(pc: Pc<R>) {
    pc.PushInserted? || pc.PushUp?
  }

  /** A consumer that downed the semaphore but has not yet removed a request. */
  predicate Removing<R>(pc: Pc<R>) {
    pc.PopWant? || pc.PopCrit?
  }

  predicate CanStep<R>(s: State<R>, t: Tid) {
    match PcOf(s, t)
    case Idle => false
    case PopDone(_) => false
    case PushWant(_) => s.lock == None
    case PopWant => s.lock == None
    case PopWait => s.count > 0
    case _ => true
  }

  function Next<R>(s: State<R>, t: Tid): State<R>
    requires CanStep(s, t)
  {
    match PcOf(s, t)
    case PushWant(r) => s.(lock := Some(t), pc := s.pc[t := PushCrit(r)])
    case PushCrit(r) =>
      s.(items := s.items + [r], inserted := s.inserted + [r], pc := s.pc[t := PushInserted(r)])
    case PushInserted(r) => s.(lock := None, pc := s.pc[t := PushUp(r)])
    case PushUp(r) => s.(count := s.count + 1, pc := s.pc[t := Idle])
    case PopWait => s.(count := s.count - 1, pc := s.pc[t := PopWant])
    case PopWant => s.(lock := Some(t), pc := s.pc[t := PopCrit])
    case PopCrit =>
      if s.items == [] then s.(failed := true)
      else s.(items := s.items[1..], removed := s.removed + [s.items[0]],
              pc := s.pc[t := PopRemoved(s.items[0])])
    case PopRemoved(r) => s.(lock := None, pc := s.pc[t := PopDone(r)])
  }

  function StartPush<R>(s: State<R>, t: Tid, r: R): State<R> {
    s.(pc := s.pc[t := PushWant(r)])
  }

  function StartPop<R>(s: State<R>, t: Tid): State<R> {
    s.(pc := s.pc[t := PopWait])
  }

  /** The caller of pop goes on with the request it was given. */
  function Leave<R>(s: State<R>, t: Tid): State<R> {
    s.(pc := s.pc[t := Idle])
  }

  // ---------- what every reachable state satisfies ----------

  ghost function Inserters<R>(s: State<R>): set<Tid> {
    set t | t in s.pc && Inserting(s.pc[t])
  }

  ghost function Removers<R>(s: State<R>): set<Tid> {
    set t | t in s.pc && Removing(s.pc[t])
  }

  /** The mutex is held by exactly the thread whose position says so. */
  ghost predicate LockOk<R>(s: State<R>) {
    forall t: Tid :: HoldsLock(PcOf(s, t)) <==> s.lock == Some(t)
  }

  ghost predicate Inv<R>(s: State<R>) {
    && !s.failed
    && LockOk(s)
    && |s.items| == s.count + |Inserters(s)| + |Removers(s)|
    && s.inserted == s.removed + s.items
  }

  lemma InitInv<R>()
    ensures Inv(Init<R>())
  {
    assert Inserters(Init<R>()) == {};
    assert Removers(Init<R>()) == {};
  }

  /** How the two counted sets change when one thread moves. */
  lemma MoveCounts<R>(s: State<R>, s': State<R>, t: Tid, pc: Pc<R>)
    requires s'.pc == s.pc[t := pc]
    ensures |Inserters(s')| - |Inserters(s)|
            == (if Inserting(pc) then 1 else 0) - (if Inserting(PcOf(s, t)) then 1 else 0)
    ensures |Removers(s')| - |Removers(s)|
            == (if Removing(pc) then 1 else 0) - (if Removing(PcOf(s, t)) then 1 else 0)
  {
    MoveSet(Inserters(s), Inserters(s'), t);
    MoveSet(Removers(s), Removers(s'), t);
  }

  /** One step of any thread keeps the invariant.  In particular the assertion in pop holds. */
  lemma StepKeepsInv<R>(s: State<R>, t: Tid)
    requires Inv(s) && CanStep(s, t)
    ensures Inv(Next(s, t))
  {
    var s' := Next(s, t);
    if PcOf(s, t).PopCrit? {
      assert t in Removers(s);
      assert s.items != [];
      assert s.items == [s.items[0]] + s.items[1..];
    }
    MoveCounts(s, s', t, PcOf(s', t));
    LockKept(s, t);
  }

  lemma LockKept<R>(s: State<R>, t: Tid)
    requires Inv(s) && CanStep(s, t) && (PcOf(s, t).PopCrit? ==> s.items != [])
    ensures LockOk(Next(s, t))
  {
    assert HoldsLock(PcOf(s, t)) <==> s.lock == Some(t);
    var s' := Next(s, t);
    forall u: Tid ensures HoldsLock(PcOf(s', u)) <==> s'.lock == Some(u) {
      assert HoldsLock(PcOf(s, u)) <==> s.lock == Some(u);
      if u != t { assert PcOf(s', u) == PcOf(s, u); }
    }
  }

  /** Entering push or pop, and leaving pop, keep the invariant. */
  lemma EnterKeepsInv<R>(s: State<R>, t: Tid, pc: Pc<R>)
    requires Inv(s) && (PcOf(s, t).Idle? || PcOf(s, t).PopDone?)
    requires pc.Idle? || pc.PushWant? || pc.PopWait?
    ensures Inv(s.(pc := s.pc[t := pc]))
  {
    var s' := s.(pc := s.pc[t := pc]);
    MoveCounts(s, s', t, pc);
    forall u: Tid ensures HoldsLock(PcOf(s', u)) <==> s'.lock == Some(u) {
      assert HoldsLock(PcOf(s, u)) <==> s.lock == Some(u);
    }
  }

  // ---------- runs ----------

  datatype Action<R> = Push(t: Tid, r: R) | Pop(t: Tid) | Go(t: Tid) | Take(t: Tid)

  predicate Enabled<R>(s: State<R>, a: Action<R>) {
    match a
    case Push(t, _) => PcOf(s, t).Idle?
    case Pop(t) => PcOf(s, t).Idle?
    case Go(t) => CanStep(s, t)
    case Take(t) => PcOf(s, t).PopDone?
  }

  function Do<R>(s: State<R>, a: Action<R>): State<R>
    requires Enabled(s, a)
  {
    match a
    case Push(t, r) => StartPush(s, t, r)
    case Pop(t) => StartPop(s, t)
    case Go(t) => Next(s, t)
    case Take(t) => Leave(s, t)
  }

  ghost predicate Run<R(!new)>(s: State<R>, run: seq<Action<R>>, s': State<R>)
    decreases |run|
  {
    if run == [] then s == s'
    else Enabled(s, run[0]) && Run(Do(s, run[0]), run[1..], s')
  }

  lemma {:induction false} RunKeepsInv<R(!new)>(s: State<R>, run: seq<Action<R>>, s': State<R>)
    requires Inv(s) && Run(s, run, s')
    ensures Inv(s')
    decreases |run|
  {
    if run != [] {
      match run[0] {
        case Push(t, r) => EnterKeepsInv(s, t, PushWant(r));
        case Pop(t) => EnterKeepsInv(s, t, PopWait);
        case Go(t) => StepKeepsInv(s, t);
        case Take(t) => EnterKeepsInv(s, t, Idle);
      }
      RunKeepsInv(Do(s, run[0]), run[1..], s');
    }
  }

  /** For any number of producers and consumers, in every state a run can reach: the list length
      is the semaphore count plus the producers between insertion and `up` plus the consumers
      between `down` and removal; the assertion in pop never failed, and its next evaluation
      by any thread succeeds; and requests leave in the order they entered. */
  lemma QueueSafety<R(!new)>(run: seq<Action<R>>, s: State<R>)
    requires Run(Init(), run, s)
    ensures |s.items| == s.count + |Inserters(s)| + |Removers(s)|
    ensures !s.failed
    ensures forall t: Tid :: PcOf(s, t).PopCrit? ==> s.items != []
    ensures s.removed <= s.inserted && s.items == s.inserted[|s.removed|..]
  {
    InitInv<R>();
    RunKeepsInv(Init(), run, s);
    forall t: Tid | PcOf(s, t).PopCrit? ensures s.items != [] {
      assert t in Removers(s);
    }
  }

  /** No run gets stuck inside the queue: while a request is in the list or a thread is past
      the semaphore, either some thread inside push or pop can move, or the list is not empty,
      nobody is inside a critical path and the semaphore lets the next consumer through. */
  lemma NeverStuck<R(!new)>(run: seq<Action<R>>, s: State<R>)
    requires Run(Init(), run, s)
    ensures (forall t: Tid :: !CanStep(s, t)) ==>
              s.count == |s.items| && s.lock == None
              && (s.items != [] ==> forall t: Tid :: !PcOf(s, t).PopWait?)
  {
    InitInv<R>();
    RunKeepsInv(Init(), run, s);
    if forall t: Tid :: !CanStep(s, t) {
      if s.lock.Some? {
        var t := s.lock.value;
        assert HoldsLock(PcOf(s, t));
        assert CanStep(s, t);
      }
      forall t | t in s.pc ensures !Inserting(s.pc[t]) && !Removing(s.pc[t]) {
        assert !CanStep(s, t);
      }
      assert Inserters(s) == {} && Removers(s) == {};
      forall t: Tid | s.items != [] ensures !PcOf(s, t).PopWait? {
        assert !CanStep(s, t);
      }
    }
  }

  // ---------- push and pop themselves ----------

  lemma {:induction false} RunSnoc<R(!new)>(s: State<R>, run: seq<Action<R>>, s1: State<R>, a: Action<R>)
    requires Run(s, run, s1) && Enabled(s1, a)
    ensures Run(s, run + [a], Do(s1, a))
    decreases |run|
  {
    if run == [] {
      assert [a][1..] == [];
      assert Run(Do(s1, a), [a][1..], Do(s1, a));
    } else {
      RunSnoc(Do(s, run[0]), run[1..], s1, a);
      assert (run + [a])[1..] == run[1..] + [a];
    }
  }

  function PushRun<R>(t: Tid, r: R): seq<Action<R>> {
    [Action.Push(t, r)] + [Go(t)] + [Go(t)] + [Go(t)] + [Go(t)]
  }

  function PopRun<R>(t: Tid): seq<Action<R>> {
    [Action.Pop(t)] + [Go(t)] + [Go(t)] + [Go(t)] + [Go(t)] + [Take(t)]
  }

  lemma RunOne<R(!new)>(s: State<R>, a: Action<R>)
    requires Enabled(s, a)
    ensures Run(s, [a], Do(s, a))
  {
    assert [a][1..] == [];
    assert Run(Do(s, a), [a][1..], Do(s, a));
  }

  /** The statements of push by one thread that is not interrupted. */
  lemma PushIsRun<R(!new)>(s: State<R>, t: Tid, r: R)
    requires Inv(s) && PcOf(s, t).Idle? && s.lock == None
    ensures var s' := s.(items := s.items + [r], count := s.count + 1, inserted := s.inserted + [r], pc := s.pc[t := Idle]);
      Run(s, PushRun(t, r), s') && Inv(s')
  {
    hide Run, Inv;
    var s1 := StartPush(s, t, r);
    RunOne(s, Action.Push(t, r));
    var s2 := Next(s1, t);
    RunSnoc(s, [Action.Push(t, r)], s1, Go(t));
    var s3 := Next(s2, t);
    RunSnoc(s, [Action.Push(t, r)] + [Go(t)], s2, Go(t));
    var s4 := Next(s3, t);
    RunSnoc(s, [Action.Push(t, r)] + [Go(t)] + [Go(t)], s3, Go(t));
    var s5 := Next(s4, t);
    RunSnoc(s, [Action.Push(t, r)] + [Go(t)] + [Go(t)] + [Go(t)], s4, Go(t));
    assert s5.pc == s.pc[t := Idle];
    assert s5 == s.(items := s.items + [r], count := s.count + 1, inserted := s.inserted + [r], pc := s.pc[t := Idle]);
    RunKeepsInv(s, PushRun(t, r), s5);
  }

  lemma SomethingThere<R>(s: State<R>)
    requires Inv(s) && s.count > 0
    ensures s.items != []
  {
  }

  /** The statements of pop by one thread that is not interrupted; its assertion holds. */
  lemma PopIsRun<R(!new)>(s: State<R>, t: Tid)
    requires Inv(s) && PcOf(s, t).Idle? && s.lock == None && s.count > 0
    ensures s.items != []
    ensures var s' := s.(items := s.items[1..], count := s.count - 1, removed := s.removed + [s.items[0]], pc := s.pc[t := Idle]);
      Run(s, PopRun(t), s') && Inv(s')
  {
    hide Run, Inv;
    SomethingThere(s);
    var s1 := StartPop(s, t);
    RunOne(s, Action.Pop(t));
    var s2 := Next(s1, t);
    RunSnoc(s, [Action.Pop(t)], s1, Go(t));
    var s3 := Next(s2, t);
    RunSnoc(s, [Action.Pop(t)] + [Go(t)], s2, Go(t));
    var s4 := Next(s3, t);
    RunSnoc(s, [Action.Pop(t)] + [Go(t)] + [Go(t)], s3, Go(t));
    var s5 := Next(s4, t);
    RunSnoc(s, [Action.Pop(t)] + [Go(t)] + [Go(t)] + [Go(t)], s4, Go(t));
    var s6 := Leave(s5, t);
    RunSnoc(s, [Action.Pop(t)] + [Go(t)] + [Go(t)] + [Go(t)] + [Go(t)], s5, Take(t));
    assert s6.pc == s.pc[t := Idle];
    assert s6 == s.(items := s.items[1..], count := s.count - 1, removed := s.removed + [s.items[0]], pc := s.pc[t := Idle]);
    RunKeepsInv(s, PopRun(t), s6);
  }

  /** struct fuse_ukfs_queue in memory.  Where the threads stand and what has passed through is
      kept for the proof only. */
  class SharedQueue<R(!new)> {
    var head: seq<R>
    var lock: Option<Tid>
    var count: nat
    ghost var pcs: map<Tid, Pc<R>>
    ghost var inserted: seq<R>
    ghost var removed: seq<R>

    ghost function Snapshot(): State<R>
      reads this
    {
      State(head, lock, count, pcs, false, inserted, removed)
    }

    /** fuse_ukfs_queue_init */
    constructor ()
      ensures Snapshot() == Init<R>() && Inv(Snapshot())
    {
      head, lock, count := [], None, 0;
      pcs, inserted, removed := map[], [], [];
      new;
      InitInv<R>();
    }

    /** fuse_ukfs_queue_push by a thread that finds the mutex free.  Other threads may be anywhere
        else inside push and pop.  The request becomes the last of the list, one unit of the
        semaphore stands for it, and the statements are a run of the transition system. */
    method Push(t: Tid, r: R)
      requires Inv(Snapshot()) && PcOf(Snapshot(), t).Idle? && lock == None
      modifies this
      ensures Inv(Snapshot()) && lock == None
      ensures head == old(head) + [r] && count == old(count) + 1
      ensures inserted == old(inserted) + [r] && removed == old(removed) && pcs == old(pcs)[t := Idle]
      ensures Run(old(Snapshot()), PushRun(t, r), Snapshot())
    {
      hide Run, Inv, PushRun;
      PushIsRun(Snapshot(), t, r);
      lock := Some(t);
      head := head + [r];
      inserted := inserted + [r];
      lock := None;
      count := count + 1;
      pcs := pcs[t := Idle];
    }

    /** fuse_ukfs_queue_pop by a thread that finds a unit of the semaphore and the mutex free.  Its
        assertion holds, whoever else is in the middle of push or pop, and the oldest request is
        the one handed out. */
    method Pop(t: Tid) returns (r: R)
      requires Inv(Snapshot()) && PcOf(Snapshot(), t).Idle? && lock == None && count > 0
      modifies this
      ensures Inv(Snapshot()) && lock == None
      ensures old(head) == [r] + head && count == old(count) - 1
      ensures inserted == old(inserted) && removed == old(removed) + [r] && pcs == old(pcs)[t := Idle]
      ensures Run(old(Snapshot()), PopRun(t), Snapshot())
    {
      hide Run, Inv, PopRun;
      PopIsRun(Snapshot(), t);
      count := count - 1;
      lock := Some(t);
      assert head != [];
      r := head[0];
      head := head[1..];
      removed := removed + [r];
      lock := None;
      pcs := pcs[t := Idle];
    }
  }
}

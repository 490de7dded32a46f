/** The results about whole runs of the request/reply protocol. */
module ProtocolResults {
  import opened Wrappers
  import opened Protocol
  import opened ProtocolSafety
  import Q = RequestQueue

  lemma StepKeepsInv<B, I(!new)>(be: Backend<B, I>, s: State<B, I>, a: Action<I>)
    requires Inv(be, s) && Enabled(s, a)
    ensures Inv(be, Do(be, s, a))
  {
    match a
    case Begin(c, input) => BeginKeeps(be, s, c, input);
    case Go(t) => GoKeeps(be, s, t);
    case Wake(c) => WakeKeeps(be, s, c);
    case Collect(c) => CollectKeeps(be, s, c);
    case Take => TakeKeeps(be, s);
    case Handle(memOk) => HandleKeeps(be, s, memOk);
    case Write => WriteKeeps(be, s);
    case Signal => SignalKeeps(be, s);
    case Again => AgainKeeps(be, s);
  }

  lemma {:induction false} RunKeepsInv<B(!new), I(!new)>(
    be: Backend<B, I>, s: State<B, I>, run: seq<Action<I>>, s': State<B, I>)
    requires Inv(be, s) && Run(be, s, run, s')
    ensures Inv(be, s')
    decreases |run|
  {
    if run != [] {
      StepKeepsInv(be, s, run[0]);
      RunKeepsInv(be, Do(be, s, run[0]), run[1..], s');
    }
  }

  lemma ReachableInv<B(!new), I(!new)>(be: Backend<B, I>, s: State<B, I>)
    requires Reachable(be, s)
    ensures Inv(be, s)
  {
    var run :| Run(be, Init(be), run, s);
    ProtocolSafety.InitInv(be);
    RunKeepsInv(be, Init(be), run, s);
  }

  // ---------- linearizability ----------

  lemma EveryOpWasInvoked<B, I(!new)>(be: Backend<B, I>, s: State<B, I>)
    requires CallsOk(s) && OpsOk(be, s)
    ensures forall k | 0 <= k < |s.ops| :: Invoked(s.history, s.ops[k])
  {
    forall k | 0 <= k < |s.ops| ensures Invoked(s.history, s.ops[k]) {
      assert OpOk(s, k);
      var call := s.ops[k].call;
      assert CallOk(s, call);
      assert s.history[s.calls[call].invokedAt] == Invoke(call, s.calls[call].client, s.ops[k].input);
    }
  }

  lemma EveryReturnIsAnOp<B, I(!new)>(be: Backend<B, I>, s: State<B, I>)
    requires CallsOk(s) && OpsOk(be, s) && HistoryOk(s)
    ensures forall i | 0 <= i < |s.history| && s.history[i].Return? :: Answered(s.ops, s.history[i])
  {
    forall i | 0 <= i < |s.history| && s.history[i].Return? ensures Answered(s.ops, s.history[i]) {
      assert EventOk(s, i);
      var call := s.history[i].call;
      assert CallOk(s, call);
      var k := s.calls[call].status.pos;
      assert OpOk(s, k);
    }
  }

  lemma RealTimeOrder<B, I(!new)>(be: Backend<B, I>, s: State<B, I>, i: nat, j: nat, k: nat, m: nat)
    requires CallsOk(s) && OpsOk(be, s) && InsertedOk(s) && HistoryOk(s)
    requires i < j < |s.history| && s.history[i].Return? && s.history[j].Invoke?
    requires k < |s.ops| && s.ops[k].call == s.history[i].call
    requires m < |s.ops| && s.ops[m].call == s.history[j].call
    ensures k < m
  {
    assert PairOk(s, i, j);
    PlaceOf(be, s, k);
    PlaceOf(be, s, m);
    assert CallOk(s, s.history[j].call);
  }

  /** One more operation of a sequential run. */
  lemma LastPerforms<B, I>(be: Backend<B, I>, ops: seq<Op<I>>)
    requires Sequential(be, ops) && ops != []
    ensures var m := |ops| - 1; Sequential(be, ops[..m]) && Performs(be, After(be, ops[..m]), ops[m], After(be, ops))
  {
    var m := |ops| - 1;
    assert ops[..m][..m] == ops[..m];
    forall k | 0 <= k < m
      ensures ops[..m][k].out == Deliver(Serve(be, After(be, ops[..m][..k]), ops[..m][k].input).1, ops[..m][k].memOk)
    {
      assert ops[..m][..k] == ops[..k];
    }
  }

  /** The states that a sequential run goes through. */
  lemma {:induction false} RunsThrough<B, I>(be: Backend<B, I>, ops: seq<Op<I>>) returns (states: seq<B>)
    requires Sequential(be, ops)
    ensures Through(be, ops, states) && states[|ops|] == After(be, ops)
    decreases |ops|
  {
    hide Sequential, Performs;
    if ops == [] { return [be.init]; }
    var m := |ops| - 1;
    LastPerforms(be, ops);
    var front := RunsThrough(be, ops[..m]);
    states := front + [After(be, ops)];
    forall k | 0 <= k < |ops| ensures Performs(be, states[k], ops[k], states[k + 1]) {
      if k < m { assert Performs(be, front[k], ops[..m][k], front[k + 1]); }
    }
  }

  /** Whatever the file system keeps: the requests handled so far went through its states one after
      the other, each handler on the state that the one before it left, and each outcome is what
      its handler answered. */
  lemma HandledInSequence<B(!new), I(!new)>(be: Backend<B, I>, s: State<B, I>) returns (states: seq<B>)
    requires Reachable(be, s)
    ensures |states| == |s.ops| + 1 && states[0] == be.init && states[|s.ops|] == s.backend
    ensures forall k | 0 <= k < |s.ops| ::
      var op := s.ops[k];
      if be.known(op.input) then
        var (b, reply) := be.handle(states[k], op.input);
        && states[k + 1] == b
        && match reply
           case Fail(e) => op.out == Outcome(-e, None)
           case Data(bytes) =>
             op.out == if op.memOk then Outcome(0, Some(bytes)) else if bytes == [] then Outcome(0, None) else Outcome(-12, None)
      else states[k + 1] == states[k] && op.out == Outcome(-38, None)
  {
    assert OpsOk(be, s) by { ReachableInv(be, s); }
    hide Reachable, Sequential, After;
    states := RunsThrough(be, s.ops);
    forall k | 0 <= k < |s.ops|
      ensures
        var op := s.ops[k];
        if be.known(op.input) then
          var (b, reply) := be.handle(states[k], op.input);
          && states[k + 1] == b
          && match reply
             case Fail(e) => op.out == Outcome(-e, None)
             case Data(bytes) =>
               op.out == if op.memOk then Outcome(0, Some(bytes)) else if bytes == [] then Outcome(0, None) else Outcome(-12, None)
        else states[k + 1] == states[k] && op.out == Outcome(-38, None)
    {
      assert Performs(be, states[k], s.ops[k], states[k + 1]);
    }
  }

  /** The handled requests, in the order the daemon handled them, explain the history. */
  lemma HandledOrderExplains<B(!new), I(!new)>(be: Backend<B, I>, s: State<B, I>)
    requires CallsOk(s) && OpsOk(be, s) && InsertedOk(s) && HistoryOk(s)
    ensures Explains(be, s.ops, s.history)
  {
    var states := RunsThrough(be, s.ops);
    EveryOpWasInvoked(be, s);
    EveryReturnIsAnOp(be, s);
    forall k, m | 0 <= k < m < |s.ops| ensures s.ops[k].call != s.ops[m].call {
      PlaceOf(be, s, k);
      PlaceOf(be, s, m);
    }
    forall i, j, k, m |
      && 0 <= i < j < |s.history| && s.history[i].Return? && s.history[j].Invoke?
      && 0 <= k < |s.ops| && s.ops[k].call == s.history[i].call
      && 0 <= m < |s.ops| && s.ops[m].call == s.history[j].call
      ensures k < m
    {
      RealTimeOrder(be, s, i, j, k, m);
    }
  }

  lemma PlaceOf<B, I(!new)>(be: Backend<B, I>, s: State<B, I>, k: nat)
    requires OpsOk(be, s) && InsertedOk(s) && k < |s.ops|
    ensures s.ops[k].call in s.calls && HasPos(s.calls[s.ops[k].call].status)
    ensures s.calls[s.ops[k].call].status.pos == k
  {
    assert OpOk(s, k) && SlotOk(s, k);
  }

  /** Every run of any number of clients and the daemon is linearizable: the outcomes the clients
      saw are those of one sequential execution of the backend that respects real time. */
  lemma Linearizability<B(!new), I(!new)>(be: Backend<B, I>, s: State<B, I>)
    requires Reachable(be, s)
    ensures Linearizable(be, s.history)
  {
    ReachableInv(be, s);
    HandledOrderExplains(be, s);
  }

  /** The order of that execution is the order of insertion into the queue; no request is in
      the queue twice, so each is handled at most once; and no call returns twice, or before its
      request was handled. */
  lemma HandledInInsertionOrder<B(!new), I(!new)>(be: Backend<B, I>, s: State<B, I>)
    requires Reachable(be, s)
    ensures |s.ops| <= |s.queue.inserted|
    ensures forall k | 0 <= k < |s.ops| :: s.ops[k].call == s.queue.inserted[k]
    ensures forall k, m | 0 <= k < m < |s.queue.inserted| :: s.queue.inserted[k] != s.queue.inserted[m]
    ensures forall i, j | 0 <= i < j < |s.history| && s.history[i].Return? && s.history[j].Return? ::
              s.history[i].call != s.history[j].call
    ensures forall i | 0 <= i < |s.history| && s.history[i].Return? :: Answered(s.ops, s.history[i])
  {
    ReachableInv(be, s);
    HandledOrderExplains(be, s);
    forall k | 0 <= k < |s.ops| ensures s.ops[k].call == s.queue.inserted[k] { assert OpOk(s, k); }
    forall k, m | 0 <= k < m < |s.queue.inserted| ensures s.queue.inserted[k] != s.queue.inserted[m] {
      assert SlotOk(s, k) && SlotOk(s, m);
    }
    forall i, j | 0 <= i < j < |s.history| && s.history[i].Return? && s.history[j].Return?
      ensures s.history[i].call != s.history[j].call
    {
      assert PairOk(s, i, j);
    }
  }

  /** What a call returns: its own input was handled in some state b of the file system, and the
      client saw what the handler answered there, a failure e as -e. */
  lemma ReturnedOutcome<B(!new), I(!new)>(be: Backend<B, I>, s: State<B, I>, j: nat) returns (input: I, b: B, memOk: bool)
    requires Reachable(be, s) && j < |s.history| && s.history[j].Return?
    ensures exists i :: 0 <= i < |s.history| && s.history[i].Invoke? && s.history[i].call == s.history[j].call
                        && s.history[i].input == input
    ensures var out := s.history[j].out;
      if be.known(input) then
        match be.handle(b, input).1
        case Fail(e) => out == Outcome(-e, None)
        case Data(bytes) =>
          out == if memOk then Outcome(0, Some(bytes)) else if bytes == [] then Outcome(0, None) else Outcome(-12, None)
      else out == Outcome(-38, None)
  {
    hide Reachable;
    HandledInInsertionOrder(be, s);
    InvokedInputs(be, s);
    var states := HandledInSequence(be, s);
    assert Answered(s.ops, s.history[j]);
    var k :| 0 <= k < |s.ops| && s.ops[k].call == s.history[j].call && s.ops[k].out == s.history[j].out;
    assert Invoked(s.history, s.ops[k]);
    input, b, memOk := s.ops[k].input, states[k], s.ops[k].memOk;
    var op, after := s.ops[k], states[k + 1];
    assert op.out == s.history[j].out;
  }

  lemma InvokedInputs<B(!new), I(!new)>(be: Backend<B, I>, s: State<B, I>)
    requires Reachable(be, s)
    ensures forall k | 0 <= k < |s.ops| :: Invoked(s.history, s.ops[k])
  {
    ReachableInv(be, s);
    EveryOpWasInvoked(be, s);
  }

  // ---------- ownership ----------

  /** The request the daemon works on still stands on its client's stack. */
  lemma DaemonsRequest<B, I(!new)>(be: Backend<B, I>, s: State<B, I>)
    requires Inv(be, s)
    ensures s.daemon.Got? || s.daemon.Served? || s.daemon.Written? ==> s.daemon.call in s.cells
  {
    if s.daemon.Got? {
      assert s.queue.inserted[|s.ops|] == s.daemon.call;
      assert SlotOk(s, |s.ops|);
      assert CallOk(s, s.daemon.call);
    } else if s.daemon.Served? || s.daemon.Written? {
      assert CallOk(s, s.daemon.call);
    }
  }

  /** The daemon never touches a request whose client has returned, no free is given a buffer
      that is not allocated, every allocated reply buffer hangs off exactly one request in flight,
      an error never comes with a buffer, and once all calls have returned none is left. */
  lemma Ownership<B(!new), I(!new)>(be: Backend<B, I>, s: State<B, I>)
    requires Reachable(be, s)
    ensures !s.fault
    ensures forall b :: b in s.heap ==> s.heap[b].owner in s.cells && s.cells[s.heap[b].owner].data == Some(b)
    ensures forall call :: call in s.cells && s.cells[call].data.Some? ==>
              s.cells[call].data.value in s.heap && s.heap[s.cells[call].data.value].owner == call
              && s.cells[call].error == 0
    ensures s.daemon.Got? || s.daemon.Served? || s.daemon.Written? ==> s.daemon.call in s.cells
    ensures s.cells == map[] ==> s.heap == map[]
  {
    ReachableInv(be, s);
    forall b | b in s.heap
      ensures s.heap[b].owner in s.cells && s.cells[s.heap[b].owner].data == Some(b)
    {
      assert BufOk(s, b);
    }
    forall call | call in s.cells && s.cells[call].data.Some?
      ensures s.cells[call].data.value in s.heap && s.heap[s.cells[call].data.value].owner == call
              && s.cells[call].error == 0
    {
      assert CallOk(s, call);
      assert OpOk(s, s.calls[call].status.pos);
    }
    DaemonsRequest(be, s);
  }

  // ---------- every call returns ----------

  /** While a call is in flight some thread can move: the protocol has no deadlock. */
  lemma NoDeadlock<B(!new), I(!new)>(be: Backend<B, I>, s: State<B, I>)
    requires Reachable(be, s) && s.cells != map[]
    ensures exists a: Action<I> :: Enabled(s, a) && !a.Begin?
  {
    ReachableInv(be, s);
    var a := Mover(be, s);
  }

  lemma Mover<B, I(!new)>(be: Backend<B, I>, s: State<B, I>) returns (a: Action<I>)
    requires Inv(be, s) && s.cells != map[]
    ensures Enabled(s, a) && !a.Begin?
  {
    match s.daemon {
      case Got(_) => a := Handle(true);
      case Served(_, _) => a := Write;
      case Written(_) => a := Signal;
      case Signalled => a := Again;
      case Popping =>
        if s.queue.lock.Some? {
          var t := s.queue.lock.value;
          assert Q.HoldsLock(QPc(s, t));
          a := Go(t);
        } else if QPc(s, DAEMON).PopDone? {
          a := Take;
        } else if Q.CanStep(s.queue, DAEMON) {
          a := Go(DAEMON);
        } else {
          var call :| call in s.cells;
          assert CallOk(s, call);
          a := CallMover(be, s, call);
        }
    }
  }

  /** With the daemon asleep on the semaphore, the call itself or a producer can move. */
  lemma CallMover<B, I(!new)>(be: Backend<B, I>, s: State<B, I>, call: Call) returns (a: Action<I>)
    requires Inv(be, s) && call in s.cells && call in s.calls && CallOk(s, call)
    requires s.daemon.Popping? && QPc(s, DAEMON).PopWait? && s.queue.lock == None && s.queue.count == 0
    ensures Enabled(s, a) && !a.Begin?
  {
    var c := s.calls[call].client;
    if QPc(s, c).Idle? {
      match s.calls[call].status {
        case Signalled(_) => a := Wake(c);
        case Collecting(_) => a := Collect(c);
        case Queued(pos) =>
          assert |s.queue.items| > 0;
          NoClientPops(s);
          var t :| t in Q.Inserters(s.queue);
          a := Go(t);
      }
    } else {
      a := Go(c);
    }
  }

  lemma NoClientPops<B, I(!new)>(s: State<B, I>)
    requires CallsOk(s) && ClientsOk(s) && CellsOk(s) && QPc(s, DAEMON).PopWait?
    ensures Q.Removers(s.queue) == {}
  {
    forall t | t in s.queue.pc ensures !Q.Removing(s.queue.pc[t]) {
      assert ClientOk(s, t);
      if t != DAEMON && !ClientOf(s, t).Outside? { assert CallOk(s, ClientOf(s, t).call); }
    }
  }

  /** Steps a client still has to make, with the daemon's share of a request that is not yet
      counted by the semaphore. */
  function ClientWork<B, I>(s: State<B, I>, c: Cid): nat {
    match ClientOf(s, c)
    case Outside => 0
    case Woken(_) => 1
    case Waiting(_) =>
      match QPc(s, c)
      case PushWant(_) => 16
      case PushCrit(_) => 15
      case PushInserted(_) => 14
      case PushUp(_) => 13
      case _ => 2
  }

  function DaemonWork<B, I>(s: State<B, I>): nat {
    match s.daemon
    case Got(_) => 5
    case Served(_, _) => 4
    case Written(_) => 3
    case Signalled => 2
    case Popping =>
      match QPc(s, DAEMON)
      case PopWant => 9
      case PopCrit => 8
      case PopRemoved(_) => 7
      case PopDone(_) => 6
      case _ => 0
  }

  function ClientsWork<B, I>(s: State<B, I>, n: Cid): nat {
    if n == 0 then 0 else ClientsWork(s, n - 1) + ClientWork(s, n)
  }

  /** An upper bound on the number of steps left when only clients 1 to n are active. */
  function Work<B, I>(s: State<B, I>, n: Cid): nat {
    ClientsWork(s, n) + 10 * s.queue.count + DaemonWork(s)
  }

  ghost predicate ActiveUpTo<B, I>(s: State<B, I>, n: Cid) {
    forall c: Cid :: !ClientOf(s, c).Outside? ==> c <= n
  }

  lemma {:induction false} WorkOfOthers<B, I>(s: State<B, I>, s': State<B, I>, n: Cid, c: Cid)
    requires forall d: Cid :: d != c ==> ClientWork(s', d) == ClientWork(s, d)
    ensures ClientsWork(s', n) - ClientsWork(s, n)
            == if 1 <= c <= n then ClientWork(s', c) - ClientWork(s, c) else 0
  {
    if n > 0 { WorkOfOthers(s, s', n - 1, c); }
  }

  /** Every step other than a new call uses up work. */
  lemma StepUsesWork<B, I(!new)>(be: Backend<B, I>, s: State<B, I>, a: Action<I>, n: Cid)
    requires Inv(be, s) && ActiveUpTo(s, n) && Enabled(s, a) && !a.Begin?
    ensures ActiveUpTo(Do(be, s, a), n) && Work(Do(be, s, a), n) < Work(s, n)
  {
    var s' := Do(be, s, a);
    var c := match a case Go(t) => t case Wake(d) => d case Collect(d) => d case _ => DAEMON;
    assert ClientOk(s, c);
    MoverWork(be, s, a, c);
    assert ActiveUpTo(s', n) by {
      forall d: Cid | !ClientOf(s', d).Outside? ensures d <= n { assert !ClientOf(s, d).Outside?; }
    }
    WorkOfOthers(s, s', n, c);
  }

  /** The work of everyone but the mover stays, and the mover's, with ten for each semaphore unit,
      goes down. */
  ghost predicate Shrinks<B, I>(s: State<B, I>, s': State<B, I>, c: Cid) {
    && (forall d: Cid :: d != c ==> ClientWork(s', d) == ClientWork(s, d))
    && (forall d: Cid :: ClientOf(s, d).Outside? ==> ClientOf(s', d).Outside?)
    && ClientWork(s', DAEMON) == ClientWork(s, DAEMON) == 0
    && if c != DAEMON then
         && !ClientOf(s, c).Outside? && DaemonWork(s') == DaemonWork(s)
         && ClientWork(s', c) + 10 * s'.queue.count < ClientWork(s, c) + 10 * s.queue.count
       else DaemonWork(s') + 10 * s'.queue.count < DaemonWork(s) + 10 * s.queue.count
  }

  lemma MoverWork<B, I(!new)>(be: Backend<B, I>, s: State<B, I>, a: Action<I>, c: Cid)
    requires Inv(be, s) && Enabled(s, a) && !a.Begin?
    requires c == match a case Go(t) => t case Wake(d) => d case Collect(d) => d case _ => DAEMON
    ensures Shrinks(s, Do(be, s, a), c)
  {
    assert ClientOk(s, c);
    if c != DAEMON && a.Go? {
      var mine := ClientOf(s, c).call;
      assert CallOk(s, mine);
      ClientStep(s, c, mine);
      ClientGoWork(s, DoGo(s, c), c, mine);
    } else if a.Wake? || a.Collect? {
      assert CallOk(s, ClientOf(s, c).call);
      ClientLeaveWork(be, s, a, c);
    } else if a.Go? {
      Q.StepKeepsInv(s.queue, DAEMON);
      DaemonGoWork(s);
    } else {
      DaemonsRequest(be, s);
      DaemonLoopWork(be, s, a);
    }
  }

  lemma ClientGoWork<B, I(!new)>(s: State<B, I>, s': State<B, I>, c: Cid, mine: Call)
    requires Pushes(s, s', c, mine) && c != DAEMON && ClientOf(s, c) == Waiting(mine)
    requires s'.queue.count == s.queue.count + (if QPc(s, c).PushUp? then 1 else 0)
    requires ClientOf(s, DAEMON).Outside?
    ensures Shrinks(s, s', c)
  {
  }

  lemma ClientLeaveWork<B, I(!new)>(be: Backend<B, I>, s: State<B, I>, a: Action<I>, c: Cid)
    requires (a == Wake(c) || a == Collect(c)) && Enabled(s, a) && ClientOf(s, DAEMON).Outside?
    requires a.Wake? ==> QPc(s, c).Idle?
    ensures Shrinks(s, Do(be, s, a), c)
  {
  }

  lemma DaemonGoWork<B, I(!new)>(s: State<B, I>)
    requires s.daemon.Popping? && ClientOf(s, DAEMON).Outside? && Q.CanStep(s.queue, DAEMON)
    requires QPc(s, DAEMON).PopWait? || QPc(s, DAEMON).PopWant? || QPc(s, DAEMON).PopCrit? || QPc(s, DAEMON).PopRemoved?
    requires !Q.Next(s.queue, DAEMON).failed
    ensures Shrinks(s, DoGo(s, DAEMON), DAEMON)
  {
  }

  lemma DaemonLoopWork<B, I(!new)>(be: Backend<B, I>, s: State<B, I>, a: Action<I>)
    requires Enabled(s, a) && (a.Take? || a.Handle? || a.Write? || a.Signal? || a.Again?)
    requires ClientOf(s, DAEMON).Outside?
    requires s.daemon.Got? || s.daemon.Served? || s.daemon.Written? ==> s.daemon.call in s.cells
    ensures Shrinks(s, Do(be, s, a), DAEMON)
  {
  }

  lemma {:induction false} RunUsesWork<B(!new), I(!new)>(
    be: Backend<B, I>, s: State<B, I>, run: seq<Action<I>>, s': State<B, I>, n: Cid)
    requires Inv(be, s) && ActiveUpTo(s, n) && Run(be, s, run, s')
    requires forall i | 0 <= i < |run| :: !run[i].Begin?
    ensures |run| <= Work(s, n) && Inv(be, s')
    decreases |run|
  {
    if run != [] {
      StepUsesWork(be, s, run[0], n);
      StepKeepsInv(be, s, run[0]);
      RunUsesWork(be, Do(be, s, run[0]), run[1..], s', n);
    }
  }

  /** Under every schedule: once no new call starts, the system can make only boundedly many
      steps, and when it can make no more, every call has returned and no buffer is left. */
  lemma EveryCallReturns<B(!new), I(!new)>(
    be: Backend<B, I>, s: State<B, I>, run: seq<Action<I>>, s': State<B, I>, n: Cid)
    requires Reachable(be, s) && ActiveUpTo(s, n) && Run(be, s, run, s')
    requires forall i | 0 <= i < |run| :: !run[i].Begin?
    ensures |run| <= Work(s, n)
    ensures (forall a: Action<I> :: Enabled(s', a) ==> a.Begin?) ==> s'.cells == map[] && s'.heap == map[]
  {
    ReachableInv(be, s);
    RunUsesWork(be, s, run, s', n);
    if s'.cells != map[] {
      var a := Mover(be, s');
    } else {
      forall b ensures b !in s'.heap {
        if b in s'.heap { BufAt(s', b); }
      }
    }
  }
}

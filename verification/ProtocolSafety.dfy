/** What every reachable state of the request/reply protocol satisfies, and that every action
    keeps it.

    A call goes through Building, Queued, Answering, Signalled, Collecting and Returned.  For each
    of these CallOk says where the client's thread stands, what its request holds, and where the
    call's outcome is: nowhere yet, in the daemon's hands, or in the sequential run.  The other
    parts of the invariant tie the daemon to the head of the queue, the operations done so far to
    the order of insertion, every reply buffer to the one request that points to it, and the
    history to the calls.

    For each action there is a lemma `...Keeps`, made of one about the call that is acted upon
    (`...Mine`), one about any other call (`...Other`), and frames for the rest. */
module ProtocolSafety {
  import opened Wrappers
  import opened Protocol
  import Q = RequestQueue

  // ---------- the invariant ----------

  predicate HasPos(st: Status) {
    !st.Building?
  }

  ghost predicate Placed<B, I>(s: State<B, I>, call: Call)
    requires call in s.calls && HasPos(s.calls[call].status)
  {
    var t := s.calls[call];
    && t.status.pos < |s.queue.inserted|
    && s.queue.inserted[t.status.pos] == call
    && t.arrival <= t.status.pos
  }

  ghost predicate Live<B, I>(s: State<B, I>, call: Call)
    requires call in s.calls
  {
    call in s.cells && s.cells[call].client == s.calls[call].client && s.cells[call].input == s.calls[call].input
  }

  ghost predicate Blank<I>(cell: Cell<I>) {
    cell.error == 0 && cell.data == None && cell.done == 0
  }

  /** The request's reply fields hold `out`, with its bytes in a buffer of its own. */
  ghost predicate Filled<B, I>(s: State<B, I>, call: Call, out: Outcome)
    requires call in s.cells
  {
    var cell := s.cells[call];
    && cell.error == out.error
    && (cell.data.None? <==> out.data.None?)
    && (cell.data.Some? ==>
          cell.data.value in s.heap && s.heap[cell.data.value] == Buf(call, out.data.value))
  }

  /** The client's thread is past insertion and not yet through `down(done)`. */
  ghost predicate Blocked<B, I>(s: State<B, I>, call: Call, c: Cid) {
    && ClientOf(s, c) == Waiting(call)
    && (QPc(s, c) == Q.PushInserted(call) || QPc(s, c) == Q.PushUp(call) || QPc(s, c) == Q.Idle)
  }

  ghost predicate CallOk<B, I(!new)>(s: State<B, I>, call: Call)
    requires call in s.calls
  {
    var t := s.calls[call];
    && t.client != DAEMON && call < s.nextUnique
    && t.invokedAt < |s.history| && s.history[t.invokedAt] == Invoke(call, t.client, t.input)
    && t.arrival <= |s.queue.inserted|
    && (HasPos(t.status) ==> Placed(s, call))
    && (t.status.Returned? <==> call !in s.cells)
    && (!t.status.Returned? ==> Live(s, call))
    && match t.status
       case Building =>
         && Blank(s.cells[call]) && ClientOf(s, t.client) == Waiting(call)
         && (QPc(s, t.client) == Q.PushWant(call) || QPc(s, t.client) == Q.PushCrit(call))
       case Queued(pos) =>
         Blank(s.cells[call]) && Blocked(s, call, t.client) && pos >= |s.ops|
       case Answering(pos) =>
         && pos == |s.ops| - 1 && Blocked(s, call, t.client) && s.cells[call].done == 0
         && ((s.daemon == Served(call, s.ops[pos].out) && s.cells[call].data == None)
             || (s.daemon == Written(call) && Filled(s, call, s.ops[pos].out)))
       case Signalled(pos) =>
         && pos < |s.ops| && Blocked(s, call, t.client) && s.cells[call].done == 1
         && Filled(s, call, s.ops[pos].out)
       case Collecting(pos) =>
         && pos < |s.ops| && s.cells[call].done == 0 && Filled(s, call, s.ops[pos].out)
         && ClientOf(s, t.client) == Woken(call) && QPc(s, t.client).Idle?
       case Returned(pos) => pos < |s.ops|
  }

  ghost predicate CallsOk<B, I(!new)>(s: State<B, I>) {
    forall call {:trigger CallOk(s, call)} :: call in s.calls ==> CallOk(s, call)
  }

  ghost predicate CellsOk<B, I(!new)>(s: State<B, I>) {
    forall call :: call in s.cells ==> call in s.calls
  }

  ghost predicate ClientOk<B, I(!new)>(s: State<B, I>, c: Cid) {
    if ClientOf(s, c).Outside? then c != DAEMON ==> QPc(s, c).Idle?
    else ClientOf(s, c).call in s.cells && ClientOf(s, c).call in s.calls && s.calls[ClientOf(s, c).call].client == c
  }

  ghost predicate ClientsOk<B, I(!new)>(s: State<B, I>) {
    forall c: Cid :: ClientOk(s, c)
  }

  ghost predicate DaemonOk<B, I(!new)>(s: State<B, I>) {
    var n := |s.ops|;
    && ClientOf(s, DAEMON).Outside?
    && n <= |s.queue.removed|
    && match s.daemon
       case Popping =>
         (match QPc(s, DAEMON)
          case PopRemoved(r) => |s.queue.removed| == n + 1 && s.queue.removed[n] == r
          case PopDone(r) => |s.queue.removed| == n + 1 && s.queue.removed[n] == r
          case pc => |s.queue.removed| == n && (pc.PopWait? || pc.PopWant? || pc.PopCrit?))
       case Got(r) => QPc(s, DAEMON).Idle? && |s.queue.removed| == n + 1 && s.queue.removed[n] == r
       case Signalled => QPc(s, DAEMON).Idle? && |s.queue.removed| == n
       case _ =>
         && QPc(s, DAEMON).Idle? && |s.queue.removed| == n && n > 0
         && s.ops[n-1].call == s.daemon.call
         && s.daemon.call in s.calls && s.calls[s.daemon.call].status == Answering(n - 1)
  }

  ghost predicate OpsOk<B, I(!new)>(be: Backend<B, I>, s: State<B, I>) {
    && |s.ops| <= |s.queue.inserted|
    && (forall k | 0 <= k < |s.ops| :: OpOk(s, k))
    && Sequential(be, s.ops)
    && s.backend == After(be, s.ops)
  }

  ghost predicate OpOk<B, I>(s: State<B, I>, k: nat)
    requires k < |s.ops| <= |s.queue.inserted|
  {
    && s.ops[k].call == s.queue.inserted[k]
    && s.ops[k].call in s.calls && s.ops[k].input == s.calls[s.ops[k].call].input
    && (s.ops[k].out.error != 0 ==> s.ops[k].out.data == None)
  }

  ghost predicate SlotOk<B, I>(s: State<B, I>, k: nat)
    requires k < |s.queue.inserted|
  {
    var call := s.queue.inserted[k];
    call in s.calls && HasPos(s.calls[call].status) && s.calls[call].status.pos == k
  }

  ghost predicate InsertedOk<B, I(!new)>(s: State<B, I>) {
    forall k | 0 <= k < |s.queue.inserted| :: SlotOk(s, k)
  }

  ghost predicate BufOk<B, I>(s: State<B, I>, b: nat)
    requires b in s.heap
  {
    b < s.nextBuf && s.heap[b].owner in s.cells && s.cells[s.heap[b].owner].data == Some(b)
  }

  ghost predicate HeapOk<B, I(!new)>(s: State<B, I>) {
    forall b {:trigger BufOk(s, b)} :: b in s.heap ==> BufOk(s, b)
  }

  ghost predicate EventOk<B, I(!new)>(s: State<B, I>, i: nat)
    requires i < |s.history|
  {
    var e := s.history[i];
    && e.call in s.calls
    && (e.Invoke? ==> s.calls[e.call].invokedAt == i)
    && (e.Return? ==>
          && s.calls[e.call].status.Returned? && s.calls[e.call].status.pos < |s.ops|
          && s.ops[s.calls[e.call].status.pos].out == e.out)
  }

  /** A call that returned before another began stands in front of the other's arrival. */
  ghost predicate PairOk<B, I(!new)>(s: State<B, I>, i: nat, j: nat)
    requires i < j < |s.history|
  {
    var a, b := s.history[i], s.history[j];
    && (a.Return? && b.Invoke? ==>
          a.call in s.calls && HasPos(s.calls[a.call].status) && b.call in s.calls
          && s.calls[a.call].status.pos < s.calls[b.call].arrival)
    && (a.Return? && b.Return? ==> a.call != b.call)
  }

  ghost predicate HistoryOk<B, I(!new)>(s: State<B, I>) {
    && (forall i | 0 <= i < |s.history| :: EventOk(s, i))
    && (forall i, j | 0 <= i < j < |s.history| :: PairOk(s, i, j))
  }

  ghost predicate Inv<B, I(!new)>(be: Backend<B, I>, s: State<B, I>) {
    && !s.fault
    && Q.Inv(s.queue)
    && CallsOk(s) && CellsOk(s) && ClientsOk(s) && DaemonOk(s)
    && OpsOk(be, s) && InsertedOk(s) && HeapOk(s) && HistoryOk(s)
  }

  lemma InitInv<B, I(!new)>(be: Backend<B, I>)
    ensures Inv(be, Init(be))
  {
    Q.InitInv<Call>();
    Q.EnterKeepsInv(Q.Init<Call>(), DAEMON, Q.PopWait);
  }

  // ---------- frames ----------

  /** What no action ever undoes. */
  ghost predicate Evolves<B, I(!new)>(s: State<B, I>, s': State<B, I>) {
    && s.ops <= s'.ops && s.queue.inserted <= s'.queue.inserted && s.history <= s'.history
    && s.nextUnique <= s'.nextUnique
    && forall call :: call in s.calls ==> call in s'.calls && Older(s.calls[call], s'.calls[call])
  }

  ghost predicate Older<I>(t: Trace<I>, t': Trace<I>) {
    && t' == t.(status := t'.status)
    && (HasPos(t.status) ==> HasPos(t'.status) && t'.status.pos == t.status.pos)
    && (t.status.Returned? ==> t'.status == t.status)
  }

  /** The step leaves alone everything this call's condition speaks about. */
  ghost predicate SameFor<B, I>(s: State<B, I>, s': State<B, I>, call: Call)
    requires call in s.calls
  {
    var t := s.calls[call];
    && call in s'.calls && s'.calls[call] == t
    && (call in s.cells <==> call in s'.cells)
    && (call in s.cells ==>
          && s'.cells[call] == s.cells[call]
          && (s.cells[call].data.Some? && s.cells[call].data.value in s.heap ==>
                s.cells[call].data.value in s'.heap
                && s'.heap[s.cells[call].data.value] == s.heap[s.cells[call].data.value])
          && ClientOf(s', t.client) == ClientOf(s, t.client)
          && QPc(s', t.client) == QPc(s, t.client))
    && (t.status.Queued? ==> t.status.pos >= |s'.ops|)
    && (t.status.Answering? ==> s'.daemon == s.daemon && s'.ops == s.ops)
  }

  lemma CallFrame<B, I(!new)>(s: State<B, I>, s': State<B, I>, call: Call)
    requires call in s.calls && CallOk(s, call) && SameFor(s, s', call)
    requires s.ops <= s'.ops && s.queue.inserted <= s'.queue.inserted && s.history <= s'.history
    requires s.nextUnique <= s'.nextUnique
    ensures CallOk(s', call)
  {
  }

  lemma HistoryFrame<B, I(!new)>(s: State<B, I>, s': State<B, I>)
    requires HistoryOk(s) && Evolves(s, s') && s'.history == s.history
    ensures HistoryOk(s')
  {
    forall i | 0 <= i < |s'.history| ensures EventOk(s', i) { assert EventOk(s, i); }
    forall i, j | 0 <= i < j < |s'.history| ensures PairOk(s', i, j) { assert PairOk(s, i, j); }
  }

  lemma OpsFrame<B, I(!new)>(be: Backend<B, I>, s: State<B, I>, s': State<B, I>)
    requires OpsOk(be, s) && Evolves(s, s') && s'.ops == s.ops && s'.backend == s.backend
    ensures OpsOk(be, s')
  {
    forall k | 0 <= k < |s'.ops| ensures OpOk(s', k) { assert OpOk(s, k); }
  }

  lemma InsertedFrame<B, I(!new)>(s: State<B, I>, s': State<B, I>)
    requires InsertedOk(s) && Evolves(s, s') && s'.queue.inserted == s.queue.inserted
    ensures InsertedOk(s')
  {
    forall k | 0 <= k < |s'.queue.inserted| ensures SlotOk(s', k) { assert SlotOk(s, k); }
  }

  /** Everything but the calls and the daemon, for actions that record no event, run no handler,
      insert nothing and leave the buffers alone. */
  lemma RestFrame<B, I(!new)>(be: Backend<B, I>, s: State<B, I>, s': State<B, I>)
    requires OpsOk(be, s) && InsertedOk(s) && HeapOk(s) && HistoryOk(s)
    requires Evolves(s, s') && s'.history == s.history && s'.ops == s.ops && s'.backend == s.backend
    requires s'.queue.inserted == s.queue.inserted && s'.heap == s.heap && s'.nextBuf == s.nextBuf
    requires forall call :: call in s.cells ==> call in s'.cells && s'.cells[call].data == s.cells[call].data
    ensures OpsOk(be, s') && InsertedOk(s') && HeapOk(s') && HistoryOk(s')
  {
    HistoryFrame(s, s');
    OpsFrame(be, s, s');
    InsertedFrame(s, s');
    forall b | b in s'.heap ensures BufOk(s', b) { assert BufOk(s, b); }
  }

  // ---------- one lemma per action ----------

  lemma BeginKeeps<B, I(!new)>(be: Backend<B, I>, s: State<B, I>, c: Cid, input: I)
    requires Inv(be, s) && Enabled(s, Begin(c, input))
    ensures Inv(be, DoBegin(s, c, input))
  {
    var s' := DoBegin(s, c, input);
    assert ClientOk(s, c);
    Q.EnterKeepsInv(s.queue, c, Q.PushWant(s.nextUnique));
    BeginCalls(s, c, input);
    BeginHistory(s, c, input);
    assert DaemonOk(s') by { assert QPc(s', DAEMON) == QPc(s, DAEMON); }
    assert Evolves(s, s');
    OpsFrame(be, s, s');
    InsertedFrame(s, s');
  }

  lemma BeginOther<B, I(!new)>(s: State<B, I>, c: Cid, input: I, call: Call)
    requires call in s.calls && CallOk(s, call) && Enabled(s, Begin(c, input))
    ensures call < s.nextUnique && CallOk(DoBegin(s, c, input), call)
  {
    CallFrame(s, DoBegin(s, c, input), call);
  }

  lemma BeginClient<B, I(!new)>(s: State<B, I>, c: Cid, input: I, d: Cid)
    requires ClientOk(s, d) && Enabled(s, Begin(c, input)) && s.nextUnique !in s.calls
    ensures ClientOk(DoBegin(s, c, input), d)
  {
  }

  lemma BeginMine<B, I(!new)>(s: State<B, I>, c: Cid, input: I)
    requires Enabled(s, Begin(c, input)) && s.nextUnique !in s.calls
    ensures CallOk(DoBegin(s, c, input), s.nextUnique)
  {
  }

  lemma BeginHeap<B, I(!new)>(s: State<B, I>, c: Cid, input: I)
    requires HeapOk(s) && CellsOk(s) && Enabled(s, Begin(c, input)) && s.nextUnique !in s.calls
    ensures HeapOk(DoBegin(s, c, input)) && CellsOk(DoBegin(s, c, input))
  {
    var s' := DoBegin(s, c, input);
    forall b | b in s'.heap ensures BufOk(s', b) { assert BufOk(s, b); }
  }

  lemma BeginCalls<B, I(!new)>(s: State<B, I>, c: Cid, input: I)
    requires CallsOk(s) && CellsOk(s) && ClientsOk(s) && HeapOk(s) && Enabled(s, Begin(c, input))
    ensures s.nextUnique !in s.calls
    ensures var s' := DoBegin(s, c, input); CallsOk(s') && CellsOk(s') && ClientsOk(s') && HeapOk(s')
  {
    hide CallOk, ClientOk, CellsOk, HeapOk;
    var s' := DoBegin(s, c, input);
    forall call | call in s.calls ensures call < s.nextUnique && CallOk(s', call) { BeginOther(s, c, input, call); }
    BeginMine(s, c, input);
    BeginHeap(s, c, input);
    forall d: Cid ensures ClientOk(s', d) { BeginClient(s, c, input, d); }
  }

  lemma BeginHistory<B, I(!new)>(s: State<B, I>, c: Cid, input: I)
    requires CallsOk(s) && HistoryOk(s) && Enabled(s, Begin(c, input)) && s.nextUnique !in s.calls
    ensures HistoryOk(DoBegin(s, c, input))
  {
    var s' := DoBegin(s, c, input);
    forall i | 0 <= i < |s'.history| ensures EventOk(s', i) {
      if i < |s.history| { assert EventOk(s, i); }
    }
    forall i, j | 0 <= i < j < |s'.history| ensures PairOk(s', i, j) {
      assert EventOk(s, i);
      if j < |s.history| { assert PairOk(s, i, j); }
      else if s.history[i].Return? { assert CallOk(s, s.history[i].call); }
    }
  }

  lemma GoKeeps<B, I(!new)>(be: Backend<B, I>, s: State<B, I>, t: Cid)
    requires Inv(be, s) && Enabled(s, Go(t))
    ensures Inv(be, DoGo(s, t))
  {
    Q.StepKeepsInv(s.queue, t);
    assert ClientOk(s, t);
    if t == DAEMON { DaemonGoKeeps(be, s); }
    else {
      assert CallOk(s, ClientOf(s, t).call);
      ClientGoKeeps(be, s, t, ClientOf(s, t).call);
    }
  }

  lemma DaemonGoKeeps<B, I(!new)>(be: Backend<B, I>, s: State<B, I>)
    requires Inv(be, s) && Enabled(s, Go(DAEMON)) && Q.Inv(Q.Next(s.queue, DAEMON))
    ensures Inv(be, DoGo(s, DAEMON))
  {
    var s' := DoGo(s, DAEMON);
    assert s'.calls == s.calls && s'.queue.inserted == s.queue.inserted;
    assert DaemonOk(s');
    DaemonMoveCalls(s, s');
    RestFrame(be, s, s');
  }

  /** The daemon moving inside the queue, or between queue and loop, concerns no client. */
  lemma DaemonMoveCalls<B, I(!new)>(s: State<B, I>, s': State<B, I>)
    requires CallsOk(s) && CellsOk(s) && ClientsOk(s)
    requires s'.daemon == s.daemon || (!s.daemon.Served? && !s.daemon.Written?)
    requires s' == s.(queue := s'.queue, daemon := s'.daemon)
    requires s'.queue.inserted == s.queue.inserted
    requires s'.queue.pc == s.queue.pc[DAEMON := QPc(s', DAEMON)]
    ensures CallsOk(s') && CellsOk(s') && ClientsOk(s')
  {
    forall call | call in s.calls ensures CallOk(s', call) {
      assert CallOk(s, call);
      CallFrame(s, s', call);
    }
    forall c: Cid ensures ClientOk(s', c) { assert ClientOk(s, c); }
  }

  lemma ClientGoKeeps<B, I(!new)>(be: Backend<B, I>, s: State<B, I>, t: Cid, mine: Call)
    requires Inv(be, s) && Enabled(s, Go(t)) && t != DAEMON && Q.Inv(Q.Next(s.queue, t))
    requires mine in s.calls && ClientOf(s, t) == Waiting(mine) && s.calls[mine].client == t
    requires CallOk(s, mine) && mine in s.cells
    ensures Inv(be, DoGo(s, t))
  {
    var s' := DoGo(s, t);
    ClientStep(s, t, mine);
    assert |s.ops| <= |s.queue.removed| <= |s.queue.inserted|;
    ClientGoCalls(s, s', t, mine);
    ClientGoRest(be, s, s', mine);
  }

  /** What a client's step inside push does to the shared state. */
  ghost predicate Pushes<B, I>(s: State<B, I>, s': State<B, I>, t: Cid, mine: Call) {
    && s' == s.(queue := s'.queue, calls := s'.calls)
    && s'.queue.pc == s.queue.pc[t := QPc(s', t)]
    && s'.queue.removed == s.queue.removed
    && if QPc(s, t) == Q.PushCrit(mine) then
         && s'.queue.inserted == s.queue.inserted + [mine] && QPc(s', t) == Q.PushInserted(mine)
         && s'.calls == SetStatus(s, mine, Queued(|s.queue.inserted|))
       else
         && s'.queue.inserted == s.queue.inserted && s'.calls == s.calls
         && ((QPc(s, t) == Q.PushWant(mine) && QPc(s', t) == Q.PushCrit(mine))
             || (QPc(s, t) == Q.PushInserted(mine) && QPc(s', t) == Q.PushUp(mine))
             || (QPc(s, t) == Q.PushUp(mine) && QPc(s', t) == Q.Idle))
  }

  lemma ClientStep<B, I(!new)>(s: State<B, I>, t: Cid, mine: Call)
    requires Enabled(s, Go(t)) && t != DAEMON && mine in s.calls && CallOk(s, mine) && mine in s.cells
    requires ClientOf(s, t) == Waiting(mine) && s.calls[mine].client == t
    ensures Pushes(s, DoGo(s, t), t, mine)
    ensures s.calls[mine].status.Building? <==> QPc(s, t).PushWant? || QPc(s, t).PushCrit?
  {
  }

  lemma ClientGoCalls<B, I(!new)>(s: State<B, I>, s': State<B, I>, t: Cid, mine: Call)
    requires CallsOk(s) && CellsOk(s) && ClientsOk(s) && Pushes(s, s', t, mine)
    requires t != DAEMON && |s.ops| <= |s.queue.inserted|
    requires mine in s.calls && ClientOf(s, t) == Waiting(mine) && s.calls[mine].client == t
    requires CallOk(s, mine)
    requires s.calls[mine].status.Building? <==> QPc(s, t).PushWant? || QPc(s, t).PushCrit?
    ensures CallsOk(s') && CellsOk(s') && ClientsOk(s')
  {
    ClientGoMine(s, s', t, mine);
    assert s'.calls.Keys == s.calls.Keys && s'.cells == s.cells;
    hide CallOk, ClientOk, Pushes;
    forall call | call in s.calls ensures CallOk(s', call) {
      assert CallOk(s, call);
      if call != mine { ClientGoOther(s, s', t, mine, call); }
    }
    forall c: Cid ensures ClientOk(s', c) { assert ClientOk(s, c); ClientGoThread(s, s', t, mine, c); }
  }

  lemma ClientGoOther<B, I(!new)>(s: State<B, I>, s': State<B, I>, t: Cid, mine: Call, call: Call)
    requires Pushes(s, s', t, mine) && mine in s.calls && ClientOf(s, t) == Waiting(mine) && s.calls[mine].client == t
    requires call in s.calls && call != mine && CallOk(s, call)
    ensures call in s'.calls && CallOk(s', call)
  {
    CallFrame(s, s', call);
  }

  lemma ClientGoThread<B, I(!new)>(s: State<B, I>, s': State<B, I>, t: Cid, mine: Call, c: Cid)
    requires Pushes(s, s', t, mine) && mine in s.calls && ClientOf(s, t) == Waiting(mine) && ClientOk(s, c)
    ensures ClientOk(s', c)
  {
  }

  lemma ClientGoMine<B, I(!new)>(s: State<B, I>, s': State<B, I>, t: Cid, mine: Call)
    requires t != DAEMON && |s.ops| <= |s.queue.inserted| && Pushes(s, s', t, mine)
    requires mine in s.calls && ClientOf(s, t) == Waiting(mine) && s.calls[mine].client == t
    requires CallOk(s, mine)
    requires s.calls[mine].status.Building? <==> QPc(s, t).PushWant? || QPc(s, t).PushCrit?
    ensures CallOk(s', mine)
  {
  }

  lemma ClientGoRest<B, I(!new)>(be: Backend<B, I>, s: State<B, I>, s': State<B, I>, mine: Call)
    requires mine in s.calls && s.calls[mine].client != DAEMON
    requires Pushes(s, s', s.calls[mine].client, mine)
    requires s.calls[mine].status.Building? <==>
             QPc(s, s.calls[mine].client).PushWant? || QPc(s, s.calls[mine].client).PushCrit?
    requires DaemonOk(s) && OpsOk(be, s) && InsertedOk(s) && HeapOk(s) && HistoryOk(s)
    ensures DaemonOk(s') && OpsOk(be, s') && InsertedOk(s') && HeapOk(s') && HistoryOk(s')
  {
    assert DaemonOk(s') by { assert QPc(s', DAEMON) == QPc(s, DAEMON); }
    assert Evolves(s, s');
    HistoryFrame(s, s');
    OpsFrame(be, s, s');
    forall k | 0 <= k < |s'.queue.inserted| ensures SlotOk(s', k) { if k < |s.queue.inserted| { assert SlotOk(s, k); } }
    forall b | b in s'.heap ensures BufOk(s', b) { assert BufOk(s, b); }
  }

  lemma WakeKeeps<B, I(!new)>(be: Backend<B, I>, s: State<B, I>, c: Cid)
    requires Inv(be, s) && Enabled(s, Wake(c))
    ensures Inv(be, DoWake(s, c))
  {
    var s' := DoWake(s, c);
    assert ClientOk(s, c);
    WakeCalls(s, c, ClientOf(s, c).call);
    assert DaemonOk(s');
    RestFrame(be, s, s');
  }

  lemma WakeCalls<B, I(!new)>(s: State<B, I>, c: Cid, mine: Call)
    requires CallsOk(s) && CellsOk(s) && ClientsOk(s) && Enabled(s, Wake(c))
    requires ClientOf(s, c) == Waiting(mine) && mine in s.calls && s.calls[mine].client == c
    ensures s.calls[mine].status.Signalled?
    ensures var s' := DoWake(s, c); CallsOk(s') && CellsOk(s') && ClientsOk(s')
  {
    var s' := DoWake(s, c);
    assert CallOk(s, mine);
    assert CallOk(s', mine);
    forall call | call in s.calls ensures CallOk(s', call) {
      assert CallOk(s, call);
      if call != mine { CallFrame(s, s', call); }
    }
    forall d: Cid ensures ClientOk(s', d) { assert ClientOk(s, d); }
  }

  lemma CollectKeeps<B, I(!new)>(be: Backend<B, I>, s: State<B, I>, c: Cid)
    requires Inv(be, s) && Enabled(s, Collect(c))
    ensures Inv(be, DoCollect(s, c))
  {
    var s' := DoCollect(s, c);
    assert ClientOk(s, c);
    var mine := ClientOf(s, c).call;
    assert CallOk(s, mine);
    assert OpOk(s, s.calls[mine].status.pos);
    CollectCalls(s, c, mine);
    assert DaemonOk(s');
    assert Evolves(s, s');
    CollectHistory(s, c, mine);
    OpsFrame(be, s, s');
    InsertedFrame(s, s');
  }

  lemma CollectCalls<B, I(!new)>(s: State<B, I>, c: Cid, mine: Call)
    requires CallsOk(s) && CellsOk(s) && ClientsOk(s) && HeapOk(s) && Enabled(s, Collect(c))
    requires ClientOf(s, c) == Woken(mine) && mine in s.calls && s.calls[mine].client == c
    requires CallOk(s, mine) && s.calls[mine].status.Collecting?
    requires s.cells[mine].error != 0 ==> s.cells[mine].data == None
    ensures Seen(s, mine) == s.ops[s.calls[mine].status.pos].out
    ensures var s' := DoCollect(s, c);
      !(s'.fault && !s.fault) && CallsOk(s') && CellsOk(s') && ClientsOk(s') && HeapOk(s')
  {
    var s' := DoCollect(s, c);
    CollectMine(s, c, mine);
    hide DoCollect, CallOk, ClientOk, BufOk, Enabled, Seen;
    forall call | call in s.calls ensures CallOk(s', call) {
      assert CallOk(s, call);
      if call != mine { CollectOther(s, c, mine, call); }
    }
    forall b | b in s'.heap ensures BufOk(s', b) { CollectBuffer(s, c, mine, b); }
    forall d: Cid ensures ClientOk(s', d) { assert ClientOk(s, d); CollectClient(s, c, mine, d); }
  }

  lemma CollectMine<B, I(!new)>(s: State<B, I>, c: Cid, mine: Call)
    requires CellsOk(s) && Enabled(s, Collect(c)) && ClientOf(s, c) == Woken(mine) && mine in s.calls && s.calls[mine].client == c
    requires CallOk(s, mine) && s.calls[mine].status.Collecting?
    requires s.cells[mine].error != 0 ==> s.cells[mine].data == None
    ensures Seen(s, mine) == s.ops[s.calls[mine].status.pos].out
    ensures var s' := DoCollect(s, c); !(s'.fault && !s.fault) && CellsOk(s') && s'.calls.Keys == s.calls.Keys && CallOk(s', mine)
  {
  }

  lemma CollectOther<B, I(!new)>(s: State<B, I>, c: Cid, mine: Call, call: Call)
    requires Enabled(s, Collect(c)) && ClientOf(s, c) == Woken(mine) && mine in s.calls && s.calls[mine].client == c
    requires CallOk(s, mine) && s.calls[mine].status.Collecting?
    requires call in s.calls && call != mine && CallOk(s, call)
    ensures call in DoCollect(s, c).calls && CallOk(DoCollect(s, c), call)
  {
    CallFrame(s, DoCollect(s, c), call);
  }

  lemma CollectBuffer<B, I(!new)>(s: State<B, I>, c: Cid, mine: Call, b: nat)
    requires HeapOk(s) && Enabled(s, Collect(c)) && ClientOf(s, c) == Woken(mine) && mine in s.calls
    requires CallOk(s, mine) && s.calls[mine].status.Collecting? && b in DoCollect(s, c).heap
    requires s.cells[mine].error != 0 ==> s.cells[mine].data == None
    ensures BufOk(DoCollect(s, c), b)
  {
    assert BufOk(s, b);
  }

  lemma CollectClient<B, I(!new)>(s: State<B, I>, c: Cid, mine: Call, d: Cid)
    requires Enabled(s, Collect(c)) && ClientOf(s, c) == Woken(mine) && mine in s.calls && s.calls[mine].client == c
    requires CallOk(s, mine) && s.calls[mine].status.Collecting? && ClientOk(s, d)
    ensures ClientOk(DoCollect(s, c), d)
  {
  }

  lemma CollectHistory<B, I(!new)>(s: State<B, I>, c: Cid, mine: Call)
    requires HistoryOk(s) && Enabled(s, Collect(c)) && ClientOf(s, c) == Woken(mine)
    requires mine in s.calls && CallOk(s, mine) && s.calls[mine].status.Collecting?
    requires Seen(s, mine) == s.ops[s.calls[mine].status.pos].out
    ensures HistoryOk(DoCollect(s, c))
  {
    var s' := DoCollect(s, c);
    forall i | 0 <= i < |s'.history| ensures EventOk(s', i) {
      if i < |s.history| { assert EventOk(s, i); }
    }
    forall i, j | 0 <= i < j < |s'.history| ensures PairOk(s', i, j) {
      assert EventOk(s, i);
      if j < |s.history| { assert PairOk(s, i, j); }
    }
  }

  lemma TakeKeeps<B, I(!new)>(be: Backend<B, I>, s: State<B, I>)
    requires Inv(be, s) && Enabled(s, Action<I>.Take)
    ensures Inv(be, Do(be, s, Action<I>.Take))
  {
    var s' := Do(be, s, Action<I>.Take);
    Q.EnterKeepsInv(s.queue, DAEMON, Q.Idle);
    assert DaemonOk(s');
    DaemonMoveCalls(s, s');
    RestFrame(be, s, s');
  }

  lemma AgainKeeps<B, I(!new)>(be: Backend<B, I>, s: State<B, I>)
    requires Inv(be, s) && Enabled(s, Action<I>.Again)
    ensures Inv(be, Do(be, s, Action<I>.Again))
  {
    var s' := Do(be, s, Action<I>.Again);
    Q.EnterKeepsInv(s.queue, DAEMON, Q.PopWait);
    assert DaemonOk(s');
    DaemonMoveCalls(s, s');
    RestFrame(be, s, s');
  }

  lemma HandleKeeps<B, I(!new)>(be: Backend<B, I>, s: State<B, I>, memOk: bool)
    requires Inv(be, s) && Enabled(s, Action<I>.Handle(memOk))
    ensures Inv(be, DoHandle(be, s, memOk))
  {
    var s' := DoHandle(be, s, memOk);
    var n, mine := |s.ops|, s.daemon.call;
    assert s.queue.inserted[n] == mine;
    assert SlotOk(s, n);
    assert CallOk(s, mine);
    assert s.calls[mine].status == Queued(n);
    HandleCalls(be, s, memOk);
    assert DaemonOk(s');
    assert Evolves(s, s');
    HistoryFrame(s, s');
    InsertedFrame(s, s');
    HandleOps(be, s, memOk);
  }

  lemma HandleCalls<B, I(!new)>(be: Backend<B, I>, s: State<B, I>, memOk: bool)
    requires CallsOk(s) && CellsOk(s) && ClientsOk(s) && HeapOk(s) && Enabled(s, Action<I>.Handle(memOk))
    requires s.daemon.call in s.calls && s.calls[s.daemon.call].status == Queued(|s.ops|)
    requires InsertedOk(s)
    ensures var s' := DoHandle(be, s, memOk);
      CallsOk(s') && CellsOk(s') && ClientsOk(s') && HeapOk(s') && s'.fault == s.fault
  {
    var s' := DoHandle(be, s, memOk);
    var mine := s.daemon.call;
    assert CallOk(s, mine);
    HandleMine(be, s, memOk, mine);
    assert mine in s.cells;
    hide CallOk, ClientOk, BufOk, DoHandle;
    forall call | call in s.calls ensures CallOk(s', call) {
      assert CallOk(s, call);
      if call != mine { HandleOther(be, s, memOk, mine, call); }
    }
    forall b | b in s'.heap ensures BufOk(s', b) {
      assert BufOk(s, b);
      HandleBuffer(be, s, memOk, mine, b);
    }
    forall d: Cid ensures ClientOk(s', d) {
      assert ClientOk(s, d);
      HandleThread(be, s, memOk, mine, d);
    }
  }

  lemma HandleMine<B, I(!new)>(be: Backend<B, I>, s: State<B, I>, memOk: bool, mine: Call)
    requires CellsOk(s) && s.daemon == Got(mine) && mine in s.calls && s.calls[mine].status == Queued(|s.ops|) && CallOk(s, mine)
    ensures var s' := DoHandle(be, s, memOk);
      && s'.calls.Keys == s.calls.Keys && s'.heap == s.heap && s'.fault == s.fault && CellsOk(s') && CallOk(s', mine)
  {
  }

  lemma HandleOther<B, I(!new)>(be: Backend<B, I>, s: State<B, I>, memOk: bool, mine: Call, call: Call)
    requires s.daemon == Got(mine) && mine in s.calls && s.calls[mine].status == Queued(|s.ops|) && CallOk(s, mine)
    requires call in s.calls && call != mine && CallOk(s, call)
    ensures call in DoHandle(be, s, memOk).calls && CallOk(DoHandle(be, s, memOk), call)
  {
    CallFrame(s, DoHandle(be, s, memOk), call);
  }

  lemma HandleBuffer<B, I(!new)>(be: Backend<B, I>, s: State<B, I>, memOk: bool, mine: Call, b: nat)
    requires s.daemon == Got(mine) && mine in s.calls && mine in s.cells && b in s.heap && BufOk(s, b)
    ensures b in DoHandle(be, s, memOk).heap && BufOk(DoHandle(be, s, memOk), b)
  {
  }

  lemma HandleThread<B, I(!new)>(be: Backend<B, I>, s: State<B, I>, memOk: bool, mine: Call, d: Cid)
    requires s.daemon == Got(mine) && mine in s.calls && mine in s.cells && ClientOk(s, d)
    ensures ClientOk(DoHandle(be, s, memOk), d)
  {
  }

  lemma HandleOps<B, I(!new)>(be: Backend<B, I>, s: State<B, I>, memOk: bool)
    requires OpsOk(be, s) && Enabled(s, Action<I>.Handle(memOk)) && s.daemon.call in s.cells
    requires s.daemon.call in s.calls && s.cells[s.daemon.call].input == s.calls[s.daemon.call].input
    requires |s.ops| < |s.queue.inserted| && s.queue.inserted[|s.ops|] == s.daemon.call
    ensures OpsOk(be, DoHandle(be, s, memOk))
  {
    var s' := DoHandle(be, s, memOk);
    var n := |s.ops|;
    assert s'.ops[..n] == s.ops;
    forall k | 0 <= k < |s'.ops|
      ensures OpOk(s', k)
      ensures s'.ops[k].out == Deliver(Serve(be, After(be, s'.ops[..k]), s'.ops[k].input).1, s'.ops[k].memOk)
    {
      if k < n {
        assert OpOk(s, k);
        assert s'.ops[..k] == s.ops[..k];
      }
    }
  }

  lemma WriteKeeps<B, I(!new)>(be: Backend<B, I>, s: State<B, I>)
    requires Inv(be, s) && Enabled(s, Action<I>.Write)
    ensures Inv(be, DoWrite(s))
  {
    hide CallsOk, CellsOk, ClientsOk, OpsOk, InsertedOk, HeapOk, HistoryOk;
    WriteCalls(s);
    WriteRest(be, s);
  }

  lemma WriteRest<B, I(!new)>(be: Backend<B, I>, s: State<B, I>)
    requires s.daemon.Served? && s.daemon.call in s.cells
    requires DaemonOk(s) && OpsOk(be, s) && InsertedOk(s) && HistoryOk(s)
    ensures var s' := DoWrite(s); DaemonOk(s') && OpsOk(be, s') && InsertedOk(s') && HistoryOk(s')
    ensures DoWrite(s).queue == s.queue
  {
    hide OpsOk, InsertedOk, HistoryOk;
    var s' := DoWrite(s);
    HistoryFrame(s, s');
    OpsFrame(be, s, s');
    InsertedFrame(s, s');
  }

  lemma WriteOther<B, I(!new)>(s: State<B, I>, call: Call)
    requires call in s.calls && CallOk(s, call) && s.daemon.Served? && call != s.daemon.call
    requires s.daemon.call in s.cells && s.nextBuf !in s.heap
    requires !s.calls[call].status.Answering?
    ensures CallOk(DoWrite(s), call)
  {
    CallFrame(s, DoWrite(s), call);
  }

  lemma WriteClient<B, I(!new)>(s: State<B, I>, d: Cid)
    requires ClientOk(s, d) && s.daemon.Served? && s.daemon.call in s.cells
    ensures ClientOk(DoWrite(s), d)
  {
  }

  lemma NotAnswered<B, I(!new)>(s: State<B, I>, call: Call)
    requires call in s.calls && CallOk(s, call) && (s.daemon.Served? || s.daemon.Written?) && call != s.daemon.call
    ensures !s.calls[call].status.Answering?
  {
  }

  lemma WriteCalls<B, I(!new)>(s: State<B, I>)
    requires CallsOk(s) && CellsOk(s) && ClientsOk(s) && HeapOk(s) && s.daemon.Served?
    requires s.daemon.call in s.calls && s.calls[s.daemon.call].status.Answering?
    ensures s.daemon.call in s.cells
    ensures var s' := DoWrite(s);
      CallsOk(s') && CellsOk(s') && ClientsOk(s') && HeapOk(s') && s'.fault == s.fault
  {
    hide CallOk, ClientOk, HeapOk;
    var s' := DoWrite(s);
    var mine := s.daemon.call;
    assert CallOk(s, mine);
    WriteMine(s, mine);
    WriteHeap(s, mine);
    forall call | call in s.calls ensures CallOk(s', call) {
      if call != mine {
        NotAnswered(s, call);
        WriteOther(s, call);
      }
    }
    forall d: Cid ensures ClientOk(s', d) { WriteClient(s, d); }
  }

  lemma BufAt<B, I(!new)>(s: State<B, I>, b: nat)
    requires HeapOk(s) && b in s.heap
    ensures BufOk(s, b)
  {
  }

  lemma WriteHeap<B, I(!new)>(s: State<B, I>, mine: Call)
    requires HeapOk(s) && s.daemon.Served? && s.daemon.call == mine && mine in s.cells && s.cells[mine].data == None
    ensures s.nextBuf !in s.heap && HeapOk(DoWrite(s))
  {
    var s' := DoWrite(s);
    if s.nextBuf in s.heap { BufAt(s, s.nextBuf); }
    forall b | b in s'.heap ensures BufOk(s', b) { if b in s.heap { assert BufOk(s, b); } }
  }

  lemma WriteMine<B, I(!new)>(s: State<B, I>, mine: Call)
    requires s.daemon.Served? && s.daemon.call == mine && mine in s.calls
    requires s.calls[mine].status.Answering? && CallOk(s, mine)
    ensures mine in s.cells && s.cells[mine].data == None
    ensures DoWrite(s).fault == s.fault && CallOk(DoWrite(s), mine)
  {
  }

  lemma SignalKeeps<B, I(!new)>(be: Backend<B, I>, s: State<B, I>)
    requires Inv(be, s) && Enabled(s, Action<I>.Signal)
    ensures Inv(be, DoSignal(s))
  {
    hide CallsOk, CellsOk, ClientsOk, OpsOk, InsertedOk, HeapOk, HistoryOk;
    SignalCalls(s);
    SignalRest(be, s);
  }

  lemma SignalRest<B, I(!new)>(be: Backend<B, I>, s: State<B, I>)
    requires s.daemon.Written? && s.daemon.call in s.cells
    requires DaemonOk(s) && OpsOk(be, s) && InsertedOk(s) && HeapOk(s) && HistoryOk(s)
    ensures var s' := DoSignal(s);
      DaemonOk(s') && OpsOk(be, s') && InsertedOk(s') && HeapOk(s') && HistoryOk(s') && s'.queue == s.queue
  {
    hide OpsOk, InsertedOk, HeapOk, HistoryOk;
    RestFrame(be, s, DoSignal(s));
  }

  lemma SignalMine<B, I(!new)>(s: State<B, I>, mine: Call)
    requires s.daemon.Written? && s.daemon.call == mine && mine in s.calls
    requires s.calls[mine].status.Answering? && CallOk(s, mine)
    ensures mine in s.cells && DoSignal(s).fault == s.fault && CallOk(DoSignal(s), mine)
  {
  }

  lemma SignalOther<B, I(!new)>(s: State<B, I>, call: Call)
    requires call in s.calls && CallOk(s, call) && s.daemon.Written? && call != s.daemon.call
    requires s.daemon.call in s.cells && !s.calls[call].status.Answering?
    ensures CallOk(DoSignal(s), call)
  {
    CallFrame(s, DoSignal(s), call);
  }

  lemma SignalClient<B, I(!new)>(s: State<B, I>, d: Cid)
    requires ClientOk(s, d) && s.daemon.Written? && s.daemon.call in s.cells
    ensures ClientOk(DoSignal(s), d)
  {
  }

  lemma SignalCalls<B, I(!new)>(s: State<B, I>)
    requires CallsOk(s) && CellsOk(s) && ClientsOk(s) && s.daemon.Written?
    requires s.daemon.call in s.calls && s.calls[s.daemon.call].status.Answering?
    ensures s.daemon.call in s.cells
    ensures var s' := DoSignal(s);
      CallsOk(s') && CellsOk(s') && ClientsOk(s') && s'.fault == s.fault
  {
    hide CallOk, ClientOk;
    var s' := DoSignal(s);
    var mine := s.daemon.call;
    assert CallOk(s, mine);
    SignalMine(s, mine);
    forall call | call in s.calls ensures CallOk(s', call) {
      if call != mine {
        NotAnswered(s, call);
        SignalOther(s, call);
      }
    }
    forall d: Cid ensures ClientOk(s', d) { SignalClient(s, d); }
  }
}

/** The request/reply protocol between the file-system driver and the daemon thread.

    Clients (libs/ukfusefs/ukfs-fuse.c) put a request object that lives on their own stack
    into the queue and block on its `done` semaphore.  The daemon (libs/ukfusefs/fuse_daemon.c)
    pops requests, runs a backend handler, and one of the reply functions of
    libs/libfuse/lib/fuse_lowlevel.c writes the reply fields, allocates the reply buffer and
    ups `done`.  The client then frees the buffer and returns.

    The state machine interleaves the micro steps of any number of clients and one daemon.
    The queue is the one of module RequestQueue, with the daemon as thread 0.  `fault` records
    that the daemon touched a request whose client had returned, or that a buffer was freed
    that is not allocated. */
module Protocol {
  import opened Wrappers
  import Q = RequestQueue

  type Call = nat
  type Cid = nat

  const DAEMON: Cid := 0

  /** What a handler answers: fuse_reply_err, or one of the replies that carry a buffer. */
  datatype Reply = Fail(errno: int) | Data(bytes: seq<byte>)

  /** What the client finds in its request: the error field and the reply buffer's bytes. */
  datatype Outcome = Outcome(error: int, data: Option<seq<byte>>)

  /** A deterministic file system with a state of its own; `known` tells the five opcodes of
      the dispatch table from the rest. */
  datatype Backend<!B, !I> = Backend(init: B, known: I -> bool, handle: (B, I) -> (B, Reply))

  function Serve<B, I>(be: Backend<B, I>, b: B, input: I): (B, Reply) {
    if be.known(input) then be.handle(b, input) else (b, Fail(ENOSYS))
  }

  /** The reply fields, given whether the reply function's allocation succeeded. */
  function Deliver(reply: Reply, memOk: bool): Outcome {
    match reply
    case Fail(errno) => Outcome(-errno, None)
    case Data(bytes) =>
      if memOk then Outcome(0, Some(bytes))
      else Outcome(if bytes == [] then 0 else -ENOMEM, None)
  }

  // ---------- the sequential reference ----------

  /** One operation of a sequential run: the call, its input, whether memory was available, and
      the outcome it got. */
  datatype Op<I> = Op(call: Call, input: I, memOk: bool, out: Outcome)

  function After<B, I>(be: Backend<B, I>, ops: seq<Op<I>>): B {
    if ops == [] then be.init
    else Serve(be, After(be, ops[..|ops|-1]), ops[|ops|-1].input).0
  }

  /** Each operation got what a sequential execution of the backend, in this order, gives it. */
  ghost predicate Sequential<B, I>(be: Backend<B, I>, ops: seq<Op<I>>) {
    forall k | 0 <= k < |ops| ::
      ops[k].out == Deliver(Serve(be, After(be, ops[..k]), ops[k].input).1, ops[k].memOk)
  }

  datatype Event<I> =
    | Invoke(call: Call, client: Cid, input: I)
    | Return(call: Call, client: Cid, out: Outcome)

  ghost predicate Invoked<I(!new)>(h: seq<Event<I>>, op: Op<I>) {
    exists i :: 0 <= i < |h| && h[i].Invoke? && h[i].call == op.call && h[i].input == op.input
  }

  ghost predicate Answered<I(!new)>(ops: seq<Op<I>>, e: Event<I>)
    requires e.Return?
  {
    exists k :: 0 <= k < |ops| && ops[k].call == e.call && ops[k].out == e.out
  }

  /** In state b the file system gives this operation its outcome and is in state b' afterwards.  A
      handler that fails with e is seen as -e, bytes as bytes, bytes without memory for them as
      -12 (ENOMEM), and an opcode that the daemon does not know as -38 (ENOSYS). */
  ghost predicate Performs<B, I>(be: Backend<B, I>, b: B, op: Op<I>, b': B) {
    if !be.known(op.input) then
      b' == b && op.out.error == -38 && op.out.data == None
    else
      && b' == be.handle(b, op.input).0
      && match be.handle(b, op.input).1
         case Fail(e) => op.out.error == -e && op.out.data == None
         case Data(bytes) =>
           if op.memOk then op.out.error == 0 && op.out.data == Some(bytes)
           else op.out.data == None && op.out.error == if bytes == [] then 0 else -12
  }

  /** The operations, one after the other, lead through these states. */
  ghost predicate Through<B, I>(be: Backend<B, I>, ops: seq<Op<I>>, states: seq<B>) {
    && |states| == |ops| + 1 && states[0] == be.init
    && forall k | 0 <= k < |ops| :: Performs(be, states[k], ops[k], states[k + 1])
  }

  ghost predicate SequentialRun<B(!new), I>(be: Backend<B, I>, ops: seq<Op<I>>) {
    exists states: seq<B> :: Through(be, ops, states)
  }

  /** `ops` explains the history: it is a sequential run of the backend, made of invoked calls
      with their own inputs and each at most once; every returned call is in it with the outcome
      its client saw; and a call that returned before another was invoked precedes it. */
  ghost predicate Explains<B(!new), I(!new)>(be: Backend<B, I>, ops: seq<Op<I>>, h: seq<Event<I>>) {
    && SequentialRun(be, ops)
    && (forall k, m | 0 <= k < m < |ops| :: ops[k].call != ops[m].call)
    && (forall k | 0 <= k < |ops| :: Invoked(h, ops[k]))
    && (forall i | 0 <= i < |h| && h[i].Return? :: Answered(ops, h[i]))
    && (forall i, j, k, m |
          && 0 <= i < j < |h| && h[i].Return? && h[j].Invoke?
          && 0 <= k < |ops| && ops[k].call == h[i].call
          && 0 <= m < |ops| && ops[m].call == h[j].call :: k < m)
  }

  ghost predicate Linearizable<B(!new), I(!new)>(be: Backend<B, I>, h: seq<Event<I>>) {
    exists ops: seq<Op<I>> :: Explains(be, ops, h)
  }

  // ---------- the concurrent system ----------

  /** A request object on its client's stack. */
  datatype Cell<I> = Cell(client: Cid, input: I, error: int, data: Option<nat>, done: nat)

  /** A reply buffer; `owner` is the call whose request it was put in. */
  datatype Buf = Buf(owner: Call, bytes: seq<byte>)

  datatype ClientPc = Outside | Waiting(call: Call) | Woken(call: Call)

  datatype DaemonPc =
    | Popping                             // inside fuse_ukfs_queue_pop
    | Got(call: Call)                     // popped, about to dispatch
    | Served(call: Call, out: Outcome)    // handler ran, about to write the reply fields
    | Written(call: Call)                 // about to up `done`
    | Signalled                           // about to loop

  /** How far a call has come.  `pos` is its place in the order of insertion. */
  datatype Status =
    | Building
    | Queued(pos: nat)
    | Answering(pos: nat)
    | Signalled(pos: nat)
    | Collecting(pos: nat)
    | Returned(pos: nat)

  /** What the proof records about a call; the program has none of it. */
  datatype Trace<I> = Trace(client: Cid, input: I, invokedAt: nat, arrival: nat, status: Status)

  datatype State<B, I> = State(
    queue: Q.State<Call>,
    cells: map<Call, Cell<I>>,
    client: map<Cid, ClientPc>,
    daemon: DaemonPc,
    backend: B,
    nextUnique: Call,
    heap: map<nat, Buf>,
    nextBuf: nat,
    fault: bool,
    // histories
    history: seq<Event<I>>,
    ops: seq<Op<I>>,
    calls: map<Call, Trace<I>>)

  function Init<B, I>(be: Backend<B, I>): State<B, I> {
    State(Q.StartPop(Q.Init(), DAEMON), map[], map[], Popping, be.init, 1, map[], 0, false, [], [], map[])
  }

  function ClientOf<B, I>(s: State<B, I>, c: Cid): ClientPc {
    if c in s.client then s.client[c] else Outside
  }

  function QPc<B, I>(s: State<B, I>, t: Cid): Q.Pc<Call> {
    Q.PcOf(s.queue, t)
  }

  datatype Action<I> =
    | Begin(c: Cid, input: I)   // build the request and enter push
    | Go(t: Cid)                // one step of thread t inside the queue
    | Wake(c: Cid)              // down `done`
    | Collect(c: Cid)           // read the reply, free the buffer, return
    | Take                      // pop returns to the daemon loop
    | Handle(memOk: bool)       // dispatch and run the handler
    | Write                     // write the reply fields
    | Signal                    // up `done`
    | Again                     // loop: call pop

  predicate Enabled<B, I>(s: State<B, I>, a: Action<I>) {
    match a
    case Begin(c, _) => c != DAEMON && ClientOf(s, c).Outside?
    case Go(t) => Q.CanStep(s.queue, t)
    case Wake(c) =>
      && ClientOf(s, c).Waiting? && QPc(s, c).Idle?
      && ClientOf(s, c).call in s.cells && s.cells[ClientOf(s, c).call].done > 0
    case Collect(c) => ClientOf(s, c).Woken? && ClientOf(s, c).call in s.cells
    case Take => s.daemon.Popping? && QPc(s, DAEMON).PopDone?
    case Handle(_) => s.daemon.Got?
    case Write => s.daemon.Served?
    case Signal => s.daemon.Written?
    case Again => s.daemon.Signalled?
  }

  function DoBegin<B, I>(s: State<B, I>, c: Cid, input: I): State<B, I> {
    var call := s.nextUnique;
    s.(queue := Q.StartPush(s.queue, c, call),
       cells := s.cells[call := Cell(c, input, 0, None, 0)],
       client := s.client[c := Waiting(call)],
       nextUnique := call + 1,
       history := s.history + [Invoke(call, c, input)],
       calls := s.calls[call := Trace(c, input, |s.history|, |s.queue.inserted|, Building)])
  }

  function SetStatus<B, I>(s: State<B, I>, call: Call, status: Status): map<Call, Trace<I>> {
    if call in s.calls then s.calls[call := s.calls[call].(status := status)] else s.calls
  }

  function DoGo<B, I>(s: State<B, I>, t: Cid): State<B, I>
    requires Q.CanStep(s.queue, t)
  {
    var s' := s.(queue := Q.Next(s.queue, t));
    if QPc(s, t).PushCrit? then
      s'.(calls := SetStatus(s, QPc(s, t).r, Queued(|s.queue.inserted|)))
    else s'
  }

  function DoWake<B, I>(s: State<B, I>, c: Cid): State<B, I>
    requires Enabled(s, Wake(c))
  {
    var call := ClientOf(s, c).call;
    s.(cells := s.cells[call := s.cells[call].(done := s.cells[call].done - 1)],
       client := s.client[c := Woken(call)],
       calls := if call in s.calls && s.calls[call].status.Signalled?
                then SetStatus(s, call, Collecting(s.calls[call].status.pos)) else s.calls)
  }

  /** The outcome a client reads: with an error set it never looks at the buffer. */
  function Seen<B, I>(s: State<B, I>, call: Call): Outcome
    requires call in s.cells
  {
    var cell := s.cells[call];
    Outcome(cell.error,
            if cell.error == 0 && cell.data.Some? && cell.data.value in s.heap
            then Some(s.heap[cell.data.value].bytes) else None)
  }

  function DoCollect<B, I>(s: State<B, I>, c: Cid): State<B, I>
    requires Enabled(s, Collect(c))
  {
    var call := ClientOf(s, c).call;
    var cell := s.cells[call];
    var frees := cell.error == 0 && cell.data.Some?;
    s.(cells := s.cells - {call},
       client := s.client[c := Outside],
       heap := if frees then s.heap - {cell.data.value} else s.heap,
       fault := s.fault || (frees && cell.data.value !in s.heap),
       history := s.history + [Return(call, c, Seen(s, call))],
       calls := if call in s.calls && s.calls[call].status.Collecting?
                then SetStatus(s, call, Returned(s.calls[call].status.pos)) else s.calls)
  }

  function DoHandle<B, I>(be: Backend<B, I>, s: State<B, I>, memOk: bool): State<B, I>
    requires s.daemon.Got?
  {
    var call := s.daemon.call;
    if call !in s.cells then s.(fault := true) else
      var (b, reply) := Serve(be, s.backend, s.cells[call].input);
      var out := Deliver(reply, memOk);
      s.(backend := b,
         daemon := Served(call, out),
         ops := s.ops + [Op(call, s.cells[call].input, memOk, out)],
         calls := SetStatus(s, call, Answering(|s.ops|)))
  }

  function DoWrite<B, I>(s: State<B, I>): State<B, I>
    requires s.daemon.Served?
  {
    var call, out := s.daemon.call, s.daemon.out;
    if call !in s.cells then s.(fault := true)
    else if out.data.None? then
      s.(cells := s.cells[call := s.cells[call].(error := out.error, data := None)],
         daemon := Written(call))
    else
      s.(cells := s.cells[call := s.cells[call].(error := out.error, data := Some(s.nextBuf))],
         heap := s.heap[s.nextBuf := Buf(call, out.data.value)],
         nextBuf := s.nextBuf + 1,
         daemon := Written(call))
  }

  function DoSignal<B, I>(s: State<B, I>): State<B, I>
    requires s.daemon.Written?
  {
    var call := s.daemon.call;
    if call !in s.cells then s.(fault := true) else
      s.(cells := s.cells[call := s.cells[call].(done := s.cells[call].done + 1)],
         daemon := DaemonPc.Signalled,
         calls := if call in s.calls && s.calls[call].status.Answering?
                  then SetStatus(s, call, Status.Signalled(s.calls[call].status.pos)) else s.calls)
  }

  function Do<B, I>(be: Backend<B, I>, s: State<B, I>, a: Action<I>): State<B, I>
    requires Enabled(s, a)
  {
    match a
    case Begin(c, input) => DoBegin(s, c, input)
    case Go(t) => DoGo(s, t)
    case Wake(c) => DoWake(s, c)
    case Collect(c) => DoCollect(s, c)
    case Take => s.(queue := Q.Leave(s.queue, DAEMON), daemon := Got(QPc(s, DAEMON).r))
    case Handle(memOk) => DoHandle(be, s, memOk)
    case Write => DoWrite(s)
    case Signal => DoSignal(s)
    case Again => s.(queue := Q.StartPop(s.queue, DAEMON), daemon := Popping)
  }

  ghost predicate Run<B(!new), I(!new)>(be: Backend<B, I>, s: State<B, I>, run: seq<Action<I>>, s': State<B, I>)
    decreases |run|
  {
    if run == [] then s == s'
    else Enabled(s, run[0]) && Run(be, Do(be, s, run[0]), run[1..], s')
  }

  ghost predicate Reachable<B(!new), I(!new)>(be: Backend<B, I>, s: State<B, I>) {
    exists run: seq<Action<I>> :: Run(be, Init(be), run, s)
  }
}

/** The interrupt and reference-count protocol of libs/libfuse/lib/fuse_lowlevel.c.

    Ordinary requests stand in the session's active list from the moment they are dispatched
    until they are answered; interrupt requests that found no target wait in a second list.
    `find_interrupted` drops the session lock in the middle of its search to take the lock of
    the request it found, keeping the request alive by its reference count.

    The state machine has any number of threads.  Taking a lock is a step of its own; the body
    of a critical section under the session lock is one step with its unlock, because no other
    thread can see the states in between.  `fault` records a use of freed memory, a freeing of
    a request that is still linked, locked or attached to its channel. */
module Interrupts {
  import opened Wrappers

  type Tid = nat
  type Rid = nat
  type Reg = nat  // one call of fuse_req_interrupt_func with a callback

  /** A request.  `ch` tells whether the channel pointer is still set, that is, whether the
      request is unanswered; `target` is the unique number an interrupt asks for. */
  datatype Req = Req(
    isIntr: bool, unique: nat, target: nat,
    ref: int, ch: bool, interrupted: bool, func: Option<Reg>)

  /** Where a thread stands; each value names what it does next. */
  datatype Pc =
    | Idle
    // dispatch of an ordinary request r
    | ProcWant(r: Rid)                          // lock the session
    | ProcCrit(r: Rid)                          // check_interrupt, list_add_req, unlock
    // fuse_free_req, on a request that a check refused before it was linked
    | RefuseWant(r: Rid)                        // lock the session
    | RefuseCrit(r: Rid)                        // drop a reference, unlock
    // fuse_free_req, on an answered request or a bounced interrupt
    | FreeWant(x: Rid)                          // lock the session
    | FreeCrit(x: Rid)                          // unlink, drop a reference, unlock
    | Destroy(x: Rid)                           // destroy_req
    // _do_interrupt of interrupt i
    | IntWant(i: Rid)                           // lock the session
    | IntCrit(i: Rid)                           // search both lists
    | IntWaitReq(i: Rid, r: Rid)                // found r: lock r
    | IntWaitSe(i: Rid, r: Rid)                 // lock the session again
    | IntMark(i: Rid, r: Rid)                   // mark r, read its callback, unlock the session
    | IntCall(i: Rid, r: Rid, f: Option<Reg>)   // call the callback, if any
    | IntUnlock(i: Rid, r: Rid)                 // unlock r
    | IntWaitSe2(i: Rid, r: Rid)                // lock the session
    | IntDrop(i: Rid, r: Rid)                   // drop the reference, destroy i, unlock
    // fuse_req_interrupt_func on r
    | RegWait(r: Rid, f: Option<Reg>)           // lock r
    | RegWaitSe(r: Rid, f: Option<Reg>)         // lock the session
    | RegSet(r: Rid, f: Option<Reg>)            // store the callback, unlock the session
    | RegCheck(r: Rid, f: Option<Reg>)          // call it if r is already interrupted
    | RegUnlock(r: Rid)                         // unlock r

  /** What became of an interrupt. */
  datatype Fate =
    | Searching            // its thread has not finished looking for the target
    | Pending              // waits in the interrupts list
    | Marked(r: Rid)       // set the interrupted flag of r
    | Absorbed(twin: Rid)  // an equal one was already pending
    | Bounced(next: Rid)   // answered with EAGAIN when request `next` was dispatched

  datatype State = State(
    heap: map<Rid, Req>,
    list: seq<Rid>,        // se->list, in link order
    intr: seq<Rid>,        // se->interrupts, in link order
    seLock: Option<Tid>,
    locks: map<Rid, Tid>,  // request locks that are held
    pc: map<Tid, Pc>,
    nextRid: Rid,
    nextReg: Reg,
    fault: bool,
    // histories: which thread a request object is in the hands of; the unique number or target of
    // every request ever allocated; which requests were ever marked; the callbacks that are due
    // because their request was marked while they were registered; the callbacks that ran
    owner: map<Rid, Tid>,
    key: map<Rid, nat>,
    marked: set<Rid>,
    due: set<(Rid, Reg)>,
    ran: set<(Rid, Reg)>,
    fate: map<Rid, Fate>)

  function Init(): State {
    State(map[], [], [], None, map[], map[], 0, 0, false, map[], map[], {}, {}, {}, map[])
  }

  function PcOf(s: State, t: Tid): Pc {
    if t in s.pc then s.pc[t] else Idle
  }

  predicate HoldsSe(pc: Pc) {
    pc.ProcCrit? || pc.RefuseCrit? || pc.FreeCrit? || pc.IntCrit? || pc.IntMark? || pc.IntDrop? || pc.RegSet?
  }

  function ReqLock(pc: Pc): Option<Rid> {
    match pc
    case IntWaitSe(_, r) => Some(r)
    case IntMark(_, r) => Some(r)
    case IntCall(_, r, _) => Some(r)
    case IntUnlock(_, r) => Some(r)
    case RegWaitSe(r, _) => Some(r)
    case RegSet(r, _) => Some(r)
    case RegCheck(r, _) => Some(r)
    case RegUnlock(r) => Some(r)
    case _ => None
  }

  /** The request a find_interrupted activation holds a reference to. */
  function RefTo(pc: Pc): Option<Rid> {
    match pc
    case IntWaitReq(_, r) => Some(r)
    case IntWaitSe(_, r) => Some(r)
    case IntMark(_, r) => Some(r)
    case IntCall(_, r, _) => Some(r)
    case IntUnlock(_, r) => Some(r)
    case IntWaitSe2(_, r) => Some(r)
    case IntDrop(_, r) => Some(r)
    case _ => None
  }

  /** The request object that is in this thread's hands alone. */
  function Owned(pc: Pc): Option<Rid> {
    match pc
    case ProcWant(r) => Some(r)
    case ProcCrit(r) => Some(r)
    case RefuseWant(r) => Some(r)
    case RefuseCrit(r) => Some(r)
    case FreeWant(x) => Some(x)
    case FreeCrit(x) => Some(x)
    case Destroy(x) => Some(x)
    case IntWant(i) => Some(i)
    case IntCrit(i) => Some(i)
    case IntWaitReq(i, _) => Some(i)
    case IntWaitSe(i, _) => Some(i)
    case IntMark(i, _) => Some(i)
    case IntCall(i, _, _) => Some(i)
    case IntUnlock(i, _) => Some(i)
    case IntWaitSe2(i, _) => Some(i)
    case IntDrop(i, _) => Some(i)
    case _ => None
  }

  /** The request this thread is registering a callback on. */
  function Registering(pc: Pc): Option<Rid> {
    match pc
    case RegWait(r, _) => Some(r)
    case RegWaitSe(r, _) => Some(r)
    case RegSet(r, _) => Some(r)
    case RegCheck(r, _) => Some(r)
    case RegUnlock(r) => Some(r)
    case _ => None
  }

  /** The first position of k in keys, or |keys| when k does not occur. */
  function FirstIndex(keys: seq<nat>, k: nat): (i: nat)
    ensures i <= |keys|
    ensures i < |keys| ==> keys[i] == k
    ensures forall j | 0 <= j < i :: keys[j] != k
  {
    if keys == [] || keys[0] == k then 0 else 1 + FirstIndex(keys[1..], k)
  }

  function Drop<T>(s: seq<T>, i: nat): seq<T>
    requires i < |s|
  {
    s[..i] + s[i+1..]
  }

  /** list_del_req: unlinks x, which has no effect on the list when x is linked to itself. */
  function Unlink<T(==)>(s: seq<T>, x: T): seq<T> {
    if s == [] then []
    else if s[0] == x then s[1..]
    else [s[0]] + Unlink(s[1..], x)
  }

  function Uniques(s: State): seq<nat> {
    seq(|s.list|, i requires 0 <= i < |s.list| => if s.list[i] in s.heap then s.heap[s.list[i]].unique else 0)
  }

  function Targets(s: State): seq<nat> {
    seq(|s.intr|, i requires 0 <= i < |s.intr| => if s.intr[i] in s.heap then s.heap[s.intr[i]].target else 0)
  }

  function Goto(s: State, t: Tid, pc: Pc): State {
    s.(pc := s.pc[t := pc])
  }

  function Fault(s: State): State {
    s.(fault := true)
  }

  /** destroy_req: asserts that the channel is gone and frees the object. */
  function Freed(s: State, x: Rid): State {
    if x !in s.heap || s.heap[x].ch || x in s.list || x in s.intr || x in s.locks then Fault(s)
    else s.(heap := s.heap - {x})
  }

  // ---------- the steps ----------

  /** check_interrupt followed by list_add_req, under the session lock. */
  function StepProc(s: State, t: Tid, r: Rid): State {
    if r !in s.heap then Fault(s) else
      var k := FirstIndex(Targets(s), s.heap[r].unique);
      var s1 := s.(list := s.list + [r], seLock := None, owner := s.owner - {r});
      if k < |s.intr| then
        var i := s.intr[k];
        if i !in s.heap then Fault(s) else
          var s2 := s1.(
            heap := s.heap[r := s.heap[r].(interrupted := true)][i := s.heap[i].(ch := false)],
            intr := Drop(s.intr, k), marked := s.marked + {r}, fate := s.fate[i := Marked(r)]);
          Goto(Freed(s2, i), t, Idle)
      else if s.intr != [] then
        var i := s.intr[0];
        Goto(s1.(intr := s.intr[1..], fate := s.fate[i := Bounced(r)], owner := (s.owner - {r})[i := t]),
             t, FreeWant(i))
      else Goto(s1, t, Idle)
  }

  /** fuse_free_req under the session lock. */
  function StepFree(s: State, t: Tid, x: Rid): State {
    if x !in s.heap then Fault(s) else
      var q := s.heap[x];
      var last := q.ref - 1 == 0;
      s.(heap := s.heap[x := q.(func := None, ref := q.ref - 1, ch := false)],
         list := Unlink(s.list, x), seLock := None,
         owner := if last then s.owner else s.owner - {x},
         pc := s.pc[t := if last then Destroy(x) else Idle])
  }

  /** find_interrupted up to the point where it drops the session lock, or the end of
      _do_interrupt when no active request matches. */
  function StepSearch(s: State, t: Tid, i: Rid): State {
    if i !in s.heap then Fault(s) else
      var k := FirstIndex(Uniques(s), s.heap[i].target);
      if k < |s.list| then
        var r := s.list[k];
        if r !in s.heap then Fault(s)
        else Goto(s.(heap := s.heap[r := s.heap[r].(ref := s.heap[r].ref + 1)], seLock := None),
                  t, IntWaitReq(i, r))
      else
        var s1 := s.(seLock := None, owner := s.owner - {i});
        var m := FirstIndex(Targets(s), s.heap[i].target);
        if m < |s.intr| then
          Goto(Freed(s1.(heap := s.heap[i := s.heap[i].(ch := false)],
                         fate := s.fate[i := Absorbed(s.intr[m])]), i), t, Idle)
        else Goto(s1.(intr := s.intr + [i], fate := s.fate[i := Pending]), t, Idle)
  }

  function StepMark(s: State, t: Tid, i: Rid, r: Rid): State {
    if r !in s.heap then Fault(s) else
      s.(heap := s.heap[r := s.heap[r].(interrupted := true)], seLock := None,
         marked := s.marked + {r}, fate := s.fate[i := Marked(r)],
         due := if s.heap[r].func.Some? then s.due + {(r, s.heap[r].func.value)} else s.due,
         pc := s.pc[t := IntCall(i, r, s.heap[r].func)])
  }

  function StepCall(s: State, t: Tid, i: Rid, r: Rid, f: Option<Reg>): State {
    if r !in s.heap then Fault(s) else
      Goto(s.(ran := if f.Some? then s.ran + {(r, f.value)} else s.ran), t, IntUnlock(i, r))
  }

  /** The end of find_interrupted and of _do_interrupt. */
  function StepDrop(s: State, t: Tid, i: Rid, r: Rid): State {
    if r !in s.heap || i !in s.heap || i == r then Fault(s) else
      var q := s.heap[r];
      var s1 := s.(heap := s.heap[r := q.(ref := q.ref - 1)]);
      var s2 := if q.ref - 1 == 0 then Freed(s1, r) else s1;
      if i !in s2.heap then Fault(s) else
        var s3 := s2.(heap := s2.heap[i := s2.heap[i].(ch := false)], seLock := None, owner := s.owner - {i});
        Goto(Freed(s3, i), t, Idle)
  }

  function StepSet(s: State, t: Tid, r: Rid, f: Option<Reg>): State {
    if r !in s.heap then Fault(s) else
      Goto(s.(heap := s.heap[r := s.heap[r].(func := f)], seLock := None,
              due := if s.heap[r].interrupted && f.Some? then s.due + {(r, f.value)} else s.due),
           t, RegCheck(r, f))
  }

  function StepCheck(s: State, t: Tid, r: Rid, f: Option<Reg>): State {
    if r !in s.heap then Fault(s) else
      Goto(s.(ran := if s.heap[r].interrupted && f.Some? then s.ran + {(r, f.value)} else s.ran), t, RegUnlock(r))
  }

  function StepDestroy(s: State, t: Tid, x: Rid): State {
    Goto(Freed(s.(owner := s.owner - {x}), x), t, Idle)
  }

  /** Taking the session lock. */
  function LockSe(s: State, t: Tid, pc: Pc): State {
    Goto(s.(seLock := Some(t)), t, pc)
  }

  /** Taking and dropping the lock of request r. */
  function LockReq(s: State, t: Tid, r: Rid, pc: Pc): State {
    if r !in s.heap then Fault(s) else Goto(s.(locks := s.locks[r := t]), t, pc)
  }

  function UnlockReq(s: State, t: Tid, r: Rid, pc: Pc): State {
    if r !in s.heap then Fault(s) else Goto(s.(locks := s.locks - {r}), t, pc)
  }

  predicate WaitsForSe(pc: Pc) {
    pc.ProcWant? || pc.RefuseWant? || pc.FreeWant? || pc.IntWant? || pc.IntWaitSe? || pc.IntWaitSe2? || pc.RegWaitSe?
  }

  predicate CanStep(s: State, t: Tid) {
    var pc := PcOf(s, t);
    && !pc.Idle?
    && (WaitsForSe(pc) ==> s.seLock == None)
    && (pc.IntWaitReq? ==> pc.r !in s.locks)
    && (pc.RegWait? ==> pc.r !in s.locks)
  }

  function Next(s: State, t: Tid): State
    requires CanStep(s, t)
  {
    match PcOf(s, t)
    case ProcWant(r) => LockSe(s, t, ProcCrit(r))
    case ProcCrit(r) => StepProc(s, t, r)
    case RefuseWant(r) => LockSe(s, t, RefuseCrit(r))
    case RefuseCrit(r) => StepFree(s, t, r)
    case FreeWant(x) => LockSe(s, t, FreeCrit(x))
    case FreeCrit(x) => StepFree(s, t, x)
    case Destroy(x) => StepDestroy(s, t, x)
    case IntWant(i) => LockSe(s, t, IntCrit(i))
    case IntCrit(i) => StepSearch(s, t, i)
    case IntWaitReq(i, r) => LockReq(s, t, r, IntWaitSe(i, r))
    case IntWaitSe(i, r) => LockSe(s, t, IntMark(i, r))
    case IntMark(i, r) => StepMark(s, t, i, r)
    case IntCall(i, r, f) => StepCall(s, t, i, r, f)
    case IntUnlock(i, r) => UnlockReq(s, t, r, IntWaitSe2(i, r))
    case IntWaitSe2(i, r) => LockSe(s, t, IntDrop(i, r))
    case IntDrop(i, r) => StepDrop(s, t, i, r)
    case RegWait(r, f) => LockReq(s, t, r, RegWaitSe(r, f))
    case RegWaitSe(r, f) => LockSe(s, t, RegSet(r, f))
    case RegSet(r, f) => StepSet(s, t, r, f)
    case RegCheck(r, f) => StepCheck(s, t, r, f)
    case RegUnlock(r) => UnlockReq(s, t, r, Idle)
  }

  datatype Action =
    | Dispatch(t: Tid, unique: nat)          // an ordinary request arrives
    | Refuse(t: Tid, unique: nat)            // a request or an interrupt arrives that a check refuses
    | Interrupt(t: Tid, target: nat)         // an interrupt arrives
    | Answer(t: Tid, r: Rid)                 // the handler answers r
    | Register(t: Tid, r: Rid, cb: bool)     // the handler registers, or with cb false unregisters
    | Go(t: Tid)

  predicate Enabled(s: State, a: Action) {
    match a
    case Dispatch(t, _) => PcOf(s, t).Idle?
    case Refuse(t, _) => PcOf(s, t).Idle?
    case Interrupt(t, _) => PcOf(s, t).Idle?
    // the handler answers once, and not while it is still inside fuse_req_interrupt_func
    case Answer(t, r) =>
      && PcOf(s, t).Idle? && r in s.list && r !in s.owner
      && forall u | u in s.pc :: Registering(s.pc[u]) != Some(r)
    case Register(t, r, _) => PcOf(s, t).Idle? && r in s.list && r !in s.owner
    case Go(t) => CanStep(s, t)
  }

  function Do(s: State, a: Action): State
    requires Enabled(s, a)
  {
    match a
    case Dispatch(t, unique) =>
      var r := s.nextRid;
      s.(heap := s.heap[r := Req(false, unique, 0, 1, true, false, None)], nextRid := r + 1,
         owner := s.owner[r := t], key := s.key[r := unique], pc := s.pc[t := ProcWant(r)])
    case Refuse(t, unique) =>
      var r := s.nextRid;
      s.(heap := s.heap[r := Req(false, unique, 0, 1, true, false, None)], nextRid := r + 1,
         owner := s.owner[r := t], key := s.key[r := unique], pc := s.pc[t := RefuseWant(r)])
    case Interrupt(t, target) =>
      var i := s.nextRid;
      s.(heap := s.heap[i := Req(true, 0, target, 1, true, false, None)], nextRid := i + 1,
         owner := s.owner[i := t], key := s.key[i := target], fate := s.fate[i := Searching],
         pc := s.pc[t := IntWant(i)])
    case Answer(t, r) => s.(owner := s.owner[r := t], pc := s.pc[t := FreeWant(r)])
    case Register(t, r, cb) =>
      if cb then s.(nextReg := s.nextReg + 1, pc := s.pc[t := RegWait(r, Some(s.nextReg))])
      else s.(pc := s.pc[t := RegWait(r, None)])
    case Go(t) => Next(s, t)
  }

  ghost predicate Run(s: State, run: seq<Action>, s': State)
    decreases |run|
  {
    if run == [] then s == s'
    else Enabled(s, run[0]) && Run(Do(s, run[0]), run[1..], s')
  }

  ghost predicate Reachable(s: State) {
    exists run: seq<Action> :: Run(Init(), run, s)
  }
}

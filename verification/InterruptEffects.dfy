/** What the steps of the interrupt protocol do to requests, stated about the states before and
    after. */
module InterruptEffects {
  import opened Wrappers
  import opened Interrupts
  import opened InterruptInvariant
  import opened InterruptSteps
  import opened InterruptResults

  // ---------- a request that is not linked yet ----------

  /** Nobody refers to x, and it is not marked. */
  ghost predicate Unseen(s: State, x: Rid) {
    && x in s.heap && !s.heap[x].interrupted
    && forall u: Tid :: RefTo(PcOf(s, u)) != Some(x)
  }

  ghost predicate NewOk(s: State, t: Tid) {
    InProc(PcOf(s, t)) ==> Unseen(s, PcOf(s, t).r)
  }

  ghost predicate NewsOk(s: State) {
    forall t: Tid :: NewOk(s, t)
  }

  /** The step of t leaves x unmarked and does not refer to it, and hands t no new request. */
  ghost predicate Ignores(s: State, s': State, t: Tid, x: Rid) {
    && Moves(s, s', t) && RefTo(PcOf(s', t)) != Some(x)
    && (InProc(PcOf(s', t)) ==> InProc(PcOf(s, t)) && !PcOf(s, t).ProcCrit? && PcOf(s, t).r == PcOf(s', t).r)
    && (x in s.heap && x in s'.heap ==> s'.heap[x].interrupted == s.heap[x].interrupted)
  }

  lemma SearchIgnores(s: State, t: Tid, i: Rid, x: Rid)
    requires Core(s) && PcOf(s, t) == IntCrit(i) && x !in s.list
    ensures Ignores(s, StepSearch(s, t, i), t, x)
  {
    hide Uniques, Targets;
    Searcher(s, t, i);
    IntrUnlocked(s, i);
    var k := FirstIndex(Uniques(s), s.heap[i].target);
    if k < |s.list| { ListedThere(s, k); }
  }

  lemma ProcIgnores(s: State, t: Tid, r: Rid, x: Rid)
    requires Inv(s) && PcOf(s, t) == ProcCrit(r) && x != r
    ensures Ignores(s, StepProc(s, t, r), t, x)
  {
    ProcShape(s, t, r);
    ProcMarks(s, t, r, x);
  }

  lemma ProcMarks(s: State, t: Tid, r: Rid, x: Rid)
    requires Core(s) && PcOf(s, t) == ProcCrit(r) && x != r
    ensures x in s.heap && x in StepProc(s, t, r).heap ==> StepProc(s, t, r).heap[x].interrupted == s.heap[x].interrupted
  {
    hide Targets;
    InHand(s, t, r);
  }

  lemma DropIgnores(s: State, t: Tid, i: Rid, r: Rid, x: Rid)
    requires Core(s) && PcOf(s, t) == IntDrop(i, r)
    ensures Ignores(s, StepDrop(s, t, i, r), t, x)
  {
    DropInOrder(s, t, i, r);
    hide StepDrop;
  }

  lemma FreeIgnores(s: State, t: Tid, y: Rid, x: Rid)
    requires y in s.heap
    ensures Ignores(s, StepFree(s, t, y), t, x)
  {
    FreeIs(s, t, y);
    hide StepFree;
  }

  lemma MarkIgnores(s: State, t: Tid, i: Rid, r: Rid, x: Rid)
    requires PcOf(s, t) == IntMark(i, r) && x != r && r in s.heap
    ensures Ignores(s, StepMark(s, t, i, r), t, x)
  {
  }

  lemma SeIgnores(s: State, t: Tid, pc: Pc, x: Rid)
    requires RefTo(pc) == RefTo(PcOf(s, t)) && RefTo(PcOf(s, t)) != Some(x)
    requires InProc(pc) ==> InProc(PcOf(s, t)) && !PcOf(s, t).ProcCrit? && PcOf(s, t).r == pc.r
    ensures Ignores(s, LockSe(s, t, pc), t, x)
  {
  }

  lemma ReqIgnores(s: State, t: Tid, r: Rid, pc: Pc, x: Rid)
    requires r in s.heap && RefTo(pc) == RefTo(PcOf(s, t)) && RefTo(PcOf(s, t)) != Some(x) && !InProc(pc)
    ensures Ignores(s, LockReq(s, t, r, pc), t, x) && Ignores(s, UnlockReq(s, t, r, pc), t, x)
  {
  }

  lemma LockIgnores(s: State, t: Tid, x: Rid)
    requires ThreadOk(s, t) && CanStep(s, t) && RefTo(PcOf(s, t)) != Some(x)
    requires var pc := PcOf(s, t);
      pc.ProcWant? || pc.RefuseWant? || pc.FreeWant? || pc.IntWant? || pc.IntWaitReq? || pc.IntWaitSe? || pc.IntUnlock?
      || pc.IntWaitSe2? || pc.RegWait? || pc.RegWaitSe? || pc.RegUnlock?
    ensures Ignores(s, Next(s, t), t, x)
  {
    hide Ignores, LockSe, LockReq, UnlockReq;
    match PcOf(s, t)
    case ProcWant(r) => SeIgnores(s, t, ProcCrit(r), x);
    case RefuseWant(r) => SeIgnores(s, t, RefuseCrit(r), x);
    case FreeWant(y) => SeIgnores(s, t, FreeCrit(y), x);
    case IntWant(i) => SeIgnores(s, t, IntCrit(i), x);
    case IntWaitReq(i, r) => ReqIgnores(s, t, r, IntWaitSe(i, r), x);
    case IntWaitSe(i, r) => SeIgnores(s, t, IntMark(i, r), x);
    case IntUnlock(i, r) => ReqIgnores(s, t, r, IntWaitSe2(i, r), x);
    case IntWaitSe2(i, r) => SeIgnores(s, t, IntDrop(i, r), x);
    case RegWait(r, f) => ReqIgnores(s, t, r, RegWaitSe(r, f), x);
    case RegWaitSe(r, f) => SeIgnores(s, t, RegSet(r, f), x);
    case RegUnlock(r) => ReqIgnores(s, t, r, Idle, x);
  }

  lemma CallIgnores(s: State, t: Tid, x: Rid)
    requires Core(s) && CanStep(s, t) && RefTo(PcOf(s, t)) != Some(x)
    requires var pc := PcOf(s, t); pc.IntCall? || pc.RegSet? || pc.RegCheck? || pc.Destroy?
    ensures Ignores(s, Next(s, t), t, x)
  {
    assert ThreadOk(s, t);
    if PcOf(s, t).Destroy? { Unreferenced(s, PcOf(s, t).x); }
  }

  lemma StepIgnores(s: State, t: Tid, x: Rid)
    requires Inv(s) && CanStep(s, t) && x !in s.list && RefTo(PcOf(s, t)) != Some(x) && PcOf(s, t) != ProcCrit(x)
    ensures Ignores(s, Next(s, t), t, x)
  {
    ThreadAt(s, t);
    hide Ignores, Inv, StepProc, StepFree, StepSearch, StepMark, StepDrop;
    assert Core(s) by { InvCore(s); }
    match PcOf(s, t) {
      case ProcCrit(r) => ProcIgnores(s, t, r, x);
      case RefuseCrit(r) => FreeIgnores(s, t, r, x);
      case FreeCrit(y) => FreeIgnores(s, t, y, x);
      case IntCrit(i) => SearchIgnores(s, t, i, x);
      case IntMark(i, r) => MarkIgnores(s, t, i, r, x);
      case IntDrop(i, r) => DropIgnores(s, t, i, r, x);
      case IntCall(_, _, _) => CallIgnores(s, t, x);
      case RegSet(_, _) => CallIgnores(s, t, x);
      case RegCheck(_, _) => CallIgnores(s, t, x);
      case Destroy(_) => CallIgnores(s, t, x);
      case _ => LockIgnores(s, t, x);
    }
  }

  lemma InvCore(s: State)
    requires Inv(s)
    ensures Core(s) && PendingOk(s)
  {
  }

  lemma GoKeepsNew(s: State, t: Tid, u: Tid)
    requires Inv(s) && NewsOk(s) && CanStep(s, t) && Inv(Next(s, t))
    ensures NewOk(Next(s, t), u)
  {
    hide Inv, Next, NewOk;
    InvCore(s);
    InvCore(Next(s, t));
    assert NewOk(s, u) && NewOk(s, t);
    StaysNew(s, t);
    if InProc(PcOf(Next(s, t), u)) {
      var x := PcOf(Next(s, t), u).r;
      NewInHand(s, u);
      if u != t { NewApart(s, u, t); }
      SeesNothing(s, u);
      StepIgnores(s, t, x);
      NewInHand(Next(s, t), u);
      StillUnseen(s, Next(s, t), t, x);
      assert NewOk(Next(s, t), u) by { NewIs(Next(s, t), u, x); }
    } else {
      NotNew(Next(s, t), u);
    }
  }

  lemma SeesNothing(s: State, u: Tid)
    requires NewOk(s, u) && InProc(PcOf(s, u))
    ensures Unseen(s, PcOf(s, u).r)
  {
  }

  lemma NewIs(s: State, u: Tid, x: Rid)
    requires InProc(PcOf(s, u)) && PcOf(s, u).r == x && Unseen(s, x)
    ensures NewOk(s, u)
  {
  }

  lemma NotNew(s: State, u: Tid)
    requires !InProc(PcOf(s, u))
    ensures NewOk(s, u)
  {
  }

  lemma StillUnseen(s: State, s': State, t: Tid, x: Rid)
    requires Unseen(s, x) && Ignores(s, s', t, x) && x in s'.heap
    ensures Unseen(s', x)
  {
    forall u: Tid ensures RefTo(PcOf(s', u)) != Some(x) { assert RefTo(PcOf(s, u)) != Some(x); }
  }

  /** Nobody comes by a new request in a step. */
  lemma StaysNew(s: State, t: Tid)
    requires Inv(s) && CanStep(s, t)
    ensures var s' := Next(s, t);
      && Moves(s, s', t)
      && (InProc(PcOf(s', t)) ==> InProc(PcOf(s, t)) && !PcOf(s, t).ProcCrit? && PcOf(s, t).r == PcOf(s', t).r)
  {
    hide Inv, Next;
    InvCore(s);
    NotYetNamed(s);
    assert Owned(PcOf(s, t)) != Some(s.nextRid);
    StepIgnores(s, t, s.nextRid);
  }

  /** Two threads do not have the same new request. */
  lemma NewApart(s: State, u: Tid, t: Tid)
    requires Core(s) && InProc(PcOf(s, u)) && u != t
    ensures PcOf(s, t) != ProcCrit(PcOf(s, u).r)
  {
    ThreadAt(s, t);
    ThreadAt(s, u);
  }

  lemma NewInHand(s: State, u: Tid)
    requires Core(s) && InProc(PcOf(s, u))
    ensures PcOf(s, u).r in s.heap && PcOf(s, u).r !in s.list
  {
    ThreadAt(s, u);
  }

  /** Only t moves; a request that nobody refers to stays that way, if t does not take it up. */
  lemma ArrivalUnseen(s: State, s': State, t: Tid, x: Rid)
    requires forall u: Tid :: RefTo(PcOf(s, u)) != Some(x)
    requires Moves(s, s', t) && RefTo(PcOf(s', t)) == None && x in s'.heap && !s'.heap[x].interrupted
    ensures Unseen(s', x)
  {
    forall u: Tid ensures RefTo(PcOf(s', u)) != Some(x) { assert RefTo(PcOf(s, u)) != Some(x); }
  }

  lemma ArrivalNew(s: State, s': State, t: Tid, u: Tid)
    requires NewOk(s, u) && Begins(s, s', t)
    requires forall v: Tid :: RefTo(PcOf(s, v)) != Some(s.nextRid)
    requires s.nextRid !in s.heap
    ensures NewOk(s', u)
  {
    if InProc(PcOf(s', u)) { ArrivalUnseen(s, s', t, PcOf(s', u).r); }
  }

  /** What the beginning of an activation leaves alone. */
  ghost predicate Begins(s: State, s': State, t: Tid) {
    && Moves(s, s', t) && RefTo(PcOf(s', t)) == None
    && (forall x :: x in s.heap && x != s.nextRid ==> x in s'.heap && s'.heap[x] == s.heap[x])
    && (InProc(PcOf(s', t)) ==> PcOf(s', t).r == s.nextRid && s.nextRid in s'.heap && !s'.heap[s.nextRid].interrupted)
  }

  lemma ArrivalBegins(s: State, a: Action)
    requires Enabled(s, a) && (a.Dispatch? || a.Refuse? || a.Interrupt?)
    ensures Begins(s, Do(s, a), a.t)
  {
  }

  lemma AnswerBegins(s: State, t: Tid, r: Rid)
    requires Enabled(s, Answer(t, r))
    ensures Begins(s, Do(s, Answer(t, r)), t)
  {
  }

  lemma RegisterBegins(s: State, t: Tid, r: Rid, cb: bool)
    requires Enabled(s, Register(t, r, cb))
    ensures Begins(s, Do(s, Register(t, r, cb)), t)
  {
  }

  lemma ArrivalKeepsNew(s: State, a: Action)
    requires Inv(s) && NewsOk(s) && Enabled(s, a) && !a.Go?
    ensures NewsOk(Do(s, a))
  {
    hide NewOk, Inv, Do, Enabled, NameOk, Begins;
    InvCore(s);
    NotYetNamed(s);
    assert s.nextRid !in s.heap by { Unnamed(s); }
    forall v: Tid ensures RefTo(PcOf(s, v)) != Some(s.nextRid) {}
    hide Core;
    match a {
      case Answer(t, r) => AnswerBegins(s, t, r);
      case Register(t, r, cb) => RegisterBegins(s, t, r, cb);
      case _ => ArrivalBegins(s, a);
    }
    forall u: Tid ensures NewOk(Do(s, a), u) {
      assert NewOk(s, u);
      ArrivalNew(s, Do(s, a), a.t, u);
    }
  }

  lemma Unnamed(s: State)
    requires NameOk(s, s.nextRid)
    ensures s.nextRid !in s.heap
  {
  }

  lemma {:induction false} RunKeepsNew(s: State, run: seq<Action>, s': State)
    requires Inv(s) && NewsOk(s) && Run(s, run, s')
    ensures Inv(s') && NewsOk(s')
    decreases |run|
  {
    hide Inv, Do, NewOk;
    if run != [] {
      var s1 := Do(s, run[0]);
      StepKeepsInv(s, run[0]);
      match run[0]
      case Go(t) =>
        assert s1 == Next(s, t) by { GoIsNext(s, t); }
        forall u: Tid ensures NewOk(s1, u) { GoKeepsNew(s, t, u); }
        RunKeepsNew(s1, run[1..], s');
      case _ =>
        ArrivalKeepsNew(s, run[0]);
        RunKeepsNew(s1, run[1..], s');
    }
  }

  lemma GoIsNext(s: State, t: Tid)
    requires CanStep(s, t)
    ensures Enabled(s, Go(t)) && Do(s, Go(t)) == Next(s, t)
  {
  }

  lemma NoneNew()
    ensures NewsOk(Init())
  {
  }

  /** A new request is not marked when its own critical section begins. */
  lemma NewIsUnmarked(s: State, t: Tid, r: Rid)
    requires Reachable(s) && PcOf(s, t) == ProcCrit(r)
    ensures Inv(s) && CanStep(s, t) && r in s.heap && !s.heap[r].interrupted && r !in s.marked && r !in s.list
  {
    var run :| Run(Init(), run, s);
    InitInv();
    NoneNew();
    RunKeepsNew(Init(), run, s);
    InvCore(s);
    NewInHand(s, t);
    assert NewOk(s, t) && ReqOk(s, r);
    ThreadAt(s, t);
  }

  // ---------- dispatch ----------

  /** The scan finds the only pending interrupt that asks for this number. */
  lemma OnlyPending(s: State, i: Rid, unique: nat)
    requires Core(s) && PendingOk(s) && i in s.intr && i in s.heap && s.heap[i].target == unique
    ensures var k := FirstIndex(Targets(s), unique); k < |s.intr| && s.intr[k] == i
  {
    assert |Targets(s)| == |s.intr|;
    hide Targets;
    assert NameOk(s, i) && ReqOk(s, i);
    ScanPending(s, unique);
    var k := FirstIndex(Targets(s), unique);
    assert Apart(s, i, s.intr[k]);
  }

  lemma NonePending(s: State, unique: nat)
    requires Core(s) && forall i :: i in s.intr ==> i in s.heap && s.heap[i].target != unique
    ensures FirstIndex(Targets(s), unique) == |s.intr|
  {
    forall j | 0 <= j < |s.intr| ensures Targets(s)[j] != unique { assert s.intr[j] in s.intr; }
  }

  lemma HitState(s: State, t: Tid, r: Rid, k: nat)
    requires r in s.heap && k == FirstIndex(Targets(s), s.heap[r].unique) && k < |s.intr|
    requires var i := s.intr[k];
      i in s.heap && i != r && i !in s.locks && i !in s.list && i !in Drop(s.intr, k)
    ensures var i := s.intr[k];
      StepProc(s, t, r) == s.(
        list := s.list + [r], seLock := None, owner := s.owner - {r}, pc := s.pc[t := Idle],
        heap := s.heap[r := s.heap[r].(interrupted := true)] - {i},
        intr := Drop(s.intr, k), marked := s.marked + {r}, fate := s.fate[i := Marked(r)])
  {
    hide Targets;
    var i := s.intr[k];
    var h := s.heap[r := s.heap[r].(interrupted := true)];
    assert h[i := s.heap[i].(ch := false)] - {i} == h - {i};
  }

  /** What remains of a list when the element at one position is taken out. */
  ghost predicate Without(s: seq<Rid>, x: Rid, s': seq<Rid>) {
    exists k :: 0 <= k < |s| && s[k] == x && s' == s[..k] + s[k + 1..]
  }

  /** A pending interrupt i asks for the request r that is dispatched: r is linked and marked, i is
      unlinked and destroyed, and no other request or interrupt is touched. */
  lemma DispatchTakesInterrupt(s: State, t: Tid, r: Rid, i: Rid)
    requires Reachable(s) && PcOf(s, t) == ProcCrit(r)
    requires i in s.intr && i in s.heap && r in s.heap && s.heap[i].target == s.heap[r].unique
    ensures Enabled(s, Go(t))
    ensures var s' := Do(s, Go(t));
      && r in s'.heap && s'.heap[r].interrupted && r in s'.marked && s'.list == s.list + [r]
      && i in s'.fate && s'.fate[i] == Marked(r)
      && i !in s'.heap && i !in s'.intr && Without(s.intr, i, s'.intr)
      && (forall x :: x in s.heap && x != i && x != r ==> x in s'.heap && s'.heap[x] == s.heap[x])
      && PcOf(s', t).Idle? && s'.seLock == None
  {
    NewIsUnmarked(s, t, r);
    InvCore(s);
    GoIsNext(s, t);
    OnlyPending(s, i, s.heap[r].unique);
    var k := FirstIndex(Targets(s), s.heap[r].unique);
    PendingIsNotNew(s, t, r, i);
    IntrUnlocked(s, i);
    DropFacts(s.intr, k);
    HitState(s, t, r, k);
    hide Targets, StepProc, Inv, Core, PendingOk, Reachable;
  }

  lemma PendingIsNotNew(s: State, t: Tid, r: Rid, i: Rid)
    requires Core(s) && PcOf(s, t) == ProcCrit(r) && i in s.intr && i in s.heap
    ensures i != r && s.heap[i].isIntr
  {
    ThreadAt(s, t);
    assert NameOk(s, i);
  }

  /** No pending interrupt asks for r: r is linked and stays unmarked, and the oldest pending
      interrupt, if there is one, is taken out to be answered. */
  lemma DispatchBounces(s: State, t: Tid, r: Rid)
    requires Reachable(s) && PcOf(s, t) == ProcCrit(r) && r in s.heap
    requires forall i :: i in s.intr ==> i in s.heap && s.heap[i].target != s.heap[r].unique
    ensures Enabled(s, Go(t))
    ensures var s' := Do(s, Go(t));
      && s'.heap == s.heap && !s'.heap[r].interrupted && s'.marked == s.marked && r !in s'.marked
      && s'.list == s.list + [r] && s'.seLock == None
      && if s.intr == [] then s'.intr == [] && s'.fate == s.fate && PcOf(s', t).Idle?
         else s'.intr == s.intr[1..] && s'.fate == s.fate[s.intr[0] := Bounced(r)] && PcOf(s', t) == FreeWant(s.intr[0])
  {
    NewIsUnmarked(s, t, r);
    InvCore(s);
    GoIsNext(s, t);
    NonePending(s, s.heap[r].unique);
    hide Targets, Inv, Core, PendingOk, Reachable;
  }

  // ---------- interrupts ----------

  lemma ReachableCore(s: State)
    requires Reachable(s)
    ensures Inv(s) && Core(s) && PendingOk(s) && ThreadsOk(s)
  {
    ReachableInv(s);
  }

  /** The scan of the active list finds the request at position k. */
  lemma FirstActive(s: State, unique: nat, k: nat)
    requires k < |s.list| && s.list[k] in s.heap && s.heap[s.list[k]].unique == unique
    requires forall j | 0 <= j < k :: s.list[j] in s.heap && s.heap[s.list[j]].unique != unique
    ensures FirstIndex(Uniques(s), unique) == k
  {
    assert Uniques(s)[k] == unique;
    forall j | 0 <= j < k ensures Uniques(s)[j] != unique { assert s.list[j] in s.heap; }
  }

  lemma NoneActive(s: State, unique: nat)
    requires forall r :: r in s.list ==> r in s.heap && s.heap[r].unique != unique
    ensures FirstIndex(Uniques(s), unique) == |s.list|
  {
    forall j | 0 <= j < |s.list| ensures Uniques(s)[j] != unique { assert s.list[j] in s.list; }
  }

  /** Interrupt i asks for an active request: it takes a reference to the first one with that number
      and lets go of the session lock. */
  lemma SearchFinds(s: State, t: Tid, i: Rid, k: nat)
    requires Reachable(s) && PcOf(s, t) == IntCrit(i) && i in s.heap && k < |s.list|
    requires s.list[k] in s.heap && s.heap[s.list[k]].unique == s.heap[i].target
    requires forall j | 0 <= j < k :: s.list[j] in s.heap && s.heap[s.list[j]].unique != s.heap[i].target
    ensures Enabled(s, Go(t))
    ensures var s', r := Do(s, Go(t)), s.list[k];
      && s'.heap == s.heap[r := s.heap[r].(ref := s.heap[r].ref + 1)] && s'.seLock == None
      && s'.list == s.list && s'.intr == s.intr && s'.fate == s.fate && PcOf(s', t) == IntWaitReq(i, r)
  {
    ReachableCore(s);
    ThreadAt(s, t);
    GoIsNext(s, t);
    FirstActive(s, s.heap[i].target, k);
    hide Uniques, Targets, Inv, Core, PendingOk, Reachable;
  }

  /** No active request has the number i asks for, but a pending interrupt asks for it too: i is
      destroyed. */
  lemma SearchAbsorbs(s: State, t: Tid, i: Rid, j: Rid)
    requires Reachable(s) && PcOf(s, t) == IntCrit(i) && i in s.heap
    requires forall r :: r in s.list ==> r in s.heap && s.heap[r].unique != s.heap[i].target
    requires j in s.intr && j in s.heap && s.heap[j].target == s.heap[i].target
    ensures Enabled(s, Go(t))
    ensures var s' := Do(s, Go(t));
      && s'.heap == s.heap - {i} && s'.list == s.list && s'.intr == s.intr && s'.seLock == None
      && s'.fate == s.fate[i := Absorbed(j)] && PcOf(s', t).Idle?
  {
    ReachableCore(s);
    ThreadAt(s, t);
    GoIsNext(s, t);
    NoneActive(s, s.heap[i].target);
    OnlyPending(s, j, s.heap[i].target);
    Searcher(s, t, i);
    IntrUnlocked(s, i);
    hide Uniques, Targets, Inv, Core, PendingOk, Reachable;
    assert s.heap[i := s.heap[i].(ch := false)] - {i} == s.heap - {i};
  }

  /** Nobody has the number i asks for: i waits at the end of the list. */
  lemma SearchPends(s: State, t: Tid, i: Rid)
    requires Reachable(s) && PcOf(s, t) == IntCrit(i) && i in s.heap
    requires forall r :: r in s.list ==> r in s.heap && s.heap[r].unique != s.heap[i].target
    requires forall j :: j in s.intr ==> j in s.heap && s.heap[j].target != s.heap[i].target
    ensures Enabled(s, Go(t))
    ensures var s' := Do(s, Go(t));
      && s'.heap == s.heap && s'.list == s.list && s'.intr == s.intr + [i] && s'.seLock == None
      && s'.fate == s.fate[i := Pending] && PcOf(s', t).Idle?
  {
    ReachableCore(s);
    ThreadAt(s, t);
    GoIsNext(s, t);
    NoneActive(s, s.heap[i].target);
    NonePending(s, s.heap[i].target);
    hide Uniques, Targets, Inv, Core, PendingOk, Reachable;
  }

  /** The request found is marked, whether it was answered in between or not, and its callback, if
      it has one, is what the thread calls next. */
  lemma SearchMarks(s: State, t: Tid, i: Rid, r: Rid)
    requires Reachable(s) && PcOf(s, t) == IntMark(i, r)
    ensures Enabled(s, Go(t)) && r in s.heap && i in s.key && r in s.key && s.key[r] == s.key[i]
    ensures var s' := Do(s, Go(t));
      && s'.heap == s.heap[r := s.heap[r].(interrupted := true)] && s'.marked == s.marked + {r}
      && s'.fate == s.fate[i := Marked(r)] && s'.list == s.list && s'.intr == s.intr && s'.seLock == None
      && PcOf(s', t) == IntCall(i, r, s.heap[r].func)
  {
    ReachableCore(s);
    ThreadAt(s, t);
    GoIsNext(s, t);
    assert HuntOk(s, t);
    hide Inv, Core, PendingOk, Reachable;
  }

  lemma CallRuns(s: State, t: Tid, i: Rid, r: Rid, f: Reg)
    requires Reachable(s) && PcOf(s, t) == IntCall(i, r, Some(f))
    ensures Enabled(s, Go(t)) && Do(s, Go(t)).ran == s.ran + {(r, f)}
  {
    ReachableCore(s);
    ThreadAt(s, t);
    GoIsNext(s, t);
    hide Inv, Core, PendingOk, Reachable;
  }

  /** The end of an interrupt: its reference is given back, the request is destroyed with the last
      one, and the interrupt is destroyed. */
  lemma SearchEnds(s: State, t: Tid, i: Rid, r: Rid)
    requires Reachable(s) && PcOf(s, t) == IntDrop(i, r)
    ensures Enabled(s, Go(t)) && i in s.heap && r in s.heap && i != r
    ensures var s' := Do(s, Go(t));
      && i !in s'.heap && PcOf(s', t).Idle? && s'.seLock == None && s'.list == s.list && s'.intr == s.intr
      && (if s.heap[r].ref == 1 then r !in s'.heap
          else r in s'.heap && s'.heap[r] == s.heap[r].(ref := s.heap[r].ref - 1))
      && (forall x :: x in s.heap && x != i && x != r ==> x in s'.heap && s'.heap[x] == s.heap[x])
  {
    ReachableCore(s);
    GoIsNext(s, t);
    DropInOrder(s, t, i, r);
    ThreadAt(s, t);
    hide StepDrop, Inv, Core, PendingOk, Reachable;
  }

  // ---------- registering ----------

  lemma RegisterStores(s: State, t: Tid, r: Rid, f: Option<Reg>)
    requires Reachable(s) && PcOf(s, t) == RegSet(r, f)
    ensures Enabled(s, Go(t)) && r in s.heap && r in s.list
    ensures var s' := Do(s, Go(t));
      && s'.heap == s.heap[r := s.heap[r].(func := f)] && s'.list == s.list && s'.intr == s.intr && s'.seLock == None
      && PcOf(s', t) == RegCheck(r, f)
  {
    ReachableCore(s);
    ThreadAt(s, t);
    GoIsNext(s, t);
    hide Inv, Core, PendingOk, Reachable;
  }

  /** The callback just stored runs at once exactly if the request is marked already. */
  lemma RegisterCalls(s: State, t: Tid, r: Rid, f: Option<Reg>)
    requires Reachable(s) && PcOf(s, t) == RegCheck(r, f)
    ensures Enabled(s, Go(t)) && r in s.heap
    ensures var s' := Do(s, Go(t));
      s'.ran == if s.heap[r].interrupted && f.Some? then s.ran + {(r, f.value)} else s.ran
  {
    ReachableCore(s);
    ThreadAt(s, t);
    GoIsNext(s, t);
    hide Inv, Core, PendingOk, Reachable;
  }

  // ---------- freeing ----------

  /** A request that was answered, or refused, or a bounced interrupt: it is in no list any more, it
      has neither channel nor callback, and it is destroyed next if nobody else refers to it. */
  lemma FreeUnlinks(s: State, t: Tid, x: Rid)
    requires Reachable(s) && (PcOf(s, t) == FreeCrit(x) || PcOf(s, t) == RefuseCrit(x))
    ensures Enabled(s, Go(t)) && x in s.heap
    ensures var s' := Do(s, Go(t));
      && s'.heap == s.heap[x := s.heap[x].(ref := s.heap[x].ref - 1, ch := false, func := None)]
      && (if x in s.list then Without(s.list, x, s'.list) else s'.list == s.list) && x !in s'.list
      && s'.intr == s.intr && x !in s'.intr && s'.seLock == None
      && PcOf(s', t) == if s.heap[x].ref == 1 then Destroy(x) else Idle
  {
    ReachableCore(s);
    ThreadAt(s, t);
    GoIsNext(s, t);
    FreeIs(s, t, x);
    assert Distinct(s.list);
    UnlinkFacts(s.list, x);
    UnlinkIs(s.list, x);
    hide StepFree, Inv, Core, PendingOk, Reachable, Distinct;
  }

  lemma WithoutHead(s: seq<Rid>)
    requires s != []
    ensures Without(s, s[0], s[1..])
  {
    assert s[..0] + s[0 + 1..] == s[1..];
  }

  lemma WithoutBehind(s: seq<Rid>, x: Rid, u: seq<Rid>)
    requires s != [] && Without(s[1..], x, u)
    ensures Without(s, x, [s[0]] + u)
  {
    var v := s[1..];
    var k :| 0 <= k < |v| && v[k] == x && u == v[..k] + v[k + 1..];
    assert s[k + 1] == x && [s[0]] + u == s[..k + 1] + s[k + 1 + 1..];
  }

  lemma {:induction false} UnlinkIs(s: seq<Rid>, x: Rid)
    ensures if x in s then Without(s, x, Unlink(s, x)) else Unlink(s, x) == s
  {
    hide Without;
    if s != [] {
      assert s == [s[0]] + s[1..];
      UnlinkIs(s[1..], x);
      if s[0] == x { WithoutHead(s); }
      else if x in s[1..] { WithoutBehind(s, x, Unlink(s[1..], x)); }
    }
  }

  lemma DestroyFrees(s: State, t: Tid, x: Rid)
    requires Reachable(s) && PcOf(s, t) == Destroy(x)
    ensures Enabled(s, Go(t)) && Do(s, Go(t)).heap == s.heap - {x} && PcOf(Do(s, Go(t)), t).Idle?
  {
    ReachableCore(s);
    ThreadAt(s, t);
    GoIsNext(s, t);
    Unreferenced(s, x);
    hide Inv, Core, PendingOk, Reachable;
  }

  // ---------- arrival ----------

  /** A message that comes in: a new object with its number or target, unanswered, unmarked, and in
      no list. */
  lemma Arrives(s: State, t: Tid, n: nat)
    requires Reachable(s) && PcOf(s, t).Idle?
    ensures s.nextRid !in s.heap && s.nextRid !in s.list && s.nextRid !in s.intr
    ensures var s', x := Do(s, Dispatch(t, n)), s.nextRid;
      && s'.heap.Keys == s.heap.Keys + {x} && !s'.heap[x].isIntr && s'.heap[x].unique == n && s'.heap[x].ch
      && !s'.heap[x].interrupted && s'.heap[x].func == None && PcOf(s', t) == ProcWant(x)
    ensures var s', x := Do(s, Refuse(t, n)), s.nextRid;
      && s'.heap.Keys == s.heap.Keys + {x} && !s'.heap[x].isIntr && s'.heap[x].unique == n && s'.heap[x].ch
      && PcOf(s', t) == RefuseWant(x)
    ensures var s', x := Do(s, Interrupt(t, n)), s.nextRid;
      && s'.heap.Keys == s.heap.Keys + {x} && s'.heap[x].isIntr && s'.heap[x].target == n && s'.heap[x].ch
      && x in s'.fate && s'.fate[x] == Searching && PcOf(s', t) == IntWant(x)
  {
    ReachableCore(s);
    NotYetNamed(s);
    hide Inv, Core, PendingOk, Reachable;
  }
}

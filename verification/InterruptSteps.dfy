/** Every step of every thread keeps the core invariant.

    Each step changes the requests in a small set, called `hot`, and the position of the thread
    that moves.  The frame lemma KeepsCore of module InterruptInvariant then asks for four things:

    - Shape: which parts of the state the step leaves alone;
    - Others: no other thread is disturbed in what it knows about the hot requests;
    - Mine: the hot requests, and the moving thread, are in order afterwards;
    - Hands: the thread held, and holds, no request outside the set.

    There is one lemma of each of these kinds per step where the proof is not immediate, named
    after the step, and one named `...Keeps` that puts them together.  NextKeepsCore and
    StepKeepsCore go through all steps. */
module InterruptSteps {
  import opened Wrappers
  import opened Interrupts
  import opened InterruptInvariant

  /** Two positions with the same requests in hand. */
  predicate SameHands(a: Pc, b: Pc) {
    && Owned(a) == Owned(b) && RefTo(a) == RefTo(b) && Registering(a) == Registering(b)
    && InProc(a) == InProc(b) && a.Destroy? == b.Destroy?
    && (a.FreeWant? || a.FreeCrit? <==> b.FreeWant? || b.FreeCrit?)
  }

  function Hands(pc: Pc): set<Rid> {
    (if Owned(pc).Some? then {Owned(pc).value} else {})
    + (if RefTo(pc).Some? then {RefTo(pc).value} else {})
    + (if Registering(pc).Some? then {Registering(pc).value} else {})
  }

  lemma LockerRefers(pc: Pc)
    ensures ReqLock(pc).Some? ==> RefTo(pc) == ReqLock(pc) || Registering(pc) == ReqLock(pc)
  {
  }

  lemma HolderCounts(s: State, u: Tid, x: Rid)
    requires RefTo(PcOf(s, u)) == Some(x)
    ensures |Holders(s, x)| > 0
  {
    assert u in Holders(s, x);
  }

  lemma ThreadAt(s: State, t: Tid)
    requires ThreadsOk(s)
    ensures ThreadOk(s, t)
  {
  }

  /** A request whose count is zero is in nobody's hands but its owner's. */
  lemma Unreferenced(s: State, x: Rid)
    requires Core(s) && x in s.heap && !s.heap[x].ch && s.heap[x].ref == 0
    ensures x !in s.locks && x !in s.list && x !in s.intr
    ensures forall u: Tid :: RefTo(PcOf(s, u)) != Some(x) && Registering(PcOf(s, u)) != Some(x)
  {
    assert ReqOk(s, x) && NameOk(s, x);
    forall u: Tid ensures RefTo(PcOf(s, u)) != Some(x) && Registering(PcOf(s, u)) != Some(x) {
      assert ThreadOk(s, u);
      if RefTo(PcOf(s, u)) == Some(x) { HolderCounts(s, u, x); }
    }
    if x in s.locks { LockerRefers(PcOf(s, s.locks[x])); }
  }

  /** Nobody ever locks an interrupt request. */
  lemma IntrUnlocked(s: State, x: Rid)
    requires Core(s) && x in s.heap && s.heap[x].isIntr
    ensures x !in s.locks && x !in s.list
    ensures forall u: Tid :: RefTo(PcOf(s, u)) != Some(x) && Registering(PcOf(s, u)) != Some(x)
  {
    assert NameOk(s, x);
    forall u: Tid ensures RefTo(PcOf(s, u)) != Some(x) && Registering(PcOf(s, u)) != Some(x) {
      assert ThreadOk(s, u);
    }
    if x in s.locks { LockerRefers(PcOf(s, s.locks[x])); }
  }

  // ---------- locks and calls ----------

  /** Only this thread's position, the session lock and the history of calls change. */
  ghost predicate OnlyLock(s: State, s': State, t: Tid) {
    && Moves(s, s', t) && SameHands(PcOf(s, t), PcOf(s', t))
    && s' == s.(pc := s'.pc, seLock := s'.seLock, ran := s'.ran)
    && ReqLock(PcOf(s', t)) == ReqLock(PcOf(s, t))
    && (HoldsSe(PcOf(s', t)) <==> s'.seLock == Some(t))
    && forall u: Tid :: u != t ==> (s.seLock == Some(u) <==> s'.seLock == Some(u))
  }

  lemma LockStep(s: State, s': State, t: Tid)
    requires Core(s) && OnlyLock(s, s', t)
    ensures Core(s')
  {
    hide OnlyLock, ThreadOk, ReqOk, NameOk, Undisturbed, Untouched;
    var hot := Hands(PcOf(s, t));
    ThreadAt(s, t);
    LockShape(s, s', t);
    forall u: Tid | u != t ensures Undisturbed(s, s', u, hot) { LockOther(s, s', t, u); }
    forall x | x in hot && x in s'.heap ensures ReqOk(s', x) { LockHotReq(s, s', t, x); }
    forall x | x in hot ensures NameOk(s', x) { LockHotName(s, s', t, x); }
    KeepsCore(s, s', t, hot);
  }

  lemma LockShape(s: State, s': State, t: Tid)
    requires ThreadOk(s, t) && OnlyLock(s, s', t)
    ensures s'.heap == s.heap && s'.list == s.list && s'.intr == s.intr && s'.fault == s.fault
    ensures Moves(s, s', t) && HandsIn(s, s', t, Hands(PcOf(s, t))) && s'.nextRid == s.nextRid && s'.due == s.due
    ensures ThreadOk(s', t) && (ReqLock(PcOf(s, t)).Some? ==> ReqLock(PcOf(s, t)).value in Hands(PcOf(s, t)))
    ensures forall x: Rid {:trigger Untouched(s, s', x)} :: Untouched(s, s', x)
  {
    LockerRefers(PcOf(s, t));
  }

  lemma LockOther(s: State, s': State, t: Tid, u: Tid)
    requires ThreadOk(s, u) && OnlyLock(s, s', t) && u != t
    ensures Undisturbed(s, s', u, Hands(PcOf(s, t)))
  {
  }

  lemma LockHotReq(s: State, s': State, t: Tid, x: Rid)
    requires x in s.heap && ReqOk(s, x) && ThreadOk(s, t) && OnlyLock(s, s', t)
    ensures ReqOk(s', x)
  {
    ReqFrame(s, s', t, x);
  }

  lemma LockHotName(s: State, s': State, t: Tid, x: Rid)
    requires NameOk(s, x) && OnlyLock(s, s', t)
    ensures NameOk(s', x)
  {
  }

  lemma LockSeKeeps(s: State, t: Tid, pc: Pc)
    requires Core(s) && s.seLock == None && WaitsForSe(PcOf(s, t))
    requires SameHands(PcOf(s, t), pc) && ReqLock(pc) == ReqLock(PcOf(s, t)) && HoldsSe(pc)
    ensures Core(LockSe(s, t, pc))
  {
    LockStep(s, LockSe(s, t, pc), t);
  }

  lemma CallKeeps(s: State, t: Tid, i: Rid, r: Rid, f: Option<Reg>)
    requires Core(s) && PcOf(s, t) == IntCall(i, r, f)
    ensures Core(StepCall(s, t, i, r, f))
  {
    assert ThreadOk(s, t);
    LockStep(s, StepCall(s, t, i, r, f), t);
  }

  lemma CheckKeeps(s: State, t: Tid, r: Rid, f: Option<Reg>)
    requires Core(s) && PcOf(s, t) == RegCheck(r, f)
    ensures Core(StepCheck(s, t, r, f))
  {
    assert ThreadOk(s, t);
    LockStep(s, StepCheck(s, t, r, f), t);
  }

  /** Thread t, with r in hand, took or dropped the lock of r. */
  ghost predicate ReqLocked(s: State, s': State, t: Tid, r: Rid) {
    && Moves(s, s', t) && !HoldsSe(PcOf(s, t)) && !HoldsSe(PcOf(s', t))
    && s' == s.(pc := s'.pc, locks := s'.locks)
    && (SameHands(PcOf(s, t), PcOf(s', t)) || (PcOf(s, t).RegUnlock? && PcOf(s', t).Idle?))
    && r in s.heap && r in Hands(PcOf(s, t)) && Owned(PcOf(s, t)) != Some(r)
    && if s'.locks == s.locks - {r} then
         r in s.locks && ReqLock(PcOf(s, t)) == Some(r) && ReqLock(PcOf(s', t)) == None
       else r !in s.locks && s'.locks == s.locks[r := t]
            && ReqLock(PcOf(s, t)) == None && ReqLock(PcOf(s', t)) == Some(r)
  }

  lemma ReqLockStep(s: State, s': State, t: Tid, r: Rid)
    requires Core(s) && ReqLocked(s, s', t, r)
    ensures Core(s')
  {
    var hot := Hands(PcOf(s, t));
    assert ThreadOk(s, t);
    ReqLockHot(s, s', t, r);
    forall u: Tid | u != t ensures Undisturbed(s, s', u, hot) { assert ThreadOk(s, u); }
    KeepsCore(s, s', t, hot);
  }

  lemma ReqLockHot(s: State, s': State, t: Tid, r: Rid)
    requires Core(s) && ReqLocked(s, s', t, r)
    ensures forall x {:trigger ReqOk(s', x)} :: x in Hands(PcOf(s, t)) && x in s'.heap ==> ReqOk(s', x)
    ensures forall x {:trigger NameOk(s', x)} :: x in Hands(PcOf(s, t)) ==> NameOk(s', x)
    ensures ThreadOk(s', t)
  {
    var hot := Hands(PcOf(s, t));
    assert ThreadOk(s, t);
    forall x | x in hot && x in s'.heap ensures ReqOk(s', x) {
      assert ReqOk(s, x);
      ReqFrame(s, s', t, x);
    }
    forall x | x in hot ensures NameOk(s', x) { assert NameOk(s, x); }
  }

  /** The request a thread refers to is not the interrupt in its hands. */
  lemma NotOwned(s: State, t: Tid, r: Rid)
    requires ThreadsOk(s) && (RefTo(PcOf(s, t)) == Some(r) || Registering(PcOf(s, t)) == Some(r))
    ensures r in s.heap && Owned(PcOf(s, t)) != Some(r)
  {
    ThreadAt(s, t);
  }

  lemma LockReqKeeps(s: State, t: Tid, r: Rid, pc: Pc)
    requires Core(s) && r !in s.locks
    requires (PcOf(s, t).IntWaitReq? && pc == IntWaitSe(PcOf(s, t).i, r) && PcOf(s, t).r == r)
             || (PcOf(s, t).RegWait? && pc == RegWaitSe(r, PcOf(s, t).f) && PcOf(s, t).r == r)
    ensures Core(LockReq(s, t, r, pc))
  {
    NotOwned(s, t, r);
    var s' := LockReq(s, t, r, pc);
    assert r in s'.locks && r !in s.locks - {r};
    ReqLockStep(s, s', t, r);
  }

  lemma UnlockReqKeeps(s: State, t: Tid, r: Rid, pc: Pc)
    requires Core(s)
    requires (PcOf(s, t).IntUnlock? && pc == IntWaitSe2(PcOf(s, t).i, r) && PcOf(s, t).r == r)
             || (PcOf(s, t) == RegUnlock(r) && pc == Idle)
    ensures Core(UnlockReq(s, t, r, pc))
  {
    NotOwned(s, t, r);
    assert ThreadOk(s, t);
    ReqLockStep(s, UnlockReq(s, t, r, pc), t, r);
  }

  // ---------- marking and registering ----------

  /** What a thread has in hand is there and in order. */
  lemma InHand(s: State, t: Tid, x: Rid)
    requires Core(s)
    requires Owned(PcOf(s, t)) == Some(x) || RefTo(PcOf(s, t)) == Some(x) || Registering(PcOf(s, t)) == Some(x)
    ensures x in s.heap && ReqOk(s, x) && NameOk(s, x)
  {
    hide ReqOk, NameOk;
    assert ThreadOk(s, t);
  }

  lemma MarkShape(s: State, t: Tid, i: Rid, r: Rid)
    requires PcOf(s, t) == IntMark(i, r) && r in s.heap && ListsOk(s)
    ensures var s' := StepMark(s, t, i, r);
      && Moves(s, s', t) && s'.fault == s.fault && HandsIn(s, s', t, {i, r}) && ListsOk(s')
      && s'.nextRid == s.nextRid && s.due <= s'.due
    ensures forall y: Rid {:trigger Untouched(s, StepMark(s, t, i, r), y)} ::
      y !in {i, r} ==> Untouched(s, StepMark(s, t, i, r), y)
  {
  }

  lemma MarkOthers(s: State, t: Tid, i: Rid, r: Rid, u: Tid)
    requires PcOf(s, t) == IntMark(i, r) && ThreadOk(s, t) && ThreadOk(s, u) && u != t
    ensures Undisturbed(s, StepMark(s, t, i, r), u, {i, r})
  {
  }

  lemma MarkMine(s: State, t: Tid, i: Rid, r: Rid)
    requires PcOf(s, t) == IntMark(i, r) && ThreadOk(s, t) && i in s.heap && r in s.heap
    requires ReqOk(s, i) && ReqOk(s, r) && NameOk(s, i) && NameOk(s, r)
    ensures var s' := StepMark(s, t, i, r);
      ReqOk(s', i) && ReqOk(s', r) && NameOk(s', i) && NameOk(s', r) && ThreadOk(s', t)
  {
    var s' := StepMark(s, t, i, r);
    HoldersMove(s, s', t, r);
    ReqFrame(s, s', t, i);
  }

  lemma MarkKeeps(s: State, t: Tid, i: Rid, r: Rid)
    requires Core(s) && PcOf(s, t) == IntMark(i, r)
    ensures Core(StepMark(s, t, i, r))
  {
    hide StepMark, ThreadOk, ReqOk, NameOk, Undisturbed, Untouched, ListsOk;
    var s' := StepMark(s, t, i, r);
    ThreadAt(s, t);
    InHand(s, t, i);
    InHand(s, t, r);
    MarkMine(s, t, i, r);
    MarkShape(s, t, i, r);
    forall u: Tid | u != t ensures Undisturbed(s, s', u, {i, r}) { MarkOthers(s, t, i, r, u); }
    KeepsCore(s, s', t, {i, r});
  }

  lemma SetShape(s: State, t: Tid, r: Rid, f: Option<Reg>)
    requires PcOf(s, t) == RegSet(r, f) && r in s.heap && ListsOk(s)
    ensures var s' := StepSet(s, t, r, f);
      && Moves(s, s', t) && s'.fault == s.fault && HandsIn(s, s', t, {r}) && ListsOk(s')
      && s'.nextRid == s.nextRid && s.due <= s'.due
    ensures forall y: Rid {:trigger Untouched(s, StepSet(s, t, r, f), y)} ::
      y !in {r} ==> Untouched(s, StepSet(s, t, r, f), y)
  {
  }

  lemma SetOthers(s: State, t: Tid, r: Rid, f: Option<Reg>, u: Tid)
    requires PcOf(s, t) == RegSet(r, f) && ThreadOk(s, t) && ThreadOk(s, u) && u != t
    ensures Undisturbed(s, StepSet(s, t, r, f), u, {r})
  {
  }

  lemma SetMine(s: State, t: Tid, r: Rid, f: Option<Reg>)
    requires PcOf(s, t) == RegSet(r, f) && ThreadOk(s, t) && r in s.heap && ReqOk(s, r) && NameOk(s, r)
    ensures var s' := StepSet(s, t, r, f); ReqOk(s', r) && NameOk(s', r) && ThreadOk(s', t)
  {
    HoldersMove(s, StepSet(s, t, r, f), t, r);
  }

  lemma SetKeeps(s: State, t: Tid, r: Rid, f: Option<Reg>)
    requires Core(s) && PcOf(s, t) == RegSet(r, f)
    ensures Core(StepSet(s, t, r, f))
  {
    hide StepSet, ThreadOk, ReqOk, NameOk, Undisturbed, Untouched, ListsOk;
    var s' := StepSet(s, t, r, f);
    ThreadAt(s, t);
    InHand(s, t, r);
    SetMine(s, t, r, f);
    SetShape(s, t, r, f);
    forall u: Tid | u != t ensures Undisturbed(s, s', u, {r}) { SetOthers(s, t, r, f, u); }
    KeepsCore(s, s', t, {r});
  }

  // ---------- answering ----------

  /** The thread is about to free x, linked or not. */
  predicate Freeing(pc: Pc, x: Rid) {
    pc == FreeCrit(x) || pc == RefuseCrit(x)
  }

  /** What the step does, field by field. */
  ghost predicate FreeDone(s: State, s': State, t: Tid, x: Rid)
    requires x in s.heap
  {
    var q := s.heap[x];
    && s'.heap == s.heap[x := q.(func := None, ref := q.ref - 1, ch := false)]
    && s'.list == Unlink(s.list, x) && s'.intr == s.intr && s'.seLock == None && s'.locks == s.locks
    && s'.pc == s.pc[t := if q.ref == 1 then Destroy(x) else Idle]
    && s'.owner == (if q.ref == 1 then s.owner else s.owner - {x})
    && s'.nextRid == s.nextRid && s'.fault == s.fault && s'.key == s.key && s'.fate == s.fate
    && s'.marked == s.marked && s'.due == s.due && s'.ran == s.ran
  }

  lemma FreeIs(s: State, t: Tid, x: Rid)
    requires x in s.heap
    ensures FreeDone(s, StepFree(s, t, x), t, x)
  {
    hide Unlink;
  }

  lemma FreeKeeps(s: State, t: Tid, x: Rid)
    requires Core(s) && Freeing(PcOf(s, t), x)
    ensures Core(StepFree(s, t, x))
  {
    hide StepFree, FreeDone, Freeing, ThreadOk, ReqOk, NameOk, Undisturbed, Untouched, Distinct, HandsIn;
    var s' := StepFree(s, t, x);
    ThreadAt(s, t);
    assert Distinct(s.list);
    FreeingOwned(PcOf(s, t), x);
    InHand(s, t, x);
    FreeIs(s, t, x);
    FreeReq(s, s', t, x);
    FreeShape(s, s', t, x);
    forall y: Rid | y !in {x} ensures Untouched(s, s', y) { FreeFrame(s, s', t, x, y); }
    forall u: Tid | u != t ensures Undisturbed(s, s', u, {x}) { ThreadAt(s, u); FreeOthers(s, s', t, x, u); }
    KeepsCore(s, s', t, {x});
  }

  lemma FreeingOwned(pc: Pc, x: Rid)
    requires Freeing(pc, x)
    ensures Owned(pc) == Some(x) && RefTo(pc) == None && ReqLock(pc) == None && HoldsSe(pc)
  {
  }

  /** What the step leaves alone. */
  lemma FreeShape(s: State, s': State, t: Tid, x: Rid)
    requires Distinct(s.list) && x in s.heap && Freeing(PcOf(s, t), x) && FreeDone(s, s', t, x)
    ensures Moves(s, s', t) && s'.fault == s.fault && s'.nextRid == s.nextRid && s'.due == s.due
    ensures HandsIn(s, s', t, {x}) && s'.intr == s.intr && Distinct(s'.list)
  {
    hide Distinct;
    UnlinkFacts(s.list, x);
  }

  lemma FreeFrame(s: State, s': State, t: Tid, x: Rid, y: Rid)
    requires Distinct(s.list) && x in s.heap && y != x && FreeDone(s, s', t, x)
    ensures Untouched(s, s', y)
  {
    hide Distinct, Unlink;
    UnlinkOther(s.list, x, y);
  }

  lemma FreeOthers(s: State, s': State, t: Tid, x: Rid, u: Tid)
    requires Freeing(PcOf(s, t), x) && x in s.heap && u != t && ThreadOk(s, t) && ThreadOk(s, u)
    requires FreeDone(s, s', t, x)
    ensures Undisturbed(s, s', u, {x})
  {
    hide Unlink;
  }

  lemma FreeReq(s: State, s': State, t: Tid, x: Rid)
    requires Freeing(PcOf(s, t), x) && ThreadOk(s, t) && x in s.heap && ReqOk(s, x) && NameOk(s, x)
    requires Distinct(s.list) && FreeDone(s, s', t, x)
    ensures x in s'.heap && ReqOk(s', x) && NameOk(s', x) && ThreadOk(s', t)
  {
    hide Distinct, Unlink;
    HoldersMove(s, s', t, x);
    Unlinked(s.list, x);
  }

  lemma Unlinked<T>(s: seq<T>, x: T)
    requires Distinct(s)
    ensures x !in Unlink(s, x)
  {
    UnlinkFacts(s, x);
  }

  lemma UnlinkOther<T>(s: seq<T>, x: T, y: T)
    requires Distinct(s) && y != x
    ensures y in Unlink(s, x) <==> y in s
  {
    UnlinkFacts(s, x);
  }

  lemma DestroyKeeps(s: State, t: Tid, x: Rid)
    requires Core(s) && PcOf(s, t) == Destroy(x)
    ensures Core(StepDestroy(s, t, x))
  {
    var s' := StepDestroy(s, t, x);
    assert ThreadOk(s, t);
    var hot := {x};
    assert ReqOk(s, x) && NameOk(s, x);
    Unreferenced(s, x);
    forall u: Tid | u != t ensures Undisturbed(s, s', u, hot) { assert ThreadOk(s, u); }
    assert NameOk(s', x);
    assert ThreadOk(s', t);
    KeepsCore(s, s', t, hot);
  }

  // ---------- interrupts ----------

  /** find_interrupted found r: take a reference and drop the session lock. */
  lemma FoundKeeps(s: State, t: Tid, i: Rid, r: Rid)
    requires Core(s) && PcOf(s, t) == IntCrit(i) && r in s.list && r in s.heap
    ensures Core(Goto(s.(heap := s.heap[r := s.heap[r].(ref := s.heap[r].ref + 1)], seLock := None),
                      t, IntWaitReq(i, r)))
  {
    var s' := Goto(s.(heap := s.heap[r := s.heap[r].(ref := s.heap[r].ref + 1)], seLock := None),
                   t, IntWaitReq(i, r));
    assert ThreadOk(s, t);
    var hot := {i, r};
    assert ReqOk(s, i) && ReqOk(s, r) && NameOk(s, i) && NameOk(s, r);
    HoldersMove(s, s', t, r);
    ReqFrame(s, s', t, i);
    forall u: Tid | u != t ensures Undisturbed(s, s', u, hot) { assert ThreadOk(s, u); }
    assert ReqOk(s', r) && NameOk(s', r) && NameOk(s', i);
    assert ThreadOk(s', t);
    KeepsCore(s, s', t, hot);
  }

  lemma AbsorbKeeps(s: State, t: Tid, i: Rid, s': State)
    requires Core(s) && PcOf(s, t) == IntCrit(i) && i in s.heap
    requires s' == s.(seLock := None, owner := s.owner - {i}, heap := s.heap - {i}, fate := s'.fate, pc := s.pc[t := Idle])
    ensures Core(s')
  {
    assert ThreadOk(s, t);
    var hot := {i};
    assert ReqOk(s, i) && NameOk(s, i);
    IntrUnlocked(s, i);
    forall u: Tid | u != t ensures Undisturbed(s, s', u, hot) { assert ThreadOk(s, u); }
    assert NameOk(s', i);
    assert ThreadOk(s', t);
    KeepsCore(s, s', t, hot);
  }

  lemma PendKeeps(s: State, t: Tid, i: Rid, s': State)
    requires Core(s) && PcOf(s, t) == IntCrit(i) && i in s.heap
    requires s' == s.(seLock := None, owner := s.owner - {i}, intr := s.intr + [i], fate := s'.fate, pc := s.pc[t := Idle])
    ensures Core(s')
  {
    assert ThreadOk(s, t);
    var hot := {i};
    assert ReqOk(s, i) && NameOk(s, i);
    IntrUnlocked(s, i);
    forall u: Tid | u != t ensures Undisturbed(s, s', u, hot) { assert ThreadOk(s, u); }
    assert ReqOk(s', i) && NameOk(s', i);
    assert ThreadOk(s', t);
    KeepsCore(s, s', t, hot);
  }

  lemma Searcher(s: State, t: Tid, i: Rid)
    requires Core(s) && PcOf(s, t) == IntCrit(i)
    ensures i in s.heap && s.heap[i].isIntr && s.heap[i].ref == 1 && i !in s.intr
  {
    InHand(s, t, i);
    assert ThreadOk(s, t);
  }

  lemma ListedThere(s: State, k: nat)
    requires Core(s) && k < |s.list|
    ensures s.list[k] in s.heap
  {
    assert NameOk(s, s.list[k]);
  }

  lemma SearchKeeps(s: State, t: Tid, i: Rid)
    requires Core(s) && PcOf(s, t) == IntCrit(i)
    ensures Core(StepSearch(s, t, i))
  {
    hide Core, ReqOk, NameOk, ThreadOk, FirstIndex, Uniques, Targets;
    var s' := StepSearch(s, t, i);
    Searcher(s, t, i);
    var k := FirstIndex(Uniques(s), s.heap[i].target);
    if k < |s.list| {
      ListedThere(s, k);
      FoundKeeps(s, t, i, s.list[k]);
    } else {
      IntrUnlocked(s, i);
      if FirstIndex(Targets(s), s.heap[i].target) < |s.intr| {
        assert s'.heap == s.heap - {i};
        AbsorbKeeps(s, t, i, s');
      } else {
        PendKeeps(s, t, i, s');
      }
    }
  }

  /** The last reference to an answered request: nobody else refers to it. */
  lemma LastReference(s: State, t: Tid, r: Rid)
    requires Core(s) && RefTo(PcOf(s, t)) == Some(r) && ReqLock(PcOf(s, t)) == None
    requires r in s.heap && !s.heap[r].isIntr
    ensures s.heap[r].ref >= 1 && r !in s.intr
    ensures s.heap[r].ref == 1 ==>
              && !s.heap[r].ch && r !in s.locks && r !in s.list && r !in s.owner
              && forall u: Tid :: u != t ==> RefTo(PcOf(s, u)) != Some(r) && Registering(PcOf(s, u)) != Some(r)
  {
    assert ReqOk(s, r) && NameOk(s, r);
    HolderCounts(s, t, r);
    if s.heap[r].ref == 1 {
      forall u: Tid | u != t ensures RefTo(PcOf(s, u)) != Some(r) && Registering(PcOf(s, u)) != Some(r) {
        assert ThreadOk(s, u);
        if RefTo(PcOf(s, u)) == Some(r) {
          assert {t, u} <= Holders(s, r);
          SubsetSize({t, u}, Holders(s, r));
        }
      }
      if r in s.locks { LockerRefers(PcOf(s, s.locks[r])); }
      if r in s.owner { ThreadAt(s, s.owner[r]); }
    }
  }

  lemma SubsetSize(a: set<Tid>, b: set<Tid>)
    requires a <= b
    ensures |a| <= |b|
  {
    assert b == a + (b - a);
  }

  lemma DropKeeps(s: State, t: Tid, i: Rid, r: Rid)
    requires Core(s) && PcOf(s, t) == IntDrop(i, r)
    ensures Core(StepDrop(s, t, i, r))
  {
    var s' := StepDrop(s, t, i, r);
    assert ThreadOk(s, t);
    DropInOrder(s, t, i, r);
    DropOthers(s, s', t, i, r);
    DropReq(s, s', t, i, r);
    KeepsCore(s, s', t, {i, r});
  }

  /** The new state, spelled out. */
  ghost predicate Dropped(s: State, s': State, t: Tid, i: Rid, r: Rid)
    requires r in s.heap
  {
    var q := s.heap[r];
    s' == Goto(s.(
      heap := (if q.ref == 1 then s.heap - {r} else s.heap[r := q.(ref := q.ref - 1)]) - {i},
      seLock := None, owner := s.owner - {i}), t, Idle)
  }

  lemma DropInOrder(s: State, t: Tid, i: Rid, r: Rid)
    requires Core(s) && PcOf(s, t) == IntDrop(i, r)
    ensures i in s.heap && r in s.heap && i != r && Dropped(s, StepDrop(s, t, i, r), t, i, r)
  {
    assert ThreadOk(s, t);
    IntrUnlocked(s, i);
    LastReference(s, t, r);
    DropShape(s, t, i, r);
  }

  lemma DropOthers(s: State, s': State, t: Tid, i: Rid, r: Rid)
    requires Core(s) && PcOf(s, t) == IntDrop(i, r) && i in s.heap && r in s.heap && Dropped(s, s', t, i, r)
    ensures forall u: Tid :: u != t ==> Undisturbed(s, s', u, {i, r})
  {
    assert ThreadOk(s, t);
    IntrUnlocked(s, i);
    LastReference(s, t, r);
    forall u: Tid | u != t ensures Undisturbed(s, s', u, {i, r}) {
      assert ThreadOk(s, u);
      LockerRefers(PcOf(s, u));
    }
  }

  lemma DropReq(s: State, s': State, t: Tid, i: Rid, r: Rid)
    requires Core(s) && PcOf(s, t) == IntDrop(i, r) && i in s.heap && r in s.heap && Dropped(s, s', t, i, r)
    ensures r in s'.heap ==> ReqOk(s', r)
    ensures NameOk(s', r) && NameOk(s', i) && ThreadOk(s', t)
  {
    assert ThreadOk(s, t);
    assert ReqOk(s, r) && NameOk(s, i) && NameOk(s, r);
    IntrUnlocked(s, i);
    LastReference(s, t, r);
    HoldersMove(s, s', t, r);
  }

  lemma DropShape(s: State, t: Tid, i: Rid, r: Rid)
    requires i in s.heap && r in s.heap && i != r && i !in s.locks && i !in s.list && i !in s.intr
    requires s.heap[r].ref == 1 ==> !s.heap[r].ch && r !in s.locks && r !in s.list && r !in s.intr
    ensures var q := s.heap[r];
      StepDrop(s, t, i, r) == Goto(s.(
        heap := (if q.ref == 1 then s.heap - {r} else s.heap[r := q.(ref := q.ref - 1)]) - {i},
        seLock := None, owner := s.owner - {i}), t, Idle)
  {
    var q := s.heap[r];
    var h := if q.ref == 1 then s.heap - {r} else s.heap[r := q.(ref := q.ref - 1)];
    var s1 := s.(heap := s.heap[r := q.(ref := q.ref - 1)]);
    assert q.ref == 1 ==> s1.heap - {r} == s.heap - {r};
    var s3 := s.(heap := h[i := h[i].(ch := false)], seLock := None, owner := s.owner - {i});
    assert s3.heap - {i} == h - {i};
  }

  // ---------- dispatch ----------

  /** No pending interrupt at all: the request just joins the active list. */
  lemma ProcPlain(s: State, t: Tid, r: Rid, s': State)
    requires Core(s) && PcOf(s, t) == ProcCrit(r) && r in s.heap
    requires s' == s.(list := s.list + [r], seLock := None, owner := s.owner - {r}, pc := s.pc[t := Idle])
    ensures Core(s')
  {
    assert ThreadOk(s, t);
    var hot := {r};
    assert ReqOk(s, r) && NameOk(s, r);
    HoldersMove(s, s', t, r);
    forall u: Tid | u != t ensures Undisturbed(s, s', u, hot) { assert ThreadOk(s, u); }
    assert ReqOk(s', r) && NameOk(s', r);
    assert ThreadOk(s', t);
    KeepsCore(s, s', t, hot);
  }

  /** A pending interrupt i for r: r is marked and i destroyed. */
  lemma ProcHit(s: State, t: Tid, r: Rid, k: nat, s': State)
    requires Core(s) && PcOf(s, t) == ProcCrit(r) && r in s.heap && k < |s.intr|
    requires s' == s.(list := s.list + [r], seLock := None, owner := s.owner - {r}, pc := s.pc[t := Idle],
                      heap := s.heap[r := s.heap[r].(interrupted := true)] - {s.intr[k]},
                      intr := Drop(s.intr, k), marked := s.marked + {r}, fate := s'.fate)
    requires s.heap[r].func == None
    ensures Core(s')
  {
    assert ThreadOk(s, t);
    var i := s.intr[k];
    var hot := {r, i};
    assert ReqOk(s, r) && NameOk(s, r) && NameOk(s, i) && ReqOk(s, i);
    HoldersMove(s, s', t, r);
    DropFacts(s.intr, k);
    IntrUnlocked(s, i);
    HitMine(s, s', t, r, k);
    forall u: Tid | u != t ensures Undisturbed(s, s', u, hot) {
      hide Undisturbed;
      ThreadAt(s, u);
      HitOther(s, s', t, r, i, u);
    }
    hide ReqOk, NameOk, ThreadOk, Undisturbed;
    KeepsCore(s, s', t, hot);
  }

  lemma HitMine(s: State, s': State, t: Tid, r: Rid, k: nat)
    requires PcOf(s, t) == ProcCrit(r) && r in s.heap && k < |s.intr| && s.heap[r].func == None
    requires s' == s.(list := s.list + [r], seLock := None, owner := s.owner - {r}, pc := s.pc[t := Idle],
                      heap := s.heap[r := s.heap[r].(interrupted := true)] - {s.intr[k]},
                      intr := Drop(s.intr, k), marked := s.marked + {r}, fate := s'.fate)
    requires ReqOk(s, r) && NameOk(s, r) && NameOk(s, s.intr[k]) && ThreadOk(s, t) && Distinct(s.intr)
    requires s.intr[k] !in s.locks && s.intr[k] !in s.list
    ensures ReqOk(s', r) && NameOk(s', r) && NameOk(s', s.intr[k]) && ThreadOk(s', t)
  {
    HoldersMove(s, s', t, r);
    DropFacts(s.intr, k);
  }

  lemma HitOther(s: State, s': State, t: Tid, r: Rid, i: Rid, u: Tid)
    requires ThreadOk(s, t) && ThreadOk(s, u) && u != t && PcOf(s, t) == ProcCrit(r)
    requires i in s.intr && i !in s.locks && s'.locks == s.locks && s'.seLock == None && i in s.heap && r in s.heap
    requires RefTo(PcOf(s, u)) != Some(i) && Registering(PcOf(s, u)) != Some(i)
    requires s'.owner == s.owner - {r} && s'.list == s.list + [r] && r in s'.heap && s'.heap[r].isIntr == s.heap[r].isIntr
    ensures Undisturbed(s, s', u, {r, i})
  {
  }

  /** No match: the oldest pending interrupt is taken out to be bounced. */
  lemma ProcBounce(s: State, t: Tid, r: Rid, s': State)
    requires Core(s) && PcOf(s, t) == ProcCrit(r) && r in s.heap && s.intr != []
    requires s' == s.(list := s.list + [r], seLock := None, owner := (s.owner - {r})[s.intr[0] := t],
                      pc := s.pc[t := FreeWant(s.intr[0])], intr := s.intr[1..], fate := s'.fate)
    ensures Core(s')
  {
    assert ThreadOk(s, t);
    var i := s.intr[0];
    var hot := {r, i};
    assert ReqOk(s, r) && NameOk(s, r) && NameOk(s, i) && ReqOk(s, i);
    HoldersMove(s, s', t, r);
    assert s.intr[1..] == Drop(s.intr, 0);
    DropFacts(s.intr, 0);
    IntrUnlocked(s, i);
    forall u: Tid | u != t ensures Undisturbed(s, s', u, hot) { assert ThreadOk(s, u); }
    assert ReqOk(s', r) && NameOk(s', r) && NameOk(s', i) && ReqOk(s', i);
    assert ThreadOk(s', t);
    KeepsCore(s, s', t, hot);
  }

  lemma ProcKeeps(s: State, t: Tid, r: Rid)
    requires Core(s) && PcOf(s, t) == ProcCrit(r)
    ensures Core(StepProc(s, t, r))
  {
    var s' := StepProc(s, t, r);
    assert ThreadOk(s, t);
    var k := FirstIndex(Targets(s), s.heap[r].unique);
    if k < |s.intr| {
      var i := s.intr[k];
      assert NameOk(s, i) && NameOk(s, r);
      IntrUnlocked(s, i);
      DropFacts(s.intr, k);
      var h := s.heap[r := s.heap[r].(interrupted := true)];
      assert h[i := s.heap[i].(ch := false)] - {i} == h - {i};
      ProcHit(s, t, r, k, s');
    } else if s.intr != [] {
      ProcBounce(s, t, r, s');
    } else {
      ProcPlain(s, t, r, s');
    }
  }

  // ---------- new activations ----------

  lemma ArriveKeeps(s: State, t: Tid, q: Req, pc: Pc, s': State)
    requires Core(s) && PcOf(s, t).Idle?
    requires q == Req(q.isIntr, q.unique, q.target, 1, true, false, None)
    requires if q.isIntr then pc == IntWant(s.nextRid) else pc == ProcWant(s.nextRid) || pc == RefuseWant(s.nextRid)
    requires s' == s.(heap := s.heap[s.nextRid := q], nextRid := s.nextRid + 1, owner := s.owner[s.nextRid := t],
                      key := s.key[s.nextRid := if q.isIntr then q.target else q.unique],
                      pc := s.pc[t := pc], fate := s'.fate)
    ensures Core(s')
  {
    var x := s.nextRid;
    var hot := {x};
    NotYetNamed(s);
    ThreadAt(s, t);
    ArriveMine(s, t, q, pc, s');
    forall u: Tid | u != t ensures Undisturbed(s, s', u, hot) { ThreadAt(s, u); }
    hide ReqOk, NameOk, ThreadOk, Undisturbed;
    KeepsCore(s, s', t, hot);
  }

  lemma ArriveMine(s: State, t: Tid, q: Req, pc: Pc, s': State)
    requires PcOf(s, t).Idle? && ThreadOk(s, t) && NameOk(s, s.nextRid) && Holders(s, s.nextRid) == {}
    requires q == Req(q.isIntr, q.unique, q.target, 1, true, false, None)
    requires if q.isIntr then pc == IntWant(s.nextRid) else pc == ProcWant(s.nextRid) || pc == RefuseWant(s.nextRid)
    requires s' == s.(heap := s.heap[s.nextRid := q], nextRid := s.nextRid + 1, owner := s.owner[s.nextRid := t],
                      key := s.key[s.nextRid := if q.isIntr then q.target else q.unique],
                      pc := s.pc[t := pc], fate := s'.fate)
    ensures ReqOk(s', s.nextRid) && NameOk(s', s.nextRid) && ThreadOk(s', t)
  {
    HoldersMove(s, s', t, s.nextRid);
  }

  lemma NotYetNamed(s: State)
    requires Core(s)
    ensures NameOk(s, s.nextRid) && Holders(s, s.nextRid) == {}
    ensures forall u: Tid :: Owned(PcOf(s, u)) != Some(s.nextRid) && RefTo(PcOf(s, u)) != Some(s.nextRid)
                             && Registering(PcOf(s, u)) != Some(s.nextRid)
  {
    assert NameOk(s, s.nextRid);
    forall u: Tid ensures Owned(PcOf(s, u)) != Some(s.nextRid) && RefTo(PcOf(s, u)) != Some(s.nextRid)
                          && Registering(PcOf(s, u)) != Some(s.nextRid)
    {
      assert ThreadOk(s, u);
    }
    forall u | u in s.pc ensures RefTo(s.pc[u]) != Some(s.nextRid) {
      assert RefTo(PcOf(s, u)) != Some(s.nextRid);
    }
  }

  lemma AnswerKeeps(s: State, t: Tid, r: Rid)
    requires Core(s) && Enabled(s, Answer(t, r))
    ensures Core(Do(s, Answer(t, r)))
  {
    var s' := Do(s, Answer(t, r));
    var hot := {r};
    assert ThreadOk(s, t) && NameOk(s, r) && ReqOk(s, r);
    AnswerMine(s, s', t, r);
    forall u: Tid | u != t ensures Undisturbed(s, s', u, hot) {
      hide ReqOk, NameOk, Untouched;
      assert ThreadOk(s, u);
      if u in s.pc { assert Registering(s.pc[u]) != Some(r); }
    }
    hide ReqOk, NameOk, ThreadOk, Undisturbed;
    KeepsCore(s, s', t, hot);
  }

  lemma AnswerMine(s: State, s': State, t: Tid, r: Rid)
    requires Enabled(s, Answer(t, r)) && s' == Do(s, Answer(t, r))
    requires ThreadOk(s, t) && NameOk(s, r) && r in s.heap && ReqOk(s, r)
    ensures ReqOk(s', r) && NameOk(s', r) && ThreadOk(s', t)
  {
    HoldersMove(s, s', t, r);
  }

  lemma RegisterShape(s: State, t: Tid, r: Rid, cb: bool)
    requires Enabled(s, Register(t, r, cb))
    ensures var s' := Do(s, Register(t, r, cb));
      && Moves(s, s', t) && s'.fault == s.fault && HandsIn(s, s', t, {r}) && s'.list == s.list && s'.intr == s.intr
      && s'.nextRid == s.nextRid && s'.due == s.due
    ensures forall y: Rid {:trigger Untouched(s, Do(s, Register(t, r, cb)), y)} ::
      Untouched(s, Do(s, Register(t, r, cb)), y)
  {
  }

  lemma RegisterOther(s: State, t: Tid, r: Rid, cb: bool, u: Tid)
    requires Enabled(s, Register(t, r, cb)) && ThreadOk(s, u) && NameOk(s, r) && u != t
    ensures Undisturbed(s, Do(s, Register(t, r, cb)), u, {r})
  {
  }

  lemma RegisterMine(s: State, t: Tid, r: Rid, cb: bool)
    requires Enabled(s, Register(t, r, cb)) && ThreadOk(s, t) && NameOk(s, r)
    requires r in s.heap ==> ReqOk(s, r)
    ensures r in s.heap
    ensures var s' := Do(s, Register(t, r, cb)); ReqOk(s', r) && NameOk(s', r) && ThreadOk(s', t)
  {
    HoldersMove(s, Do(s, Register(t, r, cb)), t, r);
  }

  lemma RegisterKeeps(s: State, t: Tid, r: Rid, cb: bool)
    requires Core(s) && Enabled(s, Register(t, r, cb))
    ensures Core(Do(s, Register(t, r, cb)))
  {
    hide ThreadOk, ReqOk, NameOk, Undisturbed, Untouched, Do;
    var s' := Do(s, Register(t, r, cb));
    assert ThreadOk(s, t) && NameOk(s, r);
    RegisterShape(s, t, r, cb);
    RegisterMine(s, t, r, cb);
    forall u: Tid | u != t ensures Undisturbed(s, s', u, {r}) { RegisterOther(s, t, r, cb, u); }
    KeepsCore(s, s', t, {r});
  }

  lemma CoreThread(s: State, t: Tid)
    requires Core(s)
    ensures ThreadOk(s, t)
  {
  }

  lemma NextKeepsCore(s: State, t: Tid)
    requires Core(s) && CanStep(s, t)
    ensures Core(Next(s, t))
  {
    hide Core, ThreadOk, LockSe, LockReq, UnlockReq, Goto;
    hide StepProc, StepFree, StepDestroy, StepSearch, StepMark, StepCall, StepDrop, StepSet, StepCheck;
    match PcOf(s, t)
    case ProcWant(r) => LockSeKeeps(s, t, ProcCrit(r));
    case ProcCrit(r) => ProcKeeps(s, t, r);
    case RefuseWant(r) => LockSeKeeps(s, t, RefuseCrit(r));
    case RefuseCrit(r) => FreeKeeps(s, t, r);
    case FreeWant(x) => LockSeKeeps(s, t, FreeCrit(x));
    case FreeCrit(x) => FreeKeeps(s, t, x);
    case Destroy(x) => DestroyKeeps(s, t, x);
    case IntWant(i) => LockSeKeeps(s, t, IntCrit(i));
    case IntCrit(i) => SearchKeeps(s, t, i);
    case IntWaitReq(i, r) => LockReqKeeps(s, t, r, IntWaitSe(i, r));
    case IntWaitSe(i, r) => LockSeKeeps(s, t, IntMark(i, r));
    case IntMark(i, r) => MarkKeeps(s, t, i, r);
    case IntCall(i, r, f) => CallKeeps(s, t, i, r, f);
    case IntUnlock(i, r) => UnlockReqKeeps(s, t, r, IntWaitSe2(i, r));
    case IntWaitSe2(i, r) => LockSeKeeps(s, t, IntDrop(i, r));
    case IntDrop(i, r) => DropKeeps(s, t, i, r);
    case RegWait(r, f) => LockReqKeeps(s, t, r, RegWaitSe(r, f));
    case RegWaitSe(r, f) => LockSeKeeps(s, t, RegSet(r, f));
    case RegSet(r, f) => SetKeeps(s, t, r, f);
    case RegCheck(r, f) => CheckKeeps(s, t, r, f);
    case RegUnlock(r) => UnlockReqKeeps(s, t, r, Idle);
  }

  lemma StepKeepsCore(s: State, a: Action)
    requires Core(s) && Enabled(s, a)
    ensures Core(Do(s, a))
  {
    match a
    case Dispatch(t, unique) =>
      ArriveKeeps(s, t, Req(false, unique, 0, 1, true, false, None), ProcWant(s.nextRid), Do(s, a));
    case Refuse(t, unique) =>
      ArriveKeeps(s, t, Req(false, unique, 0, 1, true, false, None), RefuseWant(s.nextRid), Do(s, a));
    case Interrupt(t, target) =>
      ArriveKeeps(s, t, Req(true, 0, target, 1, true, false, None), IntWant(s.nextRid), Do(s, a));
    case Answer(t, r) => AnswerKeeps(s, t, r);
    case Register(t, r, cb) => RegisterKeeps(s, t, r, cb);
    case Go(t) => NextKeepsCore(s, t);
  }
}

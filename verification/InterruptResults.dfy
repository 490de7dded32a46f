/** The results about whole runs of the interrupt protocol: no interrupt is lost, every due
    callback runs, requests are freed exactly once, and nothing deadlocks. */
module InterruptResults {
  import opened Wrappers
  import opened Interrupts
  import opened InterruptInvariant
  import opened InterruptSteps

  // ---------- pending interrupts ----------

  /** No two pending interrupts ask for the same request, and none asks for an active one. */
  ghost predicate Apart(s: State, i: Rid, x: Rid) {
    && (i in s.intr && x in s.intr && i != x ==> i in s.key && x in s.key && s.key[i] != s.key[x])
    && (i in s.intr && x in s.list ==> i in s.key && x in s.key && s.key[i] != s.key[x])
  }

  ghost predicate PendingOk(s: State) {
    forall i: Rid, x: Rid :: Apart(s, i, x)
  }

  // ---------- callbacks ----------

  /** Thread t is about to run callback f on r. */
  ghost predicate Calling(s: State, t: Tid, r: Rid, f: Reg) {
    var pc := PcOf(s, t);
    || (pc.IntCall? && pc.r == r && pc.f == Some(f))
    || (pc.RegCheck? && pc.r == r && pc.f == Some(f) && r in s.heap && s.heap[r].interrupted)
  }

  ghost predicate RanOrCalling(s: State, r: Rid, f: Reg) {
    (r, f) in s.ran || exists t: Tid :: Calling(s, t, r, f)
  }

  ghost predicate DueOk(s: State) {
    forall r: Rid, f: Reg {:trigger RanOrCalling(s, r, f)} :: (r, f) in s.due ==> RanOrCalling(s, r, f)
  }

  // ---------- fates ----------

  /** The interrupt's thread has not finished its search. */
  predicate Hunting(pc: Pc) {
    pc.IntWant? || pc.IntCrit? || Chasing(pc)
  }

  /** It has found its target and is about to mark it. */
  predicate Chasing(pc: Pc) {
    pc.IntWaitReq? || pc.IntWaitSe? || pc.IntMark?
  }

  ghost predicate FateOk(s: State, i: Rid) {
    && (i in s.intr ==> i in s.fate && s.fate[i] == Pending)
    && (i in s.fate ==>
          && i in s.key
          && match s.fate[i]
             case Searching => i in s.owner && Hunting(PcOf(s, s.owner[i])) && PcOf(s, s.owner[i]).i == i
             case Pending => i in s.intr
             case Marked(r) => r in s.marked && r in s.key && s.key[r] == s.key[i]
             case Absorbed(j) =>
               && j in s.fate && j in s.key && s.key[j] == s.key[i]
               && (s.fate[j].Pending? || s.fate[j].Marked? || s.fate[j].Bounced?)
             case Bounced(r) => r in s.key && s.key[r] != s.key[i])
  }

  ghost predicate HuntOk(s: State, t: Tid) {
    var pc := PcOf(s, t);
    && (Hunting(pc) ==> pc.i in s.fate && s.fate[pc.i] == Searching)
    && (Chasing(pc) ==> pc.i in s.key && pc.r in s.key && s.key[pc.i] == s.key[pc.r])
  }

  ghost predicate FatesOk(s: State) {
    && (forall i: Rid :: FateOk(s, i))
    && (forall t: Tid :: HuntOk(s, t))
  }

  ghost predicate Inv(s: State) {
    Core(s) && PendingOk(s) && DueOk(s) && FatesOk(s)
  }

  lemma InitInv()
    ensures Inv(Init())
  {
  }

  // ---------- steps that concern neither pending interrupts nor fates ----------

  ghost predicate SameHunt(a: Pc, b: Pc) {
    && (Hunting(a) <==> Hunting(b)) && (Hunting(a) ==> a.i == b.i)
    && (Chasing(b) ==> Chasing(a) && a.r == b.r)
  }

  ghost predicate Calm(s: State, s': State, t: Tid) {
    && Moves(s, s', t) && SameHunt(PcOf(s, t), PcOf(s', t))
    && s'.intr == s.intr && (forall x :: x in s'.list ==> x in s.list)
    && s'.fate == s.fate && s'.key == s.key && s'.marked == s.marked
    && (forall x {:trigger x in s'.owner} :: x in s.owner && s.owner[x] != t ==> x in s'.owner && s'.owner[x] == s.owner[x])
    && (Hunting(PcOf(s, t)) ==> s'.owner == s.owner)
  }

  lemma CalmKeeps(s: State, s': State, t: Tid)
    requires PendingOk(s) && FatesOk(s) && Calm(s, s', t)
    ensures PendingOk(s') && FatesOk(s')
  {
    forall i: Rid, x: Rid ensures Apart(s', i, x) { assert Apart(s, i, x); }
    forall i: Rid ensures FateOk(s', i) { assert FateOk(s, i); }
    forall u: Tid ensures HuntOk(s', u) { assert HuntOk(s, u); }
  }

  /** No due callback is forgotten when every call in progress goes on or is made. */
  lemma DueKept(s: State, s': State, t: Tid)
    requires DueOk(s) && Moves(s, s', t) && s.ran <= s'.ran
    requires forall r: Rid, f: Reg :: (r, f) in s'.due && (r, f) !in s.due ==> Calling(s', t, r, f)
    requires forall r: Rid, f: Reg :: Calling(s, t, r, f) ==> (r, f) in s'.ran || Calling(s', t, r, f)
    requires forall u: Tid, r: Rid, f: Reg :: u != t && Calling(s, u, r, f) ==> Calling(s', u, r, f)
    ensures DueOk(s')
  {
    forall r: Rid, f: Reg | (r, f) in s'.due ensures RanOrCalling(s', r, f) {
      if (r, f) in s.due {
        assert RanOrCalling(s, r, f);
        if (r, f) !in s.ran {
          var u :| Calling(s, u, r, f);
          if u == t { assert Calling(s, t, r, f); }
        }
      }
    }
  }

  /** A thread in the middle of registering keeps seeing its request, and the mark on it. */
  lemma OthersStillCall(s: State, s': State, t: Tid)
    requires Core(s) && Core(s') && Moves(s, s', t)
    requires forall x :: x in s.marked ==> x in s'.marked
    ensures forall u: Tid, r: Rid, f: Reg :: u != t && Calling(s, u, r, f) ==> Calling(s', u, r, f)
  {
    forall u: Tid, r: Rid, f: Reg | u != t && Calling(s, u, r, f) ensures Calling(s', u, r, f) {
      assert ThreadOk(s, u) && ThreadOk(s', u);
      if PcOf(s, u).RegCheck? { assert ReqOk(s, r) && ReqOk(s', r) && NameOk(s, r) && NameOk(s', r); }
    }
  }

  // ---------- the steps that do ----------

  lemma ArriveFates(s: State, s': State, t: Tid, pc: Pc)
    requires NamesOk(s) && FatesOk(s) && PcOf(s, t).Idle?
    requires pc == IntWant(s.nextRid) || pc == ProcWant(s.nextRid) || pc == RefuseWant(s.nextRid)
    requires s'.pc == s.pc[t := pc] && s'.intr == s.intr && s'.marked == s.marked
    requires s'.owner == s.owner[s.nextRid := t]
    requires s.nextRid in s'.key && s'.key == s.key[s.nextRid := s'.key[s.nextRid]]
    requires s'.fate == if pc.IntWant? then s.fate[s.nextRid := Searching] else s.fate
    ensures FatesOk(s')
  {
    assert NameOk(s, s.nextRid) && FateOk(s, s.nextRid);
    forall i: Rid ensures FateOk(s', i) {
      assert FateOk(s, i);
      if i in s.fate && s.fate[i].Marked? { assert NameOk(s, s.fate[i].r); }
      if i in s.fate && s.fate[i].Absorbed? { assert FateOk(s, s.fate[i].twin); }
    }
    forall u: Tid ensures HuntOk(s', u) { assert HuntOk(s, u); }
  }

  lemma ArriveKept(s: State, s': State, t: Tid, pc: Pc)
    requires Inv(s) && PcOf(s, t).Idle? && Core(s')
    requires pc == IntWant(s.nextRid) || pc == ProcWant(s.nextRid) || pc == RefuseWant(s.nextRid)
    requires s'.pc == s.pc[t := pc] && s'.intr == s.intr && s'.list == s.list && s'.marked == s.marked
    requires s'.owner == s.owner[s.nextRid := t] && s'.due == s.due && s'.ran == s.ran
    requires s.nextRid in s'.key && s'.key == s.key[s.nextRid := s'.key[s.nextRid]]
    requires s'.fate == if pc.IntWant? then s.fate[s.nextRid := Searching] else s.fate
    ensures PendingOk(s') && FatesOk(s') && DueOk(s')
  {
    assert NamesOk(s);
    hide Core, FatesOk, DueOk;
    assert NameOk(s, s.nextRid);
    forall i: Rid, x: Rid ensures Apart(s', i, x) {
      assert Apart(s, i, x) && NameOk(s, i) && NameOk(s, x);
    }
    ArriveFates(s, s', t, pc);
    OthersStillCall(s, s', t);
    DueKept(s, s', t);
  }

  /** What marking does, field by field. */
  ghost predicate MarkDone(s: State, s': State, t: Tid, i: Rid, r: Rid)
    requires r in s.heap
  {
    && Moves(s, s', t) && PcOf(s', t) == IntCall(i, r, s.heap[r].func)
    && s'.list == s.list && s'.intr == s.intr && s'.key == s.key && s'.owner == s.owner && s'.ran == s.ran
    && s'.marked == s.marked + {r} && s'.fate == s.fate[i := Marked(r)]
    && s'.due == (if s.heap[r].func.Some? then s.due + {(r, s.heap[r].func.value)} else s.due)
  }

  lemma MarkIs(s: State, t: Tid, i: Rid, r: Rid)
    requires PcOf(s, t) == IntMark(i, r) && r in s.heap
    ensures MarkDone(s, StepMark(s, t, i, r), t, i, r)
  {
  }

  lemma SamePending(s: State, s': State)
    requires PendingOk(s) && s'.intr == s.intr && s'.list == s.list && s'.key == s.key
    ensures PendingOk(s')
  {
    forall j: Rid, x: Rid ensures Apart(s', j, x) { assert Apart(s, j, x); }
  }

  lemma MarkFates(s: State, s': State, t: Tid, i: Rid, r: Rid)
    requires FatesOk(s) && ThreadsOk(s) && PcOf(s, t) == IntMark(i, r) && r in s.heap && MarkDone(s, s', t, i, r)
    ensures FatesOk(s')
  {
    assert HuntOk(s, t) && FateOk(s, i);
    assert Owned(PcOf(s, t)) == Some(i);
    ThreadAt(s, t);
    hide ThreadOk;
    forall j: Rid ensures FateOk(s', j) { assert FateOk(s, j); }
    forall u: Tid ensures HuntOk(s', u) {
      assert HuntOk(s, u);
      if u != t && Hunting(PcOf(s, u)) { OwnerIsOne(s, u, t, i); }
    }
  }

  /** Two threads never have the same interrupt in hand. */
  lemma OwnerIsOne(s: State, u: Tid, t: Tid, i: Rid)
    requires ThreadsOk(s) && u != t && Owned(PcOf(s, t)) == Some(i)
    ensures Owned(PcOf(s, u)) != Some(i)
  {
    assert ThreadOk(s, u) && ThreadOk(s, t);
  }

  lemma MarkKept(s: State, t: Tid, i: Rid, r: Rid)
    requires Inv(s) && PcOf(s, t) == IntMark(i, r) && Core(StepMark(s, t, i, r))
    ensures var s' := StepMark(s, t, i, r); PendingOk(s') && FatesOk(s') && DueOk(s')
  {
    assert r in s.heap by { CoreThread(s, t); }
    assert ThreadsOk(s);
    var s' := StepMark(s, t, i, r);
    MarkIs(s, t, i, r);
    hide StepMark, Core, PendingOk, FatesOk, DueOk;
    SamePending(s, s');
    MarkFates(s, s', t, i, r);
    OthersStillCall(s, s', t);
    DueKept(s, s', t);
  }

  lemma SetCalm(s: State, t: Tid, r: Rid, f: Option<Reg>)
    requires PcOf(s, t) == RegSet(r, f) && r in s.heap
    ensures Calm(s, StepSet(s, t, r, f), t)
  {
  }

  lemma SetDue(s: State, t: Tid, r: Rid, f: Option<Reg>, x: Rid, g: Reg)
    requires PcOf(s, t) == RegSet(r, f) && r in s.heap
    ensures var s' := StepSet(s, t, r, f);
      && s'.ran == s.ran && !Calling(s, t, x, g)
      && ((x, g) in s'.due && (x, g) !in s.due ==> Calling(s', t, x, g))
  {
  }

  lemma SetKept(s: State, t: Tid, r: Rid, f: Option<Reg>)
    requires Inv(s) && PcOf(s, t) == RegSet(r, f) && Core(StepSet(s, t, r, f))
    ensures var s' := StepSet(s, t, r, f); PendingOk(s') && FatesOk(s') && DueOk(s')
  {
    assert r in s.heap by { CoreThread(s, t); }
    hide StepSet, Core, PendingOk, FatesOk, DueOk, Calling;
    var s' := StepSet(s, t, r, f);
    SetCalm(s, t, r, f);
    CalmKeeps(s, s', t);
    OthersStillCall(s, s', t);
    forall x: Rid, g: Reg
      ensures s'.ran == s.ran && !Calling(s, t, x, g)
      ensures (x, g) in s'.due && (x, g) !in s.due ==> Calling(s', t, x, g)
    {
      SetDue(s, t, r, f, x, g);
    }
    assert s'.ran == s.ran by { SetDue(s, t, r, f, r, 0); }
    DueKept(s, s', t);
  }

  lemma TargetAt(s: State, k: nat)
    requires Core(s) && k < |s.intr|
    ensures s.intr[k] in s.key && Targets(s)[k] == s.key[s.intr[k]]
  {
    assert NameOk(s, s.intr[k]) && ReqOk(s, s.intr[k]);
  }

  lemma UniqueAt(s: State, k: nat)
    requires Core(s) && k < |s.list|
    ensures s.list[k] in s.key && Uniques(s)[k] == s.key[s.list[k]]
  {
    assert NameOk(s, s.list[k]) && ReqOk(s, s.list[k]);
  }

  /** A pending interrupt with this target exists exactly if the scan finds one. */
  lemma ScanPending(s: State, key: nat)
    requires Core(s)
    ensures FirstIndex(Targets(s), key) == |s.intr| ==>
              forall i :: i in s.intr ==> i in s.key && s.key[i] != key
    ensures FirstIndex(Targets(s), key) < |s.intr| ==>
              var i := s.intr[FirstIndex(Targets(s), key)]; i in s.key && s.key[i] == key
  {
    forall i | i in s.intr && FirstIndex(Targets(s), key) == |s.intr| ensures i in s.key && s.key[i] != key {
      var k :| 0 <= k < |s.intr| && s.intr[k] == i;
      TargetAt(s, k);
      assert Targets(s)[k] != key;
    }
    if FirstIndex(Targets(s), key) < |s.intr| { TargetAt(s, FirstIndex(Targets(s), key)); }
  }

  lemma ScanActive(s: State, key: nat)
    requires Core(s)
    ensures FirstIndex(Uniques(s), key) == |s.list| ==>
              forall r :: r in s.list ==> r in s.key && s.key[r] != key
    ensures FirstIndex(Uniques(s), key) < |s.list| ==>
              var r := s.list[FirstIndex(Uniques(s), key)]; r in s.key && s.key[r] == key
  {
    forall r | r in s.list && FirstIndex(Uniques(s), key) == |s.list| ensures r in s.key && s.key[r] != key {
      var k :| 0 <= k < |s.list| && s.list[k] == r;
      UniqueAt(s, k);
      assert Uniques(s)[k] != key;
    }
    if FirstIndex(Uniques(s), key) < |s.list| { UniqueAt(s, FirstIndex(Uniques(s), key)); }
  }

  /** The three ways a search ends, in terms of keys. */
  ghost predicate Searched(s: State, s': State, t: Tid, i: Rid) {
    && i in s.key && i in s.owner && s.owner[i] == t && i !in s.intr
    && s'.list == s.list && s'.key == s.key && s'.marked == s.marked && s'.due == s.due && s'.ran == s.ran
    && Moves(s, s', t)
    && if PcOf(s', t).IntWaitReq? then
         && s'.intr == s.intr && s'.fate == s.fate && s'.owner == s.owner
         && PcOf(s', t).i == i && PcOf(s', t).r in s.key && s.key[PcOf(s', t).r] == s.key[i]
       else
         && PcOf(s', t).Idle? && s'.owner == s.owner - {i}
         && if s'.intr == s.intr then
              exists j :: j in s.intr && j in s.key && s.key[j] == s.key[i] && s'.fate == s.fate[i := Absorbed(j)]
            else
              && s'.intr == s.intr + [i] && s'.fate == s.fate[i := Pending]
              && (forall j :: j in s.intr ==> j in s.key && s.key[j] != s.key[i])
              && (forall r :: r in s.list ==> r in s.key && s.key[r] != s.key[i])
  }

  lemma SearchShape(s: State, t: Tid, i: Rid)
    requires Core(s) && PcOf(s, t) == IntCrit(i)
    ensures Searched(s, StepSearch(s, t, i), t, i)
  {
    assert ThreadOk(s, t);
    assert ReqOk(s, i);
    IntrUnlocked(s, i);
    var key := s.heap[i].target;
    ScanActive(s, key);
    ScanPending(s, key);
    var k := FirstIndex(Uniques(s), key);
    if k < |s.list| {
      assert NameOk(s, s.list[k]);
    } else if FirstIndex(Targets(s), key) < |s.intr| {
      var j := s.intr[FirstIndex(Targets(s), key)];
      assert j in s.intr && s.key[j] == s.key[i];
    }
  }

  lemma SearchKept(s: State, s': State, t: Tid, i: Rid)
    requires Inv(s) && PcOf(s, t) == IntCrit(i) && Core(s') && Searched(s, s', t, i)
    ensures PendingOk(s') && FatesOk(s') && DueOk(s')
  {
    assert ThreadOk(s, t) && HuntOk(s, t) && FateOk(s, i);
    forall j: Rid, x: Rid ensures Apart(s', j, x) {
      assert Apart(s, j, x);
    }
    forall j: Rid ensures FateOk(s', j) {
      assert FateOk(s, j);
      if j in s.fate && s.fate[j].Absorbed? { assert FateOk(s, s.fate[j].twin); }
      if j == i && j in s'.fate && s'.fate[j].Absorbed? { assert FateOk(s, s'.fate[j].twin); }
    }
    forall u: Tid ensures HuntOk(s', u) {
      assert HuntOk(s, u) && ThreadOk(s, u);
    }
    OthersStillCall(s, s', t);
    DueKept(s, s', t);
  }

  /** The three ways a dispatch ends, in terms of keys. */
  ghost predicate Dispatched(s: State, s': State, t: Tid, r: Rid) {
    && r in s.key && r !in s.intr && s'.list == s.list + [r] && s'.key == s.key
    && Moves(s, s', t) && s'.due == s.due && s'.ran == s.ran && r in s.owner && s.owner[r] == t
    && (forall i :: i in s'.intr ==> i in s.intr && i in s.key && s.key[i] != s.key[r])
    && ((s'.intr == s.intr && s'.fate == s.fate && s'.marked == s.marked && s'.owner == s.owner - {r} && PcOf(s', t).Idle?)
        || exists i :: Taken(s, s', t, r, i))
  }

  ghost predicate Taken(s: State, s': State, t: Tid, r: Rid, i: Rid) {
    && i in s.intr && i != r && i in s.key && r in s.key && (forall j :: j in s'.intr <==> j in s.intr && j != i)
    && ((s'.fate == s.fate[i := Marked(r)] && s'.marked == s.marked + {r} && s.key[i] == s.key[r]
         && s'.owner == s.owner - {r} && PcOf(s', t).Idle?)
        || (s'.fate == s.fate[i := Bounced(r)] && s.key[i] != s.key[r] && s'.marked == s.marked && s'.owner == (s.owner - {r})[i := t]
            && PcOf(s', t) == FreeWant(i)))
  }

  lemma ProcShape(s: State, t: Tid, r: Rid)
    requires Inv(s) && PcOf(s, t) == ProcCrit(r)
    ensures Dispatched(s, StepProc(s, t, r), t, r)
  {
    assert ThreadOk(s, t) && ReqOk(s, r);
    var key := s.heap[r].unique;
    ScanPending(s, key);
    var k := FirstIndex(Targets(s), key);
    if k < |s.intr| {
      ProcHitShape(s, t, r, k);
    } else if s.intr != [] {
      assert s.intr[1..] == Drop(s.intr, 0);
      DropFacts(s.intr, 0);
      assert Taken(s, StepProc(s, t, r), t, r, s.intr[0]);
    }
  }

  lemma ProcHitShape(s: State, t: Tid, r: Rid, k: nat)
    requires Core(s) && PendingOk(s) && PcOf(s, t) == ProcCrit(r) && ThreadOk(s, t)
    requires r in s.key && s.key[r] == s.heap[r].unique
    requires k == FirstIndex(Targets(s), s.heap[r].unique) && k < |s.intr|
    requires s.intr[k] in s.key && s.key[s.intr[k]] == s.key[r]
    ensures Dispatched(s, StepProc(s, t, r), t, r)
  {
    var s' := StepProc(s, t, r);
    var i := s.intr[k];
    assert NameOk(s, i);
    IntrUnlocked(s, i);
    DropFacts(s.intr, k);
    assert !s'.fault by { ProcKeeps(s, t, r); }
    assert s'.intr == Drop(s.intr, k);
    forall j | j in s'.intr ensures j in s.intr && j in s.key && s.key[j] != s.key[r] {
      assert Apart(s, i, j) && NameOk(s, j);
    }
    assert Taken(s, s', t, r, i);
  }

  lemma ProcKept(s: State, s': State, t: Tid, r: Rid)
    requires Inv(s) && PcOf(s, t) == ProcCrit(r) && Core(s') && Dispatched(s, s', t, r)
    ensures PendingOk(s') && FatesOk(s') && DueOk(s')
  {
    forall j: Rid, x: Rid ensures Apart(s', j, x) { assert Apart(s, j, x); }
    ProcFates(s, s', t, r);
    OthersStillCall(s, s', t);
    DueKept(s, s', t);
  }

  lemma ProcFates(s: State, s': State, t: Tid, r: Rid)
    requires FatesOk(s) && ThreadsOk(s) && PcOf(s, t) == ProcCrit(r) && Dispatched(s, s', t, r)
    ensures FatesOk(s')
  {
    if i :| Taken(s, s', t, r, i) {
      assert FateOk(s, i);
      forall j: Rid ensures FateOk(s', j) { assert FateOk(s, j); }
      forall u: Tid ensures HuntOk(s', u) { assert HuntOk(s, u); }
    } else {
      forall j: Rid ensures FateOk(s', j) { assert FateOk(s, j); }
      forall u: Tid ensures HuntOk(s', u) { assert HuntOk(s, u); }
    }
  }

  // ---------- every step ----------

  lemma NextKeepsInv(s: State, t: Tid)
    requires Inv(s) && CanStep(s, t)
    ensures Inv(Next(s, t))
  {
    var s' := Next(s, t);
    assert ThreadOk(s, t);
    NextKeepsCore(s, t);
    match PcOf(s, t)
    case ProcCrit(r) => ProcShape(s, t, r); ProcKept(s, s', t, r);
    case IntCrit(i) => SearchShape(s, t, i); SearchKept(s, s', t, i);
    case IntMark(i, r) => MarkKept(s, t, i, r);
    case RegSet(r, f) => SetKept(s, t, r, f);
    case _ => CalmStep(s, t);
  }

  /** Locks, calls, frees and the end of find_interrupted. */
  lemma CalmStep(s: State, t: Tid)
    requires Inv(s) && CanStep(s, t) && Core(Next(s, t))
    requires !PcOf(s, t).ProcCrit? && !PcOf(s, t).IntCrit? && !PcOf(s, t).IntMark? && !PcOf(s, t).RegSet?
    ensures Inv(Next(s, t))
  {
    var s' := Next(s, t);
    CalmShape(s, t);
    CalmKeeps(s, s', t);
    OthersStillCall(s, s', t);
    CallsMade(s, t);
    DueKept(s, s', t);
  }

  ghost predicate CalmTo(s: State, s': State, t: Tid) {
    Calm(s, s', t) && s'.due == s.due && s.ran <= s'.ran
  }

  lemma CalmSe(s: State, t: Tid, pc: Pc)
    requires SameHunt(PcOf(s, t), pc)
    ensures CalmTo(s, LockSe(s, t, pc), t)
  {
  }

  lemma CalmReq(s: State, t: Tid, r: Rid, pc: Pc)
    requires SameHunt(PcOf(s, t), pc) && r in s.heap
    ensures CalmTo(s, LockReq(s, t, r, pc), t) && CalmTo(s, UnlockReq(s, t, r, pc), t)
  {
  }

  lemma CalmCall(s: State, t: Tid, i: Rid, r: Rid, f: Option<Reg>)
    requires r in s.heap
    ensures !Hunting(PcOf(s, t)) ==> CalmTo(s, StepCall(s, t, i, r, f), t) && CalmTo(s, StepCheck(s, t, r, f), t)
  {
  }

  lemma CalmDestroy(s: State, t: Tid, x: Rid)
    requires PcOf(s, t) == Destroy(x) && x in s.owner && s.owner[x] == t
    requires x in s.heap && !s.heap[x].ch && x !in s.list && x !in s.intr && x !in s.locks
    ensures CalmTo(s, StepDestroy(s, t, x), t)
  {
  }

  lemma CalmLock(s: State, t: Tid)
    requires Core(s) && ThreadOk(s, t) && CanStep(s, t)
    requires !PcOf(s, t).ProcCrit? && !PcOf(s, t).IntCrit? && !PcOf(s, t).IntMark? && !PcOf(s, t).RegSet?
    requires !PcOf(s, t).FreeCrit? && !PcOf(s, t).RefuseCrit? && !PcOf(s, t).IntDrop?
    ensures CalmTo(s, Next(s, t), t)
  {
    match PcOf(s, t)
    case ProcWant(r) => CalmSe(s, t, ProcCrit(r));
    case RefuseWant(r) => CalmSe(s, t, RefuseCrit(r));
    case FreeWant(x) => CalmSe(s, t, FreeCrit(x));
    case Destroy(x) => Unreferenced(s, x); CalmDestroy(s, t, x);
    case IntWant(i) => CalmSe(s, t, IntCrit(i));
    case IntWaitReq(i, r) => CalmReq(s, t, r, IntWaitSe(i, r));
    case IntWaitSe(i, r) => CalmSe(s, t, IntMark(i, r));
    case IntCall(i, r, f) => CalmCall(s, t, i, r, f);
    case IntUnlock(i, r) => CalmReq(s, t, r, IntWaitSe2(i, r));
    case IntWaitSe2(i, r) => CalmSe(s, t, IntDrop(i, r));
    case RegWait(r, f) => CalmReq(s, t, r, RegWaitSe(r, f));
    case RegWaitSe(r, f) => CalmSe(s, t, RegSet(r, f));
    case RegCheck(r, f) => CalmCall(s, t, r, r, f);
    case RegUnlock(r) => CalmReq(s, t, r, Idle);
  }

  lemma CalmFree(s: State, t: Tid, x: Rid)
    requires Distinct(s.list) && x in s.heap && Freeing(PcOf(s, t), x) && x in s.owner && s.owner[x] == t
    ensures CalmTo(s, StepFree(s, t, x), t)
  {
    hide StepFree, Unlink, Distinct;
    FreeIs(s, t, x);
    UnlinkFacts(s.list, x);
  }

  lemma CalmDrop(s: State, t: Tid, i: Rid, r: Rid)
    requires Core(s) && PcOf(s, t) == IntDrop(i, r)
    ensures CalmTo(s, StepDrop(s, t, i, r), t)
  {
    ThreadAt(s, t);
    DropInOrder(s, t, i, r);
    hide Core, StepDrop;
  }

  lemma CalmShape(s: State, t: Tid)
    requires Core(s) && CanStep(s, t)
    requires !PcOf(s, t).ProcCrit? && !PcOf(s, t).IntCrit? && !PcOf(s, t).IntMark? && !PcOf(s, t).RegSet?
    ensures CalmTo(s, Next(s, t), t)
  {
    ThreadAt(s, t);
    hide CalmTo, StepFree, StepDrop;
    match PcOf(s, t) {
      case FreeCrit(x) => CalmFree(s, t, x);
      case RefuseCrit(r) => CalmFree(s, t, r);
      case IntDrop(i, r) => CalmDrop(s, t, i, r);
      case _ => CalmLock(s, t);
    }
  }

  lemma CallsMade(s: State, t: Tid)
    requires Core(s) && CanStep(s, t)
    ensures forall r: Rid, f: Reg :: Calling(s, t, r, f) ==> (r, f) in Next(s, t).ran
  {
    assert ThreadOk(s, t);
  }

  /** A handler begins to answer or to register. */
  lemma HandlerKept(s: State, s': State, t: Tid, pc: Pc)
    requires Inv(s) && PcOf(s, t).Idle? && Core(s') && (pc.FreeWant? || pc.RegWait?)
    requires s' == s.(pc := s.pc[t := pc], owner := s'.owner, nextReg := s'.nextReg)
    requires forall x :: x in s.owner ==> x in s'.owner && s'.owner[x] == s.owner[x]
    ensures PendingOk(s') && FatesOk(s') && DueOk(s')
  {
    CalmKeeps(s, s', t);
    OthersStillCall(s, s', t);
    DueKept(s, s', t);
  }

  lemma StepKeepsInv(s: State, a: Action)
    requires Inv(s) && Enabled(s, a)
    ensures Inv(Do(s, a))
  {
    var s' := Do(s, a);
    StepKeepsCore(s, a);
    match a
    case Dispatch(t, _) => ArriveKept(s, s', t, ProcWant(s.nextRid));
    case Refuse(t, _) => ArriveKept(s, s', t, RefuseWant(s.nextRid));
    case Interrupt(t, _) => ArriveKept(s, s', t, IntWant(s.nextRid));
    case Answer(t, r) => HandlerKept(s, s', t, FreeWant(r));
    case Register(t, r, cb) => HandlerKept(s, s', t, if cb then RegWait(r, Some(s.nextReg)) else RegWait(r, None));
    case Go(t) => NextKeepsInv(s, t);
  }

  lemma {:induction false} RunKeepsInv(s: State, run: seq<Action>, s': State)
    requires Inv(s) && Run(s, run, s')
    ensures Inv(s')
    decreases |run|
  {
    if run != [] {
      StepKeepsInv(s, run[0]);
      RunKeepsInv(Do(s, run[0]), run[1..], s');
    }
  }

  lemma ReachableInv(s: State)
    requires Reachable(s)
    ensures Inv(s)
  {
    var run :| Run(Init(), run, s);
    InitInv();
    RunKeepsInv(Init(), run, s);
  }

  // ---------- the results ----------

  /** Where a received interrupt i can be. */
  ghost predicate Accounted(s: State, i: Rid)
    requires i in s.fate && i in s.key
  {
    match s.fate[i]
    case Searching => i in s.owner && Hunting(PcOf(s, s.owner[i])) && PcOf(s, s.owner[i]).i == i
    case Pending => i in s.intr
    case Marked(r) => r in s.marked && r in s.key && s.key[r] == s.key[i]
    case Bounced(r) => r in s.key && s.key[r] != s.key[i]
    case Absorbed(j) =>
      && j in s.fate && j in s.key && s.key[j] == s.key[i]
      && (s.fate[j].Pending? || s.fate[j].Marked? || s.fate[j].Bounced?)
  }

  /** No interrupt is lost.  Pending interrupts have distinct targets, none of them active; and
      every interrupt ever received is still in the hands of its searching thread, is pending, has
      marked a request with its target's number, was bounced with EAGAIN, or was absorbed by one
      with the same target that is itself pending, has marked, or was bounced. */
  lemma NoInterruptLost(s: State)
    requires Reachable(s)
    ensures forall i, j :: i in s.intr && j in s.intr && i != j ==> i in s.heap && j in s.heap && s.heap[i].target != s.heap[j].target
    ensures forall i, r :: i in s.intr && r in s.list ==> i in s.heap && r in s.heap && s.heap[i].target != s.heap[r].unique
    ensures forall i :: i in s.fate ==> i in s.key && Accounted(s, i)
    ensures forall r :: r in s.heap && !s.heap[r].isIntr ==> (s.heap[r].interrupted <==> r in s.marked)
  {
    ReachableInv(s);
    forall i, j | i in s.intr && j in s.intr && i != j
      ensures i in s.heap && j in s.heap && s.heap[i].target != s.heap[j].target
    {
      assert Apart(s, i, j) && NameOk(s, i) && NameOk(s, j) && ReqOk(s, i) && ReqOk(s, j);
    }
    forall i, r | i in s.intr && r in s.list
      ensures i in s.heap && r in s.heap && s.heap[i].target != s.heap[r].unique
    {
      assert Apart(s, i, r) && NameOk(s, i) && NameOk(s, r) && ReqOk(s, i) && ReqOk(s, r);
    }
    forall i | i in s.fate ensures i in s.key && Accounted(s, i) { assert FateOk(s, i); }
    forall r | r in s.heap && !s.heap[r].isIntr ensures s.heap[r].interrupted <==> r in s.marked { assert ReqOk(s, r); }
  }

  /** Every due callback runs: once a request is marked while a callback is registered on it (in
      whichever order the two happened), the callback has run, or a thread stands right in front
      of the call and needs no lock to make it. */
  lemma DueCallbackRuns(s: State, r: Rid, f: Reg)
    requires Reachable(s) && (r, f) in s.due
    ensures (r, f) in s.ran || exists t: Tid :: CanStep(s, t) && (r, f) in Next(s, t).ran
    ensures (forall t: Tid :: PcOf(s, t).Idle?) ==> (r, f) in s.ran
  {
    ReachableInv(s);
    assert RanOrCalling(s, r, f);
    if (r, f) !in s.ran {
      var t: Tid :| Calling(s, t, r, f);
      CallsMade(s, t);
    }
  }

  /** A request that is marked and has a callback is due, so it falls under DueCallbackRuns. */
  lemma MarkedAndRegisteredIsDue(s: State, r: Rid)
    requires Reachable(s) && r in s.heap && !s.heap[r].isIntr && s.heap[r].interrupted && s.heap[r].func.Some?
    ensures (r, s.heap[r].func.value) in s.due
  {
    ReachableInv(s);
    assert ReqOk(s, r);
  }

  /** No reachable state deadlocks: while any thread is inside one of the functions, some thread
      can take its next step.  The session lock is always taken last. */
  lemma NoDeadlock(s: State, t: Tid)
    requires Reachable(s) && !PcOf(s, t).Idle?
    ensures exists u: Tid :: CanStep(s, u)
    ensures forall u: Tid :: s.seLock == Some(u) ==> CanStep(s, u)
  {
    ReachableInv(s);
    forall u: Tid | s.seLock == Some(u) ensures CanStep(s, u) { assert ThreadOk(s, u); }
    if s.seLock.Some? {
      assert CanStep(s, s.seLock.value);
    } else if !CanStep(s, t) {
      assert ThreadOk(s, t);
      var r := PcOf(s, t).r;
      assert NameOk(s, r);
      var u := s.locks[r];
      assert CanStep(s, u);
    }
  }

  /** How many steps an activation has left, at most. */
  function Rank(pc: Pc): nat {
    match pc
    case Idle => 0
    case ProcWant(_) => 5
    case ProcCrit(_) => 4
    case RefuseWant(_) => 3
    case RefuseCrit(_) => 2
    case FreeWant(_) => 3
    case FreeCrit(_) => 2
    case Destroy(_) => 1
    case IntWant(_) => 9
    case IntCrit(_) => 8
    case IntWaitReq(_, _) => 7
    case IntWaitSe(_, _) => 6
    case IntMark(_, _) => 5
    case IntCall(_, _, _) => 4
    case IntUnlock(_, _) => 3
    case IntWaitSe2(_, _) => 2
    case IntDrop(_, _) => 1
    case RegWait(_, _) => 5
    case RegWaitSe(_, _) => 4
    case RegSet(_, _) => 3
    case RegCheck(_, _) => 2
    case RegUnlock(_) => 1
  }

  /** Thread t came closer to the end of its function and nobody else moved. */
  ghost predicate Advances(s: State, s': State, t: Tid) {
    Moves(s, s', t) && Rank(PcOf(s', t)) < Rank(PcOf(s, t))
  }

  lemma SeAdvances(s: State, t: Tid, pc: Pc)
    requires Rank(pc) < Rank(PcOf(s, t))
    ensures Advances(s, LockSe(s, t, pc), t)
  {
  }

  lemma ReqAdvances(s: State, t: Tid, r: Rid, pc: Pc)
    requires Rank(pc) < Rank(PcOf(s, t)) && r in s.heap
    ensures Advances(s, LockReq(s, t, r, pc), t) && Advances(s, UnlockReq(s, t, r, pc), t)
  {
  }

  lemma IntAdvances(s: State, t: Tid, i: Rid, r: Rid, f: Option<Reg>)
    requires r in s.heap && Rank(PcOf(s, t)) >= 4
    ensures Rank(PcOf(s, t)) == 5 ==> Advances(s, StepMark(s, t, i, r), t)
    ensures Advances(s, StepCall(s, t, i, r, f), t)
  {
  }

  lemma RegAdvances(s: State, t: Tid, r: Rid, f: Option<Reg>)
    requires r in s.heap && Rank(PcOf(s, t)) >= 2
    ensures Rank(PcOf(s, t)) == 3 ==> Advances(s, StepSet(s, t, r, f), t)
    ensures Advances(s, StepCheck(s, t, r, f), t)
  {
  }

  lemma FreeAdvances(s: State, t: Tid, x: Rid)
    requires x in s.heap && Rank(PcOf(s, t)) == 2
    ensures Advances(s, StepFree(s, t, x), t)
  {
    hide StepFree, Unlink;
    FreeIs(s, t, x);
  }

  lemma DestroyAdvances(s: State, t: Tid, x: Rid)
    requires Rank(PcOf(s, t)) == 1
    ensures Advances(s, StepDestroy(s, t, x), t)
  {
  }

  lemma LockAdvances(s: State, t: Tid)
    requires ThreadOk(s, t) && CanStep(s, t)
    requires !PcOf(s, t).ProcCrit? && !PcOf(s, t).IntCrit? && !PcOf(s, t).IntDrop?
    ensures Advances(s, Next(s, t), t)
  {
    match PcOf(s, t)
    case ProcWant(r) => SeAdvances(s, t, ProcCrit(r));
    case RefuseWant(r) => SeAdvances(s, t, RefuseCrit(r));
    case RefuseCrit(r) => FreeAdvances(s, t, r);
    case FreeWant(x) => SeAdvances(s, t, FreeCrit(x));
    case FreeCrit(x) => FreeAdvances(s, t, x);
    case Destroy(x) => DestroyAdvances(s, t, x);
    case IntWant(i) => SeAdvances(s, t, IntCrit(i));
    case IntWaitReq(i, r) => ReqAdvances(s, t, r, IntWaitSe(i, r));
    case IntWaitSe(i, r) => SeAdvances(s, t, IntMark(i, r));
    case IntMark(i, r) => IntAdvances(s, t, i, r, None);
    case IntCall(i, r, f) => IntAdvances(s, t, i, r, f);
    case IntUnlock(i, r) => ReqAdvances(s, t, r, IntWaitSe2(i, r));
    case IntWaitSe2(i, r) => SeAdvances(s, t, IntDrop(i, r));
    case RegWait(r, f) => ReqAdvances(s, t, r, RegWaitSe(r, f));
    case RegWaitSe(r, f) => SeAdvances(s, t, RegSet(r, f));
    case RegSet(r, f) => RegAdvances(s, t, r, f);
    case RegCheck(r, f) => RegAdvances(s, t, r, f);
    case RegUnlock(r) => ReqAdvances(s, t, r, Idle);
  }

  lemma ProcAdvances(s: State, t: Tid, r: Rid)
    requires Inv(s) && PcOf(s, t) == ProcCrit(r)
    ensures Advances(s, StepProc(s, t, r), t)
  {
    hide Inv, StepProc;
    ProcShape(s, t, r);
  }

  lemma SearchAdvances(s: State, t: Tid, i: Rid)
    requires Inv(s) && PcOf(s, t) == IntCrit(i)
    ensures Advances(s, StepSearch(s, t, i), t)
  {
    assert Core(s);
    hide Inv, Core, StepSearch;
    SearchShape(s, t, i);
  }

  lemma DropAdvances(s: State, t: Tid, i: Rid, r: Rid)
    requires Inv(s) && PcOf(s, t) == IntDrop(i, r)
    ensures Advances(s, StepDrop(s, t, i, r), t)
  {
    assert Core(s);
    hide Inv, Core, StepDrop;
    DropInOrder(s, t, i, r);
  }

  lemma ListAdvances(s: State, t: Tid)
    requires Inv(s) && CanStep(s, t)
    requires PcOf(s, t).ProcCrit? || PcOf(s, t).IntCrit? || PcOf(s, t).IntDrop?
    ensures Advances(s, Next(s, t), t)
  {
    hide Inv, Advances, StepProc, StepSearch, StepDrop;
    match PcOf(s, t)
    case ProcCrit(r) => ProcAdvances(s, t, r);
    case IntCrit(i) => SearchAdvances(s, t, i);
    case IntDrop(i, r) => DropAdvances(s, t, i, r);
  }

  lemma StepAdvances(s: State, t: Tid)
    requires Inv(s) && CanStep(s, t)
    ensures Advances(s, Next(s, t), t)
  {
    hide Advances;
    ThreadAt(s, t);
    if PcOf(s, t).ProcCrit? || PcOf(s, t).IntCrit? || PcOf(s, t).IntDrop? { ListAdvances(s, t); }
    else { LockAdvances(s, t); }
  }

  /** Each step brings its own thread closer to the end of its function and moves nobody else. */
  lemma StepsFinish(s: State, t: Tid)
    requires Reachable(s) && CanStep(s, t)
    ensures Rank(PcOf(Next(s, t), t)) < Rank(PcOf(s, t))
    ensures forall u: Tid :: u != t ==> PcOf(Next(s, t), u) == PcOf(s, u)
  {
    hide Inv, Next;
    ReachableInv(s);
    StepAdvances(s, t);
  }

  ghost predicate ActiveUpTo(s: State, n: Tid) {
    forall t: Tid :: t >= n ==> PcOf(s, t).Idle?
  }

  function RankSum(s: State, n: Tid): nat {
    if n == 0 then 0 else RankSum(s, n - 1) + Rank(PcOf(s, n - 1))
  }

  lemma {:induction false} RankSumDrops(s: State, s': State, t: Tid, n: Tid)
    requires Advances(s, s', t)
    ensures if t < n then RankSum(s', n) < RankSum(s, n) else RankSum(s', n) == RankSum(s, n)
  {
    if n > 0 { RankSumDrops(s, s', t, n - 1); }
  }

  lemma Inside(s: State, t: Tid, n: Tid)
    requires ActiveUpTo(s, n) && !PcOf(s, t).Idle?
    ensures t < n
  {
  }

  lemma StillUpTo(s: State, s': State, t: Tid, n: Tid)
    requires ActiveUpTo(s, n) && Advances(s, s', t)
    ensures ActiveUpTo(s', n)
  {
    Inside(s, t, n);
    forall u: Tid | u >= n ensures PcOf(s', u).Idle? { assert PcOf(s, u).Idle?; }
  }

  lemma {:induction false} RunUsesRanks(s: State, run: seq<Action>, s': State, n: Tid)
    requires Inv(s) && ActiveUpTo(s, n) && Run(s, run, s')
    requires forall i | 0 <= i < |run| :: run[i].Go?
    ensures |run| + RankSum(s', n) <= RankSum(s, n) && Inv(s')
    decreases |run|
  {
    if run != [] {
      hide Inv, Next, RankSum, Rank;
      var t, s1 := run[0].t, Do(s, run[0]);
      assert s1 == Next(s, t);
      StepAdvances(s, t);
      RankSumDrops(s, s1, t, n);
      StillUpTo(s, s1, t, n);
      StepKeepsInv(s, run[0]);
      RunUsesRanks(s1, run[1..], s', n);
    }
  }

  /** Under every schedule: once nothing new arrives and the handlers call nothing, at most as many
      steps are left as the ranks add up to; and when nobody can step any more, every thread is
      outside, every due callback has run, and what is allocated is exactly what is linked. */
  lemma EverythingFinishes(s: State, run: seq<Action>, s': State, n: Tid)
    requires Reachable(s) && ActiveUpTo(s, n) && Run(s, run, s')
    requires forall i | 0 <= i < |run| :: run[i].Go?
    ensures |run| <= RankSum(s, n)
    ensures (forall t: Tid :: !CanStep(s', t)) ==>
              && (forall t: Tid :: PcOf(s', t).Idle?) && s'.due <= s'.ran
              && (forall x :: x in s'.heap <==> x in s'.list || x in s'.intr)
  {
    hide Inv, RankSum, Reachable, Run, CanStep;
    ReachableInv(s);
    RunUsesRanks(s, run, s', n);
    ReachableOn(s, run, s');
    if forall t: Tid :: !CanStep(s', t) {
      forall t: Tid ensures PcOf(s', t).Idle? {
        if !PcOf(s', t).Idle? { NoDeadlock(s', t); }
      }
      forall d | d in s'.due ensures d in s'.ran { DueCallbackRuns(s', d.0, d.1); }
      ReferenceCounts(s');
    }
  }

  lemma ReachableOn(s: State, run: seq<Action>, s': State)
    requires Reachable(s) && Run(s, run, s')
    ensures Reachable(s')
  {
    var run0 :| Run(Init(), run0, s);
    RunJoins(Init(), run0, s, run, s');
  }

  lemma {:induction false} RunJoins(s0: State, run0: seq<Action>, s: State, run: seq<Action>, s': State)
    requires Run(s0, run0, s) && Run(s, run, s')
    ensures Run(s0, run0 + run, s')
    decreases |run0|
  {
    hide Enabled, Do;
    if run0 == [] {
      assert run0 + run == run;
    } else {
      RunJoins(Do(s0, run0[0]), run0[1..], s, run, s');
      assert (run0 + run)[1..] == run0[1..] + run;
    }
  }

  /** Reference counts.  The count of an ordinary request is one while it is unanswered plus one
      per find_interrupted activation that holds it; it is zero only between its last drop and
      its destruction; freeing never meets a request that is linked, locked, attached or already
      gone; and when every thread is outside, what is allocated is exactly what is linked. */
  lemma ReferenceCounts(s: State)
    requires Reachable(s)
    ensures !s.fault
    ensures forall r :: r in s.heap && !s.heap[r].isIntr ==>
              s.heap[r].ref == (if s.heap[r].ch then 1 else 0) + |Holders(s, r)|
    ensures forall r :: r in s.heap && !s.heap[r].isIntr && s.heap[r].ref == 0 ==>
              r in s.owner && PcOf(s, s.owner[r]) == Destroy(r)
    ensures forall t: Tid, r: Rid :: RefTo(PcOf(s, t)) == Some(r) ==> r in s.heap && !s.heap[r].isIntr
    ensures Distinct(s.list) && Distinct(s.intr) && (forall x :: x in s.list ==> x !in s.intr)
    ensures (forall t: Tid :: PcOf(s, t).Idle?) ==>
              forall x :: x in s.heap <==> x in s.list || x in s.intr
  {
    ReachableInv(s);
    forall r | r in s.heap && !s.heap[r].isIntr
      ensures s.heap[r].ref == (if s.heap[r].ch then 1 else 0) + |Holders(s, r)|
      ensures s.heap[r].ref == 0 ==> r in s.owner && PcOf(s, s.owner[r]) == Destroy(r)
    {
      assert ReqOk(s, r);
    }
    forall t: Tid, r: Rid | RefTo(PcOf(s, t)) == Some(r) ensures r in s.heap && !s.heap[r].isIntr {
      assert ThreadOk(s, t);
    }
    forall x | x in s.list ensures x !in s.intr { assert NameOk(s, x); }
    if forall t: Tid :: PcOf(s, t).Idle? {
      forall x: Rid ensures x in s.heap <==> x in s.list || x in s.intr {
        assert NameOk(s, x);
        if x in s.heap { QuietRequest(s, x); }
      }
    }
  }

  lemma QuietRequest(s: State, x: Rid)
    requires Core(s) && x in s.heap && forall t: Tid :: PcOf(s, t).Idle?
    ensures x in s.list || x in s.intr
  {
    assert ReqOk(s, x);
    assert Holders(s, x) == {} by {
      forall t | t in s.pc ensures RefTo(s.pc[t]) != Some(x) { assert PcOf(s, t).Idle?; }
    }
  }
}

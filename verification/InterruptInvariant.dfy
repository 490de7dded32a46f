/** The invariant of the interrupt protocol, and the proof that every step of every thread
    keeps it. */
module InterruptInvariant {
  import opened Wrappers
  import opened Interrupts

  /** The activations of find_interrupted that hold a reference to r. */
  ghost function Holders(s: State, r: Rid): set<Tid> {
    set t | t in s.pc && RefTo(s.pc[t]) == Some(r)
  }

  /** The request in this thread's hands was not linked yet, or is never going to be. */
  predicate InProc(pc: Pc) {
    pc.ProcWant? || pc.ProcCrit? || pc.RefuseWant? || pc.RefuseCrit?
  }

  predicate InInt(pc: Pc) {
    Owned(pc).Some? && !InProc(pc) && !pc.FreeWant? && !pc.FreeCrit? && !pc.Destroy?
  }

  ghost predicate OwnedOk(s: State, pc: Pc, x: Rid)
    requires x in s.heap
  {
    var q := s.heap[x];
    && x !in s.intr
    && (InProc(pc) ==> !q.isIntr && q.ch && x !in s.list && q.func == None)
    && (pc.FreeWant? || pc.FreeCrit? ==> q.ch && (q.isIntr || x in s.list))
    && (pc.Destroy? ==> !q.ch && q.ref == 0 && x !in s.list)
    && (InInt(pc) ==> q.isIntr && q.ch)
  }

  ghost predicate ThreadOk(s: State, t: Tid) {
    var pc := PcOf(s, t);
    && (HoldsSe(pc) <==> s.seLock == Some(t))
    && (ReqLock(pc).Some? ==> ReqLock(pc).value in s.locks && s.locks[ReqLock(pc).value] == t)
    && (Owned(pc).Some? ==>
          var x := Owned(pc).value;
          x in s.owner && s.owner[x] == t && x in s.heap && OwnedOk(s, pc, x))
    && (RefTo(pc).Some? ==> RefTo(pc).value in s.heap && !s.heap[RefTo(pc).value].isIntr)
    && (Registering(pc).Some? ==>
          var r := Registering(pc).value;
          r in s.heap && r in s.list && r !in s.owner)
  }

  ghost predicate IntrOk(s: State, x: Rid)
    requires x in s.heap && x in s.key
  {
    var q := s.heap[x];
    && s.key[x] == q.target
    && x !in s.list && (x in s.intr <==> x !in s.owner)
    && q.ref == (if q.ch then 1 else 0)
    && (q.ch <==> !(x in s.owner && PcOf(s, s.owner[x]).Destroy?))
  }

  ghost predicate OrdinaryOk(s: State, x: Rid)
    requires x in s.heap && x in s.key
  {
    var q := s.heap[x];
    && s.key[x] == q.unique
    && x !in s.intr
    && q.ref == (if q.ch then 1 else 0) + |Holders(s, x)|
    && (x in s.list <==> q.ch && !(x in s.owner && InProc(PcOf(s, s.owner[x]))))
    && (q.ref == 0 <==> x in s.owner && PcOf(s, s.owner[x]).Destroy?)
    && (q.interrupted <==> x in s.marked)
    && (q.interrupted && q.func.Some? ==> (x, q.func.value) in s.due)
    && (!q.ch ==> q.func == None)
  }

  ghost predicate ReqOk(s: State, x: Rid)
    requires x in s.heap
  {
    && x < s.nextRid && x in s.key
    && (x in s.owner ==> Owned(PcOf(s, s.owner[x])) == Some(x))
    && if s.heap[x].isIntr then IntrOk(s, x) else OrdinaryOk(s, x)
  }

  ghost predicate ThreadsOk(s: State) {
    forall t: Tid :: ThreadOk(s, t)
  }

  ghost predicate ReqsOk(s: State) {
    forall x {:trigger ReqOk(s, x)} :: x in s.heap ==> ReqOk(s, x)
  }

  /** Every place that names a request names one that is there. */
  ghost predicate NameOk(s: State, x: Rid) {
    && (x in s.heap ==> x in s.key)
    && (x in s.owner ==> x in s.heap)
    && (x in s.locks ==> x in s.heap && ReqLock(PcOf(s, s.locks[x])) == Some(x))
    && (x in s.key ==> x < s.nextRid)
    && (x in s.marked ==> x in s.key)
    && (x in s.list ==> x in s.heap && !s.heap[x].isIntr)
    && (x in s.intr ==> x in s.heap && s.heap[x].isIntr && x !in s.owner)
  }

  ghost predicate NamesOk(s: State) {
    forall x: Rid :: NameOk(s, x)
  }

  ghost predicate ListsOk(s: State) {
    Distinct(s.list) && Distinct(s.intr)
  }

  /** Threads, requests, locks and lists agree; nothing has gone wrong. */
  ghost predicate Core(s: State) {
    !s.fault && ThreadsOk(s) && ReqsOk(s) && NamesOk(s) && ListsOk(s)
  }

  // ---------- sequences ----------

  lemma DropFacts<T>(s: seq<T>, i: nat)
    requires Distinct(s) && i < |s|
    ensures Distinct(Drop(s, i))
    ensures forall x :: x in Drop(s, i) <==> x in s && x != s[i]
  {
    var d := Drop(s, i);
    forall j | 0 <= j < |d| ensures d[j] == s[if j < i then j else j + 1] {}
    forall x | x in s && x != s[i] ensures x in d {
      var j :| 0 <= j < |s| && s[j] == x;
      assert d[if j < i then j else j - 1] == x;
    }
  }

  lemma {:induction false} UnlinkFacts<T>(s: seq<T>, x: T)
    requires Distinct(s)
    ensures Distinct(Unlink(s, x))
    ensures forall y :: y in Unlink(s, x) <==> y in s && y != x
  {
    if s != [] {
      assert s == [s[0]] + s[1..];
      if s[0] != x {
        UnlinkFacts(s[1..], x);
        var u := Unlink(s, x);
        forall i, j | 0 <= i < j < |u| ensures u[i] != u[j] {
          if i == 0 { assert u[j] in Unlink(s[1..], x); }
        }
      }
    }
  }

  // ---------- frames ----------

  ghost predicate Moves(s: State, s': State, t: Tid) {
    s'.pc == s.pc[t := PcOf(s', t)]
  }

  lemma HoldersMove(s: State, s': State, t: Tid, r: Rid)
    requires Moves(s, s', t)
    ensures |Holders(s', r)| - |Holders(s, r)|
            == (if RefTo(PcOf(s', t)) == Some(r) then 1 else 0) - (if RefTo(PcOf(s, t)) == Some(r) then 1 else 0)
  {
    assert Holders(s, r) - {t} == Holders(s', r) - {t};
    MoveSet(Holders(s, r), Holders(s', r), t);
  }

  /** What a thread relies on about the request in its hands. */
  ghost predicate SameObject(s: State, s': State, x: Rid) {
    && (x in s.heap ==>
          x in s'.heap && s'.heap[x].isIntr == s.heap[x].isIntr && s'.heap[x].ch == s.heap[x].ch
          && (s.heap[x].ref == 0 ==> s'.heap[x].ref == 0)
          && (x !in s.list ==> s'.heap[x].func == s.heap[x].func))
    && (x in s.list <==> x in s'.list) && (x in s.intr <==> x in s'.intr)
    && (x in s.owner ==> x in s'.owner && s'.owner[x] == s.owner[x])
  }

  lemma ThreadFrame(s: State, s': State, u: Tid)
    requires ThreadOk(s, u) && PcOf(s', u) == PcOf(s, u)
    requires s.seLock == Some(u) <==> s'.seLock == Some(u)
    requires ReqLock(PcOf(s, u)).Some? ==>
               ReqLock(PcOf(s, u)).value in s'.locks && s'.locks[ReqLock(PcOf(s, u)).value] == u
    requires Owned(PcOf(s, u)).Some? ==> SameObject(s, s', Owned(PcOf(s, u)).value)
    requires RefTo(PcOf(s, u)).Some? ==>
               RefTo(PcOf(s, u)).value in s'.heap && !s'.heap[RefTo(PcOf(s, u)).value].isIntr
    requires Registering(PcOf(s, u)).Some? ==>
               var r := Registering(PcOf(s, u)).value; r in s'.heap && r in s'.list && r !in s'.owner
    ensures ThreadOk(s', u)
  {
  }

  /** A request that the step does not name stays well-formed. */
  lemma ReqFrame(s: State, s': State, t: Tid, x: Rid)
    requires x in s.heap && ReqOk(s, x) && Moves(s, s', t)
    requires x in s'.heap && s'.heap[x] == s.heap[x]
    requires s.nextRid <= s'.nextRid && x in s'.key && s'.key[x] == s.key[x]
    requires x in s.list <==> x in s'.list
    requires x in s.intr <==> x in s'.intr
    requires x in s.owner <==> x in s'.owner
    requires x in s.owner ==> s'.owner[x] == s.owner[x]
    requires x in s.owner && s.owner[x] == t ==>
               && Owned(PcOf(s', t)) == Some(x)
               && InProc(PcOf(s', t)) == InProc(PcOf(s, t)) && PcOf(s', t).Destroy? == PcOf(s, t).Destroy?
    requires RefTo(PcOf(s', t)) == Some(x) <==> RefTo(PcOf(s, t)) == Some(x)
    requires x in s.marked <==> x in s'.marked
    requires s.due <= s'.due
    ensures ReqOk(s', x)
  {
    HoldersMove(s, s', t, x);
  }

  ghost predicate Untouched(s: State, s': State, x: Rid) {
    && (x in s.heap <==> x in s'.heap) && (x in s.heap ==> s'.heap[x] == s.heap[x])
    && (x in s.key <==> x in s'.key) && (x in s.key ==> s'.key[x] == s.key[x])
    && (x in s.list <==> x in s'.list) && (x in s.intr <==> x in s'.intr)
    && (x in s.owner <==> x in s'.owner) && (x in s.owner ==> s'.owner[x] == s.owner[x])
    && (x in s.locks <==> x in s'.locks) && (x in s.locks ==> s'.locks[x] == s.locks[x])
    && (x in s.marked <==> x in s'.marked)
  }

  /** Whatever thread u has to do with the requests the step changed is still in order. */
  ghost predicate Undisturbed(s: State, s': State, u: Tid, hot: set<Rid>) {
    var pc := PcOf(s, u);
    && (s.seLock == Some(u) <==> s'.seLock == Some(u))
    && (ReqLock(pc).Some? && ReqLock(pc).value in hot ==>
          ReqLock(pc).value in s'.locks && s'.locks[ReqLock(pc).value] == u)
    && (Owned(pc).Some? && Owned(pc).value in hot ==> SameObject(s, s', Owned(pc).value))
    && (RefTo(pc).Some? && RefTo(pc).value in hot ==>
          RefTo(pc).value in s'.heap && !s'.heap[RefTo(pc).value].isIntr)
    && (Registering(pc).Some? && Registering(pc).value in hot ==>
          var r := Registering(pc).value; r in s'.heap && r in s'.list && r !in s'.owner)
  }

  /** What the moving thread has in its hands outside `hot` does not change. */
  ghost predicate HandsIn(s: State, s': State, t: Tid, hot: set<Rid>) {
    && (Owned(PcOf(s, t)).Some? ==> Owned(PcOf(s, t)).value in hot)
    && (Owned(PcOf(s', t)).Some? ==> Owned(PcOf(s', t)).value in hot)
    && (RefTo(PcOf(s, t)).Some? ==> RefTo(PcOf(s, t)).value in hot)
    && (RefTo(PcOf(s', t)).Some? ==> RefTo(PcOf(s', t)).value in hot)
  }

  /** A step of t that changes only the requests in `hot` keeps the core invariant, if these and
      t itself are in order afterwards and nobody else is disturbed. */
  lemma KeepsCore(s: State, s': State, t: Tid, hot: set<Rid>)
    requires Core(s) && Moves(s, s', t) && !s'.fault && HandsIn(s, s', t, hot)
    requires s.nextRid <= s'.nextRid && s.due <= s'.due
    requires forall x: Rid {:trigger Untouched(s, s', x)} :: x !in hot ==> Untouched(s, s', x)
    requires forall u: Tid :: u != t ==> Undisturbed(s, s', u, hot)
    requires forall x {:trigger ReqOk(s', x)} :: x in hot && x in s'.heap ==> ReqOk(s', x)
    requires forall x {:trigger NameOk(s', x)} :: x in hot ==> NameOk(s', x)
    requires ReqLock(PcOf(s, t)).Some? ==> ReqLock(PcOf(s, t)).value in hot
    requires ThreadOk(s', t) && ListsOk(s')
    ensures Core(s')
  {
    forall x: Rid ensures NameOk(s', x) {
      if x !in hot { assert Untouched(s, s', x) && NameOk(s, x); }
    }
    forall u: Tid ensures ThreadOk(s', u) {
      if u != t {
        assert ThreadOk(s, u) && Undisturbed(s, s', u, hot);
        OtherThread(s, s', u, hot);
      }
    }
    forall x | x in s'.heap ensures ReqOk(s', x) {
      if x !in hot {
        assert Untouched(s, s', x) && ReqOk(s, x);
        ReqFrame(s, s', t, x);
      }
    }
  }

  lemma OtherThread(s: State, s': State, u: Tid, hot: set<Rid>)
    requires ThreadOk(s, u) && PcOf(s', u) == PcOf(s, u) && Undisturbed(s, s', u, hot)
    requires forall x: Rid {:trigger Untouched(s, s', x)} :: x !in hot ==> Untouched(s, s', x)
    ensures ThreadOk(s', u)
  {
    var pc := PcOf(s, u);
    if ReqLock(pc).Some? && ReqLock(pc).value !in hot { assert Untouched(s, s', ReqLock(pc).value); }
    if Owned(pc).Some? && Owned(pc).value !in hot { assert Untouched(s, s', Owned(pc).value); }
    if RefTo(pc).Some? && RefTo(pc).value !in hot { assert Untouched(s, s', RefTo(pc).value); }
    if Registering(pc).Some? && Registering(pc).value !in hot { assert Untouched(s, s', Registering(pc).value); }
    ThreadFrame(s, s', u);
  }
}

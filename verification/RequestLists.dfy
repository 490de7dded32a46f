/** The two intrusive, circular, doubly linked lists of a session
    (libs/libfuse/lib/fuse_lowlevel.c), in memory: what the critical sections of module
    Interrupts do to sequences is done here by relinking `next` and `prev`. */
module RequestLists {
  import opened Wrappers
  import Interrupts
  import opened InterruptInvariant

  class FuseReq {
    var next: FuseReq
    var prev: FuseReq
    var unique: nat
    var target: nat
    var interrupted: bool

    /** A fresh request is linked to itself. */
    constructor (unique: nat, target: nat)
      ensures next == this && prev == this
      ensures this.unique == unique && this.target == target && !interrupted
    {
      next, prev := this, this;
      this.unique, this.target, interrupted := unique, target, false;
    }
  }

  /** The circular list that starts at head and links exactly s, in order, in both directions. */
  ghost predicate Ring(head: FuseReq, s: seq<FuseReq>)
    reads head`next, head`prev, s`next, s`prev
  {
    && head !in s && Distinct(s)
    && (s == [] ==> head.next == head && head.prev == head)
    && (s != [] ==>
          && head.next == s[0] && s[0].prev == head
          && head.prev == s[|s|-1] && s[|s|-1].next == head)
    && (forall i {:trigger s[i].next} :: 0 <= i < |s| - 1 ==> s[i].next == s[i+1])
    && (forall i {:trigger s[i].prev} :: 1 <= i < |s| ==> s[i].prev == s[i-1])
  }

  lemma Neighbours(head: FuseReq, s: seq<FuseReq>, k: nat)
    requires Ring(head, s) && k < |s|
    ensures s[k].prev == head || s[k].prev in s
    ensures s[k].next == head || s[k].next in s
  {
    if k > 0 { assert s[k].prev == s[k-1]; }
    if k < |s| - 1 { assert s[k].next == s[k+1]; }
  }

  lemma FirstNode(head: FuseReq, s: seq<FuseReq>)
    requires Ring(head, s) && s != []
    ensures head.next == s[0] && s[0] != head
  {
  }

  lemma RingFacts(head: FuseReq, s: seq<FuseReq>)
    requires Ring(head, s)
    ensures Distinct(s) && head !in s
    ensures head.prev == head || head.prev in s
  {
  }

  /** list_init_req */
  method ListInit(req: FuseReq)
    modifies req`next, req`prev
    ensures req.next == req && req.prev == req
  {
    req.next := req;
    req.prev := req;
  }

  /** The two rings share no node. */
  ghost predicate Separate(head: FuseReq, s: seq<FuseReq>, other: FuseReq, o: seq<FuseReq>) {
    && head != other && head !in o && other !in s
    && forall x :: x in s ==> x !in o
  }

  /** list_del_req on the element at position k; a ring elsewhere is not affected. */
  method ListDel(req: FuseReq, ghost head: FuseReq, ghost s: seq<FuseReq>, ghost k: nat,
                 ghost other: FuseReq, ghost o: seq<FuseReq>)
    requires Ring(head, s) && k < |s| && s[k] == req
    requires Ring(other, o) && Separate(head, s, other, o)
    modifies req.prev`next, req.next`prev
    ensures Ring(head, Interrupts.Drop(s, k)) && Ring(other, o)
  {
    Neighbours(head, s, k);
    Ends(head, s, k);
    ghost var d := Interrupts.Drop(s, k);
    DropFacts(s, k);
    assert forall i | 0 <= i < |d| :: d[i] == s[if i < k then i else i + 1];
    var prev, next := req.prev, req.next;
    assert prev != other && next != other && prev !in o && next !in o;
    prev.next := next;
    next.prev := prev;
    assert Ring(other, o) by { hide Ring; }
    forall i | 0 <= i < |d| - 1 ensures d[i].next == d[i + 1] {
      if i + 1 != k { assert d[i] != prev; }
    }
    forall i | 1 <= i < |d| ensures d[i].prev == d[i - 1] {
      if i != k { assert d[i] != next; }
    }
  }

  lemma Ends(head: FuseReq, s: seq<FuseReq>, k: nat)
    requires Ring(head, s) && k < |s|
    ensures s[k].prev == Before(head, s, k) && s[k].next == After(head, s, k)
  {
  }

  function Before(head: FuseReq, s: seq<FuseReq>, k: nat): FuseReq
    requires k < |s|
  {
    if k == 0 then head else s[k-1]
  }

  function After(head: FuseReq, s: seq<FuseReq>, k: nat): FuseReq
    requires k < |s|
  {
    if k == |s| - 1 then head else s[k+1]
  }

  /** list_del_req on an element that is linked to itself: nothing changes. */
  method ListDelSelf(req: FuseReq)
    requires req.next == req && req.prev == req
    modifies req`next, req`prev
    ensures req.next == req && req.prev == req
  {
    var prev, next := req.prev, req.next;
    prev.next := next;
    next.prev := prev;
  }

  /** list_add_req in front of the head, that is, at the tail. */
  method ListAdd(req: FuseReq, next: FuseReq, ghost s: seq<FuseReq>)
    requires Ring(next, s) && req != next && req !in s
    modifies req`next, req`prev, next.prev`next, next`prev
    ensures Ring(next, s + [req])
  {
    var prev := next.prev;
    assert prev == if s == [] then next else s[|s|-1];
    req.next := next;
    req.prev := prev;
    prev.next := req;
    next.prev := req;
  }

  /** The session's two lists; `active` and `pending` are their contents in order. */
  class FuseSession {
    const list: FuseReq
    const interrupts: FuseReq
    ghost var active: seq<FuseReq>
    ghost var pending: seq<FuseReq>

    ghost function Nodes(): set<FuseReq>
      reads this
    {
      {list, interrupts} + (set x | x in active) + (set x | x in pending)
    }

    /** Both rings are well formed and share no node. */
    ghost predicate Valid()
      reads this, Nodes()`next, Nodes()`prev
    {
      && Ring(list, active) && Ring(interrupts, pending)
      && Separate(list, active, interrupts, pending)
    }

    ghost function Uniques(): seq<nat>
      reads this, active
    {
      seq(|active|, i requires 0 <= i < |active| reads this, active => active[i].unique)
    }

    ghost function Targets(): seq<nat>
      reads this, pending
    {
      seq(|pending|, i requires 0 <= i < |pending| reads this, pending => pending[i].target)
    }

    constructor ()
      ensures Valid() && active == [] && pending == [] && fresh(Nodes())
    {
      list := new FuseReq(0, 0);
      interrupts := new FuseReq(0, 0);
      active, pending := [], [];
    }

    /** The first loop of find_interrupted: the first active request with this number. */
    method FindActive(key: nat) returns (curr: FuseReq?, ghost k: nat)
      requires Valid()
      ensures k == Interrupts.FirstIndex(Uniques(), key)
      ensures if k < |active| then curr == active[k] else curr == null
    {
      var c := list.next;
      k := 0;
      while c != list
        invariant 0 <= k <= |active|
        invariant c == if k < |active| then active[k] else list
        invariant forall j | 0 <= j < k :: Uniques()[j] != key
        decreases |active| - k
      {
        if c.unique == key {
          FirstIndexIs(Uniques(), key, k);
          return c, k;
        }
        c := c.next;
        k := k + 1;
      }
      FirstIndexIs(Uniques(), key, k);
      return null, k;
    }

    /** The scans of the interrupts list: the first pending interrupt with this target. */
    method FindPending(key: nat) returns (curr: FuseReq?, ghost k: nat)
      requires Valid()
      ensures k == Interrupts.FirstIndex(Targets(), key)
      ensures if k < |pending| then curr == pending[k] else curr == null
    {
      var c := interrupts.next;
      k := 0;
      while c != interrupts
        invariant 0 <= k <= |pending|
        invariant c == if k < |pending| then pending[k] else interrupts
        invariant forall j | 0 <= j < k :: Targets()[j] != key
        decreases |pending| - k
      {
        if c.target == key {
          FirstIndexIs(Targets(), key, k);
          return c, k;
        }
        c := c.next;
        k := k + 1;
      }
      FirstIndexIs(Targets(), key, k);
      return null, k;
    }

    /** list_del_req on a pending interrupt. */
    method Unhook(curr: FuseReq, ghost k: nat)
      requires Valid() && k < |pending| && pending[k] == curr
      modifies this`pending, Nodes()`next, Nodes()`prev
      ensures Valid() && active == old(active) && pending == Interrupts.Drop(old(pending), k)
      ensures Nodes() <= old(Nodes()) && curr in old(Nodes()) && curr !in Nodes()
    {
      DropFacts(pending, k);
      Neighbours(interrupts, pending, k);
      ListDel(curr, interrupts, pending, k, list, active);
      pending := Interrupts.Drop(pending, k);
    }

    /** The oldest pending interrupt is unlinked and linked to itself. */
    method TakeFirst() returns (bounced: FuseReq)
      requires Valid() && pending != []
      modifies this`pending, Nodes()`next, Nodes()`prev
      ensures Valid() && active == old(active)
      ensures bounced == old(pending)[0] && pending == old(pending)[1..]
      ensures bounced.next == bounced && bounced.prev == bounced && Nodes() <= old(Nodes()) && bounced !in Nodes()
    {
      hide Ring;
      bounced := interrupts.next;
      FirstNode(interrupts, pending);
      assert Interrupts.Drop(pending, 0) == pending[1..];
      Unhook(bounced, 0);
      ListInit(bounced);
    }

    /** check_interrupt: a pending interrupt for req is unlinked and req marked; otherwise the
        oldest pending interrupt, if any, is unlinked, linked to itself and handed back. */
    method CheckInterrupt(req: FuseReq) returns (bounced: FuseReq?)
      requires Valid() && req !in Nodes()
      modifies this`pending, Nodes()`next, Nodes()`prev, req`interrupted
      ensures Valid() && active == old(active)
      ensures var k := Interrupts.FirstIndex(old(Targets()), req.unique);
        if k < |old(pending)| then
          && bounced == null && req.interrupted
          && pending == Interrupts.Drop(old(pending), k)
        else
          && req.interrupted == old(req.interrupted)
          && if old(pending) == [] then bounced == null && pending == []
             else bounced == old(pending)[0] && pending == old(pending)[1..]
                  && bounced.next == bounced && bounced.prev == bounced
      ensures Nodes() <= old(Nodes()) && (bounced != null ==> bounced in old(Nodes()) && bounced !in Nodes())
    {
      var curr, k := FindPending(req.unique);
      if curr != null {
        req.interrupted := true;
        Unhook(curr, k);
        return null;
      }
      if interrupts.next == interrupts { return null; }
      bounced := TakeFirst();
    }

    /** The dispatch's critical section: check_interrupt, then list_add_req on the active list. */
    method Dispatch(req: FuseReq) returns (bounced: FuseReq?)
      requires Valid() && req !in Nodes()
      modifies this, Nodes()`next, Nodes()`prev, req
      ensures Valid() && active == old(active) + [req]
      ensures var k := Interrupts.FirstIndex(old(Targets()), req.unique);
        if k < |old(pending)| then
          bounced == null && req.interrupted && pending == Interrupts.Drop(old(pending), k)
        else
          && req.interrupted == old(req.interrupted)
          && if old(pending) == [] then bounced == null && pending == []
             else bounced == old(pending)[0] && pending == old(pending)[1..]
      ensures bounced != null ==> bounced !in Nodes() && bounced.next == bounced && bounced.prev == bounced
    {
      hide Ring;
      bounced := CheckInterrupt(req);
      RingFacts(list, active);
      ListAdd(req, list, active);
      active := active + [req];
    }

    /** fuse_free_req on a request that is in neither list: a bounced interrupt, which was linked to
        itself, or a request refused before it was linked.  Both lists stay as they are. */
    method Discard(req: FuseReq)
      requires Valid() && req !in Nodes() && req.next == req && req.prev == req
      modifies req`next, req`prev
      ensures Valid() && req.next == req && req.prev == req
      ensures Interrupts.Unlink(active, req) == active
    {
      UnlinkAbsent(active, req);
      ListDelSelf(req);
    }

    /** The end of _do_interrupt when nothing matches: the interrupt joins the pending list. */
    method Pend(intr: FuseReq)
      requires Valid() && intr !in Nodes()
      modifies this`pending, Nodes()`next, Nodes()`prev, intr`next, intr`prev
      ensures Valid() && active == old(active) && pending == old(pending) + [intr]
    {
      ListAdd(intr, interrupts, pending);
      pending := pending + [intr];
    }

    /** fuse_free_req takes an answered request out of the active list. */
    method Retire(req: FuseReq, ghost k: nat)
      requires Valid() && k < |active| && active[k] == req
      modifies this`active, Nodes()`next, Nodes()`prev
      ensures Valid() && pending == old(pending) && active == Interrupts.Drop(old(active), k)
      ensures active == Interrupts.Unlink(old(active), req)
    {
      DropFacts(active, k);
      UnlinkIsDrop(active, k);
      ListDel(req, list, active, k, interrupts, pending);
      active := Interrupts.Drop(active, k);
    }
  }

  lemma FirstIndexIs(keys: seq<nat>, key: nat, k: nat)
    requires k <= |keys| && (forall j | 0 <= j < k :: keys[j] != key) && (k < |keys| ==> keys[k] == key)
    ensures k == Interrupts.FirstIndex(keys, key)
  {
  }

  lemma {:induction false} UnlinkAbsent<T>(s: seq<T>, x: T)
    requires x !in s
    ensures Interrupts.Unlink(s, x) == s
  {
    if s != [] { UnlinkAbsent(s[1..], x); }
  }

  lemma {:induction false} UnlinkIsDrop<T>(s: seq<T>, k: nat)
    requires Distinct(s) && k < |s|
    ensures Interrupts.Unlink(s, s[k]) == Interrupts.Drop(s, k)
  {
    if k > 0 {
      assert s[0] != s[k];
      UnlinkIsDrop(s[1..], k - 1);
    }
  }
}

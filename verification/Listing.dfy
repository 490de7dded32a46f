/** Listing a directory: the driver's `fusefs_listdir` (libs/ukfusefs/ukfs-fuse.c) called again
    and again, over either backend of module Dirents.

    A comment in the driver calls the cursor an entry index.  The driver does not depend on it:
    it hands back whatever cookie the record carried, and both backends are shown to refine one
    abstract enumeration. */
module Listing {
  import opened Bytes
  import opened Dirents
  import opened Wrappers
  import P = Protocol

  /** What the driver asks for in every call. */
  const REQUEST := 4096

  /** A backend behind the protocol: cursor, size, and whether the reply buffer could be
      allocated. */
  type Server = (nat, nat, bool) -> P.Outcome

  /** The driver's record length as a function of the name's length. */
  type RecLen = nat -> nat

  function ByteServer(es: seq<Entry>): Server {
    (off: nat, size: nat, ok: bool) => P.Deliver(ByteReaddir(es, ROOT, off, size), ok)
  }

  function IndexServer(es: seq<Entry>): Server {
    (off: nat, size: nat, ok: bool) => P.Deliver(IndexReaddir(es, ROOT, off, size), ok)
  }

  // ---------- one call ----------

  /** Overrun: the driver reads past the end of the reply. */
  datatype Listed = Stop(code: int) | Item(d: Dirent) | Overrun

  function Decoded(o: P.Outcome, len: nat, reclen: RecLen): Listed {
    if o.error != 0 then Stop(o.error)
    else if o.data.None? || o.data.value == [] then Stop(0)
    else if |o.data.value| < NAME_OFFSET then Overrun
    else if len < reclen(Field(o.data.value, 16, 4)) then Stop(-EINVAL)
    else if Whole(o.data.value) then Item(First(o.data.value))
    else Overrun
  }

  class Cursor {
    var at: nat
  }

  /** struct uk_fs_dirent in the caller's buffer; `name` is all the room behind the fixed part. */
  class UkDirent {
    var ino: nat
    var off: nat
    var reclen: nat
    var typ: nat
    const name: array<byte>

    constructor (n: array<byte>)
      ensures name == n
    {
      name := n;
    }
  }

  method ListDir(curp: Cursor, out: UkDirent, len: nat, nameOff: nat, reclen: RecLen, serve: Server, ok: bool)
    returns (r: int)
    requires forall n: nat :: nameOff + n + 1 <= reclen(n)
    requires len <= nameOff + out.name.Length
    requires !Decoded(serve(curp.at, REQUEST, ok), len, reclen).Overrun?
    modifies curp, out, out.name
    ensures match Decoded(serve(old(curp.at), REQUEST, ok), len, reclen)
            case Stop(code) =>
              && r == code && curp.at == old(curp.at) && out.name[..] == old(out.name[..])
              && out.ino == old(out.ino) && out.off == old(out.off)
              && out.reclen == old(out.reclen) && out.typ == old(out.typ)
            case Item(d) =>
              && r == reclen(|d.name|) && curp.at == d.off
              && out.ino == d.ino && out.off == d.off && out.typ == d.typ % 256
              && out.reclen == reclen(|d.name|) % 0x1_0000
              && out.name[..] == d.name + Zeros(r - nameOff - |d.name|) + old(out.name[..])[r - nameOff..]
            case Overrun => false
  {
    hide Field, Splice, Zeros;
    var o := serve(curp.at, REQUEST, ok);
    if o.error != 0 { return o.error; }
    if o.data.None? || o.data.value == [] { return 0; }
    var fd := o.data.value;
    var namelen := Field(fd, 16, 4);
    var n := reclen(namelen);
    if len < n { return -EINVAL; }
    ghost var was := out.name[..];
    CopyIn(out.name, 0, Zeros(n - nameOff));
    var nextOff := Field(fd, 8, 8);
    out.ino, out.off, out.reclen := Field(fd, 0, 8), Field(fd, 8, 8), n % 0x1_0000;
    out.typ := Field(fd, 20, 4) % 256;
    CopyIn(out.name, 0, fd[NAME_OFFSET..NAME_OFFSET + namelen]);
    out.name[namelen] := 0;
    curp.at := nextOff;
    NameLeft(was, n - nameOff, fd[NAME_OFFSET..NAME_OFFSET + namelen]);
    r := n;
  }

  /** Clearing the record's room, then copying the name, then ending it with a NUL. */
  lemma NameLeft(was: seq<byte>, room: nat, name: seq<byte>)
    requires |name| < room <= |was|
    ensures Splice(Splice(was, 0, Zeros(room)), 0, name)[|name| := 0] == name + Zeros(room - |name|) + was[room..]
  {
  }

  // ---------- many calls ----------

  /** The results of one call per element of mem, which says whether its reply buffer could be
      allocated, from a cursor on. */
  function Calls(serve: Server, cur: nat, mem: seq<bool>, len: nat, reclen: RecLen): (r: seq<Listed>)
    ensures |r| == |mem|
    decreases |mem|
  {
    if mem == [] then []
    else
      var o := Decoded(serve(cur, REQUEST, mem[0]), len, reclen);
      [o] + Calls(serve, if o.Item? then o.d.off else cur, mem[1..], len, reclen)
  }

  /** What the caller of the driver learns, without the cookie. */
  datatype Seen = Name(name: seq<byte>, ino: nat) | Code(code: int) | Garbage

  function See(o: Listed): Seen {
    match o
    case Item(d) => Name(d.name, d.ino)
    case Stop(code) => Code(code)
    case Overrun => Garbage
  }

  function SeeAll(os: seq<Listed>): (r: seq<Seen>)
    ensures |r| == |os|
  {
    seq(|os|, i requires 0 <= i < |os| => See(os[i]))
  }

  /** The reference: standing before entry i, a call yields that entry and moves on, or says why
      it does not and stays. */
  function Next(es: seq<Entry>, i: nat, ok: bool, len: nat, reclen: RecLen): Seen {
    if i >= |es| then Code(0)
    else if !ok then Code(-ENOMEM)
    else if len < reclen(|es[i].name|) then Code(-EINVAL)
    else Name(es[i].name, es[i].ino)
  }

  function Enumerate(es: seq<Entry>, i: nat, mem: seq<bool>, len: nat, reclen: RecLen): seq<Seen>
    decreases |mem|
  {
    if mem == [] then []
    else
      var s := Next(es, i, mem[0], len, reclen);
      [s] + Enumerate(es, if s.Name? then i + 1 else i, mem[1..], len, reclen)
  }

  /** Asked with cookie c, which stands for position i, the server shows entry i, and the record
      carries the cookie next. */
  ghost predicate StepAgrees(serve: Server, es: seq<Entry>, i: nat, c: nat, next: nat, len: nat, reclen: RecLen) {
    forall ok: bool ::
      var o := Decoded(serve(c, REQUEST, ok), len, reclen);
      See(o) == Next(es, i, ok, len, reclen) && (o.Item? ==> o.d.off == next)
  }

  function Onward(cookies: seq<nat>, i: nat): nat {
    if i + 1 < |cookies| then cookies[i + 1] else 0
  }

  /** cookies[i] stands for position i. */
  ghost predicate Refines(serve: Server, es: seq<Entry>, cookies: seq<nat>, len: nat, reclen: RecLen) {
    && |cookies| == |es| + 1
    && forall i: nat {:trigger Onward(cookies, i)} | i <= |es| ::
         StepAgrees(serve, es, i, cookies[i], Onward(cookies, i), len, reclen)
  }

  lemma OneStep(serve: Server, es: seq<Entry>, cookies: seq<nat>, i: nat, ok: bool, len: nat, reclen: RecLen)
    requires Refines(serve, es, cookies, len, reclen) && i <= |es|
    ensures |cookies| == |es| + 1
    ensures var o := Decoded(serve(cookies[i], REQUEST, ok), len, reclen);
      See(o) == Next(es, i, ok, len, reclen) && (o.Item? ==> i < |es| && o.d.off == cookies[i + 1])
  {
    hide Decoded;
    assert StepAgrees(serve, es, i, cookies[i], Onward(cookies, i), len, reclen);
  }

  /** A server that refines the enumeration step by step does so over every run. */
  lemma {:induction false} RunRefines(serve: Server, es: seq<Entry>, cookies: seq<nat>, i: nat, mem: seq<bool>,
                                      len: nat, reclen: RecLen)
    requires Refines(serve, es, cookies, len, reclen) && i <= |es| < |cookies|
    ensures SeeAll(Calls(serve, cookies[i], mem, len, reclen)) == Enumerate(es, i, mem, len, reclen)
    decreases |mem|
  {
    hide Decoded, Refines, Next;
    if mem != [] {
      OneStep(serve, es, cookies, i, mem[0], len, reclen);
      var o := Decoded(serve(cookies[i], REQUEST, mem[0]), len, reclen);
      var j := if o.Item? then i + 1 else i;
      RunRefines(serve, es, cookies, j, mem[1..], len, reclen);
      var rest := Calls(serve, cookies[j], mem[1..], len, reclen);
      assert SeeAll([o] + rest) == [See(o)] + SeeAll(rest);
    }
  }

  // ---------- the enumeration yields every entry once, in order ----------

  function Names(seen: seq<Seen>): seq<Seen> {
    if seen == [] then []
    else (if seen[0].Name? then [seen[0]] else []) + Names(seen[1..])
  }

  function NamesOf(es: seq<Entry>): (r: seq<Seen>)
    ensures |r| == |es|
  {
    seq(|es|, i requires 0 <= i < |es| => Name(es[i].name, es[i].ino))
  }

  function Count(mem: seq<bool>): (n: nat)
    ensures n <= |mem|
  {
    if mem == [] then 0 else (if mem[0] then 1 else 0) + Count(mem[1..])
  }

  lemma NamesCons(s: Seen, rest: seq<Seen>)
    ensures Names([s] + rest) == (if s.Name? then [s] else []) + Names(rest)
  {
    assert ([s] + rest)[1..] == rest;
  }

  lemma NamesOfCons(es: seq<Entry>, i: nat, m: nat)
    requires 0 < m && i + m <= |es|
    ensures NamesOf(es[i..i + m]) == [Name(es[i].name, es[i].ino)] + NamesOf(es[i + 1..i + m])
  {
  }

  lemma NextNames(es: seq<Entry>, i: nat, ok: bool, len: nat, reclen: RecLen)
    requires i <= |es| && forall k | 0 <= k < |es| :: reclen(|es[k].name|) <= len
    ensures Next(es, i, ok, len, reclen).Name? <==> i < |es| && ok
    ensures i < |es| && ok ==> Next(es, i, ok, len, reclen) == Name(es[i].name, es[i].ino)
  {
  }

  /** As many entries are named as calls had memory, each once and in order, up to all of them. */
  lemma {:induction false} EachOnceInOrder(es: seq<Entry>, i: nat, mem: seq<bool>, len: nat, reclen: RecLen)
    requires i <= |es| && forall k | 0 <= k < |es| :: reclen(|es[k].name|) <= len
    ensures Names(Enumerate(es, i, mem, len, reclen)) == NamesOf(es[i..i + Min(Count(mem), |es| - i)])
    decreases |mem|
  {
    hide Names, NamesOf, Next, Enumerate, Count;
    if mem == [] {
      NothingCalled(es, i, len, reclen);
    } else {
      var s := Next(es, i, mem[0], len, reclen);
      var j := if s.Name? then i + 1 else i;
      NextNames(es, i, mem[0], len, reclen);
      FirstCall(es, i, mem, len, reclen);
      EachOnceInOrder(es, j, mem[1..], len, reclen);
      NamesCons(s, Enumerate(es, j, mem[1..], len, reclen));
      if s.Name? { NamesOfCons(es, i, Min(Count(mem), |es| - i)); }
    }
  }

  lemma NothingCalled(es: seq<Entry>, i: nat, len: nat, reclen: RecLen)
    requires i <= |es|
    ensures Enumerate(es, i, [], len, reclen) == [] && Count([]) == 0 && Names([]) == []
    ensures es[i..i] == [] && NamesOf([]) == []
  {
  }

  lemma FirstCall(es: seq<Entry>, i: nat, mem: seq<bool>, len: nat, reclen: RecLen)
    requires mem != []
    ensures Count(mem) == (if mem[0] then 1 else 0) + Count(mem[1..])
    ensures var s := Next(es, i, mem[0], len, reclen);
      Enumerate(es, i, mem, len, reclen) == [s] + Enumerate(es, if s.Name? then i + 1 else i, mem[1..], len, reclen)
  {
    hide Next;
  }

  /** Once as many calls had memory as there are entries, every later one answers 0. */
  lemma {:induction false} ThenZero(es: seq<Entry>, i: nat, mem: seq<bool>, k: nat, len: nat, reclen: RecLen)
    requires i <= |es| && forall k | 0 <= k < |es| :: reclen(|es[k].name|) <= len
    requires k < |mem| && Count(mem[..k]) >= |es| - i
    ensures |Enumerate(es, i, mem, len, reclen)| > k && Enumerate(es, i, mem, len, reclen)[k] == Code(0)
    decreases |mem|
  {
    if k == 0 {
      var _ := Enumerate(es, i, mem[1..], len, reclen);
    } else {
      assert mem[..k][1..] == mem[1..][..k - 1];
      ThenZero(es, if Next(es, i, mem[0], len, reclen).Name? then i + 1 else i, mem[1..], k - 1, len, reclen);
    }
  }

  // ---------- the two backends ----------

  /** What fits the fields of a record. */
  ghost predicate Representable(es: seq<Entry>) {
    && forall k | 0 <= k < |es| :: |es[k].name| < TWO_32 && es[k].ino < TWO_64
  }

  lemma ByteStep(es: seq<Entry>, i: nat, ok: bool, len: nat, reclen: RecLen)
    requires Representable(es) && |Packed(es)| < TWO_63 && i <= |es|
    ensures Decoded(ByteServer(es)(Boundary(es, i), REQUEST, ok), len, reclen)
            == if i == |es| then Stop(0)
               else if !ok then Stop(-12)
               else if len < reclen(|es[i].name|) then Stop(-22)
               else if NAME_OFFSET + |es[i].name| <= REQUEST
               then Item(Dirent(es[i].ino, Boundary(es, i + 1), 0, es[i].name))
               else Overrun
  {
    hide Packed, Record, EntLen, Decoded;
    var p := Packed(es);
    if i == |es| {
      assert es[..i] == es;
      ByteReply(es, |p|, ok);
      AtEnd(len, reclen, ok);
    } else {
      var e, b := es[i], Boundary(es, i);
      RecordAtBoundary(es, i);
      RecordLong(e.name);
      NextBoundary(es, i);
      var k := Min(|p| - b, REQUEST);
      assert p[b..b + k] == p[b..][..k];
      ByteReply(es, b, ok);
      DecodedRecord(e.name, e.ino, 0, Boundary(es, i + 1), p[Boundary(es, i + 1)..], k, ok, len, reclen);
      TypeOfNone();
    }
  }

  lemma ByteReply(es: seq<Entry>, off: nat, ok: bool)
    ensures off >= |Packed(es)| ==> ByteServer(es)(off, REQUEST, ok) == P.Deliver(P.Data([]), ok)
    ensures off < |Packed(es)| ==>
      var k := Min(|Packed(es)| - off, REQUEST);
      ByteServer(es)(off, REQUEST, ok) == P.Deliver(P.Data(Packed(es)[off..off + k]), ok)
  {
    assert ByteServer(es)(off, REQUEST, ok) == P.Deliver(ByteReaddir(es, ROOT, off, REQUEST), ok);
    assert ByteReaddir(es, ROOT, off, REQUEST) == Limited(Packed(es), off, REQUEST);
  }

  lemma IndexReply(es: seq<Entry>, i: nat, ok: bool)
    ensures IndexServer(es)(i, REQUEST, ok) == P.Deliver(P.Data(Fill(es, i, REQUEST)), ok)
  {
  }

  lemma TypeOfNone()
    ensures TypeOf(0) == 0
  {
  }

  lemma RecordLong(name: seq<byte>)
    ensures EntLen(name) >= NAME_OFFSET + |name|
  {
  }

  lemma AtEnd(len: nat, reclen: RecLen, ok: bool)
    ensures Decoded(P.Deliver(P.Data([]), ok), len, reclen) == Stop(0)
  {
  }

  /** The driver's view of a reply that starts with a record and is cut off after k bytes. */
  lemma DecodedRecord(name: seq<byte>, ino: nat, mode: nat, off: nat, rest: seq<byte>, k: nat, ok: bool,
                      len: nat, reclen: RecLen)
    requires |name| < TWO_32 && ino < TWO_64 && off < TWO_64
    requires NAME_OFFSET <= k <= |Record(name, ino, mode, off) + rest|
    ensures Decoded(P.Deliver(P.Data((Record(name, ino, mode, off) + rest)[..k]), ok), len, reclen)
            == if !ok then Stop(-ENOMEM)
               else if len < reclen(|name|) then Stop(-EINVAL)
               else if NAME_OFFSET + |name| <= k then Item(Dirent(ino, off, TypeOf(mode), name))
               else Overrun
  {
    hide Record, Field, TypeOf, First, Whole;
    CutRecordDecodes(name, ino, mode, off, rest, k);
    NamelenOfCut(name, ino, mode, off, rest, k);
  }

  lemma NamelenOfCut(name: seq<byte>, ino: nat, mode: nat, off: nat, rest: seq<byte>, k: nat)
    requires |name| < TWO_32 && NAME_OFFSET <= k <= |Record(name, ino, mode, off) + rest|
    ensures Field((Record(name, ino, mode, off) + rest)[..k], 16, 4) == |name|
  {
    hide Fixed, Field;
    var s := (Record(name, ino, mode, off) + rest)[..k];
    assert Fixed(|name|, ino, mode, off) <= s;
    FixedFields(s, |name|, ino, mode, off);
  }

  lemma IndexStep(es: seq<Entry>, i: nat, ok: bool, len: nat, reclen: RecLen)
    requires Representable(es) && |es| < TWO_31 && i <= |es|
    ensures Decoded(IndexServer(es)(i, REQUEST, ok), len, reclen)
            == if i == |es| || REQUEST < EntLen(es[i].name) then Stop(0)
               else if !ok then Stop(-ENOMEM)
               else if len < reclen(|es[i].name|) then Stop(-EINVAL)
               else Item(Dirent(es[i].ino, i + 1, TypeOf(es[i].mode), es[i].name))
  {
    hide Record, EntLen, Decoded, TypeOf;
    IndexReply(es, i, ok);
    if i == |es| || REQUEST < EntLen(es[i].name) {
      assert Fill(es, i, REQUEST) == [];
      AtEnd(len, reclen, ok);
    } else {
      var e := es[i];
      var rest := Fill(es, i + 1, REQUEST - EntLen(e.name));
      var s := Record(e.name, e.ino, e.mode, i + 1) + rest;
      assert Fill(es, i, REQUEST) == s == s[..|s|];
      RecordLong(e.name);
      DecodedRecord(e.name, e.ino, e.mode, i + 1, rest, |s|, ok, len, reclen);
    }
  }

  /** Every entry's record fits a request. */
  ghost predicate AllFit(es: seq<Entry>) {
    forall k | 0 <= k < |es| :: EntLen(es[k].name) <= REQUEST
  }

  function Boundaries(es: seq<Entry>): (r: seq<nat>)
    ensures |r| == |es| + 1 && forall i | 0 <= i <= |es| :: r[i] == Boundary(es, i)
  {
    seq(|es| + 1, i requires 0 <= i <= |es| => Boundary(es, i))
  }

  function Indices(n: nat): (r: seq<nat>)
    ensures |r| == n + 1 && forall i | 0 <= i <= n :: r[i] == i
  {
    seq(n + 1, i requires 0 <= i => i)
  }

  lemma ByteSees(es: seq<Entry>, i: nat, ok: bool, len: nat, reclen: RecLen)
    requires Representable(es) && |Packed(es)| < TWO_63 && AllFit(es) && i <= |es|
    ensures var o := Decoded(ByteServer(es)(Boundary(es, i), REQUEST, ok), len, reclen);
      See(o) == Next(es, i, ok, len, reclen) && (o.Item? ==> i < |es| && o.d.off == Boundary(es, i + 1))
  {
    hide ByteServer, Decoded, EntLen, Packed, Boundary;
    ByteStep(es, i, ok, len, reclen);
    if i < |es| { NameFits(es[i].name); }
  }

  lemma ByteRefines(es: seq<Entry>, len: nat, reclen: RecLen)
    requires Representable(es) && |Packed(es)| < TWO_63 && AllFit(es)
    ensures Refines(ByteServer(es), es, Boundaries(es), len, reclen)
  {
    hide ByteServer, Decoded, Packed, Boundary, See, Next, AllFit, Representable;
    var cs := Boundaries(es);
    forall i: nat | i <= |es|
      ensures StepAgrees(ByteServer(es), es, i, cs[i], Onward(cs, i), len, reclen)
    {
      forall ok: bool { ByteSees(es, i, ok, len, reclen); }
    }
  }

  lemma NameFits(name: seq<byte>)
    ensures EntLen(name) <= REQUEST <==> NAME_OFFSET + |name| <= REQUEST
  {
  }

  /** The entries before the first one whose record does not fit. */
  function Fitting(es: seq<Entry>): (n: nat)
    ensures n <= |es|
    ensures forall k | 0 <= k < n :: EntLen(es[k].name) <= REQUEST
    ensures n < |es| ==> EntLen(es[n].name) > REQUEST
  {
    if es == [] || EntLen(es[0].name) > REQUEST then 0
    else
      var n := Fitting(es[1..]);
      assert forall k | 0 <= k < n + 1 :: k > 0 ==> es[k] == es[1..][k - 1];
      n + 1
  }

  lemma IndexSees(es: seq<Entry>, i: nat, ok: bool, len: nat, reclen: RecLen)
    requires Representable(es) && |es| < TWO_31 && i <= Fitting(es)
    ensures var o := Decoded(IndexServer(es)(i, REQUEST, ok), len, reclen);
      See(o) == Next(es[..Fitting(es)], i, ok, len, reclen) && (o.Item? ==> i < Fitting(es) && o.d.off == i + 1)
  {
    hide IndexServer, Decoded, EntLen, Representable, TypeOf, Fitting;
    IndexStep(es, i, ok, len, reclen);
  }

  /** The index backend enumerates exactly the entries before the first whose record does not
      fit a request. */
  lemma IndexRefines(es: seq<Entry>, len: nat, reclen: RecLen)
    requires Representable(es) && |es| < TWO_31
    ensures Refines(IndexServer(es), es[..Fitting(es)], Indices(Fitting(es)), len, reclen)
  {
    hide IndexServer, Decoded, See, Next, Fitting, Representable;
    var n := Fitting(es);
    var cs := Indices(n);
    forall i: nat | i <= n
      ensures StepAgrees(IndexServer(es), es[..n], i, cs[i], Onward(cs, i), len, reclen)
    {
      forall ok: bool { IndexSees(es, i, ok, len, reclen); }
    }
  }

  // ---------- the results ----------

  /** The driver's listing does not depend on the cookie scheme: over both backends, and through
      any pattern of failed allocations and any caller's buffer, it is the reference
      enumeration. */
  lemma CookieIndependence(es: seq<Entry>, mem: seq<bool>, len: nat, reclen: RecLen)
    requires Representable(es) && AllFit(es) && |Packed(es)| < TWO_63 && |es| < TWO_31
    ensures SeeAll(Calls(ByteServer(es), 0, mem, len, reclen)) == Enumerate(es, 0, mem, len, reclen)
    ensures SeeAll(Calls(IndexServer(es), 0, mem, len, reclen)) == Enumerate(es, 0, mem, len, reclen)
  {
    ByteRefines(es, len, reclen);
    RunRefines(ByteServer(es), es, Boundaries(es), 0, mem, len, reclen);
    IndexRefines(es, len, reclen);
    assert Fitting(es) == |es| && es[..|es|] == es;
    RunRefines(IndexServer(es), es, Indices(|es|), 0, mem, len, reclen);
  }

  /** A listing from cursor 0 with room for every name yields every entry exactly once, in order,
      with its own name and inode, and after that 0. */
  lemma ListingIsComplete(es: seq<Entry>, mem: seq<bool>, len: nat, reclen: RecLen)
    requires Representable(es) && AllFit(es) && |Packed(es)| < TWO_63
    requires forall k | 0 <= k < |es| :: reclen(|es[k].name|) <= len
    requires Count(mem) >= |es|
    ensures Names(SeeAll(Calls(ByteServer(es), 0, mem, len, reclen))) == NamesOf(es)
    ensures forall k | 0 <= k < |mem| && Count(mem[..k]) >= |es| ::
      SeeAll(Calls(ByteServer(es), 0, mem, len, reclen))[k] == Code(0)
  {
    ByteRefines(es, len, reclen);
    RunRefines(ByteServer(es), es, Boundaries(es), 0, mem, len, reclen);
    EachOnceInOrder(es, 0, mem, len, reclen);
    assert es[0..|es|] == es;
    forall k | 0 <= k < |mem| && Count(mem[..k]) >= |es|
      ensures SeeAll(Calls(ByteServer(es), 0, mem, len, reclen))[k] == Code(0)
    {
      ThenZero(es, 0, mem, k, len, reclen);
    }
  }

  /** The index backend lists all of the directory if and only if every record fits a request;
      from the first that does not on, the directory seems to end. */
  lemma IndexListingComplete(es: seq<Entry>, mem: seq<bool>, len: nat, reclen: RecLen)
    requires Representable(es) && |es| < TWO_31
    requires forall k | 0 <= k < |es| :: reclen(|es[k].name|) <= len
    requires Count(mem) >= |es|
    ensures Names(SeeAll(Calls(IndexServer(es), 0, mem, len, reclen))) == NamesOf(es[..Fitting(es)])
    ensures Names(SeeAll(Calls(IndexServer(es), 0, mem, len, reclen))) == NamesOf(es) <==> AllFit(es)
  {
    var n := Fitting(es);
    IndexRefines(es, len, reclen);
    RunRefines(IndexServer(es), es[..n], Indices(n), 0, mem, len, reclen);
    EachOnceInOrder(es[..n], 0, mem, len, reclen);
    assert es[..n][0..n] == es[..n];
    if AllFit(es) { assert es[..n] == es; }
    else { assert |NamesOf(es[..n])| == n < |es|; }
  }

  /** Items all the way to position j. */
  lemma {:induction false} RunTo(es: seq<Entry>, i: nat, j: nat, len: nat, reclen: RecLen)
    requires Representable(es) && |Packed(es)| < TWO_63 && i <= j < |es|
    requires forall k | 0 <= k < |es| :: reclen(|es[k].name|) <= len
    requires forall k | 0 <= k < j :: EntLen(es[k].name) <= REQUEST
    ensures Calls(ByteServer(es), Boundary(es, i), seq(j + 1 - i, _ => true), len, reclen)[j - i]
            == Decoded(ByteServer(es)(Boundary(es, j), REQUEST, true), len, reclen)
    decreases j - i
  {
    hide ByteServer, Decoded, Boundary, Packed;
    var mem := seq(j + 1 - i, _ => true);
    if i < j {
      ByteStep(es, i, true, len, reclen);
      NameFits(es[i].name);
      assert mem[1..] == seq(j - i, _ => true);
      RunTo(es, i + 1, j, len, reclen);
    }
  }

  /** Over the byte-offset backend the driver stays within every reply if and only if every
      record fits a request. */
  lemma NoOverrunExactly(es: seq<Entry>, len: nat, reclen: RecLen)
    requires Representable(es) && |Packed(es)| < TWO_63
    requires forall k | 0 <= k < |es| :: reclen(|es[k].name|) <= len
    ensures (forall mem :: Overrun !in Calls(ByteServer(es), 0, mem, len, reclen)) <==> AllFit(es)
  {
    hide ByteServer, Decoded, Packed;
    AtStart(es);
    if AllFit(es) {
      ByteRefines(es, len, reclen);
      forall mem ensures Overrun !in Calls(ByteServer(es), 0, mem, len, reclen) {
        var calls := Calls(ByteServer(es), 0, mem, len, reclen);
        RunRefines(ByteServer(es), es, Boundaries(es), 0, mem, len, reclen);
        NoGarbage(es, 0, mem, len, reclen);
        forall k | 0 <= k < |calls| ensures calls[k] != Overrun {
          assert SeeAll(calls)[k] != Garbage;
        }
      }
    } else {
      var j := Fitting(es);
      RunTo(es, 0, j, len, reclen);
      ByteStep(es, j, true, len, reclen);
      NameFits(es[j].name);
      assert Calls(ByteServer(es), 0, seq(j + 1 - 0, _ => true), len, reclen)[j] == Overrun;
    }
  }

  lemma AtStart(es: seq<Entry>)
    ensures Boundary(es, 0) == 0
  {
  }

  lemma {:induction false} NoGarbage(es: seq<Entry>, i: nat, mem: seq<bool>, len: nat, reclen: RecLen)
    ensures Garbage !in Enumerate(es, i, mem, len, reclen)
    decreases |mem|
  {
    if mem != [] {
      NoGarbage(es, if Next(es, i, mem[0], len, reclen).Name? then i + 1 else i, mem[1..], len, reclen);
    }
  }
}

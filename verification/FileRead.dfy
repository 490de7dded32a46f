/** Reading a file: `fusefs_do_open` and `fusefs_read` of libs/ukfusefs/ukfs-fuse.c.  The handle
    is fetched by an OPEN on the first read; a READ's reply is scattered over the caller's
    pieces of memory. */
module FileRead {
  import opened Bytes
  import opened Replies
  import opened Wrappers
  import D = Dirents
  import P = Protocol
  import W = Wire

  /** (uint64_t)-1 stands for a file that is not open yet. */
  const NO_HANDLE := TWO_64 - 1

  /** The rest of the system, as one user of one file object sees it: the answer to the last of
      the requests sent so far.  Any stateful or failing backend is such a function. */
  type Server = seq<W.Input> -> P.Outcome

  // ---------- scattering ----------

  datatype Iov = Iov(base: nat, len: nat)

  ghost predicate InBounds(size: nat, iov: seq<Iov>) {
    forall k | 0 <= k < |iov| :: iov[k].base + iov[k].len <= size
  }

  function LenOf(p: Iov): nat {
    p.len
  }

  function Sum(iov: seq<Iov>): nat {
    SumOf(iov, LenOf)
  }

  /** Memory after src was stored piece by piece, until it or the pieces run out. */
  function Scattered(mem: seq<byte>, iov: seq<Iov>, src: seq<byte>): (r: seq<byte>)
    requires InBounds(|mem|, iov)
    ensures |r| == |mem|
    decreases |iov|
  {
    if iov == [] || src == [] then mem
    else
      var n := Min(iov[0].len, |src|);
      Scattered(Splice(mem, iov[0].base, src[..n]), iov[1..], src[n..])
  }

  method Scatter(mem: array<byte>, iov: seq<Iov>, data: seq<byte>) returns (copied: nat)
    requires InBounds(mem.Length, iov)
    modifies mem
    ensures mem[..] == Scattered(old(mem[..]), iov, data)
    ensures copied == Min(Sum(iov), |data|)
  {
    hide Scattered, Sum, Splice;
    ghost var was := mem[..];
    var src, remaining, i := 0, |data|, 0;
    copied := 0;
    assert iov[0..] == iov && data[0..] == data;
    SumPrefix(iov, 0);
    while i < |iov| && remaining > 0
      invariant 0 <= i <= |iov| && 0 <= src <= |data| && remaining == |data| - src && copied == src
      invariant copied == Min(Sum(iov[..i]), |data|)
      invariant Scattered(mem[..], iov[i..], data[src..]) == Scattered(was, iov, data)
    {
      var n := if iov[i].len < remaining then iov[i].len else remaining;
      SumPrefix(iov, i + 1);
      OnePiece(mem[..], iov, i, data, src, n);
      CopyIn(mem, iov[i].base, data[src..src + n]);
      src, remaining, copied, i := src + n, remaining - n, copied + n, i + 1;
    }
    ScatterDone(mem[..], iov[i..], data[src..]);
    SumPrefix(iov, i);
  }

  lemma SumPrefix(iov: seq<Iov>, i: nat)
    requires i <= |iov|
    ensures Sum(iov[..i]) == if i == 0 then 0 else Sum(iov[..i - 1]) + iov[i - 1].len
    ensures Sum(iov[..i]) <= Sum(iov) && (i == |iov| ==> Sum(iov[..i]) == Sum(iov))
  {
    SumOfGrows(iov, LenOf, i);
    if i > 0 { assert iov[..i][..i - 1] == iov[..i - 1]; }
    if i == |iov| { assert iov[..i] == iov; }
  }

  lemma ScatterDone(mem: seq<byte>, iov: seq<Iov>, src: seq<byte>)
    requires InBounds(|mem|, iov) && (iov == [] || src == [])
    ensures Scattered(mem, iov, src) == mem
  {
  }

  lemma OnePiece(mem: seq<byte>, iov: seq<Iov>, i: nat, data: seq<byte>, src: nat, n: nat)
    requires InBounds(|mem|, iov) && i < |iov| && src < |data| && n == Min(iov[i].len, |data| - src)
    ensures Scattered(mem, iov[i..], data[src..])
            == Scattered(Splice(mem, iov[i].base, data[src..src + n]), iov[i + 1..], data[src + n..])
  {
    var v, d := iov[i..], data[src..];
    assert v[0] == iov[i] && v[1..] == iov[i + 1..];
    assert d[..n] == data[src..src + n] && d[n..] == data[src + n..];
    FirstPiece(mem, v, d, n);
  }

  lemma FirstPiece(mem: seq<byte>, iov: seq<Iov>, src: seq<byte>, n: nat)
    requires InBounds(|mem|, iov) && iov != [] && src != [] && n == Min(iov[0].len, |src|)
    ensures Scattered(mem, iov, src) == Scattered(Splice(mem, iov[0].base, src[..n]), iov[1..], src[n..])
  {
  }

  function Span(p: Iov): (r: seq<nat>)
    ensures |r| == p.len && forall k | 0 <= k < p.len :: r[k] == p.base + k
  {
    seq(p.len, k requires 0 <= k => p.base + k)
  }

  /** The addresses of all pieces, in order. */
  function Addresses(iov: seq<Iov>): seq<nat> {
    if iov == [] then [] else Span(iov[0]) + Addresses(iov[1..])
  }

  /** r is mem with src stored at the addresses, in order, as far as both go. */
  ghost predicate StoredAt(mem: seq<byte>, r: seq<byte>, at: seq<nat>, src: seq<byte>) {
    && |r| == |mem| && (forall k | 0 <= k < |at| :: at[k] < |mem|)
    && (forall k | 0 <= k < Min(|at|, |src|) :: r[at[k]] == src[k])
    && (forall a: nat | a < |mem| && a !in at[..Min(|at|, |src|)] :: r[a] == mem[a])
  }

  /** If no two pieces overlap, the bytes are split across them in order, and nothing else
      changes. */
  lemma {:induction false} ScatterMeaning(mem: seq<byte>, iov: seq<Iov>, src: seq<byte>)
    requires InBounds(|mem|, iov) && Distinct(Addresses(iov))
    ensures StoredAt(mem, Scattered(mem, iov, src), Addresses(iov), src)
    decreases |iov|
  {
    hide StoredAt, Distinct, Splice, Scattered, Span;
    if iov == [] || src == [] {
      ScatterDone(mem, iov, src);
      AddressesInBounds(iov, |mem|);
      NothingStored(mem, Addresses(iov), src);
    } else {
      var n := Min(iov[0].len, |src|);
      var mem' := Splice(mem, iov[0].base, src[..n]);
      FirstPiece(mem, iov, src, n);
      DistinctTail(Span(iov[0]), Addresses(iov[1..]));
      ScatterMeaning(mem', iov[1..], src[n..]);
      FrontStored(mem, iov[0], src, n, mem', Scattered(mem', iov[1..], src[n..]), Addresses(iov[1..]));
    }
  }

  lemma NothingStored(mem: seq<byte>, at: seq<nat>, src: seq<byte>)
    requires at == [] || src == []
    requires forall k | 0 <= k < |at| :: at[k] < |mem|
    ensures StoredAt(mem, mem, at, src)
  {
  }

  lemma DistinctTail(front: seq<nat>, rest: seq<nat>)
    requires Distinct(front + rest)
    ensures Distinct(rest)
  {
    var all := front + rest;
    forall i, j | 0 <= i < j < |rest| ensures rest[i] != rest[j] {
      assert all[|front| + i] == rest[i] && all[|front| + j] == rest[j];
    }
  }

  lemma {:induction false} AddressesInBounds(iov: seq<Iov>, size: nat)
    requires InBounds(size, iov)
    ensures forall k | 0 <= k < |Addresses(iov)| :: Addresses(iov)[k] < size
  {
    if iov != [] { AddressesInBounds(iov[1..], size); }
  }

  /** The first piece was stored, then the others behind it. */
  lemma FrontStored(mem: seq<byte>, p: Iov, src: seq<byte>, n: nat, mem': seq<byte>, r: seq<byte>, rest: seq<nat>)
    requires p.base + p.len <= |mem| && n == Min(p.len, |src|) && mem' == Splice(mem, p.base, src[..n])
    requires Distinct(Span(p) + rest) && StoredAt(mem', r, rest, src[n..])
    ensures StoredAt(mem, r, Span(p) + rest, src)
  {
    var front := Span(p);
    var at := front + rest;
    var m, m' := Min(|at|, |src|), Min(|rest|, |src| - n);
    assert at[..m] == front[..n] + rest[..m'];
    forall k | 0 <= k < |at| ensures at[k] < |mem| {}
    forall k | 0 <= k < m ensures r[at[k]] == src[k] {
      if k < n { FrontApart(front, rest, k, m'); } else { assert at[k] == rest[k - n]; }
    }
    forall a: nat | a < |mem| && a !in at[..m] ensures r[a] == mem[a] {
      assert a !in rest[..m'];
    }
  }

  lemma FrontApart(front: seq<nat>, rest: seq<nat>, k: nat, m: nat)
    requires Distinct(front + rest) && k < |front| && m <= |rest|
    ensures front[k] !in rest[..m]
  {
    var at := front + rest;
    forall j | 0 <= j < m ensures rest[j] != front[k] { assert rest[j] == at[|front| + j] && at[k] == front[k]; }
  }

  // ---------- one read ----------

  function HandleIn(bytes: seq<byte>): (h: nat)
    ensures h < TWO_64
  {
    if |bytes| < 16 then 0
    else
      FieldBytes(bytes, 0, 8);
      Widths();
      Field(bytes, 0, 8)
  }

  /** The handle that a handler put into fuse_reply_open is the one the driver takes out. */
  lemma HandleTravels(f: FileInfo)
    requires f.fh < TWO_64
    ensures HandleIn(OpenOut(f)) == f.fh
  {
    hide Encode;
    assert OpenOut(f)[0..8] == Encode(8, f.fh);
    FieldOf(OpenOut(f), 0, 8, f.fh);
    Widths();
  }

  predicate Granted(o: P.Outcome) {
    o.error == 0 && o.data.Some?
  }

  /** What a successful OPEN's reply holds; fuse_reply_open sends nothing shorter. */
  ghost predicate ProperOpens(serve: Server) {
    forall h: seq<W.Input> {:trigger serve(h)} ::
      h != [] && h[|h|-1].Open? && Granted(serve(h)) ==> |serve(h).data.value| >= 16
  }

  datatype Opening = Opening(err: int, fh: nat, sent: seq<W.Input>)

  function Opened(serve: Server, ino: nat, fh: nat, sent: seq<W.Input>): Opening {
    if fh != NO_HANDLE then Opening(0, fh, sent)
    else
      var h := sent + [W.Open(ino, 0)];
      var o := serve(h);
      if o.error != 0 then Opening(o.error, fh, h)
      else if o.data.None? then Opening(-EIO, fh, h)
      else Opening(0, HandleIn(o.data.value), h)
  }

  /** The result of a read, the handle and the requests sent after it, and the bytes that went
      to the caller's pieces. */
  datatype Effect = Effect(result: int, fh: nat, sent: seq<W.Input>, bytes: seq<byte>)

  function ReadEffect(serve: Server, ino: nat, fh: nat, sent: seq<W.Input>, iov: seq<Iov>, off: nat): Effect {
    var op := Opened(serve, ino, fh, sent);
    var total := Sum(iov) % TWO_64;
    if op.err != 0 then Effect(op.err, op.fh, op.sent, [])
    else if total == 0 then Effect(0, op.fh, op.sent, [])
    else
      var h := op.sent + [W.Read(ino, op.fh, off, total % TWO_32)];
      var o := serve(h);
      if o.error != 0 then Effect(o.error, op.fh, h, [])
      else if o.data.None? then Effect(0, op.fh, h, [])
      else Effect(Min(Sum(iov), |o.data.value|), op.fh, h, o.data.value)
  }

  /** How a read ends before it gets any bytes: a failed OPEN, or one without a reply (EIO, 5), leaves
      the file closed and no READ is sent; a READ's error is the result; a READ that is answered
      with nothing, and one for no bytes at all, give 0. */
  lemma ReadStops(serve: Server, ino: nat, fh: nat, sent: seq<W.Input>, iov: seq<Iov>, off: nat)
    requires Sum(iov) < TWO_64
    ensures var e := ReadEffect(serve, ino, fh, sent, iov, off);
      var open := sent + [W.Open(ino, 0)];
      fh == TWO_64 - 1 ==>
        && (serve(open).error != 0 ==> e == Effect(serve(open).error, fh, open, []))
        && (serve(open).error == 0 && serve(open).data.None? ==> e == Effect(-5, fh, open, []))
        && (serve(open).error == 0 && serve(open).data.Some? && Sum(iov) == 0 ==> e.result == 0 && e.sent == open && e.bytes == [])
    ensures var e := ReadEffect(serve, ino, fh, sent, iov, off);
      var read := sent + [W.Read(ino, fh, off, Sum(iov) % TWO_32)];
      fh != TWO_64 - 1 ==>
        && (Sum(iov) == 0 ==> e == Effect(0, fh, sent, []))
        && (Sum(iov) > 0 && serve(read).error != 0 ==> e == Effect(serve(read).error, fh, read, []))
        && (Sum(iov) > 0 && serve(read).error == 0 && serve(read).data.None? ==> e == Effect(0, fh, read, []))
        && (Sum(iov) > 0 && serve(read).error == 0 && serve(read).data.Some? ==>
              e == Effect(Min(Sum(iov), |serve(read).data.value|), fh, read, serve(read).data.value))
  {
    hide Sum;
    ModBelow(Sum(iov));
  }

  /** struct fusefs_file.  `sent` is the history that the server's answers depend on. */
  class FusefsFile {
    const nodeid: nat
    var fh: nat
    var sent: seq<W.Input>

    constructor (ino: nat)
      ensures nodeid == ino && fh == NO_HANDLE && sent == []
    {
      nodeid, fh, sent := ino, NO_HANDLE, [];
    }

    /** fusefs_do_open */
    method DoOpen(serve: Server) returns (err: int)
      requires ProperOpens(serve) && fh == NO_HANDLE
      modifies this
      ensures Opening(err, fh, sent) == Opened(serve, nodeid, NO_HANDLE, old(sent))
    {
      sent := sent + [W.Open(nodeid, 0)];
      var o := serve(sent);
      if o.error != 0 { return o.error; }
      if o.data.None? { return -EIO; }
      fh := Field(o.data.value, 0, 8);
      return 0;
    }

    /** fusefs_read */
    method Read(mem: array<byte>, iov: seq<Iov>, off: nat, serve: Server) returns (r: int)
      requires ProperOpens(serve) && InBounds(mem.Length, iov)
      modifies this, mem
      ensures var e := ReadEffect(serve, nodeid, old(fh), old(sent), iov, off);
        && r == e.result && fh == e.fh && sent == e.sent
        && mem[..] == Scattered(old(mem[..]), iov, e.bytes)
    {
      hide Scattered, Sum;
      ScatterDone(mem[..], iov, []);
      if fh == NO_HANDLE {
        var err := DoOpen(serve);
        if err != 0 { return err; }
      }
      var total := TotalSize(iov);
      if total == 0 { return 0; }
      sent := sent + [W.Read(nodeid, fh, off, total % TWO_32)];
      var o := serve(sent);
      if o.error != 0 { return o.error; }
      if o.data.None? { return 0; }
      r := Scatter(mem, iov, o.data.value);
    }
  }

  /** The sum of the pieces' lengths, as a size_t. */
  method TotalSize(iov: seq<Iov>) returns (total: nat)
    ensures total == Sum(iov) % TWO_64
  {
    hide Sum;
    var i := 0;
    total := 0;
    SumPrefix(iov, 0);
    while i < |iov|
      invariant i <= |iov| && total == Sum(iov[..i]) % TWO_64
    {
      SumPrefix(iov, i + 1);
      AddMod(Sum(iov[..i]), iov[i].len);
      total := (total + iov[i].len) % TWO_64;
      i := i + 1;
    }
    SumPrefix(iov, i);
  }

  lemma AddMod(a: nat, b: nat)
    ensures (a % TWO_64 + b) % TWO_64 == (a + b) % TWO_64
  {
  }

  // ---------- handles ----------

  /** The handle of the last successful OPEN. */
  function LastHandle(serve: Server, sent: seq<W.Input>): Option<nat> {
    if sent == [] then None
    else if sent[|sent|-1].Open? && Granted(serve(sent)) then Some(HandleIn(serve(sent).data.value))
    else LastHandle(serve, sent[..|sent|-1])
  }

  /** The file object holds the handle last granted; every READ carried the one last granted
      before it; and an OPEN is sent only while there is none that could be kept. */
  ghost predicate HandlesKept(serve: Server, sent: seq<W.Input>, fh: nat) {
    && fh == (match LastHandle(serve, sent) case None => NO_HANDLE case Some(h) => h)
    && (forall k | 0 <= k < |sent| && sent[k].Read? :: LastHandle(serve, sent[..k]) == Some(sent[k].fh))
    && (forall k | 0 <= k < |sent| && sent[k].Open? :: LastHandle(serve, sent[..k]) in {None, Some(NO_HANDLE)})
  }

  lemma HandlesSnoc(serve: Server, sent: seq<W.Input>, fh: nat, i: W.Input)
    requires HandlesKept(serve, sent, fh)
    requires i.Read? ==> LastHandle(serve, sent) == Some(i.fh)
    requires i.Open? ==> fh == NO_HANDLE
    ensures HandlesKept(serve, sent + [i], match LastHandle(serve, sent + [i]) case None => NO_HANDLE case Some(h) => h)
    ensures !(i.Open? && Granted(serve(sent + [i]))) ==> LastHandle(serve, sent + [i]) == LastHandle(serve, sent)
  {
    hide LastHandle;
    var t := sent + [i];
    assert LastHandle(serve, t) == LastHandle(serve, t);
    LastSnoc(serve, sent, i);
    forall k | 0 <= k < |t| ensures t[..k] == if k < |sent| then sent[..k] else sent { }
  }

  lemma LastSnoc(serve: Server, sent: seq<W.Input>, i: W.Input)
    ensures LastHandle(serve, sent + [i])
            == if i.Open? && Granted(serve(sent + [i])) then Some(HandleIn(serve(sent + [i]).data.value))
               else LastHandle(serve, sent)
  {
    assert (sent + [i])[..|sent|] == sent;
  }

  lemma ReadKeepsHandles(serve: Server, ino: nat, fh: nat, sent: seq<W.Input>, iov: seq<Iov>, off: nat)
    requires HandlesKept(serve, sent, fh)
    ensures var e := ReadEffect(serve, ino, fh, sent, iov, off); HandlesKept(serve, e.sent, e.fh)
  {
    hide LastHandle, HandlesKept;
    var op := Opened(serve, ino, fh, sent);
    OpenKeepsHandles(serve, ino, fh, sent);
    var i := W.Read(ino, op.fh, off, Sum(iov) % TWO_64 % TWO_32);
    if op.err == 0 {
      ReadSentKeeps(serve, op.sent, op.fh, i);
    }
  }

  lemma OpenKeepsHandles(serve: Server, ino: nat, fh: nat, sent: seq<W.Input>)
    requires HandlesKept(serve, sent, fh)
    ensures var op := Opened(serve, ino, fh, sent);
      HandlesKept(serve, op.sent, op.fh) && (op.err == 0 ==> LastHandle(serve, op.sent) == Some(op.fh))
  {
    hide LastHandle;
    if fh == NO_HANDLE {
      HandlesSnoc(serve, sent, fh, W.Open(ino, 0));
      LastSnoc(serve, sent, W.Open(ino, 0));
    }
  }

  lemma ReadSentKeeps(serve: Server, sent: seq<W.Input>, fh: nat, i: W.Input)
    requires HandlesKept(serve, sent, fh) && i.Read? && LastHandle(serve, sent) == Some(i.fh) && i.fh == fh
    ensures HandlesKept(serve, sent + [i], fh)
  {
    hide LastHandle;
    HandlesSnoc(serve, sent, fh, i);
  }

  /** A user reading the file again and again: pieces and an offset for each read. */
  datatype FileState = FileState(fh: nat, sent: seq<W.Input>)

  function Reads(serve: Server, ino: nat, rs: seq<(seq<Iov>, nat)>): FileState {
    if rs == [] then FileState(NO_HANDLE, [])
    else
      var s, r := Reads(serve, ino, rs[..|rs|-1]), rs[|rs|-1];
      var e := ReadEffect(serve, ino, s.fh, s.sent, r.0, r.1);
      FileState(e.fh, e.sent)
  }

  lemma {:induction false} ReadsKeepHandles(serve: Server, ino: nat, rs: seq<(seq<Iov>, nat)>)
    ensures HandlesKept(serve, Reads(serve, ino, rs).sent, Reads(serve, ino, rs).fh)
    decreases |rs|
  {
    if rs != [] {
      hide HandlesKept;
      var s, r := Reads(serve, ino, rs[..|rs|-1]), rs[|rs|-1];
      ReadsKeepHandles(serve, ino, rs[..|rs|-1]);
      ReadKeepsHandles(serve, ino, s.fh, s.sent, r.0, r.1);
    }
  }

  /** Whatever the backend does: every READ carries the handle of the last successful OPEN before
      it, and after an OPEN that succeeded with a handle other than 2^64-1 there is no other. */
  lemma HandleDiscipline(serve: Server, ino: nat, rs: seq<(seq<Iov>, nat)>, j: nat, k: nat)
    requires var sent := Reads(serve, ino, rs).sent; j < k < |sent|
    ensures var sent := Reads(serve, ino, rs).sent;
      && (sent[k].Read? ==> LastHandle(serve, sent[..k]) == Some(sent[k].fh))
      && (sent[j].Open? && Granted(serve(sent[..j + 1])) && HandleIn(serve(sent[..j + 1]).data.value) != NO_HANDLE
          ==> !sent[k].Open? && (sent[k].Read? ==> sent[k].fh == HandleIn(serve(sent[..j + 1]).data.value)))
  {
    var sent := Reads(serve, ino, rs).sent;
    ReadsKeepHandles(serve, ino, rs);
    if sent[j].Open? && Granted(serve(sent[..j + 1])) && HandleIn(serve(sent[..j + 1]).data.value) != NO_HANDLE {
      HandleStays(serve, sent, Reads(serve, ino, rs).fh, j, k);
    }
  }

  lemma {:induction false} HandleStays(serve: Server, sent: seq<W.Input>, fh: nat, j: nat, k: nat)
    requires HandlesKept(serve, sent, fh) && j < k < |sent|
    requires sent[j].Open? && Granted(serve(sent[..j + 1])) && HandleIn(serve(sent[..j + 1]).data.value) != NO_HANDLE
    ensures LastHandle(serve, sent[..k]) == Some(HandleIn(serve(sent[..j + 1]).data.value)) && !sent[k].Open?
    decreases k
  {
    hide LastHandle;
    if k == j + 1 {
      assert sent[..k] == sent[..j] + [sent[j]];
      LastSnoc(serve, sent[..j], sent[j]);
    } else {
      HandleStays(serve, sent, fh, j, k - 1);
      assert sent[..k] == sent[..k - 1] + [sent[k - 1]];
      LastSnoc(serve, sent[..k - 1], sent[k - 1]);
    }
  }

  // ---------- contents ----------

  function Length(content: seq<byte>, off: nat): nat {
    if off < |content| then |content| - off else 0
  }

  /** A READ of this file, through a handle, is answered with its bytes. */
  ghost predicate ServesAt(serve: Server, h: seq<W.Input>, content: seq<byte>, off: nat, size: nat) {
    serve(h) == P.Deliver(D.Limited(content, off, size), true)
  }

  /** A read that gets its handle and its answer stores exactly the file's bytes from off on,
      split across the pieces in order, and leaves the rest of memory alone.  It is short of
      what the file and the pieces allow exactly when the total, cut to the 32 bits of the
      request, is. */
  lemma ReadStoresFile(serve: Server, ino: nat, fh: nat, sent: seq<W.Input>, mem: seq<byte>, iov: seq<Iov>, off: nat,
                       content: seq<byte>)
    requires InBounds(|mem|, iov) && Distinct(Addresses(iov)) && Sum(iov) < TWO_64
    requires Opened(serve, ino, fh, sent).err == 0
    requires var op := Opened(serve, ino, fh, sent);
      ServesAt(serve, op.sent + [W.Read(ino, op.fh, off, Sum(iov) % TWO_32)], content, off, Sum(iov) % TWO_32)
    ensures var e := ReadEffect(serve, ino, fh, sent, iov, off);
      && 0 <= e.result == |e.bytes| <= Length(content, off)
      && (e.bytes != [] ==> e.bytes == content[off..off + e.result])
      && StoredAt(mem, Scattered(mem, iov, e.bytes), Addresses(iov), e.bytes)
      && (e.result == Min(Sum(iov), Length(content, off))
          <==> Sum(iov) < TWO_32 || Length(content, off) <= Sum(iov) % TWO_32)
  {
    hide Scattered, Addresses, Sum, Opened;
    ModBelow(Sum(iov));
    ScatterMeaning(mem, iov, ReadEffect(serve, ino, fh, sent, iov, off).bytes);
  }

  lemma ModBelow(x: nat)
    ensures x % TWO_32 <= x && x % TWO_32 < TWO_32 && (x < TWO_32 ==> x % TWO_32 == x)
    ensures x < TWO_64 ==> x % TWO_64 == x
  {
  }

  /** A backend that opens this file and answers its READs, whatever came before; `mem` says for
      which requests there is memory for the reply. */
  ghost predicate Serves(serve: Server, ino: nat, content: seq<byte>, mem: seq<W.Input> -> bool) {
    forall h: seq<W.Input> {:trigger serve(h)} | h != [] :: var i := h[|h|-1];
      && (i == W.Open(ino, 0) ==> if mem(h) then Granted(serve(h)) else serve(h) == P.Outcome(-ENOMEM, None))
      && (i.Read? && i.ino == ino && i.fh < TWO_64 && i.offset < TWO_63 && i.size < TWO_32 ==>
            serve(h) == P.Deliver(D.Limited(content, i.offset, i.size), mem(h)))
  }

  /** Reading on from where the last read ended: a read that failed is followed by one at the same
      place. */
  function ReadOn(serve: Server, ino: nat, fh: nat, sent: seq<W.Input>, off: nat, iovs: seq<seq<Iov>>): seq<byte>
    decreases |iovs|
  {
    if iovs == [] then []
    else
      var e := ReadEffect(serve, ino, fh, sent, iovs[0], off);
      e.bytes + ReadOn(serve, ino, e.fh, e.sent, if e.result > 0 then off + e.result else off, iovs[1..])
  }

  /** The room in the pieces of those of these reads that did not fail. */
  function Asked(serve: Server, ino: nat, fh: nat, sent: seq<W.Input>, off: nat, iovs: seq<seq<Iov>>): nat
    decreases |iovs|
  {
    if iovs == [] then 0
    else
      var e := ReadEffect(serve, ino, fh, sent, iovs[0], off);
      (if e.result >= 0 then Sum(iovs[0]) else 0)
      + Asked(serve, ino, e.fh, e.sent, if e.result > 0 then off + e.result else off, iovs[1..])
  }

  function SumAll(iovs: seq<seq<Iov>>): nat {
    if iovs == [] then 0 else Sum(iovs[0]) + SumAll(iovs[1..])
  }

  /** Back-to-back reads deliver the file, without a gap and without a repeat, whichever of them
      fail for lack of memory; none does while memory lasts. */
  lemma {:induction false} ReadsRebuildFile(serve: Server, ino: nat, fh: nat, sent: seq<W.Input>, content: seq<byte>,
                                            mem: seq<W.Input> -> bool, off: nat, iovs: seq<seq<Iov>>)
    requires Serves(serve, ino, content, mem) && off <= |content| < TWO_63 && fh < TWO_64
    requires forall k | 0 <= k < |iovs| :: Sum(iovs[k]) < TWO_32
    ensures var asked := Asked(serve, ino, fh, sent, off, iovs);
      && ReadOn(serve, ino, fh, sent, off, iovs) == content[off..off + Min(asked, |content| - off)]
      && ((forall h :: mem(h)) ==> asked == SumAll(iovs))
    decreases |iovs|
  {
    hide *;
    if iovs == [] {
      NoReads(serve, ino, fh, sent, off, content);
    } else {
      var e := ReadEffect(serve, ino, fh, sent, iovs[0], off);
      OneRead(serve, ino, fh, sent, content, mem, off, iovs[0]);
      TailsSmall(iovs);
      FirstOfReads(serve, ino, fh, sent, off, iovs);
      if e.result < 0 {
        ReadsRebuildFile(serve, ino, e.fh, e.sent, content, mem, off, iovs[1..]);
      } else {
        var n, m := |e.bytes|, |content| - off;
        Least(Sum(iovs[0]), 0, m);
        ReadsRebuildFile(serve, ino, e.fh, e.sent, content, mem, off + n, iovs[1..]);
        var asked := Asked(serve, ino, e.fh, e.sent, off + n, iovs[1..]);
        Least(Sum(iovs[0]), asked, m);
        Adjoin(content, off, n, Min(asked, m - n));
      }
    }
  }

  lemma Least(a: nat, b: nat, m: nat)
    ensures Min(a, m) <= m && Min(b, m - Min(a, m)) <= m - Min(a, m)
    ensures Min(a, m) + Min(b, m - Min(a, m)) == Min(a + b, m)
  {
  }

  lemma TailsSmall(iovs: seq<seq<Iov>>)
    requires iovs != [] && forall k | 0 <= k < |iovs| :: Sum(iovs[k]) < TWO_32
    ensures forall k | 0 <= k < |iovs[1..]| :: Sum(iovs[1..][k]) < TWO_32
  {
  }

  lemma NoReads(serve: Server, ino: nat, fh: nat, sent: seq<W.Input>, off: nat, content: seq<byte>)
    requires off <= |content|
    ensures ReadOn(serve, ino, fh, sent, off, []) == [] && Asked(serve, ino, fh, sent, off, []) == SumAll([]) == 0
    ensures content[off..off + Min(0, |content| - off)] == []
    ensures Min(0, |content| - off) == 0
  {
  }

  lemma FirstOfReads(serve: Server, ino: nat, fh: nat, sent: seq<W.Input>, off: nat, iovs: seq<seq<Iov>>)
    requires iovs != []
    ensures SumAll(iovs) == Sum(iovs[0]) + SumAll(iovs[1..])
    ensures var e := ReadEffect(serve, ino, fh, sent, iovs[0], off);
      (e.result == |e.bytes| || (e.result < 0 && e.bytes == [])) ==>
        && ReadOn(serve, ino, fh, sent, off, iovs) == e.bytes + ReadOn(serve, ino, e.fh, e.sent, off + |e.bytes|, iovs[1..])
        && Asked(serve, ino, fh, sent, off, iovs)
           == (if e.result >= 0 then Sum(iovs[0]) else 0) + Asked(serve, ino, e.fh, e.sent, off + |e.bytes|, iovs[1..])
  {
    hide ReadEffect, Sum;
  }

  lemma Adjoin(s: seq<byte>, lo: nat, n: nat, m: nat)
    requires lo + n + m <= |s|
    ensures s[lo..lo + n] + s[lo + n..lo + n + m] == s[lo..lo + n + m]
  {
  }

  lemma OneRead(serve: Server, ino: nat, fh: nat, sent: seq<W.Input>, content: seq<byte>, mem: seq<W.Input> -> bool,
                off: nat, iov: seq<Iov>)
    requires Serves(serve, ino, content, mem) && off <= |content| < TWO_63 && Sum(iov) < TWO_32 && fh < TWO_64
    ensures ReadEffect(serve, ino, fh, sent, iov, off).fh < TWO_64
    ensures var e := ReadEffect(serve, ino, fh, sent, iov, off);
      if e.result < 0 then e.result == -ENOMEM && e.bytes == [] && !mem(e.sent)
      else e.result == |e.bytes| == Min(Sum(iov), |content| - off) && e.bytes == content[off..off + e.result]
  {
    hide Sum;
    ModBelow(Sum(iov));
    var op := Opened(serve, ino, fh, sent);
    assert op.err == 0 || op.err == -ENOMEM;
  }
}

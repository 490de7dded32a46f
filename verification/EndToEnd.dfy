/** The parts put together: a file system behind libfuse's dispatch, as a backend of the
    concurrent protocol.  The file system is apps/fuse-perf-test/hello_ll.c over arbitrary
    entries and contents, with either directory scheme. */
module EndToEnd {
  import opened Bytes
  import opened Wrappers
  import D = Dirents
  import F = FileRead
  import L = Listing
  import P = Protocol
  import Replies
  import R = ProtocolResults
  import W = Wire

  /** A uint64_t. */
  type U64 = u: nat | u < TWO_64

  /** `stray` answers where C leaves the behaviour open to the handler: a negative offset, or a
      cookie that no int holds.  `overrun` answers a request that the daemon cannot put into its
      buffer or its fields. */
  datatype FileSystem = FileSystem(entries: seq<D.Entry>, byIndex: bool, files: map<nat, seq<byte>>, handle: U64,
                                   lookup: (nat, seq<byte>) -> P.Reply, getattr: nat -> P.Reply,
                                   stray: W.Dispatched -> P.Reply, overrun: W.Input -> P.Reply)

  /** The handlers, and the answers libfuse gives by itself. */
  function Handle(fs: FileSystem, d: W.Dispatched): P.Reply {
    match d
    case Refused(errno) => P.Fail(errno)
    case OpenedByDefault => P.Data(Replies.OpenOut(Replies.Plain(0)))
    case CallLookup(parent, name) => fs.lookup(parent, name)
    case CallGetattr(ino, _) => fs.getattr(ino)
    case CallOpen(ino, flags) =>
      if ino == D.ROOT then P.Fail(EISDIR)
      else if flags % 4 != 0 then P.Fail(EACCES)
      else P.Data(Replies.OpenOut(Replies.Plain(fs.handle)))
    case CallRead(ino, size, off, _, _, _) =>
      if ino !in fs.files then P.Fail(EISDIR)
      else if off < 0 then fs.stray(d)
      else D.Limited(fs.files[ino], off, size)
    case CallReaddir(ino, size, off, _) =>
      if ino != D.ROOT then P.Fail(ENOTDIR)
      else if off < 0 || (fs.byIndex && (off >= TWO_31 || size > D.REPLY_MAX)) then fs.stray(d)
      else if fs.byIndex then D.IndexReaddir(fs.entries, ino, off, size)
      else D.ByteReaddir(fs.entries, ino, off, size)
    case Elsewhere(_) => P.Fail(ENOSYS)
  }

  // ---------- over the wire ----------

  /** The daemon's buffer, whatever an earlier request left in it. */
  type Buffer = s: seq<byte> | |s| == W.BUF_SIZE witness Zeros(W.BUF_SIZE)

  /** What the client put into its request. */
  datatype Request = Request(input: W.Input, unique: U64)

  predicate Sendable(i: W.Input) {
    !i.Unknown? && W.InRange(i)
  }

  /** The buffer after the round. */
  function Filled(b: Buffer, q: Request): Buffer {
    if Sendable(q.input) then W.Message(b, q.input, q.unique) else b
  }

  /** One round of the daemon: the request is written over the stale bytes, libfuse reads header and
      payload back out of the bytes, checks and dispatches, and the file system answers. */
  function OverWire(fs: FileSystem, se: W.Session, b: Buffer, q: Request): P.Reply {
    if q.input.Unknown? then P.Fail(ENOSYS)
    else if Sendable(q.input) then Handle(fs, W.Process(se, Filled(b, q)))
    else fs.overrun(q.input)
  }

  /** The answer that the client's own values ask for. */
  function Expected(fs: FileSystem, se: W.Session, i: W.Input): P.Reply {
    if i.Unknown? then P.Fail(ENOSYS) else Handle(fs, W.Meant(se, i))
  }

  /** A reply of OPEN in which the driver finds this handle. */
  ghost predicate Grants(r: P.Reply, fh: nat) {
    r.Data? && |r.bytes| == 16 && Field(r.bytes, 0, 8) == fh && F.HandleIn(r.bytes) == fh
  }

  /** The answer to a request that a client made, opcode by opcode (LOOKUP is 1, GETATTR 3, OPEN 14,
      READ 15, READDIR 28): an operation that the file system does not have is ENOSYS (38), except
      that OPEN may then succeed with handle 0; a directory cannot be opened or read (EISDIR, 21),
      nor a file for writing (EACCES, 13), and only the root can be listed (ENOTDIR, 20). */
  ghost predicate RightAnswer(fs: FileSystem, se: W.Session, i: W.Input, r: P.Reply) {
    match i
    case Unknown(_) => r == P.Fail(38)
    case Lookup(ino, name) => r == if 1 in se.handlers then fs.lookup(ino, name) else P.Fail(38)
    case Getattr(ino) => r == if 3 in se.handlers then fs.getattr(ino) else P.Fail(38)
    case Open(ino, flags) =>
      if 14 in se.handlers then
        if ino == 1 then r == P.Fail(21)
        else if flags % 4 != 0 then r == P.Fail(13)
        else Grants(r, fs.handle)
      else if se.noOpenSupport then r == P.Fail(38)
      else Grants(r, 0)
    case Read(ino, _, off, size) =>
      if 15 !in se.handlers then r == P.Fail(38)
      else if ino !in fs.files then r == P.Fail(21)
      else off < TWO_63 ==>
        var s := fs.files[ino];
        r == P.Data(s[Min(off, |s|)..Min(off + size, |s|)])
    case Readdir(ino, _, off, size) =>
      if 28 !in se.handlers then r == P.Fail(38)
      else if ino != 1 then r == P.Fail(20)
      else if fs.byIndex then
        off < TWO_31 && size <= 4096 ==> r == P.Data(D.Fill(fs.entries, off, size))
      else
        off < TWO_63 ==>
          var s := D.Packed(fs.entries);
          r == P.Data(s[Min(off, |s|)..Min(off + size, |s|)])
  }

  lemma Slice(s: seq<byte>, off: nat, size: nat)
    ensures D.Limited(s, off, size) == P.Data(s[Min(off, |s|)..Min(off + size, |s|)])
  {
  }

  lemma OpenGrants(fh: nat)
    requires fh < TWO_64
    ensures Grants(P.Data(Replies.OpenOut(Replies.Plain(fh))), fh)
  {
    Replies.OpenOutFields(Replies.Plain(fh));
    F.HandleTravels(Replies.Plain(fh));
  }

  lemma OpenFlagsKept(flags: nat)
    requires flags < TWO_32
    ensures W.Signed(flags, 4) % 4 == flags % 4
  {
    Widths();
    assert (flags - TWO_32) % 4 == flags % 4;
  }

  lemma ExpectedOpen(fs: FileSystem, se: W.Session, ino: nat, flags: nat)
    requires flags < TWO_32
    ensures RightAnswer(fs, se, W.Open(ino, flags), Expected(fs, se, W.Open(ino, flags)))
  {
    hide Grants, W.Signed;
    OpenFlagsKept(flags);
    OpenGrants(fs.handle);
    OpenGrants(0);
  }

  lemma ExpectedRead(fs: FileSystem, se: W.Session, ino: nat, fh: nat, off: nat, size: nat)
    requires off < TWO_64
    ensures RightAnswer(fs, se, W.Read(ino, fh, off, size), Expected(fs, se, W.Read(ino, fh, off, size)))
  {
    hide Grants, D.Limited, W.Signed;
    W.OffsetKept(off);
    if ino in fs.files { Slice(fs.files[ino], off, size); }
  }

  lemma ExpectedReaddir(fs: FileSystem, se: W.Session, ino: nat, fh: nat, off: nat, size: nat)
    requires off < TWO_64
    ensures RightAnswer(fs, se, W.Readdir(ino, fh, off, size), Expected(fs, se, W.Readdir(ino, fh, off, size)))
  {
    hide Grants, D.Limited, D.Packed, D.Fill, W.Signed;
    W.OffsetKept(off);
    Slice(D.Packed(fs.entries), off, size);
  }

  lemma ExpectedByName(fs: FileSystem, se: W.Session, i: W.Input)
    requires i.Lookup? || i.Getattr? || i.Unknown?
    ensures RightAnswer(fs, se, i, Expected(fs, se, i))
  {
    hide Grants;
  }

  lemma ExpectedIsRight(fs: FileSystem, se: W.Session, i: W.Input)
    requires W.InRange(i)
    ensures RightAnswer(fs, se, i, Expected(fs, se, i))
  {
    hide RightAnswer, Expected;
    match i
    case Open(ino, flags) => ExpectedOpen(fs, se, ino, flags);
    case Read(ino, fh, off, size) => ExpectedRead(fs, se, ino, fh, off, size);
    case Readdir(ino, fh, off, size) => ExpectedReaddir(fs, se, ino, fh, off, size);
    case _ => ExpectedByName(fs, se, i);
  }

  /** What goes through the bytes of the daemon's buffer comes out as the right answer. */
  lemma OverWireAnswers(fs: FileSystem, se: W.Session, b: Buffer, q: Request)
    requires se.gotInit && W.InRange(q.input)
    ensures RightAnswer(fs, se, q.input, OverWire(fs, se, b, q))
  {
    hide RightAnswer, Expected, OverWire, W.InRange;
    WireIsTransparent(fs, se, b, q);
    ExpectedIsRight(fs, se, q.input);
  }

  /** The bytes in between change nothing. */
  lemma WireIsTransparent(fs: FileSystem, se: W.Session, b: Buffer, q: Request)
    requires se.gotInit && (q.input.Unknown? || W.InRange(q.input))
    ensures OverWire(fs, se, b, q) == Expected(fs, se, q.input)
  {
    hide W.Process, W.Meant, W.Message, W.InRange, W.Carries, Handle;
    if !q.input.Unknown? {
      W.MessageCarries(b, q.input, q.unique);
      W.RoundTrip(se, Filled(b, q), q.input, q.unique);
    }
  }

  /** The round in memory: the daemon's loop body on its own buffer, then the handler. */
  method ServeOne(fs: FileSystem, se: W.Session, d: W.Daemon, q: Request) returns (reply: P.Reply)
    requires d.Valid() && se.gotInit && W.InRange(q.input)
    modifies d.buf
    ensures d.Valid() && RightAnswer(fs, se, q.input, reply)
    ensures reply == OverWire(fs, se, old(d.buf[..]), q)
    ensures !q.input.Unknown? ==> d.buf[..] == Filled(old(d.buf[..]), q)
  {
    hide W.Meant, W.Message, W.Carries, Handle, OverWire, W.InRange, Expected, RightAnswer;
    WireIsTransparent(fs, se, d.buf[..], q);
    ExpectedIsRight(fs, se, q.input);
    AsExpected(fs, se, q.input);
    var r := d.Step(se, q.input, q.unique);
    match r
    case None => reply := P.Fail(ENOSYS);
    case Some(call) => reply := Handle(fs, call);
  }

  lemma AsExpected(fs: FileSystem, se: W.Session, i: W.Input)
    ensures Expected(fs, se, i) == if i.Unknown? then P.Fail(ENOSYS) else Handle(fs, W.Meant(se, i))
  {
  }

  // ---------- under concurrency ----------

  /** The file system behind the wire as a backend of the protocol.  The daemon's buffer is its
      state: it is handed from each request to the next. */
  function Backend(fs: FileSystem, se: W.Session, first: Buffer): P.Backend<Buffer, Request> {
    P.Backend(first, (q: Request) => !q.input.Unknown?,
              (b: Buffer, q: Request) => (Filled(b, q), OverWire(fs, se, b, q)))
  }

  ghost predicate InvokedWith(h: seq<P.Event<Request>>, call: P.Call, q: Request) {
    exists k :: 0 <= k < |h| && h[k].Invoke? && h[k].call == call && h[k].input == q
  }

  /** What the client finds in its request after a reply, depending on memory for the bytes. */
  ghost predicate Finds(out: P.Outcome, r: P.Reply, ok: bool) {
    match r
    case Fail(e) => out.error == -e && out.data == None
    case Data(bytes) =>
      if ok then out.error == 0 && out.data == Some(bytes)
      else out.data == None && out.error == if bytes == [] then 0 else -12
  }

  ghost predicate IsAnswer(fs: FileSystem, se: W.Session, i: W.Input, out: P.Outcome) {
    exists r: P.Reply, ok: bool :: RightAnswer(fs, se, i, r) && Finds(out, r, ok)
  }

  /** What the driver may ask: a name that fits the daemon's buffer, values that fit their fields. */
  ghost predicate Asks(h: seq<P.Event<Request>>) {
    forall k | 0 <= k < |h| && h[k].Invoke? :: W.InRange(h[k].input.input)
  }

  /** In every run with any number of clients, whatever a call returns is the file system's answer
      to the values with which this very call was made, although all requests pass through one
      buffer and are read back from its bytes. */
  lemma EveryClientIsAnswered(fs: FileSystem, se: W.Session, first: Buffer, s: P.State<Buffer, Request>, j: nat)
    requires se.gotInit && P.Reachable(Backend(fs, se, first), s) && Asks(s.history)
    requires j < |s.history| && s.history[j].Return?
    ensures exists q: Request :: InvokedWith(s.history, s.history[j].call, q) && IsAnswer(fs, se, q.input, s.history[j].out)
  {
    hide P.Reachable, OverWire, Filled, W.InRange, RightAnswer, Handle;
    var be := Backend(fs, se, first);
    var q, b, ok := R.ReturnedOutcome(be, s, j);
    assert InvokedWith(s.history, s.history[j].call, q);
    OverWireAnswers(fs, se, b, q);
    UnknownAnswer(fs, se, b, q);
    var r := OverWire(fs, se, b, q);
    assert be.handle(b, q).1 == r;
    assert Finds(s.history[j].out, r, ok);
    assert IsAnswer(fs, se, q.input, s.history[j].out);
  }

  lemma UnknownAnswer(fs: FileSystem, se: W.Session, b: Buffer, q: Request)
    ensures q.input.Unknown? ==> OverWire(fs, se, b, q) == P.Fail(38)
  {
  }

  /** A listing of anything but the root: the driver reports ENOTDIR (20) and stays where it is. */
  lemma ListingElsewhere(fs: FileSystem, se: W.Session, first: Buffer, s: P.State<Buffer, Request>, j: nat,
                         len: nat, reclen: L.RecLen)
    requires se.gotInit && P.Reachable(Backend(fs, se, first), s) && Asks(s.history)
    requires j < |s.history| && s.history[j].Return? && 28 in se.handlers
    requires forall q: Request :: InvokedWith(s.history, s.history[j].call, q) ==> q.input.Readdir? && q.input.ino != 1
    ensures L.Decoded(s.history[j].out, len, reclen) == L.Stop(-20)
  {
    hide P.Reachable, Asks, InvokedWith, Grants;
    EveryClientIsAnswered(fs, se, first, s, j);
  }

  // ---------- listing ----------

  /** Repeated fusefs_listdir on the root: call k finds buffer stale[k] at the daemon, and memory for
      its reply if mem[k] says so. */
  function CallsOverWire(fs: FileSystem, se: W.Session, cur: nat, mem: seq<bool>, stale: seq<Buffer>, unique: seq<U64>,
                         len: nat, reclen: L.RecLen): (r: seq<L.Listed>)
    requires |stale| == |unique| == |mem|
    ensures |r| == |mem|
    decreases |mem|
  {
    if mem == [] then []
    else
      var q := Request(W.Readdir(D.ROOT, 0, cur, L.REQUEST), unique[0]);
      var o := L.Decoded(P.Deliver(OverWire(fs, se, stale[0], q), mem[0]), len, reclen);
      [o] + CallsOverWire(fs, se, if o.Item? then o.d.off else cur, mem[1..], stale[1..], unique[1..], len, reclen)
  }

  function Cookie(fs: FileSystem, i: nat): nat
    requires i <= |fs.entries|
  {
    if fs.byIndex then i else D.Boundary(fs.entries, i)
  }

  /** A directory whose records fit a request and whose cookies fit an off_t or an int. */
  ghost predicate Listable(es: seq<D.Entry>) {
    L.Representable(es) && L.AllFit(es) && |D.Packed(es)| < TWO_63 && |es| < TWO_31
  }

  lemma DirAnswer(fs: FileSystem, se: W.Session, b: Buffer, off: nat, unique: U64)
    requires se.gotInit && W.FUSE_READDIR in se.handlers && off < if fs.byIndex then TWO_31 else TWO_63
    ensures OverWire(fs, se, b, Request(W.Readdir(D.ROOT, 0, off, L.REQUEST), unique))
            == if fs.byIndex then D.IndexReaddir(fs.entries, D.ROOT, off, L.REQUEST)
               else D.ByteReaddir(fs.entries, D.ROOT, off, L.REQUEST)
  {
    hide D.IndexReaddir, D.ByteReaddir, W.Process, W.Message, OverWire;
    var i := W.Readdir(D.ROOT, 0, off, L.REQUEST);
    assert W.InRange(i);
    WireIsTransparent(fs, se, b, Request(i, unique));
    W.OffsetKept(off);
    assert W.Meant(se, i) == W.CallReaddir(D.ROOT, L.REQUEST, off, 0);
  }

  lemma ServersReply(es: seq<D.Entry>, off: nat, ok: bool)
    ensures L.IndexServer(es)(off, L.REQUEST, ok) == P.Deliver(D.IndexReaddir(es, D.ROOT, off, L.REQUEST), ok)
    ensures L.ByteServer(es)(off, L.REQUEST, ok) == P.Deliver(D.ByteReaddir(es, D.ROOT, off, L.REQUEST), ok)
  {
    hide D.IndexReaddir, D.ByteReaddir, P.Deliver;
  }

  lemma BoundaryInside(es: seq<D.Entry>, i: nat)
    requires i <= |es|
    ensures D.Boundary(es, i) <= |D.Packed(es)|
  {
    D.PackedPrefix(es, i);
  }

  lemma AllBeforeMisfit(es: seq<D.Entry>)
    requires L.AllFit(es)
    ensures L.Fitting(es) == |es| && es[..|es|] == es
  {
  }

  /** One call at the cookie of entry i shows that entry and carries the next cookie. */
  lemma OneCall(fs: FileSystem, se: W.Session, b: Buffer, unique: U64, i: nat, ok: bool, len: nat, reclen: L.RecLen)
    requires se.gotInit && W.FUSE_READDIR in se.handlers && Listable(fs.entries) && i <= |fs.entries|
    ensures var q := Request(W.Readdir(D.ROOT, 0, Cookie(fs, i), L.REQUEST), unique);
      var o := L.Decoded(P.Deliver(OverWire(fs, se, b, q), ok), len, reclen);
      && L.See(o) == L.Next(fs.entries, i, ok, len, reclen)
      && (o.Item? ==> i < |fs.entries| && o.d.off == Cookie(fs, i + 1))
  {
    hide OverWire, L.Decoded, L.See, L.Next, L.Representable, L.AllFit, D.Boundary, D.Packed, L.IndexServer, L.ByteServer,
         P.Deliver, D.IndexReaddir, D.ByteReaddir, L.Fitting;
    var es := fs.entries;
    BoundaryInside(es, i);
    DirAnswer(fs, se, b, Cookie(fs, i), unique);
    ServersReply(es, Cookie(fs, i), ok);
    if fs.byIndex {
      AllBeforeMisfit(es);
      L.IndexSees(es, i, ok, len, reclen);
    } else {
      L.ByteSees(es, i, ok, len, reclen);
    }
  }

  lemma {:induction false} RunOverWire(fs: FileSystem, se: W.Session, i: nat, mem: seq<bool>, stale: seq<Buffer>,
                                       unique: seq<U64>, len: nat, reclen: L.RecLen)
    requires se.gotInit && W.FUSE_READDIR in se.handlers && Listable(fs.entries) && i <= |fs.entries|
    requires |stale| == |unique| == |mem|
    ensures L.SeeAll(CallsOverWire(fs, se, Cookie(fs, i), mem, stale, unique, len, reclen))
            == L.Enumerate(fs.entries, i, mem, len, reclen)
    decreases |mem|
  {
    hide OverWire, L.Decoded, L.Next, Listable, Cookie, P.Deliver;
    if mem != [] {
      OneCall(fs, se, stale[0], unique[0], i, mem[0], len, reclen);
      var q := Request(W.Readdir(D.ROOT, 0, Cookie(fs, i), L.REQUEST), unique[0]);
      var o := L.Decoded(P.Deliver(OverWire(fs, se, stale[0], q), mem[0]), len, reclen);
      var j := if o.Item? then i + 1 else i;
      RunOverWire(fs, se, j, mem[1..], stale[1..], unique[1..], len, reclen);
      var rest := CallsOverWire(fs, se, Cookie(fs, j), mem[1..], stale[1..], unique[1..], len, reclen);
      assert L.SeeAll([o] + rest) == [L.See(o)] + L.SeeAll(rest);
    }
  }

  /** Through the driver, the daemon's buffer with whatever other requests left in it, libfuse's
      dispatch, and either directory scheme, a listing is the reference enumeration of the
      entries. */
  lemma ListingEndToEnd(fs: FileSystem, se: W.Session, mem: seq<bool>, stale: seq<Buffer>, unique: seq<U64>,
                        len: nat, reclen: L.RecLen)
    requires se.gotInit && W.FUSE_READDIR in se.handlers && Listable(fs.entries)
    requires |stale| == |unique| == |mem|
    ensures L.SeeAll(CallsOverWire(fs, se, 0, mem, stale, unique, len, reclen)) == L.Enumerate(fs.entries, 0, mem, len, reclen)
  {
    hide CallsOverWire, L.SeeAll, L.Enumerate, Listable;
    L.AtStart(fs.entries);
    RunOverWire(fs, se, 0, mem, stale, unique, len, reclen);
  }

  // ---------- reading ----------

  /** What fusefs_read gets to see: before its request is written, the buffer holds stale(h),
      whatever that is, and there is memory for the reply if mem(h) says so. */
  function FileServer(fs: FileSystem, se: W.Session, stale: seq<W.Input> -> Buffer, unique: seq<W.Input> -> U64,
                      mem: seq<W.Input> -> bool): F.Server
  {
    (h: seq<W.Input>) =>
      if h == [] then P.Outcome(0, None)
      else P.Deliver(OverWire(fs, se, stale(h), Request(h[|h|-1], unique(h))), mem(h))
  }

  lemma FileAnswer(fs: FileSystem, se: W.Session, b: Buffer, q: Request, ino: nat)
    requires se.gotInit && W.FUSE_OPEN in se.handlers && W.FUSE_READ in se.handlers
    requires ino in fs.files && ino != D.ROOT && ino < TWO_64
    ensures q.input == W.Open(ino, 0) ==> OverWire(fs, se, b, q).Data? && OverWire(fs, se, b, q).bytes != []
    ensures var i := q.input;
      i.Read? && i.ino == ino && i.fh < TWO_64 && i.offset < TWO_63 && i.size < TWO_32 ==>
        OverWire(fs, se, b, q) == D.Limited(fs.files[ino], i.offset, i.size)
  {
    hide W.Process, W.Message, OverWire, D.Limited;
    if q.input == W.Open(ino, 0) {
      WireIsTransparent(fs, se, b, q);
      Widths();
    } else if q.input.Read? && q.input.ino == ino && q.input.fh < TWO_64 && q.input.offset < TWO_63 && q.input.size < TWO_32 {
      WireIsTransparent(fs, se, b, q);
      W.OffsetKept(q.input.offset);
    }
  }

  lemma FileServed(fs: FileSystem, se: W.Session, stale: seq<W.Input> -> Buffer, unique: seq<W.Input> -> U64,
                   mem: seq<W.Input> -> bool, ino: nat)
    requires se.gotInit && W.FUSE_OPEN in se.handlers && W.FUSE_READ in se.handlers
    requires ino in fs.files && ino != D.ROOT && ino < TWO_64
    ensures F.Serves(FileServer(fs, se, stale, unique, mem), ino, fs.files[ino], mem)
  {
    hide OverWire, D.Limited;
    var serve := FileServer(fs, se, stale, unique, mem);
    forall h: seq<W.Input> | h != []
      ensures h[|h|-1] == W.Open(ino, 0) ==>
                if mem(h) then F.Granted(serve(h)) else serve(h) == P.Outcome(-ENOMEM, None)
      ensures var i := h[|h|-1];
        i.Read? && i.ino == ino && i.fh < TWO_64 && i.offset < TWO_63 && i.size < TWO_32 ==>
          serve(h) == P.Deliver(D.Limited(fs.files[ino], i.offset, i.size), mem(h))
    {
      FileAnswer(fs, se, stale(h), Request(h[|h|-1], unique(h)), ino);
    }
  }

  /** Through the driver, the daemon's buffer with whatever other requests left in it, and libfuse's
      dispatch, back-to-back reads rebuild the file from its beginning, as far as the reads that did
      not fail for lack of memory have room; none fails while memory lasts. */
  lemma ReadingEndToEnd(fs: FileSystem, se: W.Session, stale: seq<W.Input> -> Buffer, unique: seq<W.Input> -> U64,
                        mem: seq<W.Input> -> bool, ino: nat, iovs: seq<seq<F.Iov>>)
    requires se.gotInit && W.FUSE_OPEN in se.handlers && W.FUSE_READ in se.handlers
    requires ino in fs.files && ino != D.ROOT && ino < TWO_64 && |fs.files[ino]| < TWO_63
    requires forall k | 0 <= k < |iovs| :: F.Sum(iovs[k]) < TWO_32
    ensures var serve, content := FileServer(fs, se, stale, unique, mem), fs.files[ino];
      var asked := F.Asked(serve, ino, F.NO_HANDLE, [], 0, iovs);
      && F.ReadOn(serve, ino, F.NO_HANDLE, [], 0, iovs) == content[..Min(asked, |content|)]
      && (asked >= |content| ==> F.ReadOn(serve, ino, F.NO_HANDLE, [], 0, iovs) == content)
      && ((forall h :: mem(h)) ==> asked == F.SumAll(iovs))
  {
    hide FileServer, F.ReadOn, F.Asked, F.SumAll, F.Sum, F.Serves;
    var content := fs.files[ino];
    FileServed(fs, se, stale, unique, mem, ino);
    F.ReadsRebuildFile(FileServer(fs, se, stale, unique, mem), ino, F.NO_HANDLE, [], content, mem, 0, iovs);
    Front(content, F.Asked(FileServer(fs, se, stale, unique, mem), ino, F.NO_HANDLE, [], 0, iovs));
  }

  lemma Front(s: seq<byte>, n: nat)
    ensures s[0..0 + Min(n, |s| - 0)] == s[..Min(n, |s|)]
    ensures n >= |s| ==> s[..Min(n, |s|)] == s
  {
  }
}

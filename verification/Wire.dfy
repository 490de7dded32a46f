/** The bytes between the driver and libfuse.  The daemon thread (libs/ukfusefs/fuse_daemon.c)
    writes each request into one buffer that it reuses for ever; libfuse
    (libs/libfuse/lib/fuse_lowlevel.c) reads the header and the payload of its opcode back out of
    it and calls a handler. */
module Wire {
  import opened Bytes
  import opened Wrappers

  /** A driver request, as the client filled it in; Unknown is any opcode outside the table. */
  datatype Input =
    | Lookup(ino: nat, name: seq<byte>)
    | Getattr(ino: nat)
    | Open(ino: nat, flags: nat)
    | Read(ino: nat, fh: nat, offset: nat, size: nat)
    | Readdir(ino: nat, fh: nat, offset: nat, size: nat)
    | Unknown(code: nat)

  const BUF_SIZE := 8192
  const HEADER := 40

  const FUSE_LOOKUP := 1
  const FUSE_GETATTR := 3
  const FUSE_OPEN := 14
  const FUSE_READ := 15
  const FUSE_INIT := 26
  const FUSE_READDIR := 28
  const FUSE_INTERRUPT := 36
  const CUSE_INIT := 4096
  const FUSE_MAXOP := 4097

  /** The ranges of the C fields; a name is a C string, and it must leave room in the buffer. */
  predicate InRange(i: Input) {
    match i
    case Lookup(ino, name) => ino < TWO_64 && 0 !in name && HEADER + |name| + 1 <= BUF_SIZE
    case Getattr(ino) => ino < TWO_64
    case Open(ino, flags) => ino < TWO_64 && flags < TWO_32
    case Read(ino, fh, offset, size) => ino < TWO_64 && fh < TWO_64 && offset < TWO_64 && size < TWO_32
    case Readdir(ino, fh, offset, size) => ino < TWO_64 && fh < TWO_64 && offset < TWO_64 && size < TWO_32
    case Unknown(code) => code == 0 || code > 5
  }

  function DriverOpcode(i: Input): nat {
    match i
    case Lookup(_, _) => 1
    case Getattr(_) => 2
    case Open(_, _) => 3
    case Read(_, _, _, _) => 4
    case Readdir(_, _, _, _) => 5
    case Unknown(code) => code
  }

  /** dispatch_table: driver opcodes and FUSE opcodes. */
  const TABLE: seq<(nat, nat)> :=
    [(1, FUSE_LOOKUP), (2, FUSE_GETATTR), (3, FUSE_OPEN), (4, FUSE_READ), (5, FUSE_READDIR)]

  function FuseOpcode(i: Input): nat
    requires !i.Unknown?
  {
    match i
    case Lookup(_, _) => FUSE_LOOKUP
    case Getattr(_) => FUSE_GETATTR
    case Open(_, _) => FUSE_OPEN
    case Read(_, _, _, _) => FUSE_READ
    case Readdir(_, _, _, _) => FUSE_READDIR
  }

  /** struct fuse_read_in with the fields the driver leaves out at zero. */
  function ReadIn(fh: nat, offset: nat, size: nat): (r: seq<byte>)
    ensures |r| == 40
  {
    Encode(8, fh) + Encode(8, offset) + Encode(4, size) + Encode(4, 0) + Encode(8, 0) + Encode(4, 0) + Encode(4, 0)
  }

  function Payload(i: Input): seq<byte>
    requires !i.Unknown?
  {
    match i
    case Lookup(_, name) => name + [0]
    case Getattr(_) => Encode(4, 0) + Encode(4, 0) + Encode(8, 0)
    case Open(_, flags) => Encode(4, flags) + Encode(4, 0)
    case Read(_, fh, offset, size) => ReadIn(fh, offset, size)
    case Readdir(_, fh, offset, size) => ReadIn(fh, offset, size)
  }

  /** struct fuse_in_header as the daemon fills it in: the caller is user 0, process 1. */
  function Header(i: Input, unique: nat): (r: seq<byte>)
    requires !i.Unknown?
    ensures |r| == HEADER
  {
    Encode(4, HEADER + |Payload(i)|) + Encode(4, FuseOpcode(i)) + Encode(8, unique) + Encode(8, i.ino)
    + Encode(4, 0) + Encode(4, 0) + Encode(4, 1) + Zeros(4)
  }

  /** The buffer after a message was built over what an earlier one left. */
  function Message(stale: seq<byte>, i: Input, unique: nat): (r: seq<byte>)
    requires |stale| == BUF_SIZE && !i.Unknown? && InRange(i)
    ensures |r| == BUF_SIZE
  {
    PayloadFits(i);
    Header(i, unique) + Payload(i) + stale[HEADER + |Payload(i)|..]
  }

  lemma PayloadFits(i: Input)
    requires !i.Unknown? && InRange(i)
    ensures HEADER + |Payload(i)| <= BUF_SIZE && i.ino < TWO_64
  {
  }

  /** A message fits the daemon's buffer exactly if its name has at most 8151 bytes; the daemon does
      not check. */
  lemma MessageFits(i: Input)
    requires !i.Unknown?
    ensures HEADER + |Payload(i)| <= BUF_SIZE <==> (i.Lookup? ==> |i.name| <= 8151)
    ensures InRange(i) ==> HEADER + |Payload(i)| <= BUF_SIZE
    ensures i.Lookup? && |i.name| == 8152 ==> HEADER + |Payload(i)| == BUF_SIZE + 1 && !InRange(i)
  {
  }

  /** The message stands at the front of the buffer; nothing is said about what lies behind it. */
  ghost predicate Carries(s: seq<byte>, i: Input, unique: nat)
    requires !i.Unknown?
  {
    && |s| == BUF_SIZE && HEADER + |Payload(i)| <= BUF_SIZE
    && Field(s, 0, 4) == HEADER + |Payload(i)|
    && Field(s, 4, 4) == FuseOpcode(i)
    && Field(s, 8, 8) == unique
    && Field(s, 16, 8) == i.ino
    && Field(s, 24, 4) == 0 && Field(s, 28, 4) == 0 && Field(s, 32, 4) == 1
    && s[HEADER..HEADER + |Payload(i)|] == Payload(i)
  }

  // ---------- libfuse's side ----------

  /** The parts of struct fuse_session that the dispatch looks at.  `handlers` are the FUSE
      opcodes for which the file system has an operation. */
  datatype Session = Session(gotInit: bool, cuse: bool, denyOthers: bool, owner: nat, noInterrupt: bool,
                             protoMinor: nat, noOpenSupport: bool, handlers: set<nat>)

  /** What libfuse does with a message: it answers an error itself, answers OPEN itself, calls
      the file system's handler, or goes elsewhere for an opcode that the driver never sends. */
  datatype Dispatched =
    | Refused(errno: nat)
    | OpenedByDefault
    | CallLookup(parent: nat, name: seq<byte>)
    | CallGetattr(ino: nat, file: Option<nat>)
    | CallOpen(ino: nat, flags: int)
    | CallRead(ino: nat, size: nat, off: int, fh: nat, lockOwner: nat, flags: int)
    | CallReaddir(ino: nat, size: nat, off: int, fh: nat)
    | Elsewhere(opcode: nat)

  /** Opcodes that deny_others lets pass. */
  const ANYBODY := {FUSE_INIT, FUSE_READ, 16, 20, 18, FUSE_READDIR, 30, 29, 41, 44}

  /** The conversion of an unsigned field to off_t or int. */
  function Signed(x: nat, n: nat): int
    requires n > 0
  {
    if x < Range(n) / 2 then x else x - Range(n)
  }

  /** What C takes for the string at the front of s. */
  function CString(s: seq<byte>): (r: seq<byte>)
    ensures |r| <= |s|
  {
    if s == [] || s[0] == 0 then [] else [s[0]] + CString(s[1..])
  }

  function Sanity(se: Session, opcode: nat): nat {
    if !se.gotInit then (if opcode == (if se.cuse then CUSE_INIT else FUSE_INIT) then 0 else EIO)
    else if opcode == FUSE_INIT || opcode == CUSE_INIT then EIO
    else 0
  }

  function AllowRoot(se: Session, opcode: nat, uid: nat): nat {
    if se.denyOthers && uid != se.owner && uid != 0 && opcode !in ANYBODY then EACCES else 0
  }

  /** fuse_session_process_buf_internal, then the reader of the opcode. */
  function Process(se: Session, s: seq<byte>): Dispatched
    requires |s| == BUF_SIZE
  {
    var opcode, uid := Field(s, 4, 4), Field(s, 24, 4);
    if Sanity(se, opcode) != 0 then Refused(Sanity(se, opcode))
    else if AllowRoot(se, opcode, uid) != 0 then Refused(AllowRoot(se, opcode, uid))
    else if opcode >= FUSE_MAXOP then Refused(ENOSYS)
    else if se.noInterrupt && opcode == FUSE_INTERRUPT then Refused(ENOSYS)
    else Dispatch(se, opcode, Field(s, 16, 8), s)
  }

  function Dispatch(se: Session, opcode: nat, ino: nat, s: seq<byte>): Dispatched
    requires |s| == BUF_SIZE
  {
    if opcode == FUSE_LOOKUP then
      if opcode in se.handlers then CallLookup(ino, CString(s[HEADER..])) else Refused(ENOSYS)
    else if opcode == FUSE_GETATTR then
      if opcode in se.handlers
      then CallGetattr(ino, if se.protoMinor >= 9 && Field(s, 40, 4) % 2 == 1 then Some(Field(s, 48, 8)) else None)
      else Refused(ENOSYS)
    else if opcode == FUSE_OPEN then
      if opcode in se.handlers then CallOpen(ino, Signed(Field(s, 40, 4), 4))
      else if se.noOpenSupport then Refused(ENOSYS) else OpenedByDefault
    else if opcode == FUSE_READ then
      if opcode in se.handlers
      then
        var recent := se.protoMinor >= 9;
        CallRead(ino, Field(s, 56, 4), Signed(Field(s, 48, 8), 8), Field(s, 40, 8),
                 if recent then Field(s, 64, 8) else 0, if recent then Signed(Field(s, 72, 4), 4) else 0)
      else Refused(ENOSYS)
    else if opcode == FUSE_READDIR then
      if opcode in se.handlers
      then CallReaddir(ino, Field(s, 56, 4), Signed(Field(s, 48, 8), 8), Field(s, 40, 8))
      else Refused(ENOSYS)
    else Elsewhere(opcode)
  }

  // ---------- the round trip ----------

  /** What the client asked for. */
  function Meant(se: Session, i: Input): Dispatched
    requires !i.Unknown?
  {
    if FuseOpcode(i) !in se.handlers then
      (if i.Open? && !se.noOpenSupport then OpenedByDefault else Refused(ENOSYS))
    else
      match i
      case Lookup(ino, name) => CallLookup(ino, name)
      case Getattr(ino) => CallGetattr(ino, None)
      case Open(ino, flags) => CallOpen(ino, Signed(flags, 4))
      case Read(ino, fh, offset, size) => CallRead(ino, size, Signed(offset, 8), fh, 0, 0)
      case Readdir(ino, fh, offset, size) => CallReaddir(ino, size, Signed(offset, 8), fh)
  }

  /** The message's own bytes carry the request. */
  lemma MessageCarries(stale: seq<byte>, i: Input, unique: nat)
    requires |stale| == BUF_SIZE && !i.Unknown? && InRange(i) && unique < TWO_64
    ensures Carries(Message(stale, i, unique), i, unique)
  {
    hide Encode, Field, Range, Payload, FuseOpcode, InRange;
    PayloadFits(i);
    Opcodes(i);
    Widths();
    var s, h := Message(stale, i, unique), Header(i, unique);
    assert s[0..0 + HEADER] == h;
    assert h[0..4] == Encode(4, HEADER + |Payload(i)|);
    FieldInside(s, 0, h, 0, 4, HEADER + |Payload(i)|);
    assert h[4..8] == Encode(4, FuseOpcode(i));
    FieldInside(s, 0, h, 4, 4, FuseOpcode(i));
    assert h[8..16] == Encode(8, unique);
    FieldInside(s, 0, h, 8, 8, unique);
    assert h[16..24] == Encode(8, i.ino);
    FieldInside(s, 0, h, 16, 8, i.ino);
    assert h[24..28] == Encode(4, 0);
    FieldInside(s, 0, h, 24, 4, 0);
    assert h[28..32] == Encode(4, 0);
    FieldInside(s, 0, h, 28, 4, 0);
    assert h[32..36] == Encode(4, 1);
    FieldInside(s, 0, h, 32, 4, 1);
    assert s[HEADER..HEADER + |Payload(i)|] == Payload(i);
  }

  lemma Opcodes(i: Input)
    requires !i.Unknown?
    ensures FuseOpcode(i) < FUSE_MAXOP
  {
  }

  /** A buffer that carries the request, with nothing in the header's last word, is the message. */
  lemma CarriedIsMessage(stale: seq<byte>, s: seq<byte>, i: Input, unique: nat)
    requires |stale| == BUF_SIZE && !i.Unknown? && InRange(i) && Carries(s, i, unique) && s[36..40] == Zeros(4)
    requires s[HEADER + |Payload(i)|..] == stale[HEADER + |Payload(i)|..]
    ensures s == Message(stale, i, unique)
  {
    hide Encode, Field, Range, Payload, FuseOpcode, InRange, Zeros;
    FieldBytes(s, 0, 4);
    FieldBytes(s, 4, 4);
    FieldBytes(s, 8, 8);
    FieldBytes(s, 16, 8);
    FieldBytes(s, 24, 4);
    FieldBytes(s, 28, 4);
    FieldBytes(s, 32, 4);
    var m := HEADER + |Payload(i)|;
    assert s[..4] == s[0..4];
    Grow(s, 4, 8);
    Grow(s, 8, 16);
    Grow(s, 16, 24);
    Grow(s, 24, 28);
    Grow(s, 28, 32);
    Grow(s, 32, 36);
    Grow(s, 36, 40);
    assert s[..40] == Header(i, unique);
    Grow(s, 40, m);
    assert s == s[..m] + s[m..];
  }

  lemma Grow(s: seq<byte>, a: nat, b: nat)
    requires a <= b <= |s|
    ensures s[..b] == s[..a] + s[a..b]
  {
  }

  /** An offset reaches the handler as it is exactly below 2^63. */
  lemma OffsetKept(offset: nat)
    requires offset < TWO_64
    ensures Signed(offset, 8) == offset <==> offset < TWO_63
    ensures offset >= TWO_63 ==> Signed(offset, 8) == offset - TWO_64
  {
    Widths();
  }

  lemma {:induction false} CStringEnds(name: seq<byte>, rest: seq<byte>)
    requires 0 !in name
    ensures CString(name + [0] + rest) == name
  {
    var s := name + [0] + rest;
    if name != [] {
      assert s[1..] == name[1..] + [0] + rest;
      CStringEnds(name[1..], rest);
    }
  }

  lemma SliceOfSlice(s: seq<byte>, lo: nat, hi: nat, k: nat, n: nat)
    requires lo + k + n <= hi <= |s|
    ensures s[lo + k..lo + k + n] == s[lo..hi][k..k + n]
  {
    var a, b := s[lo + k..lo + k + n], s[lo..hi][k..k + n];
    assert |a| == |b|;
    forall j | 0 <= j < |a| ensures a[j] == b[j] {
      assert a[j] == s[lo + k + j];
      assert b[j] == s[lo..hi][k + j];
    }
  }

  /** An n-byte field inside a piece of the buffer. */
  lemma FieldInside(s: seq<byte>, at: nat, piece: seq<byte>, k: nat, n: nat, x: nat)
    requires at + |piece| <= |s| && s[at..at + |piece|] == piece
    requires k + n <= |piece| && piece[k..k + n] == Encode(n, x)
    ensures Field(s, at + k, n) == x % Range(n)
  {
    hide Encode, Field, Range;
    SliceOfSlice(s, at, at + |piece|, k, n);
    FieldOf(s, at + k, n, x);
  }

  lemma ReadInFields(s: seq<byte>, fh: nat, offset: nat, size: nat)
    requires |s| == BUF_SIZE && s[HEADER..HEADER + 40] == ReadIn(fh, offset, size)
    requires fh < TWO_64 && offset < TWO_64 && size < TWO_32
    ensures Field(s, 40, 8) == fh && Field(s, 48, 8) == offset && Field(s, 56, 4) == size
    ensures Field(s, 64, 8) == 0 && Field(s, 72, 4) == 0
  {
    hide Encode, Field, Range;
    var p := ReadIn(fh, offset, size);
    Widths();
    assert p[0..8] == Encode(8, fh);
    FieldInside(s, HEADER, p, 0, 8, fh);
    assert p[8..16] == Encode(8, offset);
    FieldInside(s, HEADER, p, 8, 8, offset);
    assert p[16..20] == Encode(4, size);
    FieldInside(s, HEADER, p, 16, 4, size);
    assert p[24..32] == Encode(8, 0);
    FieldInside(s, HEADER, p, 24, 8, 0);
    assert p[32..36] == Encode(4, 0);
    FieldInside(s, HEADER, p, 32, 4, 0);
  }

  lemma OpenInFields(s: seq<byte>, flags: nat)
    requires |s| == BUF_SIZE && flags < TWO_32 && s[HEADER..HEADER + 8] == Encode(4, flags) + Encode(4, 0)
    ensures Field(s, 40, 4) == flags
  {
    hide Encode, Field, Range;
    var p := Encode(4, flags) + Encode(4, 0);
    assert p[0..4] == Encode(4, flags);
    FieldInside(s, HEADER, p, 0, 4, flags);
    Widths();
  }

  lemma GetattrInFields(s: seq<byte>)
    requires |s| == BUF_SIZE && s[HEADER..HEADER + 16] == Encode(4, 0) + Encode(4, 0) + Encode(8, 0)
    ensures Field(s, 40, 4) == 0
  {
    hide Encode, Field, Range;
    var p := Encode(4, 0) + Encode(4, 0) + Encode(8, 0);
    assert p[0..4] == Encode(4, 0);
    FieldInside(s, HEADER, p, 0, 4, 0);
    Widths();
  }

  lemma SignedZero()
    ensures Signed(0, 4) == 0
  {
    Widths();
  }

  /** The size of a message in bytes, and the opcode of fuse_kernel.h in it. */
  function Size(i: Input): nat
    requires !i.Unknown?
  {
    match i
    case Lookup(_, name) => 40 + |name| + 1
    case Getattr(_) => 56
    case Open(_, _) => 48
    case Read(_, _, _, _) => 80
    case Readdir(_, _, _, _) => 80
  }

  /** The layout of fuse_kernel.h: a header of 40 bytes with length, opcode, unique number, node id,
      user 0, group 0 and process 1, then the payload of the opcode, then what was there before. */
  lemma WireFormat(stale: seq<byte>, i: Input, unique: nat)
    requires |stale| == BUF_SIZE && !i.Unknown? && InRange(i) && unique < TWO_64
    ensures var m := Message(stale, i, unique);
      && |m| == 8192 && Size(i) <= 8192 && m[Size(i)..] == stale[Size(i)..]
      && Field(m, 0, 4) == Size(i) && Field(m, 8, 8) == unique && Field(m, 16, 8) == i.ino
      && Field(m, 24, 4) == 0 && Field(m, 28, 4) == 0 && Field(m, 32, 4) == 1
      && match i
         case Lookup(_, name) => Field(m, 4, 4) == 1 && m[40..40 + |name|] == name && m[40 + |name|] == 0
         case Getattr(_) => Field(m, 4, 4) == 3 && Field(m, 40, 4) == 0
         case Open(_, flags) => Field(m, 4, 4) == 14 && Field(m, 40, 4) == flags
         case Read(_, fh, offset, size) =>
           Field(m, 4, 4) == 15 && Field(m, 40, 8) == fh && Field(m, 48, 8) == offset && Field(m, 56, 4) == size
         case Readdir(_, fh, offset, size) =>
           Field(m, 4, 4) == 28 && Field(m, 40, 8) == fh && Field(m, 48, 8) == offset && Field(m, 56, 4) == size
  {
    PayloadFits(i);
    MessageCarries(stale, i, unique);
    var m := Message(stale, i, unique);
    assert m[Size(i)..] == stale[Size(i)..];
    hide Field, Encode, ReadIn, Message;
    match i {
      case Lookup(_, name) =>
        SliceOfSlice(m, HEADER, HEADER + |name| + 1, 0, |name|);
        assert m[HEADER..HEADER + |name| + 1][|name|] == 0;
      case Getattr(_) => GetattrInFields(m);
      case Open(_, flags) => OpenInFields(m, flags);
      case Read(_, fh, offset, size) => ReadInFields(m, fh, offset, size);
      case Readdir(_, fh, offset, size) => ReadInFields(m, fh, offset, size);
    }
  }

  /** Whatever bytes lie behind the message, and whatever the permission settings of the session
      are, libfuse refuses nothing on its own account and the handler gets what the client
      meant. */
  lemma RoundTrip(se: Session, s: seq<byte>, i: Input, unique: nat)
    requires se.gotInit && !i.Unknown? && InRange(i) && Carries(s, i, unique)
    ensures Process(se, s) == Meant(se, i)
  {
    hide Field, Encode, Decode, Signed, CString, ReadIn;
    assert Signed(0, 4) == 0 by { SignedZero(); }
    match i
    case Lookup(_, name) =>
      var m := HEADER + |name| + 1;
      assert s[HEADER..] == s[HEADER..m] + s[m..];
      CStringEnds(name, s[m..]);
    case Getattr(_) => GetattrInFields(s);
    case Open(_, flags) => OpenInFields(s, flags);
    case Read(_, fh, offset, size) => ReadInFields(s, fh, offset, size);
    case Readdir(_, fh, offset, size) => ReadInFields(s, fh, offset, size);
  }

  /** The same, opcode by opcode: LOOKUP 1, GETATTR 3, OPEN 14, READ 15, READDIR 28.  An operation
      without a handler is answered with ENOSYS (38), or, for OPEN, by libfuse's default. */
  lemma HandlerGets(se: Session, s: seq<byte>, i: Input, unique: nat)
    requires se.gotInit && !i.Unknown? && InRange(i) && Carries(s, i, unique)
    ensures match i
      case Lookup(ino, name) => Process(se, s) == if 1 in se.handlers then CallLookup(ino, name) else Refused(38)
      case Getattr(ino) => Process(se, s) == if 3 in se.handlers then CallGetattr(ino, None) else Refused(38)
      case Open(ino, flags) =>
        if 14 in se.handlers then flags < TWO_31 ==> Process(se, s) == CallOpen(ino, flags)
        else Process(se, s) == if se.noOpenSupport then Refused(38) else OpenedByDefault
      case Read(ino, fh, offset, size) =>
        if 15 in se.handlers then offset < TWO_63 ==> Process(se, s) == CallRead(ino, size, offset, fh, 0, 0)
        else Process(se, s) == Refused(38)
      case Readdir(ino, fh, offset, size) =>
        if 28 in se.handlers then offset < TWO_63 ==> Process(se, s) == CallReaddir(ino, size, offset, fh)
        else Process(se, s) == Refused(38)
  {
    hide Process, Carries;
    RoundTrip(se, s, i, unique);
    Widths();
  }

  /** Opcodes that anyone may use in a session that denies others: READ 15, WRITE 16, RELEASE 18, FSYNC 20, INIT
      26, READDIR 28, RELEASEDIR 29, FSYNCDIR 30, NOTIFY_REPLY 41, READDIRPLUS 44. */
  predicate ForAnyone(opcode: nat) {
    opcode in {15, 16, 18, 20, 26, 28, 29, 30, 41, 44}
  }

  /** When libfuse refuses a message by itself: before INIT (26, or 4096 for CUSE) everything else and
      afterwards another INIT with EIO (5); in a session that denies others, a user that is neither
      the owner nor root with EACCES (13); a number that is no opcode with ENOSYS (38). */
  lemma ChecksRefuse(se: Session, s: seq<byte>)
    requires |s| == BUF_SIZE
    ensures var opcode, uid := Field(s, 4, 4), Field(s, 24, 4);
      var init := if se.gotInit then opcode == 26 || opcode == 4096 else opcode != if se.cuse then 4096 else 26;
      var stranger := se.denyOthers && uid != se.owner && uid != 0 && !ForAnyone(opcode);
      && (init ==> Process(se, s) == Refused(5))
      && (!init && stranger ==> Process(se, s) == Refused(13))
      && (!init && !stranger && opcode > 4096 ==> Process(se, s) == Refused(38))
      && (!init && !stranger && opcode <= 4096 && opcode !in {1, 3, 14, 15, 28, 36} ==> Process(se, s) == Elsewhere(opcode))
  {
    hide Field;
  }

  // ---------- the daemon's side ----------

  /** Storing a field changes that field and none that it does not touch. */
  lemma FieldStored(s: seq<byte>, at: nat, n: nat, x: nat)
    requires at + n <= |s|
    ensures Field(Splice(s, at, Encode(n, x)), at, n) == x % Range(n)
  {
    FieldOf(Splice(s, at, Encode(n, x)), at, n, x);
  }

  lemma FieldAway(s: seq<byte>, at: nat, t: seq<byte>, k: nat, n: nat)
    requires at + |t| <= |s| && k + n <= |s| && (k + n <= at || at + |t| <= k)
    ensures Field(Splice(s, at, t), k, n) == Field(s, k, n)
  {
    assert Splice(s, at, t)[k..k + n] == s[k..k + n];
  }

  /** The header fields other than the one at offset `at`. */
  ghost predicate OthersKept(s: seq<byte>, t: seq<byte>, at: nat) {
    && |s| == |t| && |s| >= HEADER
    && (forall k: nat, n: nat | k + n <= HEADER && Word(k, n) && k != at :: Field(t, k, n) == Field(s, k, n))
    && t[36..] == s[36..]
  }

  predicate Word(k: nat, n: nat) {
    || (n == 4 && (k == 0 || k == 4 || k == 24 || k == 28 || k == 32))
    || (n == 8 && (k == 8 || k == 16))
  }

  class Daemon {
    const buf: array<byte>

    ghost predicate Valid() {
      buf.Length == BUF_SIZE
    }

    /** A buffer from the allocator: nothing is known about its bytes. */
    constructor (b: array<byte>)
      requires b.Length == BUF_SIZE
      ensures Valid() && buf == b
    {
      buf := b;
    }

    method StoreWord(at: nat, n: nat, x: nat)
      requires Valid() && Word(at, n) && x < Range(n)
      modifies buf
      ensures Field(buf[..], at, n) == x && OthersKept(old(buf[..]), buf[..], at)
    {
      hide Field, Range, Encode, Splice;
      ghost var was := buf[..];
      Store(buf, at, n, x);
      FieldStored(was, at, n, x);
      Small(x, Range(n));
      forall k: nat, m: nat | k + m <= HEADER && Word(k, m) && k != at
        ensures Field(buf[..], k, m) == Field(was, k, m)
      {
        FieldAway(was, at, Encode(n, x), k, m);
      }
      TailKept(was, at, Encode(n, x));
    }

    /** memset of the header. */
    method Clear()
      requires Valid()
      modifies buf
      ensures buf[HEADER..] == old(buf[HEADER..]) && buf[36..40] == Zeros(4)
    {
      ghost var was := buf[..];
      CopyIn(buf, 0, Zeros(HEADER));
      assert buf[HEADER..] == buf[..][HEADER..] == was[HEADER..];
      assert buf[36..40] == buf[..][36..40] == Zeros(HEADER)[36..40];
    }

    /** The fill functions: the node id, then the payload at in->len, which grows by it. */
    method Fill(i: Input)
      requires Valid() && !i.Unknown? && InRange(i) && Field(buf[..], 0, 4) == HEADER
      modifies buf
      ensures HEADER + |Payload(i)| <= BUF_SIZE
      ensures Field(buf[..], 16, 8) == i.ino && Field(buf[..], 0, 4) == HEADER + |Payload(i)|
      ensures buf[HEADER..HEADER + |Payload(i)|] == Payload(i)
      ensures buf[HEADER + |Payload(i)|..] == old(buf[HEADER + |Payload(i)|..])
      ensures buf[36..40] == old(buf[36..40])
      ensures forall k: nat, n: nat | k + n <= HEADER && Word(k, n) && k != 0 && k != 16 ::
        Field(buf[..], k, n) == old(Field(buf[..], k, n))
    {
      hide Field, Splice, ReadIn;
      PayloadFits(i);
      Widths();
      ghost var was := buf[..];
      StoreWord(16, 8, i.ino);
      var at := Field(buf[..], 0, 4);
      var payload := Payload(i);
      ghost var mid := buf[..];
      CopyIn(buf, at, payload);
      ghost var filled := buf[..];
      PayloadStored(mid, payload);
      StoreWord(0, 4, at + |payload|);
      Tails(was, mid, filled, buf[..]);
      assert buf[36..40] == buf[..][36..40];
      assert buf[HEADER..] == buf[..][HEADER..] == filled[HEADER..];
      assert buf[HEADER..HEADER + |payload|] == buf[HEADER..][..|payload|] == filled[HEADER..][..|payload|];
      assert buf[HEADER + |payload|..] == buf[HEADER..][|payload|..] == was[HEADER..][|payload|..];
    }

    /** One round of the daemon's loop for a request it has popped: the message is built over
        whatever the last one left, and libfuse is called on it.  An opcode outside the table is
        not sent on; its client is told ENOSYS. */
    method Step(se: Session, i: Input, unique: nat) returns (r: Option<Dispatched>)
      requires Valid() && InRange(i) && unique < TWO_64 && se.gotInit
      modifies buf
      ensures r == if i.Unknown? then None else Some(Meant(se, i))
      ensures !i.Unknown? ==> buf[..] == Message(old(buf[..]), i, unique) && Carries(buf[..], i, unique)
    {
      hide Field, Encode, Range, Payload, InRange, Process, Meant, Message, Zeros;
      Widths();
      ghost var was := buf[..];
      Clear();
      StoreWord(8, 8, unique);
      StoreWord(24, 4, 0);
      StoreWord(28, 4, 0);
      StoreWord(32, 4, 1);
      StoreWord(0, 4, HEADER);
      var k := 0;
      while k < |TABLE| && TABLE[k].0 != DriverOpcode(i)
        invariant k <= |TABLE|
        invariant forall j | 0 <= j < k :: TABLE[j].0 != DriverOpcode(i)
      {
        k := k + 1;
      }
      InTable(i, k);
      if k == |TABLE| { return None; }
      StoreWord(4, 4, TABLE[k].1);
      ghost var headed := buf[..];
      assert headed[HEADER..] == was[HEADER..] && headed[36..40] == Zeros(4);
      Fill(i);
      FinalTail(was, headed, buf[..], HEADER + |Payload(i)|);
      CarriedIsMessage(was, buf[..], i, unique);
      RoundTrip(se, buf[..], i, unique);
      r := Some(Process(se, buf[..]));
    }
  }

  lemma Small(x: nat, m: nat)
    requires x < m
    ensures x % m == x
  {
  }

  lemma TailKept(s: seq<byte>, at: nat, t: seq<byte>)
    requires at + |t| <= 36 <= |s|
    ensures Splice(s, at, t)[36..] == s[36..]
  {
  }

  lemma Tails(a: seq<byte>, b: seq<byte>, c: seq<byte>, d: seq<byte>)
    requires |a| == |b| == |c| == |d| == BUF_SIZE && a[36..] == b[36..] && b[36..40] == c[36..40] && c[36..] == d[36..]
    ensures d[36..40] == a[36..40] && b[HEADER..] == a[HEADER..] && d[HEADER..] == c[HEADER..]
  {
    Behind(a, 36, 4);
    Behind(b, 36, 4);
    Behind(c, 36, 4);
    Behind(d, 36, 4);
  }

  lemma Behind(s: seq<byte>, at: nat, n: nat)
    requires at + n <= |s|
    ensures s[at..][..n] == s[at..at + n] && s[at..][n..] == s[at + n..]
  {
  }

  lemma FinalTail(was: seq<byte>, headed: seq<byte>, s: seq<byte>, m: nat)
    requires |was| == |headed| == |s| == BUF_SIZE && HEADER <= m <= BUF_SIZE
    requires headed[HEADER..] == was[HEADER..] && s[m..] == headed[m..]
    ensures s[m..] == was[m..]
  {
    Behind(was, HEADER, m - HEADER);
    Behind(headed, HEADER, m - HEADER);
  }

  lemma PayloadStored(s: seq<byte>, payload: seq<byte>)
    requires |s| == BUF_SIZE && HEADER + |payload| <= BUF_SIZE
    ensures var t := Splice(s, HEADER, payload);
      && t[HEADER..] == payload + s[HEADER + |payload|..] && t[36..40] == s[36..40]
      && forall k: nat, n: nat | k + n <= HEADER :: Field(t, k, n) == Field(s, k, n)
  {
    var t := Splice(s, HEADER, payload);
    forall k: nat, n: nat | k + n <= HEADER ensures Field(t, k, n) == Field(s, k, n) {
      FieldAway(s, HEADER, payload, k, n);
    }
  }

  /** The search ends at the row of the request's own opcode. */
  lemma InTable(i: Input, k: nat)
    requires k <= |TABLE| && InRange(i)
    requires forall j | 0 <= j < k :: TABLE[j].0 != DriverOpcode(i)
    requires k < |TABLE| ==> TABLE[k].0 == DriverOpcode(i)
    ensures k == |TABLE| <==> i.Unknown?
    ensures k < |TABLE| ==> !i.Unknown? && TABLE[k].1 == FuseOpcode(i)
  {
    assert TABLE[0].0 == 1 && TABLE[1].0 == 2 && TABLE[2].0 == 3 && TABLE[3].0 == 4 && TABLE[4].0 == 5;
  }
}

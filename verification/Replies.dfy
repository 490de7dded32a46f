/** The reply functions of libs/libfuse/lib/fuse_lowlevel.c, which write the fields of a client's
    request and up its `done` semaphore, and what the client makes of these fields
    (libs/ukfusefs/ukfs-fuse.c).  Each is shown to deliver what module Protocol says of it. */
module Replies {
  import opened Bytes
  import opened Wrappers
  import P = Protocol

  /** What a handler of OPEN hands to fuse_reply_open. */
  datatype FileInfo = FileInfo(fh: nat, backingId: int, directIo: bool, keepCache: bool, cacheReaddir: bool,
                               nonseekable: bool, noflush: bool, parallelDirectWrites: bool)

  /** A handler that sets nothing but the handle. */
  function Plain(fh: nat): FileInfo {
    FileInfo(fh, 0, false, false, false, false, false, false)
  }

  function Bit(b: bool, value: nat): (r: nat)
    ensures r == 0 || r == value
  {
    if b then value else 0
  }

  /** The FOPEN_ flags: direct I/O, keep cache, non-seekable, cache directory, no flush, parallel
      direct writes, passthrough. */
  function OpenFlags(f: FileInfo): nat {
    Bit(f.directIo, 1) + Bit(f.keepCache, 2) + Bit(f.nonseekable, 4) + Bit(f.cacheReaddir, 8)
    + Bit(f.noflush, 32) + Bit(f.parallelDirectWrites, 64) + Bit(f.backingId > 0, 128)
  }

  /** Each flag is a bit of its own, and set exactly if its field is. */
  lemma FlagBits(f: FileInfo)
    ensures var w := OpenFlags(f);
      && w < 256
      && (w % 2 == 1 <==> f.directIo)
      && (w / 2 % 2 == 1 <==> f.keepCache)
      && (w / 4 % 2 == 1 <==> f.nonseekable)
      && (w / 8 % 2 == 1 <==> f.cacheReaddir)
      && w / 16 % 2 == 0
      && (w / 32 % 2 == 1 <==> f.noflush)
      && (w / 64 % 2 == 1 <==> f.parallelDirectWrites)
      && (w / 128 % 2 == 1 <==> f.backingId > 0)
  {
    Digits(Bit(f.directIo, 1), Bit(f.keepCache, 1), Bit(f.nonseekable, 1), Bit(f.cacheReaddir, 1),
           Bit(f.noflush, 1), Bit(f.parallelDirectWrites, 1), Bit(f.backingId > 0, 1));
    FlagSum(f);
    hide OpenFlags;
  }

  lemma FlagSum(f: FileInfo)
    ensures OpenFlags(f)
            == Bit(f.directIo, 1) + 2 * Bit(f.keepCache, 1) + 4 * Bit(f.nonseekable, 1) + 8 * Bit(f.cacheReaddir, 1)
               + 32 * Bit(f.noflush, 1) + 64 * Bit(f.parallelDirectWrites, 1) + 128 * Bit(f.backingId > 0, 1)
  {
  }

  lemma Digits(a: nat, b: nat, c: nat, d: nat, e: nat, g: nat, h: nat)
    requires a < 2 && b < 2 && c < 2 && d < 2 && e < 2 && g < 2 && h < 2
    ensures var w := a + 2 * b + 4 * c + 8 * d + 32 * e + 64 * g + 128 * h;
      && w < 256 && w % 2 == a && w / 2 % 2 == b && w / 4 % 2 == c && w / 8 % 2 == d && w / 16 % 2 == 0
      && w / 32 % 2 == e && w / 64 % 2 == g && w / 128 % 2 == h
  {
    var w := a + 2 * b + 4 * c + 8 * d + 32 * e + 64 * g + 128 * h;
    assert w / 2 == b + 2 * c + 4 * d + 16 * e + 32 * g + 64 * h;
    assert w / 4 == c + 2 * d + 8 * e + 16 * g + 32 * h;
    assert w / 8 == d + 4 * e + 8 * g + 16 * h;
    assert w / 16 == 2 * e + 4 * g + 8 * h;
    assert w / 32 == e + 2 * g + 4 * h;
    assert w / 64 == g + 2 * h;
  }

  /** struct fuse_open_out: bytes 0 to 7 are the handle, 8 to 11 the flags, 12 to 15 the backing file
      if there is one. */
  lemma OpenOutFields(f: FileInfo)
    requires f.fh < TWO_64 && f.backingId < TWO_31
    ensures Field(OpenOut(f), 0, 8) == f.fh && Field(OpenOut(f), 8, 4) == OpenFlags(f)
    ensures Field(OpenOut(f), 12, 4) == if f.backingId > 0 then f.backingId else 0
  {
    hide Encode, Field, Range, OpenFlags;
    var r := OpenOut(f);
    Widths();
    FlagBits(f);
    assert r[0..8] == Encode(8, f.fh);
    FieldOf(r, 0, 8, f.fh);
    assert r[8..12] == Encode(4, OpenFlags(f));
    FieldOf(r, 8, 4, OpenFlags(f));
    var backing := if f.backingId > 0 then f.backingId else 0;
    assert r[12..16] == Encode(4, backing);
    FieldOf(r, 12, 4, backing);
  }

  /** struct fuse_open_out as fill_open leaves it: the handle, the flags, the backing file. */
  function OpenOut(f: FileInfo): (r: seq<byte>)
    ensures |r| == 16
  {
    Encode(8, f.fh) + Encode(4, OpenFlags(f)) + Encode(4, if f.backingId > 0 then f.backingId else 0)
  }

  /** struct fuse_ukfs_request, as far as replies go. */
  class UkfsRequest {
    var error: int
    var replyData: array?<byte>
    var replyLen: nat
    var done: nat

    /** memset to zero, semaphore at zero. */
    constructor ()
      ensures error == 0 && replyData == null && replyLen == 0 && done == 0
    {
      error, replyData, replyLen, done := 0, null, 0, 0;
    }

    /** Whoever reads the reply finds replyLen bytes in the buffer, if there is one. */
    ghost predicate Sound()
      reads this, replyData
    {
      error == 0 && replyData != null ==> replyData.Length == replyLen
    }

    /** What the client learns: with an error set it does not look at the buffer. */
    ghost function Outcome(): P.Outcome
      reads this, replyData
    {
      P.Outcome(error, if error == 0 && replyData != null then Some(replyData[..]) else None)
    }

    /** fuse_reply_err; an error reply carries no buffer. */
    method ReplyErr(err: int)
      modifies this
      ensures Sound() && done == old(done) + 1
      ensures error == -err && replyData == null
      ensures forall ok :: Outcome() == P.Deliver(P.Fail(err), ok)
    {
      error := -err;
      replyData := null;
      replyLen := 0;
      done := done + 1;
    }

    /** fuse_reply_attr, and fuse_reply_entry behind its check: a copy of a structure.  When there
        is no memory the length stays set, but the error keeps the client from using it. */
    method ReplyStruct(bytes: seq<byte>, memOk: bool)
      requires bytes != []
      modifies this
      ensures Sound() && done == old(done) + 1
      ensures if memOk then error == 0 && replyData != null && fresh(replyData) && replyData[..] == bytes
              else error == -ENOMEM && replyData == null
      ensures Outcome() == P.Deliver(P.Data(bytes), memOk)
    {
      error := 0;
      replyLen := |bytes|;
      replyData := Malloc(replyLen, memOk);
      if replyData != null {
        CopyIn(replyData, 0, bytes);
        assert replyData[..] == bytes;
      } else {
        error := -ENOMEM;
      }
      done := done + 1;
    }

    /** fuse_reply_entry: a negative entry cannot be sent over an old protocol. */
    method ReplyEntry(ino: nat, bytes: seq<byte>, protoMinor: nat, memOk: bool)
      requires bytes != []
      modifies this
      ensures Sound() && done == old(done) + 1
      ensures if ino == 0 && protoMinor < 4 then error == -2 && replyData == null
              else if memOk then error == 0 && replyData != null && fresh(replyData) && replyData[..] == bytes
              else error == -ENOMEM && replyData == null
      ensures Outcome()
              == P.Deliver(if ino == 0 && protoMinor < 4 then P.Fail(ENOENT) else P.Data(bytes), memOk)
    {
      if ino == 0 && protoMinor < 4 {
        ReplyErr(ENOENT);
      } else {
        ReplyStruct(bytes, memOk);
      }
    }

    /** fuse_reply_open: sixteen bytes, cleared first, then filled in by fill_open. */
    method ReplyOpen(f: FileInfo, memOk: bool)
      modifies this
      ensures Sound() && done == old(done) + 1
      ensures if memOk then error == 0 && replyData != null && fresh(replyData) && replyData[..] == OpenOut(f)
              else error == -ENOMEM && replyData == null
      ensures Outcome() == P.Deliver(P.Data(OpenOut(f)), memOk)
    {
      var out := Malloc(16, memOk);
      if out != null {
        FillOpen(out, f);
        error, replyData, replyLen := 0, out, 16;
      } else {
        error, replyData, replyLen := -ENOMEM, null, 0;
      }
      done := done + 1;
    }

    /** fuse_reply_buf: any number of bytes, none at all included.  For none, a failed allocation
        is no error. */
    method ReplyBuf(buf: array?<byte>, size: nat, memOk: bool)
      requires if buf == null then size == 0 else size <= buf.Length
      modifies this
      ensures Sound() && done == old(done) + 1
      ensures if memOk then error == 0 && replyData != null && fresh(replyData)
                            && replyData[..] == if buf == null then [] else buf[..size]
              else replyData == null && error == if size == 0 then 0 else -ENOMEM
      ensures Outcome() == P.Deliver(P.Data(if buf == null then [] else buf[..size]), memOk)
    {
      error := 0;
      replyLen := size;
      replyData := Malloc(size, memOk);
      if replyData != null && size > 0 && buf != null {
        CopyIn(replyData, 0, buf[..size]);
        assert replyData[..] == buf[..size];
      } else if replyData == null && size > 0 {
        error := -ENOMEM;
      }
      done := done + 1;
    }
  }

  /** The allocator: fresh memory with unknown contents, or none. */
  method Malloc(size: nat, memOk: bool) returns (a: array?<byte>)
    ensures memOk <==> a != null
    ensures a != null ==> fresh(a) && a.Length == size
  {
    if memOk { a := new byte[size]; } else { a := null; }
  }

  /** The flags of fill_open, each added where its field is set. */
  method CollectFlags(f: FileInfo) returns (flags: nat)
    ensures flags == OpenFlags(f)
  {
    flags := 0;
    if f.backingId > 0 { flags := flags + 128; }
    if f.directIo { flags := flags + 1; }
    if f.keepCache { flags := flags + 2; }
    if f.cacheReaddir { flags := flags + 8; }
    if f.nonseekable { flags := flags + 4; }
    if f.noflush { flags := flags + 32; }
    if f.parallelDirectWrites { flags := flags + 64; }
  }

  /** memset, then fill_open. */
  method FillOpen(out: array<byte>, f: FileInfo)
    requires out.Length == 16
    modifies out
    ensures out[..] == OpenOut(f)
  {
    hide Encode, OpenFlags, OpenOut, Splice;
    AllZero(out[..]);
    CopyIn(out, 0, Zeros(16));
    Store(out, 0, 8, f.fh);
    if f.backingId > 0 { Store(out, 12, 4, f.backingId); }
    ghost var last := out[..];
    var flags := CollectFlags(f);
    Store(out, 8, 4, flags);
    ThreeWords(last, f);
  }

  lemma AllZero(s: seq<byte>)
    requires |s| == 16
    ensures Splice(s, 0, Zeros(16)) == Zeros(16)
  {
  }

  lemma ThreeWords(s: seq<byte>, f: FileInfo)
    requires var handle := Splice(Zeros(16), 0, Encode(8, f.fh));
      s == if f.backingId > 0 then Splice(handle, 12, Encode(4, f.backingId)) else handle
    ensures |s| == 16 && Splice(s, 8, Encode(4, OpenFlags(f))) == OpenOut(f)
  {
    hide Encode;
    ZeroBytes(4);
    assert s[..8] == Encode(8, f.fh);
    assert s[12..] == Encode(4, if f.backingId > 0 then f.backingId else 0);
  }

  lemma {:induction false} ZeroBytes(n: nat)
    ensures Encode(n, 0) == Zeros(n)
  {
    if n != 0 { ZeroBytes(n - 1); }
  }
}

/** libs/libfuse/lib/buffer.c on a machine with flat memory and files whose reads and writes may
    be short, reach the end, or fail at any point. */
module BufferCopy {
  import opened Wrappers
  import opened BufferModel

  const SIZE_MAX := 0xFFFF_FFFF_FFFF_FFFF
  const BOUNCE := 4096

  const MAX_ERRNO := 4095

  type Errno = e: int | 1 <= e <= MAX_ERRNO witness 1

  /** What the next read or write does: at most k bytes, or failure. */
  datatype Io = Count(k: nat) | Error(errno: Errno)

  predicate Fits(b: FuseBuf, size: nat) {
    !b.isFd ==> b.mem + b.size <= size
  }

  function Copied(res: int): nat {
    if res < 0 then 0 else res
  }

  /** Bytes between the place where this buffer reads and the end of the file. */
  function Left(f: File, src: FuseBuf, off: nat): nat {
    var p := StartPos(f, src, off);
    if p < |f.data| then |f.data| - p else 0
  }

  function LeftIn(files: map<nat, File>, src: FuseBuf, off: nat): nat {
    if src.fd in files then Left(files[src.fd], src, off) else 0
  }

  /** What the first of these outcomes moves, of len bytes wanted and `avail` there. */
  function FirstCount(script: seq<Io>, len: nat, avail: nat): (n: nat)
    ensures n <= len && n <= avail
  {
    if script == [] then Min(len, avail)
    else match script[0]
      case Error(_) => 0
      case Count(k) => Min(Min(k, len), avail)
  }

  /** What a read or a write moves in all: with FUSE_BUF_FD_RETRY it goes on until everything is
      moved or a system call fails or moves nothing; without, it makes one system call. */
  function Given(script: seq<Io>, len: nat, avail: nat, retry: bool): (n: nat)
    ensures n <= len && n <= avail
    decreases len
  {
    var n := FirstCount(script, len, avail);
    if n == 0 || !retry then n
    else n + Given(if script == [] then [] else script[1..], len - n, avail - n, retry)
  }

  /** Counts may be short, but no system call fails or moves nothing. */
  ghost predicate Smooth(script: seq<Io>) {
    forall j | 0 <= j < |script| :: script[j].Count? && script[j].k > 0
  }

  lemma SmoothOn(script: seq<Io>)
    requires Smooth(script)
    ensures Smooth(if script == [] then [] else script[1..])
  {
  }

  /** Short counts do not matter with FUSE_BUF_FD_RETRY, as long as no system call fails or moves
      nothing. */
  lemma {:induction false} RetryMovesAll(script: seq<Io>, len: nat, avail: nat)
    requires Smooth(script)
    ensures Given(script, len, avail, true) == Min(len, avail)
    decreases len
  {
    var n := FirstCount(script, len, avail);
    if n > 0 {
      SmoothOn(script);
      RetryMovesAll(if script == [] then [] else script[1..], len - n, avail - n);
    }
  }

  /** Without it, a short count is the result. */
  lemma OneCallWithoutRetry(script: seq<Io>, len: nat, avail: nat, k: nat)
    requires script != [] && script[0] == Count(k)
    ensures Given(script, len, avail, false) == Min(Min(k, len), avail)
  {
  }

  /** One system call was made, with the next outcome of the script. */
  ghost predicate Called(script: seq<Io>, script': seq<Io>, res: int, len: nat, avail: nat) {
    && script' == (if script == [] then [] else script[1..])
    && Copied(res) == FirstCount(script, len, avail)
    && (res < 0 <==> script != [] && script[0].Error?)
    && (res < 0 ==> res + script[0].errno == 0)
  }

  lemma GivenStep(script: seq<Io>, len: nat, avail: nat, retry: bool)
    ensures var n := FirstCount(script, len, avail);
      Given(script, len, avail, retry)
      == if n == 0 || !retry then n else n + Given(if script == [] then [] else script[1..], len - n, avail - n, retry)
  {
  }

  /** What is left of a file after a read. */
  lemma LeftAfter(files: map<nat, File>, files': map<nat, File>, mem: seq<byte>, mem': seq<byte>,
                  src: FuseBuf, off: nat, addr: nat, got: seq<byte>)
    requires HasRead(files, files', mem, mem', src, off, addr, got)
    ensures src.fd in files <==> src.fd in files'
    ensures src.fd in files ==>
      |got| <= Left(files[src.fd], src, off) && Left(files'[src.fd], src, off + |got|) == Left(files[src.fd], src, off) - |got|
  {
  }

  /** What a write through a descriptor leaves: with FUSE_BUF_FD_SEEK the bytes stand at the buffer's
      position and the cursor stays, without it they stand at the cursor, which moves behind them; a
      gap is filled with zeros, and the rest of the file, and every other file, is as it was. */
  lemma WriteMeans(files: map<nat, File>, dst: FuseBuf, off: nat, b: seq<byte>)
    requires b != [] && dst.fd in files
    ensures var files' := FilesAfterWrite(files, dst, off, b);
      && dst.fd in files' && files'.Keys == files.Keys && (forall fd :: fd in files && fd != dst.fd ==> files'[fd] == files[fd])
      && var f, g := files[dst.fd], files'[dst.fd];
         var p := if dst.seek then dst.pos + off else f.cursor;
         && |g.data| == (if p + |b| < |f.data| then |f.data| else p + |b|)
         && (forall k | 0 <= k < |b| :: g.data[p + k] == b[k])
         && (forall k | 0 <= k < |g.data| && (k < p || k >= p + |b|) :: g.data[k] == if k < |f.data| then f.data[k] else 0)
         && g.cursor == if dst.seek then f.cursor else f.cursor + |b|
  {
    var f := files[dst.fd];
    WriteBlockContents(f.data, StartPos(f, dst, off), b);
  }

  /** What a read through a descriptor gives: with FUSE_BUF_FD_SEEK the bytes from the buffer's position
      on, and the cursor stays; without it those from the cursor on, which moves behind them. */
  lemma ReadMeans(files: map<nat, File>, files': map<nat, File>, mem: seq<byte>, mem': seq<byte>,
                  src: FuseBuf, off: nat, addr: nat, got: seq<byte>)
    requires HasRead(files, files', mem, mem', src, off, addr, got)
    ensures got == [] ==> files' == files && mem' == mem
    ensures got != [] ==>
      && src.fd in files && src.fd in files' && files'.Keys == files.Keys
      && (forall fd :: fd in files && fd != src.fd ==> files'[fd] == files[fd])
      && var f, g := files[src.fd], files'[src.fd];
         var p := if src.seek then src.pos + off else f.cursor;
         && p + |got| <= |f.data| && got == f.data[p..p + |got|] && g.data == f.data
         && g.cursor == if src.seek then f.cursor else f.cursor + |got|
    ensures |mem'| == |mem| && addr + |got| <= |mem| && mem'[addr..addr + |got|] == got
    ensures forall a | 0 <= a < |mem| && (a < addr || a >= addr + |got|) :: mem'[a] == mem[a]
  {
  }

  /** No file is gone, and only the one with descriptor fd, if any, has other contents. */
  ghost predicate ContentsKept(files: map<nat, File>, files': map<nat, File>, fd: Option<nat>) {
    forall x :: x in files ==> x in files' && (fd != Some(x) ==> files'[x].data == files[x].data)
  }

  /** Reading with FUSE_BUF_FD_RETRY is not held up. */
  lemma ReadsAll(files: map<nat, File>, src: FuseBuf, off: nat, script: seq<Io>, len: nat)
    requires Smooth(script) && src.fd in files
    ensures Given(script, len, Left(files[src.fd], src, off), true) == Min(len, Left(files[src.fd], src, off))
  {
    RetryMovesAll(script, len, Left(files[src.fd], src, off));
  }

  lemma LeftKept(files: map<nat, File>, files': map<nat, File>, dst: FuseBuf, off: nat, b: seq<byte>, src: FuseBuf, so: nat)
    requires src.fd in files && src.fd != dst.fd && (b != [] ==> dst.fd in files) && files' == FilesAfterWrite(files, dst, off, b)
    ensures src.fd in files' && Left(files'[src.fd], src, so) == Left(files[src.fd], src, so)
  {
  }

  lemma WriteKeeps(files: map<nat, File>, dst: FuseBuf, off: nat, b: seq<byte>)
    requires b != [] ==> dst.fd in files
    ensures ContentsKept(files, FilesAfterWrite(files, dst, off, b), Some(dst.fd))
    ensures FilesAfterWrite(files, dst, off, b).Keys == files.Keys
  {
  }

  lemma ReadKeeps(files: map<nat, File>, files': map<nat, File>, mem: seq<byte>, mem': seq<byte>,
                  src: FuseBuf, off: nat, addr: nat, got: seq<byte>)
    requires HasRead(files, files', mem, mem', src, off, addr, got)
    ensures ContentsKept(files, files', None) && files'.Keys == files.Keys
  {
  }

  lemma ReadIsTaken(files: map<nat, File>, files': map<nat, File>, mem: seq<byte>, mem': seq<byte>,
                    src: FuseBuf, off: nat, addr: nat, got: seq<byte>)
    requires HasRead(files, files', mem, mem', src, off, addr, got)
    ensures HasTaken(files, files', src, off, got)
  {
  }

  lemma KeptBoth(a: map<nat, File>, b: map<nat, File>, c: map<nat, File>, fd: nat)
    requires (ContentsKept(a, b, None) || ContentsKept(a, b, Some(fd))) && ContentsKept(b, c, Some(fd))
    ensures ContentsKept(a, c, Some(fd))
  {
  }

  /** Nothing holds up a relay between these descriptors. */
  ghost predicate Relays(files: map<nat, File>, script: seq<Io>, src: FuseBuf, dst: FuseBuf) {
    Smooth(script) && src.retry && dst.retry && src.fd != dst.fd && src.fd in files && dst.fd in files
  }

  lemma RelayReads(files: map<nat, File>, files': map<nat, File>, mem: seq<byte>, mem': seq<byte>,
                   script: seq<Io>, script': seq<Io>, src: FuseBuf, so: nat, dst: FuseBuf, len: nat, r: int, got: seq<byte>)
    requires Relays(files, script, src, dst) && HasRead(files, files', mem, mem', src, so, 0, got) && |got| == Copied(r)
    requires src.fd in files ==> Copied(r) == Given(script, len, LeftIn(files, src, so), src.retry)
    requires Smooth(script) ==> Smooth(script')
    requires r < 0 && src.fd in files ==> script != [] && script[0].Error?
    ensures Relays(files', script', src, dst) && r == Min(len, LeftIn(files, src, so))
    ensures LeftIn(files', src, so + r) == LeftIn(files, src, so) - r
  {
    hide Given, Left, HasRead;
    ReadsAll(files, src, so, script, len);
    ReadKeeps(files, files', mem, mem', src, so, 0, got);
    LeftAfter(files, files', mem, mem', src, so, 0, got);
  }

  lemma RelayWrites(files: map<nat, File>, files': map<nat, File>, script: seq<Io>, script': seq<Io>,
                    src: FuseBuf, so: nat, dst: FuseBuf, do_: nat, b: seq<byte>, r: nat, w: int)
    requires Relays(files, script, src, dst) && files' == FilesAfterWrite(files, dst, do_, b)
    requires dst.fd in files ==> Copied(w) == Given(script, r, r, dst.retry)
    requires Smooth(script) ==> Smooth(script')
    requires w < 0 && dst.fd in files ==> script != [] && script[0].Error?
    ensures Relays(files', script', src, dst) && w == r
    ensures LeftIn(files', src, so) == LeftIn(files, src, so)
  {
    hide Given, Left;
    RetryMovesAll(script, r, r);
    LeftKept(files, files', dst, do_, b, src, so);
    WriteKeeps(files, dst, do_, b);
  }

  class Machine {
    const memory: array<byte>
    var files: map<nat, File>
    var script: seq<Io>

    constructor (size: nat, files: map<nat, File>, script: seq<Io>)
      ensures memory.Length == size && this.files == files && this.script == script && fresh(memory)
    {
      memory := new byte[size](_ => 0);
      this.files, this.script := files, script;
    }

    ghost function St(): Store
      reads this, memory
    {
      Store(memory[..], files)
    }

    /** The outcome of the next system call; a full transfer once the script has run out. */
    method NextIo(len: nat) returns (io: Io)
      modifies this`script
      ensures io == if old(script) == [] then Count(len) else old(script)[0]
      ensures script == if old(script) == [] then [] else old(script)[1..]
    {
      io := Count(len);
      if script != [] {
        io := script[0];
        script := script[1..];
      }
    }

    /** read, or pread when src seeks; a negative result is the negated errno. */
    method SysRead(src: FuseBuf, off: nat, mem: array<byte>, addr: nat, len: nat) returns (res: int, ghost got: seq<byte>)
      requires addr + len <= mem.Length
      modifies this`files, this`script, mem
      ensures -MAX_ERRNO <= res <= len && |got| == Copied(res)
      ensures HasRead(old(files), files, old(mem[..]), mem[..], src, off, addr, got)
      ensures src.fd in old(files) ==> Called(old(script), script, res, len, Left(old(files)[src.fd], src, off))
      ensures src.fd !in old(files) ==> res == -EBADF && script == old(script)
    {
      got := [];
      if src.fd !in files { return -EBADF, []; }
      var io := NextIo(len);
      if io.Error? { return 0 - io.errno, []; }
      var f := files[src.fd];
      var p := StartPos(f, src, off);
      var n := if p >= |f.data| then 0 else Min(Min(io.k, len), |f.data| - p);
      if n == 0 { return 0, []; }
      forall k | 0 <= k < n { mem[addr + k] := f.data[p + k]; }
      files := FilesAfterRead(files, src, n);
      assert mem[..] == Splice(old(mem[..]), addr, f.data[p..p+n]);
      return n, f.data[p..p+n];
    }

    /** write, or pwrite when dst seeks. */
    method SysWrite(dst: FuseBuf, off: nat, mem: array<byte>, addr: nat, len: nat) returns (res: int)
      requires addr + len <= mem.Length
      modifies this`files, this`script
      ensures -MAX_ERRNO <= res <= len
      ensures Copied(res) > 0 ==> dst.fd in old(files)
      ensures files == FilesAfterWrite(old(files), dst, off, mem[addr..addr+Copied(res)])
      ensures dst.fd in old(files) ==> Called(old(script), script, res, len, len)
      ensures dst.fd !in old(files) ==> res == -EBADF && script == old(script)
    {
      if dst.fd !in files { return -EBADF; }
      var io := NextIo(len);
      if io.Error? { return 0 - io.errno; }
      var n := Min(io.k, len);
      files := FilesAfterWrite(files, dst, off, mem[addr..addr+n]);
      return n;
    }

    /** fuse_buf_write: from `addr` of `mem` to the descriptor of dst. */
    method BufWrite(dst: FuseBuf, dstOff: nat, mem: array<byte>, addr: nat, len: nat) returns (res: int)
      requires dst.isFd && addr + len <= mem.Length
      modifies this`files, this`script
      ensures -MAX_ERRNO <= res <= len
      ensures Copied(res) > 0 ==> dst.fd in old(files)
      ensures files == FilesAfterWrite(old(files), dst, dstOff, mem[addr..addr+Copied(res)])
      ensures dst.fd in old(files) ==> Copied(res) == Given(old(script), len, len, dst.retry)
      ensures res < 0 ==> len > 0 && if dst.fd in old(files) then old(script) != [] && old(script)[0] == Error(-res) else res == -EBADF
      ensures ContentsKept(old(files), files, Some(dst.fd)) && (Smooth(old(script)) ==> Smooth(script))
    {
      hide Given, ContentsKept, Smooth, FilesAfterWrite, FirstCount;
      WriteKeeps(files, dst, dstOff, []);
      WroteNothing(files, dst, dstOff, addr, mem[..]);
      var copied: nat := 0;
      var dstOff', addr', len' := dstOff, addr, len;
      while len' > 0
        invariant 0 <= copied <= len && copied + len' == len && addr' == addr + copied && dstOff' == dstOff + copied
        invariant copied > 0 ==> dst.fd in old(files)
        invariant files == FilesAfterWrite(old(files), dst, dstOff, mem[addr..addr+copied])
        invariant ContentsKept(old(files), files, Some(dst.fd)) && files.Keys == old(files).Keys
        invariant Smooth(old(script)) ==> Smooth(script)
        invariant copied > 0 ==> dst.retry
        invariant copied == 0 ==> script == old(script)
        invariant dst.fd in old(files) ==> Given(old(script), len, len, dst.retry) == copied + Given(script, len', len', dst.retry)
        decreases len'
      {
        ghost var before := script;
        GivenStep(before, len', len', dst.retry);
        if Smooth(before) { SmoothOn(before); }
        WroteNothing(files, dst, dstOff', addr', mem[..]);
        var r := SysWrite(dst, dstOff', mem, addr', len');
        if r < 0 {
          if copied == 0 { return r; }
          break;
        }
        if r == 0 { break; }
        WrittenFurther(old(files), dst, dstOff, mem[..], addr, copied, r);
        WriteKeeps(old(files), dst, dstOff, mem[addr..addr + copied + r]);
        copied := copied + r;
        if !dst.retry { return copied; }
        addr' := addr' + r;
        dstOff' := dstOff' + r;
        len' := len' - r;
      }
      return copied;
    }

    /** fuse_buf_read: from the descriptor of src to `addr` of `mem`. */
    method BufRead(mem: array<byte>, addr: nat, src: FuseBuf, srcOff: nat, len: nat) returns (res: int, ghost got: seq<byte>)
      requires src.isFd && addr + len <= mem.Length
      modifies this`files, this`script, mem
      ensures -MAX_ERRNO <= res <= len && |got| == Copied(res)
      ensures HasRead(old(files), files, old(mem[..]), mem[..], src, srcOff, addr, got)
      ensures src.fd in old(files) ==> Copied(res) == Given(old(script), len, LeftIn(old(files), src, srcOff), src.retry)
      ensures res < 0 ==> len > 0 && if src.fd in old(files) then old(script) != [] && old(script)[0] == Error(-res) else res == -EBADF
      ensures Smooth(old(script)) ==> Smooth(script)
    {
      hide HasRead, Given, Left, Smooth;
      var copied: nat := 0;
      var srcOff', addr', len' := srcOff, addr, len;
      got := [];
      ReadNothing(files, mem[..], src, srcOff, addr);
      while len' > 0
        invariant 0 <= copied <= len && copied + len' == len && addr' == addr + copied && srcOff' == srcOff + copied
        invariant |got| == copied && HasRead(old(files), files, old(mem[..]), mem[..], src, srcOff, addr, got)
        invariant Smooth(old(script)) ==> Smooth(script)
        invariant copied > 0 ==> src.retry
        invariant copied == 0 ==> script == old(script)
        invariant src.fd in old(files) ==>
          && copied <= Left(old(files)[src.fd], src, srcOff)
          && Given(old(script), len, Left(old(files)[src.fd], src, srcOff), src.retry)
             == copied + Given(script, len', Left(old(files)[src.fd], src, srcOff) - copied, src.retry)
        decreases len'
      {
        ghost var files1, mem1, before := files, mem[..], script;
        LeftAfter(old(files), files, old(mem[..]), mem[..], src, srcOff, addr, got);
        if src.fd in files { GivenStep(before, len', Left(files[src.fd], src, srcOff'), src.retry); }
        if Smooth(before) { SmoothOn(before); }
        var r, piece := SysRead(src, srcOff', mem, addr', len');
        ReadOn(old(files), files1, files, old(mem[..]), mem1, mem[..], src, srcOff, addr, got, piece);
        got := got + piece;
        if r < 0 {
          if copied == 0 { return r, got; }
          break;
        }
        if r == 0 { break; }
        copied := copied + r;
        if !src.retry { break; }
        addr' := addr' + r;
        srcOff' := srcOff' + r;
        len' := len' - r;
      }
      return copied, got;
    }

    /** One round of fuse_buf_fd_to_fd: up to len bytes are read into the bounce buffer, and what
        was read is written.  w is only meaningful when something was read. */
    method Bounce(tmp: array<byte>, dst: FuseBuf, dstOff: nat, src: FuseBuf, srcOff: nat, len: nat)
      returns (r: int, w: int, ghost lost: nat)
      requires src.isFd && dst.isFd && srcOff + len <= src.size && dstOff + len <= dst.size
      requires tmp != memory && len <= tmp.Length
      modifies this`files, this`script, tmp
      ensures -MAX_ERRNO <= w <= r <= len && (r <= 0 ==> w == r && lost == 0) && lost == Copied(r) - Copied(w)
      ensures src.fd != dst.fd ==> Transferred(old(St()), St(), src, srcOff, dst, dstOff, Copied(w), lost)
      ensures ContentsKept(old(files), files, Some(dst.fd)) && (Smooth(old(script)) ==> Smooth(script))
      ensures Relays(old(files), old(script), src, dst) ==>
        && Relays(files, script, src, dst) && r == w == Min(len, LeftIn(old(files), src, srcOff))
        && LeftIn(files, src, srcOff + r) == LeftIn(old(files), src, srcOff) - r
    {
      ghost var got;
      hide Transferred, Given, LeftIn, FilesAfterWrite, HasRead, HasTaken, ContentsKept, Smooth, Relays;
      ghost var tmp0, files0, script0 := tmp[..], files, script;
      r, got := BufRead(tmp, 0, src, srcOff, len);
      ghost var files1, script1 := files, script;
      ReadMeans(files0, files1, tmp0, tmp[..], src, srcOff, 0, got);
      ReadKeeps(files0, files1, tmp0, tmp[..], src, srcOff, 0, got);
      ReadIsTaken(files0, files1, tmp0, tmp[..], src, srcOff, 0, got);
      WriteKeeps(files1, dst, dstOff, []);
      KeptBoth(files0, files1, files1, dst.fd);
      if Relays(files0, script0, src, dst) {
        RelayReads(files0, files1, tmp0, tmp[..], script0, script1, src, srcOff, dst, len, r, got);
      }
      if r <= 0 {
        Nothing(old(St()), src, srcOff, dst, dstOff);
        assert St() == old(St());
        return r, r, 0;
      }
      assert tmp[0..r] == got;
      w := BufWrite(dst, dstOff, tmp, 0, r);
      lost := r - Copied(w);
      KeptBoth(files0, files1, files, dst.fd);
      if Relays(files0, script0, src, dst) {
        RelayWrites(files1, files, script1, script, src, srcOff + r, dst, dstOff, tmp[0..Copied(w)], r, w);
      }
      if src.fd != dst.fd {
        assert tmp[0..Copied(w)] == got[..Copied(w)];
        RelayPiece(old(St()), files1, src, srcOff, dst, dstOff, got, Copied(w));
        assert St() == old(St()).(files := FilesAfterWrite(files1, dst, dstOff, got[..Copied(w)]));
      }
    }

    /** fuse_buf_fd_to_fd: through a bounce buffer of 4096 bytes. */
    method FdToFd(dst: FuseBuf, dstOff: nat, src: FuseBuf, srcOff: nat, len: nat) returns (res: int, ghost lost: nat)
      requires src.isFd && dst.isFd && srcOff + len <= src.size && dstOff + len <= dst.size
      modifies this`files, this`script
      ensures -MAX_ERRNO <= res <= len && (lost > 0 ==> Copied(res) < len)
      ensures src.fd != dst.fd ==> Transferred(old(St()), St(), src, srcOff, dst, dstOff, Copied(res), lost)
      ensures ContentsKept(old(files), files, Some(dst.fd)) && (Smooth(old(script)) ==> Smooth(script))
      ensures Relays(old(files), old(script), src, dst) ==>
        Relays(files, script, src, dst) && res == Min(len, LeftIn(old(files), src, srcOff))
    {
      hide ContentsKept, LeftIn, Relays, Transferred, Onward, Smooth;
      ghost var files0, script0, st0 := files, script, St();
      WriteKeeps(files, dst, dstOff, []);
      NothingYet(st0, src, srcOff, dst, dstOff, files, script);
      var tmp := new byte[BOUNCE];
      var copied: nat := 0;
      var srcOff', dstOff', len' := srcOff, dstOff, len;
      lost := 0;
      assert St() == st0;
      while len' > 0
        invariant 0 <= copied <= len && copied + len' == len
        invariant srcOff' == srcOff + copied && dstOff' == dstOff + copied && lost == 0
        invariant ContentsKept(files0, files, Some(dst.fd)) && (Smooth(script0) ==> Smooth(script))
        invariant Onward(st0, St(), src, srcOff, dst, dstOff, copied, 0, files0, script0, files, script)
        decreases len'
      {
        ghost var st1, files1, script1 := St(), files, script;
        var thisLen := Min(BOUNCE, len');
        var r, w;
        r, w, lost := Bounce(tmp, dst, dstOff', src, srcOff', thisLen);
        KeptBoth(files0, files1, files, dst.fd);
        RoundOn(st0, st1, St(), src, srcOff, dst, dstOff, copied, thisLen, r, w, lost,
                files0, script0, files1, script1, files, script);
        if w < 0 {
          if copied == 0 {
            RoundEnds(st0, St(), src, srcOff, dst, dstOff, 0, lost, files0, script0, files, script);
            return w, lost;
          }
          RoundEnds(st0, St(), src, srcOff, dst, dstOff, copied, lost, files0, script0, files, script);
          return copied, lost;
        }
        copied := copied + w;
        if w < thisLen {
          RoundEnds(st0, St(), src, srcOff, dst, dstOff, copied, lost, files0, script0, files, script);
          return copied, lost;
        }
        dstOff' := dstOff' + w;
        srcOff' := srcOff' + w;
        len' := len' - w;
      }
      RoundEnds(st0, St(), src, srcOff, dst, dstOff, copied, 0, files0, script0, files, script);
      return copied, lost;
    }
  }

  /** How far a relay has come: n bytes are over, `lost` more were read, and if nothing holds it up,
      that much less is left of the source. */
  ghost predicate Onward(st: Store, st': Store, src: FuseBuf, so: nat, dst: FuseBuf, do_: nat, n: nat, lost: nat,
                         files: map<nat, File>, script: seq<Io>, files': map<nat, File>, script': seq<Io>)
  {
    && (src.fd != dst.fd ==> Transferred(st, st', src, so, dst, do_, n, lost))
    && (Relays(files, script, src, dst) ==>
          Relays(files', script', src, dst) && LeftIn(files', src, so + n) == LeftIn(files, src, so) - n)
  }

  lemma NothingYet(st: Store, src: FuseBuf, so: nat, dst: FuseBuf, do_: nat, files: map<nat, File>, script: seq<Io>)
    ensures Onward(st, st, src, so, dst, do_, 0, 0, files, script, files, script)
  {
    hide LeftIn, Relays, Transferred;
    Nothing(st, src, so, dst, do_);
  }

  lemma RoundOn(st: Store, st1: Store, st2: Store, src: FuseBuf, so: nat, dst: FuseBuf, do_: nat,
                n: nat, len: nat, r: int, w: int, lost: nat,
                files: map<nat, File>, script: seq<Io>, files1: map<nat, File>, script1: seq<Io>,
                files2: map<nat, File>, script2: seq<Io>)
    requires Onward(st, st1, src, so, dst, do_, n, 0, files, script, files1, script1)
    requires src.fd != dst.fd ==> Transferred(st1, st2, src, so + n, dst, do_ + n, Copied(w), lost)
    requires Relays(files1, script1, src, dst) ==>
      && Relays(files2, script2, src, dst) && r == w == Min(len, LeftIn(files1, src, so + n))
      && LeftIn(files2, src, so + n + r) == LeftIn(files1, src, so + n) - r
    ensures Onward(st, st2, src, so, dst, do_, n + Copied(w), lost, files, script, files2, script2)
    ensures Relays(files, script, src, dst) ==> w >= 0 && (w < len ==> LeftIn(files, src, so) == n + w)
    ensures Relays(files, script, src, dst) ==> n + w <= LeftIn(files, src, so)
  {
    hide LeftIn, Relays, Transferred;
    if src.fd != dst.fd { TransferOn(st, st1, st2, src, so, dst, do_, n, Copied(w), lost); }
  }

  lemma RoundEnds(st: Store, st': Store, src: FuseBuf, so: nat, dst: FuseBuf, do_: nat, n: nat, lost: nat,
                  files: map<nat, File>, script: seq<Io>, files': map<nat, File>, script': seq<Io>)
    requires Onward(st, st', src, so, dst, do_, n, lost, files, script, files', script')
    ensures src.fd != dst.fd ==> Transferred(st, st', src, so, dst, do_, n, lost)
    ensures Relays(files, script, src, dst) ==> Relays(files', script', src, dst) && n <= LeftIn(files, src, so)
  {
    hide LeftIn, Relays, Transferred;
  }

  lemma Nothing(st: Store, src: FuseBuf, so: nat, dst: FuseBuf, do_: nat)
    ensures Transferred(st, st, src, so, dst, do_, 0, 0)
  {
    assert Cells(src, so, 0) == [] && Cells(dst, do_, 0) == [];
    SkipNothing(st, CellAt(src, so));
  }
}

/** The values of libs/libfuse/lib/buffer.c: memory, files, buffers and buffer vectors, and the
    byte-at-a-time copy that serves as the reference for `fuse_buf_copy`. */
module BufferModel {
  import opened Wrappers

  /** A buffer: `size` bytes at address `mem`, or on descriptor `fd`, from offset `pos` on when
      `seek` (FUSE_BUF_FD_SEEK) is set and at the descriptor's own cursor otherwise; `retry` is
      FUSE_BUF_FD_RETRY. */
  datatype FuseBuf = FuseBuf(size: nat, isFd: bool, seek: bool, retry: bool, mem: nat, fd: nat, pos: nat)

  datatype File = File(data: seq<byte>, cursor: nat)

  datatype Store = Store(mem: seq<byte>, files: map<nat, File>)

  /** One byte's place: a memory address, a fixed position of a file, or wherever the
      descriptor's cursor stands. */
  datatype Cell = Mem(addr: nat) | At(fd: nat, pos: nat) | Stream(fd: nat)

  function CellAt(b: FuseBuf, k: nat): Cell {
    if !b.isFd then Mem(b.mem + k) else if b.seek then At(b.fd, b.pos + k) else Stream(b.fd)
  }

  /** The cells of n bytes of b from offset off. */
  function Cells(b: FuseBuf, off: nat, n: nat): seq<Cell> {
    seq(n, k requires 0 <= k < n => CellAt(b, off + k))
  }

  /** What a cursor still has in front of it, over all its buffers. */
  function Remaining(bufs: seq<FuseBuf>, idx: nat, off: nat): seq<Cell>
    decreases |bufs| - idx
  {
    if idx >= |bufs| then []
    else Cells(bufs[idx], off, if off <= bufs[idx].size then bufs[idx].size - off else 0)
         + Remaining(bufs, idx + 1, 0)
  }

  // ---------- the byte-at-a-time reference ----------

  function WriteByte(d: seq<byte>, p: nat, v: byte): seq<byte> {
    if p < |d| then d[p := v] else d + Zeros(p - |d|) + [v]
  }

  /** Writing a block at position p of a file. */
  function WriteBlock(d: seq<byte>, p: nat, b: seq<byte>): seq<byte> {
    if b == [] then d
    else WriteByte(WriteBlock(d, p, b[..|b|-1]), p + |b| - 1, b[|b|-1])
  }

  /** The block stands at p, what lay outside it is as before, and a gap reads as zeros. */
  lemma {:induction false} WriteBlockContents(d: seq<byte>, p: nat, b: seq<byte>)
    ensures var r := WriteBlock(d, p, b);
      && |r| == (if b == [] || p + |b| < |d| then |d| else p + |b|)
      && (forall i | 0 <= i < |b| :: r[p + i] == b[i])
      && (forall i | 0 <= i < |r| && (i < p || i >= p + |b|) :: r[i] == if i < |d| then d[i] else 0)
    decreases |b|
  {
    if b != [] { WriteBlockContents(d, p, b[..|b|-1]); }
  }

  function Look(st: Store, c: Cell): byte {
    match c
    case Mem(a) => if a < |st.mem| then st.mem[a] else 0
    case At(fd, p) => if fd in st.files && p < |st.files[fd].data| then st.files[fd].data[p] else 0
    case Stream(fd) =>
      if fd in st.files && st.files[fd].cursor < |st.files[fd].data|
      then st.files[fd].data[st.files[fd].cursor] else 0
  }

  /** Moving a stream's cursor on, after reading. */
  function Skip(st: Store, c: Cell, n: nat): Store {
    if c.Stream? && c.fd in st.files
    then st.(files := st.files[c.fd := st.files[c.fd].(cursor := st.files[c.fd].cursor + n)])
    else st
  }

  function Put(st: Store, c: Cell, v: byte): Store {
    match c
    case Mem(a) => if a < |st.mem| then st.(mem := st.mem[a := v]) else st
    case At(fd, p) =>
      if fd !in st.files then st
      else st.(files := st.files[fd := st.files[fd].(data := WriteByte(st.files[fd].data, p, v))])
    case Stream(fd) =>
      if fd !in st.files then st
      else
        var f := st.files[fd];
        st.(files := st.files[fd := File(WriteByte(f.data, f.cursor, v), f.cursor + 1)])
  }

  function CopyByte(st: Store, src: Cell, dst: Cell): Store {
    Put(Skip(st, src, 1), dst, Look(st, src))
  }

  /** Byte after byte, from each source cell to the destination cell opposite. */
  function CopyBytes(st: Store, src: seq<Cell>, dst: seq<Cell>): Store
    requires |src| == |dst|
  {
    if src == [] then st
    else CopyByte(CopyBytes(st, src[..|src|-1], dst[..|dst|-1]), src[|src|-1], dst[|dst|-1])
  }

  lemma {:induction false} CopyBytesConcat(st: Store, s1: seq<Cell>, d1: seq<Cell>, s2: seq<Cell>, d2: seq<Cell>)
    requires |s1| == |d1| && |s2| == |d2|
    ensures CopyBytes(st, s1 + s2, d1 + d2) == CopyBytes(CopyBytes(st, s1, d1), s2, d2)
    decreases |s2|
  {
    if s2 == [] {
      assert s1 + s2 == s1 && d1 + d2 == d1;
    } else {
      var m := |s2| - 1;
      assert (s1 + s2)[..|s1 + s2| - 1] == s1 + s2[..m];
      assert (d1 + d2)[..|d1 + d2| - 1] == d1 + d2[..m];
      CopyBytesConcat(st, s1, d1, s2[..m], d2[..m]);
    }
  }

  lemma CellsSplit(b: FuseBuf, off: nat, n: nat, m: nat)
    ensures Cells(b, off, n + m) == Cells(b, off, n) + Cells(b, off + n, m)
  {
  }

  /** The cursor past n bytes of its current buffer. */
  lemma RemainingTail(bufs: seq<FuseBuf>, idx: nat, off: nat, n: nat)
    requires idx < |bufs| && off + n <= bufs[idx].size
    ensures Remaining(bufs, idx, off) == Cells(bufs[idx], off, n) + Remaining(bufs, idx, off + n)
  {
    CellsSplit(bufs[idx], off, n, bufs[idx].size - off - n);
  }

  lemma RemainingNext(bufs: seq<FuseBuf>, idx: nat, off: nat)
    requires idx < |bufs| && off == bufs[idx].size
    ensures Remaining(bufs, idx, off) == Remaining(bufs, idx + 1, 0)
  {
  }

  // ---------- blocks are byte-at-a-time copies ----------

  /** Where the next read or write of this buffer at offset off takes place in the file. */
  function StartPos(f: File, b: FuseBuf, off: nat): nat {
    if b.seek then b.pos + off else f.cursor
  }

  lemma WriteBlockSnoc(d: seq<byte>, p: nat, b: seq<byte>, v: byte)
    ensures WriteByte(WriteBlock(d, p, b), p + |b|, v) == WriteBlock(d, p, b + [v])
  {
    assert (b + [v])[..|b|] == b;
  }

  /** Writing two blocks one behind the other is writing them at once. */
  lemma {:induction false} WriteBlockConcat(d: seq<byte>, p: nat, a: seq<byte>, b: seq<byte>)
    ensures WriteBlock(WriteBlock(d, p, a), p + |a|, b) == WriteBlock(d, p, a + b)
    decreases |b|
  {
    if b == [] {
      assert a + b == a;
    } else {
      var b' := b[..|b|-1];
      assert (a + b)[..|a + b| - 1] == a + b';
      WriteBlockConcat(d, p, a, b');
    }
  }

  /** n bytes stand in the file where this buffer reads next. */
  predicate Available(files: map<nat, File>, src: FuseBuf, off: nat, n: nat) {
    n > 0 ==> src.fd in files && StartPos(files[src.fd], src, off) + n <= |files[src.fd].data|
  }

  function FileBytes(files: map<nat, File>, src: FuseBuf, off: nat, n: nat): (b: seq<byte>)
    requires Available(files, src, off, n)
    ensures |b| == n
  {
    if n == 0 then []
    else var p := StartPos(files[src.fd], src, off); files[src.fd].data[p..p+n]
  }

  function MemAfterRead(mem: seq<byte>, addr: nat, b: seq<byte>): seq<byte>
    requires addr + |b| <= |mem|
  {
    if b == [] then mem else Splice(mem, addr, b)
  }

  function FilesAfterRead(files: map<nat, File>, src: FuseBuf, n: nat): map<nat, File>
    requires n > 0 ==> src.fd in files
  {
    if n == 0 || src.seek then files
    else files[src.fd := files[src.fd].(cursor := files[src.fd].cursor + n)]
  }

  /** The bytes `got` were read through src at this offset, and the file moved on accordingly. */
  ghost predicate HasTaken(files: map<nat, File>, files': map<nat, File>, src: FuseBuf, off: nat, got: seq<byte>) {
    && Available(files, src, off, |got|)
    && got == FileBytes(files, src, off, |got|)
    && files' == FilesAfterRead(files, src, |got|)
  }

  function FilesAfterWrite(files: map<nat, File>, dst: FuseBuf, off: nat, b: seq<byte>): map<nat, File>
    requires b != [] ==> dst.fd in files
  {
    if b == [] then files else files[dst.fd := Wrote(files[dst.fd], dst, off, b)]
  }

  lemma WrittenOn(files: map<nat, File>, dst: FuseBuf, off: nat, a: seq<byte>, b: seq<byte>)
    requires dst.fd in files
    ensures FilesAfterWrite(FilesAfterWrite(files, dst, off, a), dst, off + |a|, b)
            == FilesAfterWrite(files, dst, off, a + b)
  {
    if a == [] { assert a + b == b; }
    else if b == [] { assert a + b == a; }
    else { WriteBlockConcat(files[dst.fd].data, StartPos(files[dst.fd], dst, off), a, b); }
  }

  lemma WroteNothing(files: map<nat, File>, dst: FuseBuf, off: nat, a: nat, mem: seq<byte>)
    requires a <= |mem|
    ensures mem[a..a] == [] && FilesAfterWrite(files, dst, off, mem[a..a]) == files
  {
  }

  /** A write of n bytes of memory, and one of the next r bytes behind it. */
  lemma WrittenFurther(files: map<nat, File>, dst: FuseBuf, off: nat, mem: seq<byte>, a: nat, n: nat, r: nat)
    requires dst.fd in files && a + n + r <= |mem|
    ensures FilesAfterWrite(FilesAfterWrite(files, dst, off, mem[a..a + n]), dst, off + n, mem[a + n..a + n + r])
            == FilesAfterWrite(files, dst, off, mem[a..a + n + r])
  {
    hide FilesAfterWrite;
    Pieces(mem, a, n, r);
    WrittenOn(files, dst, off, mem[a..a + n], mem[a + n..a + n + r]);
  }

  lemma SpliceOn(mem: seq<byte>, addr: nat, x: seq<byte>, y: seq<byte>)
    requires addr + |x| + |y| <= |mem|
    ensures MemAfterRead(MemAfterRead(mem, addr, x), addr + |x|, y) == MemAfterRead(mem, addr, x + y)
  {
    if x == [] { assert x + y == y; }
    else if y == [] { assert x + y == x; }
    else { assert Splice(Splice(mem, addr, x), addr + |x|, y) == Splice(mem, addr, x + y); }
  }

  /** Two reads, one behind the other, are one read. */
  lemma TakeOn(files: map<nat, File>, files1: map<nat, File>, files2: map<nat, File>,
               src: FuseBuf, off: nat, got: seq<byte>, piece: seq<byte>)
    requires HasTaken(files, files1, src, off, got) && HasTaken(files1, files2, src, off + |got|, piece)
    ensures HasTaken(files, files2, src, off, got + piece)
  {
    if got == [] {
      assert got + piece == piece;
    } else if piece == [] {
      assert got + piece == got;
    } else {
      var f, f1 := files[src.fd], files1[src.fd];
      var p := StartPos(f, src, off);
      assert f1.data == f.data && StartPos(f1, src, off + |got|) == p + |got|;
      Pieces(f.data, p, |got|, |piece|);
    }
  }

  lemma Pieces(s: seq<byte>, p: nat, n: nat, m: nat)
    requires p + n + m <= |s|
    ensures s[p..p + n] + s[p + n..p + n + m] == s[p..p + n + m]
  {
  }

  /** The bytes `got` were read through src and put at addr. */
  ghost predicate HasRead(files: map<nat, File>, files': map<nat, File>, mem: seq<byte>, mem': seq<byte>,
                          src: FuseBuf, off: nat, addr: nat, got: seq<byte>)
  {
    HasTaken(files, files', src, off, got) && addr + |got| <= |mem| && mem' == MemAfterRead(mem, addr, got)
  }

  lemma ReadNothing(files: map<nat, File>, mem: seq<byte>, src: FuseBuf, off: nat, addr: nat)
    requires addr <= |mem|
    ensures HasRead(files, files, mem, mem, src, off, addr, [])
  {
  }

  lemma ReadOn(files: map<nat, File>, files1: map<nat, File>, files2: map<nat, File>,
               mem: seq<byte>, mem1: seq<byte>, mem2: seq<byte>,
               src: FuseBuf, off: nat, addr: nat, got: seq<byte>, piece: seq<byte>)
    requires HasRead(files, files1, mem, mem1, src, off, addr, got)
    requires HasRead(files1, files2, mem1, mem2, src, off + |got|, addr + |got|, piece)
    ensures HasRead(files, files2, mem, mem2, src, off, addr, got + piece)
  {
    assert |mem1| == |mem|;
    TakeOn(files, files1, files2, src, off, got, piece);
    SpliceOn(mem, addr, got, piece);
  }

  /** n bytes can be taken from the buffer at this offset. */
  predicate CanTake(st: Store, src: FuseBuf, off: nat, n: nat) {
    if !src.isFd then src.mem + off + n <= |st.mem|
    else src.fd in st.files && (n == 0 || StartPos(st.files[src.fd], src, off) + n <= |st.files[src.fd].data|)
  }

  /** The next n bytes of the buffer. */
  function Bytes(st: Store, src: FuseBuf, off: nat, n: nat): (b: seq<byte>)
    requires CanTake(st, src, off, n)
    ensures |b| == n
  {
    if n == 0 then []
    else if !src.isFd then st.mem[src.mem + off..src.mem + off + n]
    else var p := StartPos(st.files[src.fd], src, off); st.files[src.fd].data[p..p+n]
  }

  /** The file after the block b was written through this buffer at this offset. */
  function Wrote(f: File, dst: FuseBuf, off: nat, b: seq<byte>): File {
    File(WriteBlock(f.data, StartPos(f, dst, off), b), if dst.seek then f.cursor else f.cursor + |b|)
  }

  predicate CanDeliver(st: Store, dst: FuseBuf, off: nat, n: nat) {
    if !dst.isFd then dst.mem + off + n <= |st.mem| else dst.fd in st.files
  }

  /** Handing the block b to the buffer at this offset. */
  function Deliver(st: Store, dst: FuseBuf, off: nat, b: seq<byte>): (r: Store)
    requires CanDeliver(st, dst, off, |b|)
    ensures |r.mem| == |st.mem| && r.files.Keys == st.files.Keys
  {
    if b == [] then st
    else if !dst.isFd then st.(mem := Splice(st.mem, dst.mem + off, b))
    else st.(files := st.files[dst.fd := Wrote(st.files[dst.fd], dst, off, b)])
  }

  /** The reader's side effect: a stream moves on. */
  function Taken(st: Store, src: FuseBuf, off: nat, n: nat): (r: Store)
    ensures |r.mem| == |st.mem| && r.files.Keys == st.files.Keys
  {
    Skip(st, CellAt(src, off), n)
  }

  /** Two buffers do not meet: disjoint memory, or different descriptors. */
  predicate Apart(src: FuseBuf, dst: FuseBuf) {
    && (!src.isFd && !dst.isFd ==>
          || src.size == 0 || dst.size == 0
          || src.mem + src.size <= dst.mem || dst.mem + dst.size <= src.mem)
    && (src.isFd && dst.isFd ==> src.fd != dst.fd)
  }

  /** One more byte at the end of the block. */
  lemma DeliverSnoc(st: Store, dst: FuseBuf, off: nat, b: seq<byte>, v: byte)
    requires CanDeliver(st, dst, off, |b| + 1)
    ensures Put(Deliver(st, dst, off, b), CellAt(dst, off + |b|), v) == Deliver(st, dst, off, b + [v])
  {
    if !dst.isFd {
      var a := dst.mem + off;
      if b == [] {
        assert st.mem[a := v] == Splice(st.mem, a, [v]);
        assert b + [v] == [v];
      } else {
        assert Splice(st.mem, a, b)[a + |b| := v] == Splice(st.mem, a, b + [v]);
      }
    } else {
      var f := st.files[dst.fd];
      WriteBlockSnoc(f.data, StartPos(f, dst, off), b, v);
      if b == [] { assert b + [v] == [v]; }
    }
  }

  /** Delivering does not touch what is still to be read. */
  lemma LookBehind(st: Store, src: FuseBuf, so: nat, dst: FuseBuf, do_: nat, n: nat)
    requires n > 0 && CanTake(st, src, so, n) && CanDeliver(st, dst, do_, n - 1)
    requires Apart(src, dst) && so + n <= src.size && do_ + n <= dst.size && CanTake(st, src, so, n - 1)
    ensures Look(Deliver(Taken(st, src, so, n - 1), dst, do_, Bytes(st, src, so, n - 1)), CellAt(src, so + n - 1))
            == Bytes(st, src, so, n)[n-1]
  {
  }

  /** Reading on and delivering concern different things. */
  lemma SkipCommutes(st: Store, src: FuseBuf, so: nat, k: nat, dst: FuseBuf, do_: nat, b: seq<byte>)
    requires Apart(src, dst) && CanDeliver(st, dst, do_, |b|)
    ensures Skip(Deliver(st, dst, do_, b), CellAt(src, so), k) == Deliver(Skip(st, CellAt(src, so), k), dst, do_, b)
  {
    if src.isFd && !src.seek && src.fd in st.files && dst.isFd && b != [] {
      var f' := st.files[src.fd].(cursor := st.files[src.fd].cursor + k);
      var g' := Wrote(st.files[dst.fd], dst, do_, b);
      assert st.files[dst.fd := g'][src.fd := f'] == st.files[src.fd := f'][dst.fd := g'];
    }
  }

  lemma TakenSnoc(st: Store, src: FuseBuf, so: nat, n: nat)
    requires n > 0
    ensures Skip(Taken(st, src, so, n - 1), CellAt(src, so + n - 1), 1) == Taken(st, src, so, n)
  {
  }

  lemma BytesSnoc(st: Store, src: FuseBuf, so: nat, n: nat)
    requires n > 0 && CanTake(st, src, so, n) && CanTake(st, src, so, n - 1)
    ensures Bytes(st, src, so, n) == Bytes(st, src, so, n - 1) + [Bytes(st, src, so, n)[n-1]]
  {
  }

  lemma StillDeliverable(st: Store, src: FuseBuf, so: nat, dst: FuseBuf, do_: nat, n: nat, k: nat)
    requires CanDeliver(st, dst, do_, n) && k <= n
    ensures CanDeliver(st, dst, do_, k)
    ensures forall m: nat :: CanDeliver(Taken(st, src, so, m), dst, do_, k)
  {
  }

  /** One more byte taken and delivered. */
  lemma BlockStep(st: Store, src: FuseBuf, so: nat, dst: FuseBuf, do_: nat, n: nat)
    requires n > 0 && CanTake(st, src, so, n) && CanTake(st, src, so, n - 1) && CanDeliver(st, dst, do_, n)
    requires Apart(src, dst) && so + n <= src.size && do_ + n <= dst.size
    ensures CanDeliver(Taken(st, src, so, n - 1), dst, do_, n - 1) && CanDeliver(Taken(st, src, so, n), dst, do_, n)
    ensures CopyByte(Deliver(Taken(st, src, so, n - 1), dst, do_, Bytes(st, src, so, n - 1)),
                     CellAt(src, so + n - 1), CellAt(dst, do_ + n - 1))
            == Deliver(Taken(st, src, so, n), dst, do_, Bytes(st, src, so, n))
  {
    hide Put, Look, Skip, Taken, Deliver, Bytes, CanTake, CanDeliver, Apart, CellAt;
    var b, v := Bytes(st, src, so, n - 1), Bytes(st, src, so, n)[n-1];
    StillDeliverable(st, src, so, dst, do_, n, n);
    StillDeliverable(st, src, so, dst, do_, n, n - 1);
    BytesSnoc(st, src, so, n);
    LookBehind(st, src, so, dst, do_, n);
    SkipCommutes(Taken(st, src, so, n - 1), src, so + n - 1, 1, dst, do_, b);
    TakenSnoc(st, src, so, n);
    DeliverSnoc(Taken(st, src, so, n), dst, do_, b, v);
  }

  lemma CopyCellsSnoc(st: Store, src: FuseBuf, so: nat, dst: FuseBuf, do_: nat, n: nat)
    requires n > 0
    ensures CopyBytes(st, Cells(src, so, n), Cells(dst, do_, n))
            == CopyByte(CopyBytes(st, Cells(src, so, n - 1), Cells(dst, do_, n - 1)),
                        CellAt(src, so + n - 1), CellAt(dst, do_ + n - 1))
  {
    hide CopyByte, CellAt;
    assert Cells(src, so, n)[..n-1] == Cells(src, so, n-1);
    assert Cells(dst, do_, n)[..n-1] == Cells(dst, do_, n-1);
  }

  /** Taking a block and delivering it is the byte-at-a-time copy of its cells. */
  lemma {:induction false} BlockIsCopy(st: Store, src: FuseBuf, so: nat, dst: FuseBuf, do_: nat, n: nat)
    requires CanTake(st, src, so, n) && CanDeliver(st, dst, do_, n)
    requires Apart(src, dst) && so + n <= src.size && do_ + n <= dst.size
    ensures CopyBytes(st, Cells(src, so, n), Cells(dst, do_, n))
            == Deliver(Taken(st, src, so, n), dst, do_, Bytes(st, src, so, n))
    decreases n
  {
    if n == 0 {
      TakenNothing(st, src, so);
    } else {
      BlockIsCopy(st, src, so, dst, do_, n - 1);
      BlockStep(st, src, so, dst, do_, n);
      CopyCellsSnoc(st, src, so, dst, do_, n);
    }
  }

  lemma TakenNothing(st: Store, src: FuseBuf, so: nat)
    ensures Taken(st, src, so, 0) == st
  {
    if src.isFd && !src.seek && src.fd in st.files { assert st.files[src.fd := st.files[src.fd]] == st.files; }
  }

  // ---------- the outcome of a transfer ----------

  /** n bytes went from src to dst; the source stream was read `lost` bytes further than that. */
  ghost predicate Transferred(st: Store, st': Store, src: FuseBuf, so: nat, dst: FuseBuf, do_: nat, n: nat, lost: nat) {
    st' == Skip(CopyBytes(st, Cells(src, so, n), Cells(dst, do_, n)), CellAt(src, so), lost)
  }

  lemma SkipNothing(st: Store, c: Cell)
    ensures Skip(st, c, 0) == st
  {
    if c.Stream? && c.fd in st.files { assert st.files[c.fd := st.files[c.fd]] == st.files; }
  }

  lemma SkipTwice(st: Store, c: Cell, n: nat, m: nat)
    ensures Skip(Skip(st, c, n), c, m) == Skip(st, c, n + m)
  {
  }

  lemma SkipIsFiles(st: Store, files1: map<nat, File>, src: FuseBuf, so: nat, got: seq<byte>)
    requires src.isFd && got != [] && HasTaken(st.files, files1, src, so, got)
    ensures Skip(st, CellAt(src, so), |got|) == st.(files := files1)
  {
  }

  lemma PrefixIsBytes(st: Store, files1: map<nat, File>, src: FuseBuf, so: nat, got: seq<byte>, w: nat)
    requires src.isFd && 0 < w <= |got| && HasTaken(st.files, files1, src, so, got)
    ensures CanTake(st, src, so, w) && Bytes(st, src, so, w) == got[..w]
  {
  }

  /** A block was read into a bounce buffer and the first w bytes of it written. */
  lemma RelayPiece(st: Store, files1: map<nat, File>, src: FuseBuf, so: nat, dst: FuseBuf, do_: nat,
                   got: seq<byte>, w: nat)
    requires src.isFd && dst.isFd && src.fd != dst.fd && w <= |got|
    requires so + w <= src.size && do_ + w <= dst.size
    requires HasTaken(st.files, files1, src, so, got) && (w > 0 ==> dst.fd in files1)
    ensures Transferred(st, st.(files := FilesAfterWrite(files1, dst, do_, got[..w])), src, so, dst, do_, w, |got| - w)
  {
    var c := CellAt(src, so);
    if w == 0 {
      assert got[..0] == [];
      TakenNothing(st, src, so);
      assert Cells(src, so, 0) == [] && Cells(dst, do_, 0) == [];
      if got == [] { SkipNothing(st, c); }
    } else {
      PrefixIsBytes(st, files1, src, so, got, w);
      BlockIsCopy(st, src, so, dst, do_, w);
      SkipCommutes(Taken(st, src, so, w), src, so, |got| - w, dst, do_, got[..w]);
      SkipTwice(st, c, w, |got| - w);
      SkipIsFiles(st, files1, src, so, got);
    }
  }

  /** A transfer without loss followed by another is one transfer. */
  lemma TransferOn(st: Store, st1: Store, st2: Store, src: FuseBuf, so: nat, dst: FuseBuf, do_: nat,
                   n: nat, m: nat, lost: nat)
    requires Transferred(st, st1, src, so, dst, do_, n, 0)
    requires Transferred(st1, st2, src, so + n, dst, do_ + n, m, lost)
    ensures Transferred(st, st2, src, so, dst, do_, n + m, lost)
  {
    SkipNothing(CopyBytes(st, Cells(src, so, n), Cells(dst, do_, n)), CellAt(src, so));
    CellsSplit(src, so, n, m);
    CellsSplit(dst, do_, n, m);
    CopyBytesConcat(st, Cells(src, so, n), Cells(dst, do_, n), Cells(src, so + n, m), Cells(dst, do_ + n, m));
  }

  // ---------- what a copy of memory cells does to memory ----------

  ghost predicate AllMem(cells: seq<Cell>, size: nat) {
    forall k | 0 <= k < |cells| :: cells[k].Mem? && cells[k].addr < size
  }

  lemma OneMemoryByte(st: Store, c: Cell, d: Cell)
    requires c.Mem? && d.Mem? && c.addr < |st.mem| && d.addr < |st.mem|
    ensures CopyByte(st, c, d) == st.(mem := st.mem[d.addr := st.mem[c.addr]])
  {
  }

  /** Byte k of the first n source cells stands at destination cell k, and no other byte of
      memory has changed. */
  ghost predicate Moved(mem: seq<byte>, mem': seq<byte>, src: seq<Cell>, dst: seq<Cell>, n: nat) {
    && n <= |src| && n <= |dst| && |mem'| == |mem| && AllMem(src, |mem|) && AllMem(dst, |mem|)
    && (forall k | 0 <= k < n :: mem'[dst[k].addr] == mem[src[k].addr])
    && (forall a | 0 <= a < |mem| && Mem(a) !in dst[..n] :: mem'[a] == mem[a])
  }

  lemma MovedOn(mem: seq<byte>, mem0: seq<byte>, src: seq<Cell>, dst: seq<Cell>, m: nat)
    requires |src| == |dst| == m + 1 && AllMem(src, |mem|) && AllMem(dst, |mem|)
    requires dst[m] !in dst[..m] && src[m] !in dst[..m]
    requires Moved(mem, mem0, src[..m], dst[..m], m)
    ensures Moved(mem, mem0[dst[m].addr := mem0[src[m].addr]], src, dst, m + 1)
  {
    var now := mem0[dst[m].addr := mem0[src[m].addr]];
    assert Mem(src[m].addr) !in dst[..m];
    forall k | 0 <= k < |dst| ensures now[dst[k].addr] == mem[src[k].addr] {
      if k < m { assert dst[..m][k] == dst[k] && src[..m][k] == src[k]; }
    }
    assert dst[..m][..m] == dst[..m] && dst[..m + 1] == dst;
    forall a | 0 <= a < |mem| && Mem(a) !in dst ensures now[a] == mem[a] {
      assert dst[m] in dst && Mem(a) !in dst[..m];
    }
  }

  /** When no destination byte is a source byte or a destination twice, the copy puts source byte
      k at destination k, for every k, and changes nothing else. */
  lemma {:induction false} MemoryEffect(st: Store, src: seq<Cell>, dst: seq<Cell>)
    requires |src| == |dst| && AllMem(src, |st.mem|) && AllMem(dst, |st.mem|)
    requires forall i, j | 0 <= i < j < |dst| :: dst[i] != dst[j]
    requires forall i, j | 0 <= i < |src| && 0 <= j < |dst| :: src[i] != dst[j]
    ensures var r := CopyBytes(st, src, dst);
      && r.files == st.files && |r.mem| == |st.mem|
      && (forall k | 0 <= k < |dst| :: r.mem[dst[k].addr] == st.mem[src[k].addr])
      && (forall a | 0 <= a < |st.mem| && Mem(a) !in dst :: r.mem[a] == st.mem[a])
    decreases |src|
  {
    hide CopyByte, Look, Put, Skip;
    if src != [] {
      var m := |src| - 1;
      MemoryEffect(st, src[..m], dst[..m]);
      var r0 := CopyBytes(st, src[..m], dst[..m]);
      assert dst[..m][..m] == dst[..m] && dst[..m + 1] == dst;
      OneMemoryByte(r0, src[m], dst[m]);
      MovedOn(st.mem, r0.mem, src, dst, m);
    }
  }

  lemma Slices(s: seq<Cell>, n: nat, k: nat)
    requires n + k <= |s|
    ensures s[..n] + s[n..n+k] == s[..n+k]
    ensures s[n..][..k] == s[n..n+k]
  {
  }

  // ---------- what a cursor over memory has in front of it ----------

  ghost predicate InMemory(bufs: seq<FuseBuf>, size: nat) {
    forall i | 0 <= i < |bufs| :: !bufs[i].isFd && bufs[i].mem + bufs[i].size <= size
  }

  /** The buffers do not overlap one another. */
  ghost predicate Disjoint(bufs: seq<FuseBuf>) {
    forall i, j | 0 <= i < j < |bufs| :: Apart(bufs[i], bufs[j])
  }

  /** Address a lies in buffer b. */
  predicate Holds(b: FuseBuf, a: nat) {
    b.mem <= a < b.mem + b.size
  }

  lemma CellsInMemory(b: FuseBuf, off: nat, n: nat)
    requires !b.isFd && off + n <= b.size
    ensures forall k | 0 <= k < n :: Cells(b, off, n)[k] == Mem(b.mem + off + k)
  {
    forall k | 0 <= k < n ensures Cells(b, off, n)[k] == Mem(b.mem + off + k) {
      assert Cells(b, off, n)[k] == CellAt(b, off + k);
    }
  }

  /** Every remaining cell is a memory cell inside one of the buffers from idx on. */
  lemma {:induction false} RestInMemory(bufs: seq<FuseBuf>, idx: nat, off: nat, size: nat, k: nat) returns (j: nat)
    requires InMemory(bufs, size) && k < |Remaining(bufs, idx, off)|
    ensures idx <= j < |bufs| && Remaining(bufs, idx, off)[k].Mem?
    ensures Holds(bufs[j], Remaining(bufs, idx, off)[k].addr) && Remaining(bufs, idx, off)[k].addr < size
    decreases |bufs| - idx
  {
    var b := bufs[idx];
    var h := if off <= b.size then b.size - off else 0;
    if h > 0 { CellsInMemory(b, off, h); }
    if k < h { j := idx; } else { j := RestInMemory(bufs, idx + 1, 0, size, k - h); }
  }

  lemma RestAllMem(bufs: seq<FuseBuf>, idx: nat, off: nat, size: nat)
    requires InMemory(bufs, size)
    ensures AllMem(Remaining(bufs, idx, off), size)
  {
    var s := Remaining(bufs, idx, off);
    forall k | 0 <= k < |s| ensures s[k].Mem? && s[k].addr < size {
      var _ := RestInMemory(bufs, idx, off, size, k);
    }
  }

  lemma NotBoth(a: FuseBuf, b: FuseBuf, x: nat)
    requires !a.isFd && !b.isFd && Apart(a, b)
    ensures !(Holds(a, x) && Holds(b, x))
  {
  }

  /** Over buffers that do not overlap, a cursor never meets an address twice. */
  lemma {:induction false} RestDistinct(bufs: seq<FuseBuf>, idx: nat, off: nat, size: nat)
    requires InMemory(bufs, size) && Disjoint(bufs)
    ensures Distinct(Remaining(bufs, idx, off))
    decreases |bufs| - idx
  {
    if idx < |bufs| {
      var b := bufs[idx];
      var h := if off <= b.size then b.size - off else 0;
      var s, t := Remaining(bufs, idx, off), Remaining(bufs, idx + 1, 0);
      RestDistinct(bufs, idx + 1, 0, size);
      if h > 0 { CellsInMemory(b, off, h); }
      forall i, k | 0 <= i < k < |s| ensures s[i] != s[k] {
        if h <= i {
          assert s[i] == t[i - h] && s[k] == t[k - h];
        } else if h <= k {
          var j := RestInMemory(bufs, idx + 1, 0, size, k - h);
          NotBoth(b, bufs[j], t[k - h].addr);
        }
      }
    }
  }

  /** Cursors over vectors that lie apart never meet. */
  lemma RestsApart(sb: seq<FuseBuf>, si: nat, soff: nat, db: seq<FuseBuf>, di: nat, doff: nat, size: nat)
    requires InMemory(sb, size) && InMemory(db, size)
    requires forall i, j | 0 <= i < |sb| && 0 <= j < |db| :: Apart(sb[i], db[j])
    ensures forall i, k | 0 <= i < |Remaining(sb, si, soff)| && 0 <= k < |Remaining(db, di, doff)| ::
              Remaining(sb, si, soff)[i] != Remaining(db, di, doff)[k]
  {
    var s, d := Remaining(sb, si, soff), Remaining(db, di, doff);
    forall i, k | 0 <= i < |s| && 0 <= k < |d| ensures s[i] != d[k] {
      var i' := RestInMemory(sb, si, soff, size, i);
      var k' := RestInMemory(db, di, doff, size, k);
      if s[i] == d[k] { NotBoth(sb[i'], db[k'], s[i].addr); }
    }
  }

  lemma CopyIsMove(st: Store, src: seq<Cell>, dst: seq<Cell>, n: nat)
    requires n <= |src| && n <= |dst| && AllMem(src, |st.mem|) && AllMem(dst, |st.mem|) && Distinct(dst)
    requires forall i, k | 0 <= i < |src| && 0 <= k < |dst| :: src[i] != dst[k]
    ensures var r := CopyBytes(st, src[..n], dst[..n]); r.files == st.files && Moved(st.mem, r.mem, src, dst, n)
  {
    hide CopyBytes;
    var s, d := src[..n], dst[..n];
    assert forall i, j | 0 <= i < j < |d| :: d[i] != d[j];
    assert forall i, j | 0 <= i < |s| && 0 <= j < |d| :: s[i] != d[j];
    MemoryEffect(st, s, d);
  }

  // ---------- what reading cells in order yields ----------

  /** The store after the cells were read one by one: only streams move on. */
  function Drained(st: Store, cells: seq<Cell>): (r: Store)
    ensures r.mem == st.mem
  {
    if cells == [] then st else Skip(Drained(st, cells[..|cells|-1]), cells[|cells|-1], 1)
  }

  /** The bytes that were read. */
  function Drawn(st: Store, cells: seq<Cell>): (b: seq<byte>)
    ensures |b| == |cells|
  {
    if cells == [] then []
    else
      var front := cells[..|cells|-1];
      Drawn(st, front) + [Look(Drained(st, front), cells[|cells|-1])]
  }

  /** The bytes that memory cells hold. */
  function Gathered(mem: seq<byte>, cells: seq<Cell>): (b: seq<byte>)
    requires AllMem(cells, |mem|)
    ensures |b| == |cells|
  {
    seq(|cells|, k requires 0 <= k < |cells| => mem[cells[k].addr])
  }

  lemma {:induction false} DrawnFromMemory(st: Store, cells: seq<Cell>)
    requires AllMem(cells, |st.mem|)
    ensures Drawn(st, cells) == Gathered(st.mem, cells)
    decreases |cells|
  {
    if cells != [] {
      var m := |cells| - 1;
      DrawnFromMemory(st, cells[..m]);
      assert Gathered(st.mem, cells) == Gathered(st.mem, cells[..m]) + [st.mem[cells[m].addr]];
    }
  }

  /** The region does not contain this cell. */
  predicate Outside(c: Cell, region: FuseBuf) {
    c.Mem? ==> !Holds(region, c.addr)
  }

  /** A copy of any cells into a region of memory of its own puts there what reading the cells in
      order yields, moves the streams on, and changes nothing else. */
  lemma {:induction false} RegionHoldsDrawn(st: Store, src: seq<Cell>, region: FuseBuf, n: nat)
    requires !region.isFd && region.mem + region.size <= |st.mem| && n == |src| <= region.size
    requires forall k | 0 <= k < n :: Outside(src[k], region)
    ensures CopyBytes(st, src, Cells(region, 0, n))
            == Store(Splice(st.mem, region.mem, Drawn(st, src)), Drained(st, src).files)
    decreases n
  {
    hide Look, Skip, Put, CopyByte, Splice, Outside, Holds;
    if n == 0 {
      SpliceNothing(st.mem, region.mem);
    } else {
      var front, c := src[..n-1], src[n-1];
      RegionHoldsDrawn(st, front, region, n - 1);
      var r0 := Store(Splice(st.mem, region.mem, Drawn(st, front)), Drained(st, front).files);
      assert Cells(region, 0, n)[..n-1] == Cells(region, 0, n - 1);
      CellsInMemory(region, 0, n);
      assert CopyBytes(st, src, Cells(region, 0, n)) == CopyByte(r0, c, Mem(region.mem + n - 1));
      OneDrawn(st, Drawn(st, front), Drained(st, front), c, region);
    }
  }

  lemma SpliceNothing(mem: seq<byte>, a: nat)
    requires a <= |mem|
    ensures Splice(mem, a, []) == mem
  {
  }

  lemma OneDrawn(st: Store, got: seq<byte>, drained: Store, c: Cell, region: FuseBuf)
    requires drained.mem == st.mem && region.mem + |got| < region.mem + region.size <= |st.mem| && Outside(c, region)
    ensures CopyByte(Store(Splice(st.mem, region.mem, got), drained.files), c, Mem(region.mem + |got|))
            == Store(Splice(st.mem, region.mem, got + [Look(drained, c)]), Skip(drained, c, 1).files)
  {
    var v := Look(drained, c);
    var r0 := Store(Splice(st.mem, region.mem, got), drained.files);
    assert Look(r0, c) == v;
    assert r0.mem[region.mem + |got| := v] == Splice(st.mem, region.mem, got + [v]);
  }
}

/** Buffer vectors with their cursors: `fuse_buf_copy` and its helpers in
    libs/libfuse/lib/buffer.c. */
module BufferVectors {
  import opened Wrappers
  import opened BufferModel
  import opened BufferCopy

  function SizeOf(b: FuseBuf): nat {
    b.size
  }

  function Sum(bufs: seq<FuseBuf>): nat {
    SumOf(bufs, SizeOf)
  }

  class BufVec {
    const bufs: seq<FuseBuf>
    var idx: nat
    var off: nat

    constructor (bufs: seq<FuseBuf>)
      ensures this.bufs == bufs && idx == 0 && off == 0
    {
      this.bufs := bufs;
      idx, off := 0, 0;
    }

    /** The offset lies inside the current buffer, if there is one. */
    ghost predicate Valid()
      reads this
    {
      idx < |bufs| ==> off <= bufs[idx].size
    }

    /** What the cursor has in front of it. */
    ghost function Rest(): seq<Cell>
      reads this
    {
      Remaining(bufs, idx, off)
    }

    /** fuse_buf_size: the sum of all sizes, saturating. */
    method Size() returns (size: nat)
      ensures size == if Sum(bufs) < SIZE_MAX then Sum(bufs) else SIZE_MAX
    {
      size := 0;
      var i := 0;
      while i < |bufs|
        invariant 0 <= i <= |bufs| && size == Sum(bufs[..i]) < SIZE_MAX
      {
        assert bufs[..i+1][..i] == bufs[..i];
        if bufs[i].size >= SIZE_MAX - size {
          SumOfGrows(bufs, SizeOf, i + 1);
          return SIZE_MAX;
        }
        size := size + bufs[i].size;
        i := i + 1;
      }
      assert bufs[..i] == bufs;
    }

    /** fuse_bufvec_advance: false when the vector is used up, and then the offset stays. */
    method Advance(len: nat) returns (more: bool)
      requires Valid() && (idx < |bufs| ==> off + len <= bufs[idx].size)
      modifies this
      ensures Valid()
      ensures more <==> idx < |bufs|
      ensures old(idx) >= |bufs| ==> idx == old(idx) && off == old(off)
      ensures old(idx) < |bufs| ==> len <= |old(Rest())| && Rest() == old(Rest())[len..]
      ensures old(idx) < |bufs| && old(off) + len < bufs[old(idx)].size ==> idx == old(idx) && off == old(off) + len
      ensures old(idx) < |bufs| && old(off) + len == bufs[old(idx)].size ==>
                idx == old(idx) + 1 && off == if idx == |bufs| then old(off) + len else 0
    {
      if idx >= |bufs| { return false; }
      RemainingTail(bufs, idx, off, len);
      off := off + len;
      if off == bufs[idx].size {
        RemainingNext(bufs, idx, off);
        idx := idx + 1;
        if idx == |bufs| { return false; }
        off := 0;
      }
      return true;
    }
  }

  /** Every source buffer lies apart from every destination buffer. */
  ghost predicate AllApart(src: seq<FuseBuf>, dst: seq<FuseBuf>) {
    forall i, j | 0 <= i < |src| && 0 <= j < |dst| :: Apart(src[i], dst[j])
  }

  ghost predicate AllFit(bufs: seq<FuseBuf>, size: nat) {
    forall i | 0 <= i < |bufs| :: Fits(bufs[i], size)
  }

  ghost predicate AllInMemory(bufs: seq<FuseBuf>) {
    forall i | 0 <= i < |bufs| :: !bufs[i].isFd
  }

  // ---------- when nothing holds a copy up ----------

  /** The buffer lies in memory, or all its bytes stand in a file at a position of their own. */
  ghost predicate Yields(files: map<nat, File>, b: FuseBuf) {
    b.isFd ==> b.retry && b.seek && b.fd in files && b.pos + b.size <= |files[b.fd].data|
  }

  ghost predicate TakesIn(files: map<nat, File>, b: FuseBuf) {
    b.isFd ==> b.retry && b.fd in files
  }

  ghost predicate OtherFds(a: FuseBuf, b: FuseBuf) {
    a.isFd && b.isFd ==> a.fd != b.fd
  }

  /** All in memory; or with FUSE_BUF_FD_RETRY on every descriptor, sources that are there in full, no
      descriptor on both sides, and system calls that neither fail nor move nothing. */
  ghost predicate Flows(files: map<nat, File>, script: seq<Io>, sb: seq<FuseBuf>, db: seq<FuseBuf>) {
    || (AllInMemory(sb) && AllInMemory(db))
    || (&& Smooth(script)
        && (forall i | 0 <= i < |sb| :: Yields(files, sb[i]))
        && (forall j | 0 <= j < |db| :: TakesIn(files, db[j]))
        && (forall i, j | 0 <= i < |sb| && 0 <= j < |db| :: OtherFds(sb[i], db[j])))
  }

  function FdOf(b: FuseBuf): Option<nat> {
    if b.isFd then Some(b.fd) else None
  }

  lemma FlowsOn(files: map<nat, File>, script: seq<Io>, files': map<nat, File>, script': seq<Io>,
                sb: seq<FuseBuf>, db: seq<FuseBuf>, j: nat)
    requires Flows(files, script, sb, db) && j < |db| && ContentsKept(files, files', FdOf(db[j]))
    requires Smooth(script) ==> Smooth(script')
    ensures Flows(files', script', sb, db)
  {
    if !(AllInMemory(sb) && AllInMemory(db)) {
      forall i | 0 <= i < |sb| ensures Yields(files', sb[i]) { assert Yields(files, sb[i]) && OtherFds(sb[i], db[j]); }
      forall k | 0 <= k < |db| ensures TakesIn(files', db[k]) { assert TakesIn(files, db[k]); }
    }
  }

  lemma FlowsHere(files: map<nat, File>, script: seq<Io>, sb: seq<FuseBuf>, db: seq<FuseBuf>, i: nat, j: nat)
    requires Flows(files, script, sb, db) && i < |sb| && j < |db|
    ensures (!sb[i].isFd && !db[j].isFd)
            || (Smooth(script) && Yields(files, sb[i]) && TakesIn(files, db[j]) && OtherFds(sb[i], db[j]))
  {
    hide Smooth, Yields, TakesIn, OtherFds;
  }

  lemma YieldsEnough(files: map<nat, File>, b: FuseBuf, off: nat, len: nat)
    requires Yields(files, b) && b.isFd && off + len <= b.size
    ensures len <= LeftIn(files, b, off)
  {
  }

  lemma SmoothStart(script: seq<Io>)
    requires Smooth(script)
    ensures script == [] || script[0].Count?
  {
  }

  /** memcpy or memmove of len bytes. */
  method MemMove(mem: array<byte>, dst: nat, src: nat, len: nat)
    requires dst + len <= mem.Length && src + len <= mem.Length
    modifies mem
    ensures mem[..] == Splice(old(mem[..]), dst, old(mem[src..src+len]))
  {
    forall k | 0 <= k < len { mem[dst + k] := mem[src + k]; }
  }

  /** fuse_buf_copy_one; splice is not compiled in, so both descriptor cases relay. */
  method CopyOne(m: Machine, dst: FuseBuf, dstOff: nat, src: FuseBuf, srcOff: nat, len: nat)
    returns (res: int, ghost lost: nat)
    requires srcOff + len <= src.size && dstOff + len <= dst.size
    requires Fits(src, m.memory.Length) && Fits(dst, m.memory.Length)
    modifies m`files, m`script, m.memory
    ensures -MAX_ERRNO <= res <= len
    ensures !src.isFd && !dst.isFd ==> res == len
    ensures lost > 0 ==> Copied(res) < len && src.isFd && dst.isFd
    ensures Apart(src, dst) ==> Transferred(old(m.St()), m.St(), src, srcOff, dst, dstOff, Copied(res), lost)
    ensures ContentsKept(old(m.files), m.files, FdOf(dst)) && (Smooth(old(m.script)) ==> Smooth(m.script))
    ensures Smooth(old(m.script)) && Yields(old(m.files), src) && TakesIn(old(m.files), dst) && OtherFds(src, dst) ==> res == len
  {
    hide Transferred, Smooth, Yields, TakesIn, OtherFds, ContentsKept, Apart;
    lost := 0;
    if !src.isFd && !dst.isFd {
      NothingChanged(m.files, FdOf(dst));
      CopyMem(m, dst, dstOff, src, srcOff, len);
      return len, 0;
    } else if !src.isFd {
      res := WriteOut(m, dst, dstOff, src, srcOff, len);
    } else if !dst.isFd {
      res := ReadIn(m, dst, dstOff, src, srcOff, len);
    } else {
      res, lost := Relay(m, dst, dstOff, src, srcOff, len);
    }
  }

  method WriteOut(m: Machine, dst: FuseBuf, dstOff: nat, src: FuseBuf, srcOff: nat, len: nat) returns (res: int)
    requires !src.isFd && dst.isFd && srcOff + len <= src.size && dstOff + len <= dst.size
    requires Fits(src, m.memory.Length)
    modifies m`files, m`script
    ensures -MAX_ERRNO <= res <= len
    ensures Transferred(old(m.St()), m.St(), src, srcOff, dst, dstOff, Copied(res), 0)
    ensures ContentsKept(old(m.files), m.files, FdOf(dst)) && (Smooth(old(m.script)) ==> Smooth(m.script))
    ensures Smooth(old(m.script)) && TakesIn(old(m.files), dst) ==> res == len
  {
    hide Transferred, Given, Smooth, ContentsKept;
    ghost var st := m.St();
    if Smooth(m.script) {
      SmoothStart(m.script);
      RetryMovesAll(m.script, len, len);
    }
    res := m.BufWrite(dst, dstOff, m.memory, src.mem + srcOff, len);
    assert st.mem[src.mem + srcOff..src.mem + srcOff + Copied(res)] == m.memory[src.mem + srcOff..src.mem + srcOff + Copied(res)];
    WroteBlock(st, m.St(), src, srcOff, dst, dstOff, Copied(res));
  }

  method ReadIn(m: Machine, dst: FuseBuf, dstOff: nat, src: FuseBuf, srcOff: nat, len: nat) returns (res: int)
    requires src.isFd && !dst.isFd && srcOff + len <= src.size && dstOff + len <= dst.size
    requires Fits(dst, m.memory.Length)
    modifies m`files, m`script, m.memory
    ensures -MAX_ERRNO <= res <= len
    ensures Transferred(old(m.St()), m.St(), src, srcOff, dst, dstOff, Copied(res), 0)
    ensures ContentsKept(old(m.files), m.files, FdOf(dst)) && (Smooth(old(m.script)) ==> Smooth(m.script))
    ensures Smooth(old(m.script)) && Yields(old(m.files), src) ==> res == len
  {
    hide Transferred, Given, Left, LeftIn, Smooth, ContentsKept, HasRead;
    ghost var st, files0, script0 := m.St(), m.files, m.script;
    if Smooth(script0) {
      SmoothStart(script0);
      RetryMovesAll(script0, len, LeftIn(files0, src, srcOff));
    }
    if Yields(files0, src) { YieldsEnough(files0, src, srcOff, len); }
    ghost var got;
    res, got := m.BufRead(m.memory, dst.mem + dstOff, src, srcOff, len);
    ReadKeeps(files0, m.files, st.mem, m.memory[..], src, srcOff, dst.mem + dstOff, got);
    ReadBlock(st, m.St(), src, srcOff, dst, dstOff, got);
  }

  method Relay(m: Machine, dst: FuseBuf, dstOff: nat, src: FuseBuf, srcOff: nat, len: nat) returns (res: int, ghost lost: nat)
    requires src.isFd && dst.isFd && srcOff + len <= src.size && dstOff + len <= dst.size
    modifies m`files, m`script
    ensures -MAX_ERRNO <= res <= len && (lost > 0 ==> Copied(res) < len)
    ensures Apart(src, dst) ==> Transferred(old(m.St()), m.St(), src, srcOff, dst, dstOff, Copied(res), lost)
    ensures ContentsKept(old(m.files), m.files, FdOf(dst)) && (Smooth(old(m.script)) ==> Smooth(m.script))
    ensures Smooth(old(m.script)) && Yields(old(m.files), src) && TakesIn(old(m.files), dst) && OtherFds(src, dst) ==> res == len
  {
    hide Transferred, LeftIn, Smooth, ContentsKept;
    if Yields(m.files, src) { YieldsEnough(m.files, src, srcOff, len); }
    res, lost := m.FdToFd(dst, dstOff, src, srcOff, len);
  }

  lemma NothingChanged(files: map<nat, File>, fd: Option<nat>)
    ensures ContentsKept(files, files, fd)
  {
  }

  /** The memory branch of fuse_buf_copy_one. */
  method CopyMem(m: Machine, dst: FuseBuf, dstOff: nat, src: FuseBuf, srcOff: nat, len: nat)
    requires !src.isFd && !dst.isFd && srcOff + len <= src.size && dstOff + len <= dst.size
    requires Fits(src, m.memory.Length) && Fits(dst, m.memory.Length)
    modifies m.memory
    ensures Apart(src, dst) ==> Transferred(old(m.St()), m.St(), src, srcOff, dst, dstOff, len, 0)
  {
    hide Transferred, Apart, Splice;
    ghost var st := m.St();
    if dst.mem + dstOff != src.mem + srcOff {
      MemMove(m.memory, dst.mem + dstOff, src.mem + srcOff, len);
    } else {
      SpliceSelf(st.mem, dst.mem + dstOff, len);
    }
    assert m.memory[..] == Splice(st.mem, dst.mem + dstOff, st.mem[src.mem + srcOff..src.mem + srcOff + len]);
    if Apart(src, dst) { MovedBlock(st, m.St(), src, srcOff, dst, dstOff, len); }
  }

  lemma SpliceSelf(mem: seq<byte>, a: nat, n: nat)
    requires a + n <= |mem|
    ensures Splice(mem, a, mem[a..a + n]) == mem
  {
  }

  lemma MovedBlock(st: Store, st': Store, src: FuseBuf, so: nat, dst: FuseBuf, do_: nat, n: nat)
    requires !src.isFd && !dst.isFd && Apart(src, dst) && so + n <= src.size && do_ + n <= dst.size
    requires Fits(src, |st.mem|) && Fits(dst, |st.mem|)
    requires st' == st.(mem := Splice(st.mem, dst.mem + do_, st.mem[src.mem + so..src.mem + so + n]))
    ensures Transferred(st, st', src, so, dst, do_, n, 0)
  {
    if n == 0 {
      assert st' == st;
      Nothing(st, src, so, dst, do_);
    } else {
      Delivered(st, st', src, so, dst, do_, n);
    }
  }

  lemma WroteBlock(st: Store, st': Store, src: FuseBuf, so: nat, dst: FuseBuf, do_: nat, n: nat)
    requires !src.isFd && dst.isFd && so + n <= src.size && do_ + n <= dst.size && Fits(src, |st.mem|)
    requires n > 0 ==> dst.fd in st.files
    requires st' == st.(files := FilesAfterWrite(st.files, dst, do_, st.mem[src.mem + so..src.mem + so + n]))
    ensures Transferred(st, st', src, so, dst, do_, n, 0)
  {
    if n == 0 {
      assert st.mem[src.mem + so..src.mem + so] == [];
      Nothing(st, src, so, dst, do_);
    } else {
      Delivered(st, st', src, so, dst, do_, n);
    }
  }

  /** A block that was taken and delivered as a whole. */
  lemma Delivered(st: Store, st': Store, src: FuseBuf, so: nat, dst: FuseBuf, do_: nat, n: nat)
    requires CanTake(st, src, so, n) && CanDeliver(st, dst, do_, n)
    requires Apart(src, dst) && so + n <= src.size && do_ + n <= dst.size
    requires st' == Deliver(Taken(st, src, so, n), dst, do_, Bytes(st, src, so, n))
    ensures Transferred(st, st', src, so, dst, do_, n, 0)
  {
    hide CopyBytes, Cells, CellAt, Skip, Deliver, Taken, Bytes, CanTake, CanDeliver, Apart;
    BlockIsCopy(st, src, so, dst, do_, n);
    SkipNothing(st', CellAt(src, so));
  }

  lemma ReadIsDelivery(st: Store, st': Store, src: FuseBuf, so: nat, dst: FuseBuf, do_: nat, got: seq<byte>)
    requires src.isFd && !dst.isFd && do_ + |got| <= dst.size && Fits(dst, |st.mem|) && got != []
    requires HasRead(st.files, st'.files, st.mem, st'.mem, src, so, dst.mem + do_, got)
    ensures CanTake(st, src, so, |got|) && CanDeliver(st, dst, do_, |got|)
    ensures st' == Deliver(Taken(st, src, so, |got|), dst, do_, Bytes(st, src, so, |got|))
  {
  }

  lemma ReadBlock(st: Store, st': Store, src: FuseBuf, so: nat, dst: FuseBuf, do_: nat, got: seq<byte>)
    requires src.isFd && !dst.isFd && so + |got| <= src.size && do_ + |got| <= dst.size && Fits(dst, |st.mem|)
    requires HasRead(st.files, st'.files, st.mem, st'.mem, src, so, dst.mem + do_, got)
    ensures Transferred(st, st', src, so, dst, do_, |got|, 0)
  {
    if got == [] {
      Nothing(st, src, so, dst, do_);
    } else {
      ReadIsDelivery(st, st', src, so, dst, do_, got);
      Delivered(st, st', src, so, dst, do_, |got|);
    }
  }

  /** n cells were copied in order, and some source stream was read `lost` bytes further. */
  ghost predicate CopiedRun(st: Store, st': Store, src: seq<Cell>, dst: seq<Cell>, n: nat, last: Cell, lost: nat) {
    n <= |src| && n <= |dst| && st' == Skip(CopyBytes(st, src[..n], dst[..n]), last, lost)
  }

  /** A byte count as fuse_buf_copy returns it: kept in a size_t, handed out as an ssize_t. */
  function AsSsize(n: nat): (r: int)
    ensures n < TWO_63 ==> r == n
  {
    var m := n % TWO_64;
    if m < TWO_63 then m else m - TWO_64
  }

  /** Where two cursors stand after some rounds of fuse_buf_copy on the vectors sb and db, given what
      they had in front of them before (s0 and d0) and have now (s and d).  `n` is the number of bytes
      that reached the destination.  The source cursor stands n bytes further.  So does the
      destination cursor, except that it still has the last round's `last` bytes in front of it when
      that round used up the source.  That last round began where the last source buffer began, or
      where the current destination buffer begins, or was the first, and it stayed within both. */
  ghost predicate CursorsMoved(sb: seq<FuseBuf>, si: nat, s: seq<Cell>, s0: seq<Cell>,
                               db: seq<FuseBuf>, di: nat, doff: nat, d: seq<Cell>, d0: seq<Cell>,
                               n: nat, last: nat, rounds: nat)
  {
    && n <= |s0| && n <= |d0| && s == s0[n..]
    && if rounds > 0 && si >= |sb| then
         && last <= n && sb != [] && di < |db| && d == d0[n - last..]
         && last <= sb[|sb|-1].size && doff + last <= db[di].size
         && (last == n || doff == 0 || last == sb[|sb|-1].size)
       else d == d0[n..]
  }

  /** One more round of r bytes. */
  lemma RoundMoves(sb: seq<FuseBuf>, si: nat, soff: nat, s: seq<Cell>, s0: seq<Cell>,
                   db: seq<FuseBuf>, di: nat, doff: nat, d: seq<Cell>, d0: seq<Cell>, n: nat, last: nat, rounds: nat,
                   r: nat, si': nat, s': seq<Cell>, di': nat, doff': nat, d': seq<Cell>)
    requires CursorsMoved(sb, si, s, s0, db, di, doff, d, d0, n, last, rounds)
    requires si < |sb| && di < |db| && (n == 0 || soff == 0 || doff == 0)
    requires r <= |s| && r <= |d| && s' == s[r..] && soff + r <= sb[si].size && doff + r <= db[di].size
    requires if si' >= |sb| then di' == di && doff' == doff && d' == d && soff + r == sb[|sb|-1].size
             else d' == d[r..]
    ensures CursorsMoved(sb, si', s', s0, db, di', doff', d', d0, n + r, r, rounds + 1)
  {
    assert s0[n..][r..] == s0[n + r..] && d0[n..][r..] == d0[n + r..];
  }

  /** A round that failed moves nothing. */
  lemma RoundFails(sb: seq<FuseBuf>, si: nat, s: seq<Cell>, s0: seq<Cell>,
                   db: seq<FuseBuf>, di: nat, doff: nat, d: seq<Cell>, d0: seq<Cell>, n: nat, last: nat, rounds: nat)
    requires CursorsMoved(sb, si, s, s0, db, di, doff, d, d0, n, last, rounds) && si < |sb|
    ensures CursorsMoved(sb, si, s, s0, db, di, doff, d, d0, n, 0, rounds + 1)
  {
  }

  lemma NoRounds(sb: seq<FuseBuf>, si: nat, s0: seq<Cell>, db: seq<FuseBuf>, di: nat, doff: nat, d0: seq<Cell>)
    ensures CursorsMoved(sb, si, s0, s0, db, di, doff, d0, d0, 0, 0, 0)
  {
  }

  lemma InFront(sb: seq<FuseBuf>, si: nat, s: seq<Cell>, s0: seq<Cell>,
                db: seq<FuseBuf>, di: nat, doff: nat, d: seq<Cell>, d0: seq<Cell>, n: nat, last: nat, rounds: nat)
    requires CursorsMoved(sb, si, s, s0, db, di, doff, d, d0, n, last, rounds) && si < |sb|
    ensures n <= |s0| && n <= |d0| && s == s0[n..] && d == d0[n..]
  {
  }

  /** The loop of fuse_buf_copy. */
  method CopyLoop(m: Machine, dstv: BufVec, srcv: BufVec)
    returns (res: int, ghost failed: bool, ghost n: nat, ghost last: nat, ghost rounds: nat, ghost cell: Cell,
             ghost lost: nat)
    requires srcv.Valid() && dstv.Valid() && srcv != dstv
    requires AllFit(srcv.bufs, m.memory.Length) && AllFit(dstv.bufs, m.memory.Length)
    modifies m`files, m`script, m.memory, srcv, dstv
    ensures srcv.Valid() && dstv.Valid()
    ensures if failed then n == 0 && -MAX_ERRNO <= res < 0 else res == AsSsize(n)
    ensures rounds > 0 <==> old(srcv.idx) < |srcv.bufs| && old(dstv.idx) < |dstv.bufs|
    ensures CursorsMoved(srcv.bufs, srcv.idx, srcv.Rest(), old(srcv.Rest()), dstv.bufs, dstv.idx, dstv.off, dstv.Rest(), old(dstv.Rest()), n, last, rounds)
    ensures Flows(old(m.files), old(m.script), srcv.bufs, dstv.bufs) ==>
      !failed && (srcv.idx >= |srcv.bufs| || dstv.idx >= |dstv.bufs|)
    ensures AllApart(srcv.bufs, dstv.bufs) ==>
      CopiedRun(old(m.St()), m.St(), old(srcv.Rest()), old(dstv.Rest()), n, cell, lost)
    ensures lost > 0 ==> !AllInMemory(srcv.bufs) && !AllInMemory(dstv.bufs)
    ensures lost > 0 ==> n < |old(srcv.Rest())| && cell == old(srcv.Rest())[n]
  {
    hide *;
    failed, n, last, rounds, lost, cell := false, 0, 0, 0, 0, Mem(0);
    ghost var st0, s0, d0 := m.St(), srcv.Rest(), dstv.Rest();
    var copied: nat := 0;
    var more := true;
    NoCells(st0, s0, d0, cell);
    NoRounds(srcv.bufs, srcv.idx, s0, dstv.bufs, dstv.idx, dstv.off, d0);
    while more && srcv.idx < |srcv.bufs| && dstv.idx < |dstv.bufs|
      invariant srcv.Valid() && dstv.Valid() && n == copied && !failed
      invariant rounds == 0 ==> more && n == 0 && srcv.idx == old(srcv.idx) && dstv.idx == old(dstv.idx)
      invariant rounds > 0 ==> old(srcv.idx) < |srcv.bufs| && old(dstv.idx) < |dstv.bufs|
      invariant rounds > 0 && more ==> srcv.idx < |srcv.bufs|
      invariant CursorsMoved(srcv.bufs, srcv.idx, srcv.Rest(), s0, dstv.bufs, dstv.idx, dstv.off, dstv.Rest(), d0, n, last, rounds)
      invariant more ==> lost == 0 && (n == 0 || srcv.off == 0 || dstv.off == 0)
      invariant Flows(old(m.files), old(m.script), srcv.bufs, dstv.bufs) ==>
        Flows(m.files, m.script, srcv.bufs, dstv.bufs) && (!more ==> srcv.idx >= |srcv.bufs| || dstv.idx >= |dstv.bufs|)
      invariant lost > 0 ==> !AllInMemory(srcv.bufs) && !AllInMemory(dstv.bufs)
      invariant lost > 0 ==> n < |s0| && cell == s0[n]
      invariant AllApart(srcv.bufs, dstv.bufs) ==> CopiedRun(st0, m.St(), s0, d0, n, cell, lost)
      decreases more, |srcv.bufs| - srcv.idx + |dstv.bufs| - dstv.idx
    {
      ghost var st1, cell1, rounds1, last1 := m.St(), cell, rounds, last;
      ghost var si, soff, sr, di, doff, dr := srcv.idx, srcv.off, srcv.Rest(), dstv.idx, dstv.off, dstv.Rest();
      InFront(srcv.bufs, si, sr, s0, dstv.bufs, di, doff, dr, d0, n, last, rounds);
      var r, len;
      r, len, last, cell, lost := Round(m, dstv, srcv);
      rounds := rounds + 1;
      ghost var st2 := m.St();
      if AllApart(srcv.bufs, dstv.bufs) {
        RunOn(st0, st1, st2, s0, d0, n, cell1, last, cell, lost);
      }
      if r < 0 {
        RoundFails(srcv.bufs, si, sr, s0, dstv.bufs, di, doff, dr, d0, n, last1, rounds1);
        if copied == 0 {
          failed := true;
          return r, failed, n, last, rounds, cell, lost;
        }
        more := false;
      } else {
        copied := copied + r;
        more := MoveOn(dstv, srcv, r, len);
        assert m.St() == st2;
        RoundMoves(srcv.bufs, si, soff, sr, s0, dstv.bufs, di, doff, dr, d0, n, last1, rounds1,
                   r, srcv.idx, srcv.Rest(), dstv.idx, dstv.off, dstv.Rest());
        n := n + r;
      }
    }
    res := AsSsize(copied);
  }

  /** The end of a round: the source cursor moves, then, unless that used up the source, the
      destination cursor; the loop goes on if neither is used up and nothing fell short. */
  method MoveOn(dstv: BufVec, srcv: BufVec, r: nat, len: nat) returns (more: bool)
    requires srcv.Valid() && dstv.Valid() && srcv != dstv && srcv.idx < |srcv.bufs| && dstv.idx < |dstv.bufs|
    requires len == Min(srcv.bufs[srcv.idx].size - srcv.off, dstv.bufs[dstv.idx].size - dstv.off) && r <= len
    modifies srcv, dstv
    ensures srcv.Valid() && dstv.Valid()
    ensures r <= |old(srcv.Rest())| && r <= |old(dstv.Rest())| && srcv.Rest() == old(srcv.Rest())[r..]
    ensures if srcv.idx >= |srcv.bufs| then
        && !more && dstv.idx == old(dstv.idx) && dstv.off == old(dstv.off) && dstv.Rest() == old(dstv.Rest())
        && old(srcv.off) + r == srcv.bufs[|srcv.bufs|-1].size
      else dstv.Rest() == old(dstv.Rest())[r..]
    ensures more <==> srcv.idx < |srcv.bufs| && dstv.idx < |dstv.bufs| && r == len
    ensures more ==> srcv.idx >= old(srcv.idx) && dstv.idx >= old(dstv.idx)
                     && srcv.idx + dstv.idx > old(srcv.idx) + old(dstv.idx) && (srcv.off == 0 || dstv.off == 0)
  {
    more := srcv.Advance(r);
    RemainingTail(dstv.bufs, dstv.idx, dstv.off, r);
    if !more { return; }
    more := dstv.Advance(r);
    if !more { return; }
    return r == len;
  }

  /** fuse_buf_copy. */
  method Copy(m: Machine, dstv: BufVec, srcv: BufVec)
    returns (res: int, ghost failed: bool, ghost n: nat, ghost last: nat, ghost rounds: nat, ghost cell: Cell,
             ghost lost: nat)
    requires srcv.Valid() && dstv.Valid()
    requires AllFit(srcv.bufs, m.memory.Length) && AllFit(dstv.bufs, m.memory.Length)
    modifies m`files, m`script, m.memory, srcv, dstv
    ensures srcv.Valid() && dstv.Valid()
    ensures dstv == srcv ==>
      && res == AsSsize(if Sum(dstv.bufs) < SIZE_MAX then Sum(dstv.bufs) else SIZE_MAX)
      && m.St() == old(m.St()) && srcv.idx == old(srcv.idx) && srcv.off == old(srcv.off)
    ensures dstv != srcv ==>
      && (if failed then n == 0 && -MAX_ERRNO <= res < 0 else res == AsSsize(n))
      && CursorsMoved(srcv.bufs, srcv.idx, srcv.Rest(), old(srcv.Rest()), dstv.bufs, dstv.idx, dstv.off, dstv.Rest(), old(dstv.Rest()), n, last, rounds)
      && (rounds > 0 <==> old(srcv.idx) < |srcv.bufs| && old(dstv.idx) < |dstv.bufs|)
    ensures dstv != srcv && AllInMemory(srcv.bufs) && AllInMemory(dstv.bufs) ==>
      !failed && n == Min(|old(srcv.Rest())|, |old(dstv.Rest())|)
    ensures dstv != srcv && Flows(old(m.files), old(m.script), srcv.bufs, dstv.bufs) ==>
      !failed && n == Min(|old(srcv.Rest())|, |old(dstv.Rest())|)
    ensures dstv != srcv && AllApart(srcv.bufs, dstv.bufs) ==>
      CopiedRun(old(m.St()), m.St(), old(srcv.Rest()), old(dstv.Rest()), n, cell, lost)
    ensures dstv != srcv && MoveApplies(srcv.bufs, dstv.bufs) ==>
      && m.files == old(m.files)
      && Moved(old(m.memory[..]), m.memory[..], old(srcv.Rest()), old(dstv.Rest()), n)
    ensures lost > 0 ==> !AllInMemory(srcv.bufs) && !AllInMemory(dstv.bufs)
    ensures lost > 0 ==> n < |old(srcv.Rest())| && cell == old(srcv.Rest())[n]
  {
    if dstv == srcv {
      var size := dstv.Size();
      return AsSsize(size), false, 0, 0, 0, Mem(0), 0;
    }
    hide CopiedRun, Remaining, Moved, CursorsMoved, AsSsize;
    ghost var st0, s0, d0 := m.St(), srcv.Rest(), dstv.Rest();
    ghost var si, soff, di, doff := srcv.idx, srcv.off, dstv.idx, dstv.off;
    res, failed, n, last, rounds, cell, lost := CopyLoop(m, dstv, srcv);
    UsedUp(srcv.bufs, srcv.idx, srcv.off);
    UsedUp(dstv.bufs, dstv.idx, dstv.off);
    Counted(srcv.bufs, srcv.idx, srcv.Rest(), s0, dstv.bufs, dstv.idx, dstv.off, dstv.Rest(), d0, n, last, rounds);
    if MoveApplies(srcv.bufs, dstv.bufs) {
      RunIsMove(st0, m.St(), srcv.bufs, si, soff, dstv.bufs, di, doff, n, cell);
    }
  }

  /** Both vectors lie in memory, no destination buffer overlaps a source buffer or another
      destination buffer. */
  ghost predicate MoveApplies(src: seq<FuseBuf>, dst: seq<FuseBuf>) {
    AllInMemory(src) && AllInMemory(dst) && AllApart(src, dst) && Disjoint(dst)
  }

  lemma UsedUp(bufs: seq<FuseBuf>, idx: nat, off: nat)
    ensures idx >= |bufs| ==> Remaining(bufs, idx, off) == []
  {
  }

  /** When one of the two vectors is used up, the smaller of what they held was copied. */
  lemma Counted(sb: seq<FuseBuf>, si: nat, s: seq<Cell>, s0: seq<Cell>,
                db: seq<FuseBuf>, di: nat, doff: nat, d: seq<Cell>, d0: seq<Cell>, n: nat, last: nat, rounds: nat)
    requires CursorsMoved(sb, si, s, s0, db, di, doff, d, d0, n, last, rounds)
    requires (si >= |sb| ==> s == []) && (di >= |db| ==> d == [])
    ensures si >= |sb| || di >= |db| ==> n == Min(|s0|, |d0|)
  {
  }

  lemma RunIsMove(st: Store, st': Store, sb: seq<FuseBuf>, si: nat, soff: nat, db: seq<FuseBuf>, di: nat, doff: nat,
                  n: nat, cell: Cell)
    requires MoveApplies(sb, db) && AllFit(sb, |st.mem|) && AllFit(db, |st.mem|)
    requires CopiedRun(st, st', Remaining(sb, si, soff), Remaining(db, di, doff), n, cell, 0)
    ensures st'.files == st.files && Moved(st.mem, st'.mem, Remaining(sb, si, soff), Remaining(db, di, doff), n)
  {
    hide Remaining, CopyBytes, Moved, Apart, Disjoint;
    var s, d, size := Remaining(sb, si, soff), Remaining(db, di, doff), |st.mem|;
    BothFit(sb, size);
    BothFit(db, size);
    RestAllMem(sb, si, soff, size);
    RestAllMem(db, di, doff, size);
    RestDistinct(db, di, doff, size);
    RestsApart(sb, si, soff, db, di, doff, size);
    CopyIsMove(st, s, d, n);
    SkipNothing(CopyBytes(st, s[..n], d[..n]), cell);
  }

  lemma BothFit(bufs: seq<FuseBuf>, size: nat)
    requires AllInMemory(bufs) && AllFit(bufs, size)
    ensures InMemory(bufs, size)
  {
    forall i | 0 <= i < |bufs| ensures !bufs[i].isFd && bufs[i].mem + bufs[i].size <= size { assert Fits(bufs[i], size); }
  }

  /** One round of the loop up to the copying; the cursors still stand where they were. */
  method Round(m: Machine, dstv: BufVec, srcv: BufVec)
    returns (r: int, len: nat, ghost k: nat, ghost cell: Cell, ghost lost: nat)
    requires srcv.Valid() && dstv.Valid() && srcv.idx < |srcv.bufs| && dstv.idx < |dstv.bufs|
    requires AllFit(srcv.bufs, m.memory.Length) && AllFit(dstv.bufs, m.memory.Length)
    modifies m`files, m`script, m.memory
    ensures len == Min(srcv.bufs[srcv.idx].size - srcv.off, dstv.bufs[dstv.idx].size - dstv.off)
    ensures r <= len && len <= |srcv.Rest()| && len <= |dstv.Rest()| && k == if r < 0 then 0 else r
    ensures srcv.off + len <= srcv.bufs[srcv.idx].size && dstv.off + len <= dstv.bufs[dstv.idx].size
    ensures Flows(old(m.files), old(m.script), srcv.bufs, dstv.bufs) ==> r == len && Flows(m.files, m.script, srcv.bufs, dstv.bufs)
    ensures r >= -MAX_ERRNO
    ensures lost > 0 ==> k < len && !AllInMemory(srcv.bufs) && !AllInMemory(dstv.bufs)
    ensures lost > 0 ==> cell == srcv.Rest()[k]
    ensures AllApart(srcv.bufs, dstv.bufs) ==>
      CopiedRun(old(m.St()), m.St(), srcv.Rest(), dstv.Rest(), k, cell, lost)
  {
    var src, dst := srcv.bufs[srcv.idx], dstv.bufs[dstv.idx];
    len := Min(src.size - srcv.off, dst.size - dstv.off);
    hide Remaining, CopyBytes, Cells, CellAt, Skip, Flows, Smooth, Yields, TakesIn, OtherFds, ContentsKept;
    if Flows(m.files, m.script, srcv.bufs, dstv.bufs) { FlowsHere(m.files, m.script, srcv.bufs, dstv.bufs, srcv.idx, dstv.idx); }
    FrontCells(srcv.bufs, srcv.idx, srcv.off, len);
    FrontCells(dstv.bufs, dstv.idx, dstv.off, len);
    r, lost := CopyOne(m, dst, dstv.off, src, srcv.off, len);
    if Flows(old(m.files), old(m.script), srcv.bufs, dstv.bufs) {
      FlowsOn(old(m.files), old(m.script), m.files, m.script, srcv.bufs, dstv.bufs, dstv.idx);
    }
    k := Copied(r);
    cell := CellAt(src, srcv.off + k);
    FrontCells(srcv.bufs, srcv.idx, srcv.off, k);
    FrontCells(dstv.bufs, dstv.idx, dstv.off, k);
    if k < len { FrontCell(srcv.bufs, srcv.idx, srcv.off, k); }
  }

  /** In front of the cursor lie the cells of the current buffer. */
  lemma FrontCells(bufs: seq<FuseBuf>, idx: nat, off: nat, k: nat)
    requires idx < |bufs| && off + k <= bufs[idx].size
    ensures k <= |Remaining(bufs, idx, off)| && Remaining(bufs, idx, off)[..k] == Cells(bufs[idx], off, k)
  {
    RemainingTail(bufs, idx, off, k);
  }

  lemma FrontCell(bufs: seq<FuseBuf>, idx: nat, off: nat, k: nat)
    requires idx < |bufs| && off + k < bufs[idx].size
    ensures k < |Remaining(bufs, idx, off)| && Remaining(bufs, idx, off)[k] == CellAt(bufs[idx], off + k)
  {
    RemainingTail(bufs, idx, off, k + 1);
  }

  lemma NoCells(st: Store, s: seq<Cell>, d: seq<Cell>, cell: Cell)
    ensures CopiedRun(st, st, s, d, 0, cell, 0)
  {
    SkipNothing(st, cell);
  }

  /** A run of k cells behind the n cells copied so far. */
  lemma RunOn(st0: Store, st1: Store, st2: Store, s0: seq<Cell>, d0: seq<Cell>, n: nat, cell: Cell,
              k: nat, cell': Cell, lost: nat)
    requires CopiedRun(st0, st1, s0, d0, n, cell, 0)
    requires CopiedRun(st1, st2, s0[n..], d0[n..], k, cell', lost)
    ensures CopiedRun(st0, st2, s0, d0, n + k, cell', lost)
  {
    SkipNothing(CopyBytes(st0, s0[..n], d0[..n]), cell);
    Slices(s0, n, k);
    Slices(d0, n, k);
    CopyBytesConcat(st0, s0[..n], d0[..n], s0[n..n+k], d0[n..n+k]);
  }
}

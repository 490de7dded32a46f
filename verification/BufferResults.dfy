/** What callers of fuse_buf_copy rely on: one source vector poured into one destination after
    another, and the two ways in which `fuse_send_data_iov_fallback`
    (libs/libfuse/lib/fuse_lowlevel.c) gathers a reply. */
module BufferResults {
  import opened Wrappers
  import opened BufferModel
  import opened BufferCopy
  import opened BufferVectors

  // ---------- one source vector, many destination vectors ----------

  function Total(ns: seq<nat>): nat {
    if ns == [] then 0 else Total(ns[..|ns|-1]) + ns[|ns|-1]
  }

  function Flatten(parts: seq<seq<Cell>>): seq<Cell> {
    if parts == [] then [] else Flatten(parts[..|parts|-1]) + parts[|parts|-1]
  }

  /** The first ns[i] cells of each part, laid end to end. */
  function Laid(parts: seq<seq<Cell>>, ns: seq<nat>): (r: seq<Cell>)
    requires |parts| == |ns| && forall i | 0 <= i < |ns| :: ns[i] <= |parts[i]|
    ensures |r| == Total(ns)
  {
    if ns == [] then []
    else
      var m := |ns| - 1;
      Laid(parts[..m], ns[..m]) + parts[m][..ns[m]]
  }

  ghost function Rests(vecs: seq<BufVec>): (r: seq<seq<Cell>>)
    reads vecs
    ensures |r| == |vecs| && forall i | 0 <= i < |vecs| :: r[i] == vecs[i].Rest()
  {
    if vecs == [] then [] else Rests(vecs[..|vecs|-1]) + [vecs[|vecs|-1].Rest()]
  }

  ghost predicate Ready(m: Machine, dsts: seq<BufVec>, srcv: BufVec)
    reads dsts
  {
    && Distinct(dsts) && srcv !in dsts
    && forall i | 0 <= i < |dsts| ::
         dsts[i].Valid() && AllFit(dsts[i].bufs, m.memory.Length) && AllApart(srcv.bufs, dsts[i].bufs)
  }

  /** The counts returned are those of the bytes taken; only a descriptor can fail. */
  ghost predicate Told(counts: seq<int>, ns: seq<nat>, inMemory: bool) {
    && |counts| == |ns|
    && forall i | 0 <= i < |ns| ::
         counts[i] == AsSsize(ns[i]) || (!inMemory && ns[i] == 0 && -MAX_ERRNO <= counts[i] < 0)
  }

  lemma ToldOn(counts: seq<int>, ns: seq<nat>, inMemory: bool, res: int, n: nat)
    requires Told(counts, ns, inMemory)
    requires res == AsSsize(n) || (!inMemory && n == 0 && -MAX_ERRNO <= res < 0)
    ensures Told(counts + [res], ns + [n], inMemory)
  {
    hide AsSsize;
  }

  /** Where things stand when some parts are done: `counts` were returned, `ns` bytes taken, and
      the source has `rest` in front of it. */
  ghost predicate Poured(st0: Store, s0: seq<Cell>, parts: seq<seq<Cell>>, st: Store, rest: seq<Cell>,
                         counts: seq<int>, ns: seq<nat>, inMemory: bool)
  {
    && Told(counts, ns, inMemory)
    && |ns| == |parts| && (forall i | 0 <= i < |ns| :: ns[i] <= |parts[i]|)
    && Total(ns) <= |s0| && rest == s0[Total(ns)..]
    && st == CopyBytes(st0, s0[..Total(ns)], Laid(parts, ns))
    && (inMemory ==>
          Total(ns) == Min(|s0|, |Flatten(parts)|) && Laid(parts, ns) == Flatten(parts)[..Total(ns)])
  }

  /** One part more, of which n bytes were taken. */
  lemma OnePart(st0: Store, s0: seq<Cell>, parts: seq<seq<Cell>>, st: Store, rest: seq<Cell>,
                counts: seq<int>, ns: seq<nat>, inMemory: bool, part: seq<Cell>, res: int, n: nat, st': Store)
    requires Poured(st0, s0, parts, st, rest, counts, ns, inMemory)
    requires n <= |rest| && n <= |part| && st' == CopyBytes(st, rest[..n], part[..n])
    requires res == AsSsize(n) || (!inMemory && n == 0 && -MAX_ERRNO <= res < 0)
    requires inMemory ==> n == Min(|rest|, |part|)
    ensures Poured(st0, s0, parts + [part], st', rest[n..], counts + [res], ns + [n], inMemory)
  {
    hide CopyBytes, AsSsize, Told, Laid, Total, Flatten;
    var t := Total(ns);
    ToldOn(counts, ns, inMemory, res, n);
    LaidOn(parts, ns, part, n);
    assert rest[n..] == s0[t + n..];
    Slices(s0, t, n);
    CopyBytesConcat(st0, s0[..t], Laid(parts, ns), s0[t..t + n], part[..n]);
    if inMemory { PrefixOn(|s0|, parts, ns, part, n); }
  }

  lemma LaidOn(parts: seq<seq<Cell>>, ns: seq<nat>, part: seq<Cell>, n: nat)
    requires |parts| == |ns| && (forall i | 0 <= i < |ns| :: ns[i] <= |parts[i]|) && n <= |part|
    ensures forall i | 0 <= i < |ns| + 1 :: (ns + [n])[i] <= |(parts + [part])[i]|
    ensures Total(ns + [n]) == Total(ns) + n && Laid(parts + [part], ns + [n]) == Laid(parts, ns) + part[..n]
  {
    assert (parts + [part])[..|parts|] == parts && (ns + [n])[..|ns|] == ns;
  }

  /** As long as every part is filled or the source used up, what was filled is a prefix of all. */
  lemma PrefixOn(size: nat, parts: seq<seq<Cell>>, ns: seq<nat>, part: seq<Cell>, n: nat)
    requires |parts| == |ns| && forall i | 0 <= i < |ns| :: ns[i] <= |parts[i]|
    requires Total(ns) == Min(size, |Flatten(parts)|) && Laid(parts, ns) == Flatten(parts)[..Total(ns)]
    requires n == Min(size - Total(ns), |part|)
    ensures Flatten(parts + [part]) == Flatten(parts) + part
    ensures Total(ns) + n == Min(size, |Flatten(parts) + part|)
    ensures Laid(parts, ns) + part[..n] == (Flatten(parts) + part)[..Total(ns) + n]
  {
    assert (parts + [part])[..|parts|] == parts;
    if n > 0 { assert Flatten(parts)[..Total(ns)] == Flatten(parts); }
  }

  lemma NoParts(st: Store, s0: seq<Cell>, inMemory: bool)
    ensures Poured(st, s0, [], st, s0, [], [], inMemory)
  {
    assert s0[0..] == s0 && s0[..0] == [];
  }

  /** One call of fuse_buf_copy with a source in memory. */
  method PourOne(m: Machine, dst: BufVec, srcv: BufVec) returns (res: int, ghost n: nat)
    requires srcv.Valid() && AllInMemory(srcv.bufs) && AllFit(srcv.bufs, m.memory.Length) && dst != srcv
    requires dst.Valid() && AllFit(dst.bufs, m.memory.Length) && AllApart(srcv.bufs, dst.bufs)
    modifies m`files, m`script, m.memory, srcv, dst
    ensures srcv.Valid()
    ensures n <= |old(srcv.Rest())| && n <= |old(dst.Rest())| && srcv.Rest() == old(srcv.Rest())[n..]
    ensures m.St() == CopyBytes(old(m.St()), old(srcv.Rest())[..n], old(dst.Rest())[..n])
    ensures res == AsSsize(n) || (!AllInMemory(dst.bufs) && n == 0 && -MAX_ERRNO <= res < 0)
    ensures AllInMemory(dst.bufs) ==> n == Min(|old(srcv.Rest())|, |old(dst.Rest())|)
  {
    hide CopiedRun, CursorsMoved, CopyBytes, AsSsize, Moved, Remaining, AllApart, AllFit;
    ghost var st0, s0, d0 := m.St(), srcv.Rest(), dst.Rest();
    ghost var failed, last, rounds, cell, lost;
    res, failed, n, last, rounds, cell, lost := Copy(m, dst, srcv);
    SourceMoved(srcv.bufs, srcv.idx, srcv.Rest(), s0, dst.bufs, dst.idx, dst.off, dst.Rest(), d0, n, last, rounds);
    PlainRun(st0, m.St(), s0, d0, n, cell);
  }

  lemma SourceMoved(sb: seq<FuseBuf>, si: nat, s: seq<Cell>, s0: seq<Cell>,
                    db: seq<FuseBuf>, di: nat, doff: nat, d: seq<Cell>, d0: seq<Cell>, n: nat, last: nat, rounds: nat)
    requires CursorsMoved(sb, si, s, s0, db, di, doff, d, d0, n, last, rounds)
    ensures n <= |s0| && n <= |d0| && s == s0[n..]
  {
  }

  lemma PlainRun(st: Store, st': Store, s: seq<Cell>, d: seq<Cell>, n: nat, cell: Cell)
    requires CopiedRun(st, st', s, d, n, cell, 0)
    ensures n <= |s| && n <= |d| && st' == CopyBytes(st, s[..n], d[..n])
  {
    SkipNothing(CopyBytes(st, s[..n], d[..n]), cell);
  }

  ghost predicate Untouched(dsts: seq<BufVec>, i: nat, parts: seq<seq<Cell>>)
    reads dsts
  {
    |parts| == |dsts| && forall j | i <= j < |dsts| :: dsts[j].Valid() && dsts[j].Rest() == parts[j]
  }

  /** Repeated fuse_buf_copy from one source vector in memory.  The counts add up to the advance of
      the source cursor, and the whole effect is one copy: the next bytes of the source go to the
      parts that the destinations took, laid end to end, so no byte is lost or comes twice.  A
      destination takes fewer bytes than it has room for only if its descriptor does, or if the
      source runs out. */
  method PourInTurn(m: Machine, dsts: seq<BufVec>, srcv: BufVec) returns (counts: seq<int>, ghost ns: seq<nat>)
    requires srcv.Valid() && AllInMemory(srcv.bufs) && AllFit(srcv.bufs, m.memory.Length) && Ready(m, dsts, srcv)
    modifies m`files, m`script, m.memory, srcv, dsts
    ensures |counts| == |ns| == |dsts|
    ensures forall i | 0 <= i < |ns| :: ns[i] <= |old(Rests(dsts))[i]|
    ensures forall i | 0 <= i < |ns| ::
      counts[i] == AsSsize(ns[i]) || (ns[i] == 0 && -MAX_ERRNO <= counts[i] < 0)
    ensures Total(ns) <= |old(srcv.Rest())| && srcv.Rest() == old(srcv.Rest())[Total(ns)..]
    ensures m.St() == CopyBytes(old(m.St()), old(srcv.Rest())[..Total(ns)], Laid(old(Rests(dsts)), ns))
    ensures (forall i | 0 <= i < |dsts| :: AllInMemory(dsts[i].bufs)) ==>
      && (forall i | 0 <= i < |ns| :: counts[i] == AsSsize(ns[i]))
      && Total(ns) == Min(|old(srcv.Rest())|, |Flatten(old(Rests(dsts)))|)
      && Laid(old(Rests(dsts)), ns) == Flatten(old(Rests(dsts)))[..Total(ns)]
  {
    hide Poured, AllApart, AllFit, Remaining, Total, Laid, Flatten, CopyBytes, AsSsize;
    ghost var st0, s0, parts := m.St(), srcv.Rest(), Rests(dsts);
    ghost var inMemory := forall i | 0 <= i < |dsts| :: AllInMemory(dsts[i].bufs);
    counts, ns := [], [];
    NoParts(st0, s0, inMemory);
    assert parts[..0] == [];
    var i := 0;
    while i < |dsts|
      invariant i <= |dsts| && srcv.Valid()
      invariant Untouched(dsts, i, parts)
      invariant Poured(st0, s0, parts[..i], m.St(), srcv.Rest(), counts, ns, inMemory)
    {
      ghost var st1, rest := m.St(), srcv.Rest();
      var res;
      ghost var n;
      res, n := PourOne(m, dsts[i], srcv);
      OnePart(st0, s0, parts[..i], st1, rest, counts, ns, inMemory, parts[i], res, n, m.St());
      PrefixNext(parts, i);
      counts, ns, i := counts + [res], ns + [n], i + 1;
    }
    assert parts[..i] == parts;
    AllPoured(st0, s0, parts, m.St(), srcv.Rest(), counts, ns, inMemory);
  }

  lemma PrefixNext(parts: seq<seq<Cell>>, i: nat)
    requires i < |parts|
    ensures parts[..i + 1] == parts[..i] + [parts[i]]
  {
  }

  lemma AllPoured(st0: Store, s0: seq<Cell>, parts: seq<seq<Cell>>, st: Store, rest: seq<Cell>,
                  counts: seq<int>, ns: seq<nat>, inMemory: bool)
    requires Poured(st0, s0, parts, st, rest, counts, ns, inMemory)
    ensures |counts| == |ns| == |parts| && (forall i | 0 <= i < |ns| :: ns[i] <= |parts[i]|)
    ensures forall i | 0 <= i < |ns| ::
      counts[i] == AsSsize(ns[i]) || (!inMemory && ns[i] == 0 && -MAX_ERRNO <= counts[i] < 0)
    ensures Total(ns) <= |s0| && rest == s0[Total(ns)..] && st == CopyBytes(st0, s0[..Total(ns)], Laid(parts, ns))
    ensures inMemory ==>
      Total(ns) == Min(|s0|, |Flatten(parts)|) && Laid(parts, ns) == Flatten(parts)[..Total(ns)]
  {
  }

  // ---------- gathering a reply ----------

  const OUT_HEADER := 16

  /** The conversion to a 32-bit int. */
  function AsInt(x: int): (r: int)
    ensures -TWO_31 <= x < TWO_31 <==> r == x
    ensures x >= 0 ==> r <= x
    ensures -TWO_31 <= r < TWO_31
  {
    (x + TWO_31) % TWO_32 - TWO_31
  }

  lemma AsIntOfSsize(n: nat)
    requires n < TWO_64
    ensures AsInt(AsSsize(n)) == AsInt(n)
  {
    hide AsInt;
    if n >= TWO_63 {
      assert AsSsize(n) == n - TWO_64;
      WrapsTwice(n);
    }
  }

  lemma WrapsTwice(n: nat)
    ensures AsInt(n - TWO_64) == AsInt(n)
  {
  }

  /** The condition of the shortcut: the whole of a single buffer in memory. */
  predicate Single(bufs: seq<FuseBuf>, idx: nat, off: nat) {
    |bufs| == 1 && idx == 0 && off == 0 && !bufs[0].isFd
  }

  lemma SumNext(bufs: seq<FuseBuf>, b: FuseBuf)
    ensures Sum([]) == 0 && Sum(bufs + [b]) == Sum(bufs) + b.size
  {
    assert (bufs + [b])[..|bufs|] == bufs;
  }

  lemma OneBuffer(bufs: seq<FuseBuf>)
    requires |bufs| == 1
    ensures Sum(bufs) == bufs[0].size && Remaining(bufs, 0, 0) == Cells(bufs[0], 0, bufs[0].size)
  {
    SumNext([], bufs[0]);
    assert bufs == [] + [bufs[0]];
    assert Remaining(bufs, 1, 0) == [];
  }

  /** fuse_send_data_iov_fallback, called with the size of the vector.  `region` is what the
      allocator hands out for a copy, if it has memory (memOk).  `sent` is the payload put behind
      the header, and `outLen` the length field of the header; `n` is the number of bytes that
      fuse_buf_copy copied.

      The shortcut sends all of its buffer.  The copy path keeps the count in an int: it sends the
      first bytes drawn from the vector, as many as the int says, or fails if that is negative.
      For a vector in memory it therefore sends the flattened rest exactly when that is below 2^31
      bytes. */
  method SendData(m: Machine, buf: BufVec, len: nat, region: FuseBuf, memOk: bool)
    returns (res: int, sent: seq<byte>, outLen: nat, ghost n: nat)
    requires buf.Valid() && buf.idx <= |buf.bufs| && AllFit(buf.bufs, m.memory.Length)
    requires len == Sum(buf.bufs) < SIZE_MAX
    requires region == FuseBuf(len, false, false, false, region.mem, 0, 0)
    requires Fits(region, m.memory.Length) && AllApart(buf.bufs, [region])
    modifies m`files, m`script, m.memory, buf
    ensures var rest := old(buf.Rest());
      old(Single(buf.bufs, buf.idx, buf.off)) ==>
        && res == 0 && AllMem(rest, m.memory.Length) && sent == Gathered(old(m.memory[..]), rest)
    ensures !old(Single(buf.bufs, buf.idx, buf.off)) && !memOk ==> res == ENOMEM
    ensures var rest := old(buf.Rest());
      !old(Single(buf.bufs, buf.idx, buf.off)) && memOk ==>
        && n <= |rest|
        && (res != 0 ==> res == -AsInt(n) || (n == 0 && 0 < res <= MAX_ERRNO))
        && (res == 0 ==> |sent| == AsInt(n) && sent == Drawn(old(m.St()), rest[..n])[..|sent|])
        && (AllInMemory(buf.bufs) ==>
              && n == |rest| && AllMem(rest, m.memory.Length)
              && (res == 0 && sent == Gathered(old(m.memory[..]), rest) <==> |rest| < TWO_31))
    ensures res == 0 ==> outLen == (OUT_HEADER + |sent|) % TWO_32
    ensures res != 0 ==> sent == [] && outLen == 0
  {
    hide Remaining, Drawn, Gathered, AsInt;
    n := 0;
    ghost var rest := buf.Rest();
    if AllInMemory(buf.bufs) {
      BothFit(buf.bufs, m.memory.Length);
      RestAllMem(buf.bufs, buf.idx, buf.off, m.memory.Length);
    }
    if |buf.bufs| == 1 && buf.idx == 0 && buf.off == 0 && !buf.bufs[0].isFd {
      sent := m.memory[buf.bufs[0].mem..buf.bufs[0].mem + buf.bufs[0].size];
      OneBuffer(buf.bufs);
      WholeBuffer(m.memory[..], buf.bufs);
      return 0, sent, (OUT_HEADER + len) % TWO_32, n;
    }
    if !memOk { return ENOMEM, [], 0, n; }
    ghost var failed;
    res, sent, failed, n := GatherByCopy(m, buf, len, region);
    if AllInMemory(buf.bufs) {
      assert rest[..n] == rest;
      DrawnFromMemory(old(m.St()), rest);
      if res >= 0 && |sent| == |rest| { assert Drawn(old(m.St()), rest)[..|sent|] == Drawn(old(m.St()), rest); }
    }
    if res < 0 { return -res, [], 0, n; }
    return 0, sent, (OUT_HEADER + res) % TWO_32, n;
  }

  lemma WholeBuffer(mem: seq<byte>, bufs: seq<FuseBuf>)
    requires |bufs| == 1 && !bufs[0].isFd && Fits(bufs[0], |mem|)
    ensures AllMem(Remaining(bufs, 0, 0), |mem|)
    ensures Gathered(mem, Remaining(bufs, 0, 0)) == mem[bufs[0].mem..bufs[0].mem + bufs[0].size]
  {
    OneBuffer(bufs);
    CellsInMemory(bufs[0], 0, bufs[0].size);
  }

  /** The copy path up to the allocated region: what fuse_buf_copy returns is cut to an int. */
  method GatherByCopy(m: Machine, buf: BufVec, len: nat, region: FuseBuf)
    returns (res: int, sent: seq<byte>, ghost failed: bool, ghost n: nat)
    requires buf.Valid() && buf.idx <= |buf.bufs| && AllFit(buf.bufs, m.memory.Length)
    requires len == Sum(buf.bufs) < SIZE_MAX
    requires region == FuseBuf(len, false, false, false, region.mem, 0, 0)
    requires Fits(region, m.memory.Length) && AllApart(buf.bufs, [region])
    modifies m`files, m`script, m.memory, buf
    ensures n <= |old(buf.Rest())| && (if failed then n == 0 && -MAX_ERRNO <= res < 0 else res == AsInt(n))
    ensures if res < 0 then sent == [] else |sent| == res <= n && sent == Drawn(old(m.St()), old(buf.Rest())[..n])[..res]
    ensures AllInMemory(buf.bufs) ==> !failed && n == |old(buf.Rest())|
  {
    hide CopiedRun, Remaining, Drawn, CursorsMoved, Moved, AsSsize, AsInt;
    ghost var st0, s0, si, soff := m.St(), buf.Rest(), buf.idx, buf.off;
    var memBuf := new BufVec([region]);
    ghost var d0 := memBuf.Rest();
    OneBuffer(memBuf.bufs);
    RestFitsSum(buf.bufs, buf.idx, buf.off);
    assert m.St() == st0;
    var count;
    ghost var last, rounds, cell, lost;
    count, failed, n, last, rounds, cell, lost := Copy(m, memBuf, buf);
    SourceMoved(buf.bufs, buf.idx, buf.Rest(), s0, memBuf.bufs, memBuf.idx, memBuf.off, memBuf.Rest(), d0, n, last, rounds);
    res := AsInt(count);
    if !failed { AsIntOfSsize(n); }
    RestOutside(buf.bufs, si, soff, region);
    RegionHolds(st0, m.St(), s0, region, n, cell);
    if res < 0 { return res, [], failed, n; }
    sent := m.memory[region.mem..region.mem + res];
    CutShort(m.memory[..], region.mem, n, res);
  }

  lemma CutShort(mem: seq<byte>, a: nat, n: nat, k: nat)
    requires k <= n && a + n <= |mem|
    ensures mem[a..a + k] == mem[a..a + n][..k]
  {
  }

  /** No cell in front of the cursor lies in a region apart from the vector. */
  lemma {:induction false} RestOutside(bufs: seq<FuseBuf>, idx: nat, off: nat, region: FuseBuf)
    requires !region.isFd && AllApart(bufs, [region])
    ensures forall k | 0 <= k < |Remaining(bufs, idx, off)| :: Outside(Remaining(bufs, idx, off)[k], region)
    decreases |bufs| - idx
  {
    if idx < |bufs| {
      RestOutside(bufs, idx + 1, 0, region);
      var b := bufs[idx];
      assert Apart(b, [region][0]);
      var h, t := Cells(b, off, if off <= b.size then b.size - off else 0), Remaining(bufs, idx + 1, 0);
      assert Remaining(bufs, idx, off) == h + t;
      forall k | 0 <= k < |h| ensures Outside(h[k], region) {
        assert h[k] == CellAt(b, off + k);
        if !b.isFd { NotBoth(b, region, b.mem + off + k); }
      }
    }
  }

  lemma RegionHolds(st: Store, st': Store, s0: seq<Cell>, region: FuseBuf, n: nat, cell: Cell)
    requires !region.isFd && Fits(region, |st.mem|) && n <= |s0| && n <= region.size
    requires forall k | 0 <= k < |s0| :: Outside(s0[k], region)
    requires CopiedRun(st, st', s0, Cells(region, 0, region.size), n, cell, 0)
    ensures |st'.mem| == |st.mem| && st'.mem[region.mem..region.mem + n] == Drawn(st, s0[..n])
  {
    hide Drawn, Outside;
    var d := Cells(region, 0, region.size)[..n];
    assert d == Cells(region, 0, n);
    assert forall k | 0 <= k < n :: s0[..n][k] == s0[k];
    SkipNothing(CopyBytes(st, s0[..n], d), cell);
    RegionHoldsDrawn(st, s0[..n], region, n);
  }

  /** Where the int goes wrong: of three gigabytes in two buffers the count comes out negative and
      nothing is sent; of four gigabytes it comes out zero and only a header is sent. */
  lemma CutCounts(a: nat, b: nat)
    ensures var three := [FuseBuf(0x4000_0000, false, false, false, a, 0, 0), FuseBuf(TWO_31, false, false, false, b, 0, 0)];
      |Remaining(three, 0, 0)| == Sum(three) == 0xC000_0000 && AsInt(0xC000_0000) == -0x4000_0000
    ensures var four := [FuseBuf(TWO_31, false, false, false, a, 0, 0), FuseBuf(TWO_31, false, false, false, b, 0, 0)];
      |Remaining(four, 0, 0)| == Sum(four) == TWO_32 && AsInt(TWO_32) == 0
  {
    TwoBuffers(FuseBuf(0x4000_0000, false, false, false, a, 0, 0), FuseBuf(TWO_31, false, false, false, b, 0, 0));
    TwoBuffers(FuseBuf(TWO_31, false, false, false, a, 0, 0), FuseBuf(TWO_31, false, false, false, b, 0, 0));
  }

  lemma TwoBuffers(x: FuseBuf, y: FuseBuf)
    ensures |Remaining([x, y], 0, 0)| == Sum([x, y]) == x.size + y.size
  {
    SumNext([], x);
    SumNext([x], y);
    assert [] + [x] == [x] && [x] + [y] == [x, y];
    assert Remaining([x, y], 2, 0) == [];
    assert |Remaining([x, y], 1, 0)| == y.size;
  }

  /** What a valid cursor has in front of it is no more than the whole vector. */
  lemma {:induction false} RestFitsSum(bufs: seq<FuseBuf>, idx: nat, off: nat)
    requires idx <= |bufs|
    ensures |Remaining(bufs, idx, off)| <= Sum(bufs)
    decreases |bufs| - idx
  {
    if idx < |bufs| {
      RestFitsTail(bufs, idx + 1);
      assert bufs[..idx+1][..idx] == bufs[..idx];
      SumOfGrows(bufs, SizeOf, idx + 1);
    }
  }

  lemma {:induction false} RestFitsTail(bufs: seq<FuseBuf>, idx: nat)
    requires idx <= |bufs|
    ensures |Remaining(bufs, idx, 0)| + Sum(bufs[..idx]) == Sum(bufs)
    decreases |bufs| - idx
  {
    if idx < |bufs| {
      RestFitsTail(bufs, idx + 1);
      assert bufs[..idx+1][..idx] == bufs[..idx];
    } else {
      assert bufs[..idx] == bufs;
    }
  }
}

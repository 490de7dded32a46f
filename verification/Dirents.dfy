/** Directory records: `fuse_add_direntry` of libs/libfuse/lib/fuse_lowlevel.c, and the two
    backends that pack records into a reply.  apps/fuse-perf-test/hello_ll.c packs the whole
    directory and answers with a slice of it, so its cookies are byte offsets;
    apps/fuse-perf-test/linux_hello_ll.c packs from an entry index on, so its cookies are
    indices.  Both are taken over an arbitrary list of entries. */
module Dirents {
  import opened Bytes
  import opened Wrappers
  import P = Protocol

  const NAME_OFFSET := 24
  const ROOT := 1

  /** The local buffer of the index backend. */
  const REPLY_MAX := 4096

  datatype Entry = Entry(name: seq<byte>, ino: nat, mode: nat)

  function Padded(n: nat): (r: nat)
    ensures n <= r < n + 8 && r % 8 == 0
  {
    (n + 7) / 8 * 8
  }

  function EntLen(name: seq<byte>): nat {
    Padded(NAME_OFFSET + |name|)
  }

  /** (mode & S_IFMT) >> 12 */
  function TypeOf(mode: nat): nat {
    mode / 4096 % 16
  }

  function Fixed(namelen: nat, ino: nat, mode: nat, off: nat): (r: seq<byte>)
    ensures |r| == NAME_OFFSET
  {
    Encode(8, ino) + Encode(8, off) + Encode(4, namelen) + Encode(4, TypeOf(mode))
  }

  /** A struct fuse_dirent: ino, off, namelen, type, then the name padded to eight bytes. */
  function Record(name: seq<byte>, ino: nat, mode: nat, off: nat): (r: seq<byte>)
    ensures |r| == EntLen(name)
  {
    Fixed(|name|, ino, mode, off) + name + Zeros(EntLen(name) - NAME_OFFSET - |name|)
  }

  /** A record takes the next multiple of eight behind 24 bytes and the name; the padding is zero. */
  lemma RecordSize(name: seq<byte>, ino: nat, mode: nat, off: nat)
    ensures var r := Record(name, ino, mode, off);
      && |r| % 8 == 0 && 24 + |name| <= |r| < 32 + |name|
      && r[24..24 + |name|] == name && forall k | 24 + |name| <= k < |r| :: r[k] == 0
  {
    hide Fixed;
  }

  // ---------- reading a record ----------

  datatype Dirent = Dirent(ino: nat, off: nat, typ: nat, name: seq<byte>)

  /** The reply holds its first record's fixed part and the whole of its name. */
  predicate Whole(s: seq<byte>) {
    NAME_OFFSET <= |s| && NAME_OFFSET + Field(s, 16, 4) <= |s|
  }

  function First(s: seq<byte>): Dirent
    requires Whole(s)
  {
    Dirent(Field(s, 0, 8), Field(s, 8, 8), Field(s, 20, 4), s[NAME_OFFSET..NAME_OFFSET + Field(s, 16, 4)])
  }

  lemma FixedFields(s: seq<byte>, namelen: nat, ino: nat, mode: nat, off: nat)
    requires Fixed(namelen, ino, mode, off) <= s
    ensures Field(s, 0, 8) == ino % TWO_64 && Field(s, 8, 8) == off % TWO_64
    ensures Field(s, 16, 4) == namelen % TWO_32 && Field(s, 20, 4) == TypeOf(mode)
  {
    hide Encode, Decode, Field, TypeOf, Range;
    var f := Fixed(namelen, ino, mode, off);
    assert s[..NAME_OFFSET] == f;
    assert s[0..8] == f[0..8] == Encode(8, ino);
    assert s[8..16] == f[8..16] == Encode(8, off);
    assert s[16..20] == f[16..20] == Encode(4, namelen);
    assert s[20..24] == f[20..24] == Encode(4, TypeOf(mode));
    FieldOf(s, 0, 8, ino);
    FieldOf(s, 8, 8, off);
    FieldOf(s, 16, 4, namelen);
    FieldOf(s, 20, 4, TypeOf(mode));
    Widths();
    SmallType(mode);
  }

  /** The type in a record is that of the mode: 4 for a directory, 8 for a regular file and so on,
      whatever the permission bits below and the bits above are. */
  lemma TypeOfMode(kind: nat, permissions: nat, above: nat)
    requires kind < 16 && permissions < 0x1000
    ensures TypeOf(above * 0x1_0000 + kind * 0x1000 + permissions) == kind
  {
    assert (above * 0x1_0000 + kind * 0x1000 + permissions) / 4096 == above * 16 + kind;
  }

  lemma SmallType(mode: nat)
    ensures TypeOf(mode) % TWO_32 == TypeOf(mode)
  {
  }

  /** A reply that starts with a record, cut off after k bytes: it can be decoded exactly when
      the name is still in it, and then it decodes to the entry that was packed. */
  lemma CutRecordDecodes(name: seq<byte>, ino: nat, mode: nat, off: nat, rest: seq<byte>, k: nat)
    requires |name| < TWO_32 && ino < TWO_64 && off < TWO_64
    requires k <= |Record(name, ino, mode, off) + rest|
    ensures var s := (Record(name, ino, mode, off) + rest)[..k];
      && (Whole(s) <==> NAME_OFFSET + |name| <= k)
      && (Whole(s) ==> First(s) == Dirent(ino, off, TypeOf(mode), name))
  {
    hide Fixed, Field, TypeOf;
    var s := (Record(name, ino, mode, off) + rest)[..k];
    if NAME_OFFSET <= k {
      assert Fixed(|name|, ino, mode, off) <= s;
      FixedFields(s, |name|, ino, mode, off);
    }
  }

  // ---------- writing a record ----------

  /** fuse_add_direntry: with no buffer, or one too small, only the size is computed. */
  method AddDirentry(buf: array?<byte>, at: nat, bufsize: nat, name: seq<byte>, ino: nat, mode: nat, off: nat)
    returns (n: nat)
    requires buf != null ==> at + bufsize <= buf.Length
    modifies if buf == null then {} else {buf}
    ensures n == EntLen(name)
    ensures buf != null && n <= bufsize ==> buf[..] == Splice(old(buf[..]), at, Record(name, ino, mode, off))
    ensures buf != null && n > bufsize ==> buf[..] == old(buf[..])
  {
    hide Encode, TypeOf, Splice, Padded;
    var namelen := |name|;
    var entlen := NAME_OFFSET + namelen;
    n := Padded(entlen);
    if buf == null || n > bufsize { return; }
    ghost var was := buf[..];
    Store(buf, at, 8, ino);
    Store(buf, at + 8, 8, off);
    SpliceSplice(was, at, Encode(8, ino), Encode(8, off));
    Store(buf, at + 16, 4, namelen);
    SpliceSplice(was, at, Encode(8, ino) + Encode(8, off), Encode(4, namelen));
    Store(buf, at + 20, 4, TypeOf(mode));
    SpliceSplice(was, at, Encode(8, ino) + Encode(8, off) + Encode(4, namelen), Encode(4, TypeOf(mode)));
    CopyIn(buf, at + NAME_OFFSET, name);
    SpliceSplice(was, at, Fixed(namelen, ino, mode, off), name);
    CopyIn(buf, at + entlen, Zeros(n - entlen));
    SpliceSplice(was, at, Fixed(namelen, ino, mode, off) + name, Zeros(n - entlen));
  }

  // ---------- the byte-offset backend ----------

  /** The records of all entries; each record's cookie is the offset of its own end. */
  function Packed(es: seq<Entry>): seq<byte> {
    if es == [] then []
    else
      var front, e := Packed(es[..|es|-1]), es[|es|-1];
      front + Record(e.name, e.ino, 0, |front| + EntLen(e.name))
  }

  /** Where record i begins. */
  function Boundary(es: seq<Entry>, i: nat): nat
    requires i <= |es|
  {
    |Packed(es[..i])|
  }

  lemma {:induction false} PackedPrefix(es: seq<Entry>, i: nat)
    requires i <= |es|
    ensures Packed(es[..i]) <= Packed(es)
    decreases |es|
  {
    if i == |es| {
      assert es[..i] == es;
    } else {
      PackedPrefix(es[..|es|-1], i);
      assert es[..|es|-1][..i] == es[..i];
    }
  }

  lemma NextBoundary(es: seq<Entry>, i: nat)
    requires i < |es|
    ensures Boundary(es, i + 1) == Boundary(es, i) + EntLen(es[i].name)
    ensures Packed(es[..i+1]) == Packed(es[..i]) + Record(es[i].name, es[i].ino, 0, Boundary(es, i + 1))
  {
    assert es[..i+1][..i] == es[..i];
  }

  /** From a boundary on, the buffer begins with the record that lies there. */
  lemma RecordAtBoundary(es: seq<Entry>, i: nat)
    requires i < |es|
    ensures Boundary(es, i) <= Boundary(es, i + 1) <= |Packed(es)|
    ensures Packed(es)[Boundary(es, i)..]
            == Record(es[i].name, es[i].ino, 0, Boundary(es, i + 1)) + Packed(es)[Boundary(es, i + 1)..]
  {
    hide Record, EntLen, Packed;
    PackedPrefix(es, i + 1);
    NextBoundary(es, i);
    var p, a, r := Packed(es), Packed(es[..i]), Record(es[i].name, es[i].ino, 0, Boundary(es, i + 1));
    assert p[..|a| + |r|] == a + r;
    assert p[|a|..] == r + p[|a| + |r|..];
  }

  lemma {:induction false} BoundariesGrow(es: seq<Entry>, i: nat, j: nat)
    requires i < j <= |es|
    ensures Boundary(es, i) < Boundary(es, j) <= |Packed(es)|
    decreases j
  {
    NextBoundary(es, j - 1);
    if i < j - 1 { BoundariesGrow(es, i, j - 1); }
    PackedPrefix(es, j);
  }

  /** struct dirbuf: a heap buffer that grows by one record at a time. */
  class DirBuf {
    var p: array<byte>
    var size: nat

    ghost predicate Valid()
      reads this
    {
      size == p.Length
    }

    constructor ()
      ensures Valid() && fresh(p) && p[..] == []
    {
      p := new byte[0];
      size := 0;
    }

    /** dirbuf_add: a sizing pass, a reallocation, and a filling pass into the space gained. */
    method Add(name: seq<byte>, ino: nat)
      requires Valid()
      modifies this
      ensures Valid() && fresh(p)
      ensures p[..] == old(p[..]) + Record(name, ino, 0, old(size) + EntLen(name))
    {
      hide Record;
      var oldsize := size;
      var n := AddDirentry(null, 0, 0, name, 0, 0, 0);
      size := size + n;
      p := Realloc(p, size);
      ghost var grown := p[..];
      var _ := AddDirentry(p, oldsize, size - oldsize, name, ino, 0, size);
      assert grown[..oldsize] == old(p[..]);
      assert p[..] == grown[..oldsize] + Record(name, ino, 0, size) + [];
    }
  }

  method Realloc(p: array<byte>, n: nat) returns (q: array<byte>)
    requires p.Length <= n
    ensures fresh(q) && q.Length == n && q[..p.Length] == p[..]
  {
    q := new byte[n](_ => 0);
    CopyIn(q, 0, p[..]);
    assert q[..p.Length] == p[..];
  }

  /** reply_buf_limited: the slice of the buffer from off on, at most maxsize bytes. */
  function Limited(buf: seq<byte>, off: nat, maxsize: nat): (r: P.Reply)
  {
    if off < |buf| then P.Data(buf[off..off + if |buf| - off < maxsize then |buf| - off else maxsize])
    else P.Data([])
  }

  function ByteReaddir(es: seq<Entry>, ino: nat, off: nat, size: nat): P.Reply {
    if ino != ROOT then P.Fail(ENOTDIR) else Limited(Packed(es), off, size)
  }

  method HelloReaddir(es: seq<Entry>, ino: nat, size: nat, off: nat) returns (r: P.Reply)
    ensures r == ByteReaddir(es, ino, off, size)
  {
    if ino != ROOT { return P.Fail(ENOTDIR); }
    var b := new DirBuf();
    var k := 0;
    while k < |es|
      invariant k <= |es| && b.Valid() && fresh(b)
      invariant b.p[..] == Packed(es[..k])
    {
      NextBoundary(es, k);
      b.Add(es[k].name, es[k].ino);
      k := k + 1;
    }
    assert es[..k] == es;
    r := Limited(b.p[..], off, size);
  }

  // ---------- the index backend ----------

  /** The records from entry i on, as many as fit into the room; a record's cookie is the index
      of the next entry. */
  function Fill(es: seq<Entry>, i: nat, room: nat): (r: seq<byte>)
    ensures |r| <= room
    decreases |es| - i
  {
    if i >= |es| || EntLen(es[i].name) > room then []
    else Record(es[i].name, es[i].ino, es[i].mode, i + 1) + Fill(es, i + 1, room - EntLen(es[i].name))
  }

  function IndexReaddir(es: seq<Entry>, ino: nat, off: nat, size: nat): P.Reply {
    if ino != ROOT then P.Fail(ENOTDIR) else P.Data(Fill(es, off, size))
  }

  /** A request for more than the local buffer would run past its end; the driver asks for
      exactly as much as it holds.  The loop counts in an int. */
  method LinuxReaddir(es: seq<Entry>, ino: nat, size: nat, off: nat) returns (r: P.Reply)
    requires size <= REPLY_MAX && off < TWO_31 && |es| < TWO_31
    ensures r == IndexReaddir(es, ino, off, size)
  {
    hide Record, EntLen, Fill, Splice;
    if ino != ROOT { return P.Fail(ENOTDIR); }
    var buf := new byte[REPLY_MAX](_ => 0);
    var pos, i := 0, off;
    assert buf[..0] == [];
    while i < |es|
      invariant 0 <= pos <= size
      invariant buf[..pos] + Fill(es, i, size - pos) == Fill(es, off, size)
      decreases |es| - i
    {
      ghost var was := buf[..];
      var n := AddDirentry(buf, pos, REPLY_MAX - pos, es[i].name, es[i].ino, es[i].mode, i + 1);
      if pos + n > size {
        PrefixKept(was, pos, Record(es[i].name, es[i].ino, es[i].mode, i + 1));
        break;
      }
      PrefixGrows(was, pos, Record(es[i].name, es[i].ino, es[i].mode, i + 1));
      OneMore(es, i, size - pos, was[..pos]);
      pos, i := pos + n, i + 1;
    }
    NoMore(es, i, size - pos, buf[..pos]);
    r := P.Data(buf[..pos]);
  }

  /** Storing behind position pos leaves what is in front of it, and prolongs it. */
  lemma PrefixKept(s: seq<byte>, pos: nat, e: seq<byte>)
    requires pos <= |s|
    ensures pos + |e| <= |s| ==> Splice(s, pos, e)[..pos] == s[..pos]
  {
  }

  lemma PrefixGrows(s: seq<byte>, pos: nat, e: seq<byte>)
    requires pos + |e| <= |s|
    ensures |Splice(s, pos, e)| == |s| && Splice(s, pos, e)[..pos + |e|] == s[..pos] + e
  {
  }

  lemma OneMore(es: seq<Entry>, i: nat, room: nat, front: seq<byte>)
    requires i < |es| && EntLen(es[i].name) <= room
    ensures front + Fill(es, i, room)
            == (front + Record(es[i].name, es[i].ino, es[i].mode, i + 1)) + Fill(es, i + 1, room - EntLen(es[i].name))
  {
  }

  lemma NoMore(es: seq<Entry>, i: nat, room: nat, front: seq<byte>)
    requires i >= |es| || EntLen(es[i].name) > room
    ensures front + Fill(es, i, room) == front
  {
    assert Fill(es, i, room) == [];
  }
}

/** Little-endian fields of the structures that libfuse and the driver lay over byte buffers. */
module Bytes {
  import opened Wrappers

  function Range(n: nat): (r: nat)
    ensures r > 0
  {
    if n == 0 then 1 else 256 * Range(n - 1)
  }

  /** The low n bytes of x, least significant first. */
  function Encode(n: nat, x: nat): (r: seq<byte>)
    ensures |r| == n
  {
    if n == 0 then [] else [x % 256] + Encode(n - 1, x / 256)
  }

  function Decode(s: seq<byte>): nat {
    if s == [] then 0 else s[0] + 256 * Decode(s[1..])
  }

  /** Reading back what was stored gives the value truncated to the width of the field. */
  lemma {:induction false} DecodeEncode(n: nat, x: nat)
    ensures Decode(Encode(n, x)) == x % Range(n)
  {
    if n != 0 {
      DecodeEncode(n - 1, x / 256);
      SplitMod(x, Range(n - 1));
    }
  }

  /** Storing again what was read gives the same bytes. */
  lemma {:induction false} EncodeDecode(s: seq<byte>)
    ensures Encode(|s|, Decode(s)) == s && Decode(s) < Range(|s|)
    decreases |s|
  {
    if s != [] {
      EncodeDecode(s[1..]);
      assert Decode(s) % 256 == s[0] && Decode(s) / 256 == Decode(s[1..]);
      assert [s[0]] + s[1..] == s;
    }
  }

  /** Little-endian: byte k is the k-th digit of the number to the base 256. */
  lemma {:induction false} LittleEndian(n: nat, x: nat, k: nat)
    requires k < n
    ensures Encode(n, x)[k] == x / Range(k) % 256
    decreases n
  {
    if k > 0 {
      LittleEndian(n - 1, x / 256, k - 1);
      DivDiv(x, Range(k - 1));
    }
  }

  lemma DivDiv(x: nat, m: nat)
    requires m > 0
    ensures x / 256 / m == x / (256 * m)
  {
    var q, r := x / 256 / m, x / 256 % m;
    assert x == 256 * (q * m + r) + x % 256;
    var low := x % 256 + 256 * r;
    assert 0 <= low < 256 * m by { assert r <= m - 1; }
    assert x == q * (256 * m) + low by { assert 256 * (q * m) == q * (256 * m); }
    DivIs(x, q, 256 * m, low);
  }

  lemma DivIs(x: nat, q: nat, m: nat, r: nat)
    requires r < m && x == q * m + r
    ensures x / m == q
  {
    var d := x / m - q;
    assert d * m == r - x % m by { assert d * m == (x / m) * m - q * m; }
    if d != 0 { Steep(d, m); }
  }

  lemma SplitMod(x: nat, m: nat)
    requires m > 0
    ensures x % 256 + 256 * ((x / 256) % m) == x % (256 * m)
  {
    var q, r := (x / 256) / m, (x / 256) % m;
    assert x == 256 * (q * m + r) + x % 256;
    var low := x % 256 + 256 * r;
    assert 0 <= low < 256 * m by { assert r <= m - 1; }
    assert x == q * (256 * m) + low by { assert 256 * (q * m) == q * (256 * m); }
    ModIs(x, q, 256 * m, low);
  }

  lemma ModIs(x: nat, q: nat, m: nat, r: nat)
    requires r < m && x == q * m + r
    ensures x % m == r
  {
    var d := x / m - q;
    assert d * m == r - x % m by { assert d * m == (x / m) * m - q * m; }
    if d != 0 { Steep(d, m); }
  }

  lemma Steep(d: int, m: nat)
    requires d != 0 && m > 0
    ensures d * m >= m || d * m + m <= 0
  {
  }

  lemma Widths()
    ensures Range(2) == 0x1_0000 && Range(4) == TWO_32 && Range(8) == TWO_64
  {
    assert Range(1) == 256;
    assert Range(3) == 256 * Range(2);
    assert Range(5) == 256 * Range(4);
    assert Range(6) == 256 * Range(5);
    assert Range(7) == 256 * Range(6);
  }

  /** Two adjacent stores are one. */
  lemma SpliceSplice(s: seq<byte>, at: nat, t: seq<byte>, u: seq<byte>)
    requires at + |t| + |u| <= |s|
    ensures Splice(Splice(s, at, t), at + |t|, u) == Splice(s, at, t + u)
  {
  }

  /** The value of the n-byte field at offset `at`. */
  function Field(s: seq<byte>, at: nat, n: nat): nat
    requires at + n <= |s|
  {
    Decode(s[at..at + n])
  }

  lemma FieldOf(s: seq<byte>, at: nat, n: nat, x: nat)
    requires at + n <= |s| && s[at..at + n] == Encode(n, x)
    ensures Field(s, at, n) == x % Range(n)
  {
    DecodeEncode(n, x);
  }

  lemma FieldBytes(s: seq<byte>, at: nat, n: nat)
    requires at + n <= |s|
    ensures s[at..at + n] == Encode(n, Field(s, at, n)) && Field(s, at, n) < Range(n)
  {
    EncodeDecode(s[at..at + n]);
  }

  /** One more byte stored behind the first k. */
  lemma SpliceNext(s: seq<byte>, at: nat, t: seq<byte>, k: nat)
    requires at + |t| <= |s| && k < |t|
    ensures |Splice(s, at, t[..k])| == |s|
    ensures Splice(s, at, t[..k])[at + k := t[k]] == Splice(s, at, t[..k + 1])
  {
  }

  lemma SpliceEnds(s: seq<byte>, at: nat, t: seq<byte>)
    requires at + |t| <= |s|
    ensures Splice(s, at, t[..0]) == s && t[..|t|] == t
  {
  }

  lemma NextByte(n: nat, x: nat, k: nat, rest: nat)
    requires k < n && Encode(n - k, rest) == Encode(n, x)[k..]
    ensures Encode(n, x)[k] == rest % 256 && Encode(n - k - 1, rest / 256) == Encode(n, x)[k + 1..]
  {
    var e := Encode(n, x);
    assert e[k..] == [rest % 256] + Encode(n - k - 1, rest / 256);
    assert e[k..][0] == e[k] && e[k..][1..] == e[k + 1..];
  }

  /** Stores an n-byte field in place. */
  method Store(a: array<byte>, at: nat, n: nat, x: nat)
    requires at + n <= a.Length
    modifies a
    ensures a[..] == Splice(old(a[..]), at, Encode(n, x))
  {
    hide Encode, Splice;
    var k, rest := 0, x;
    ghost var was, e := a[..], Encode(n, x);
    SpliceEnds(was, at, e);
    while k < n
      invariant k <= n && Encode(n - k, rest) == e[k..]
      invariant a[..] == Splice(was, at, e[..k])
    {
      NextByte(n, x, k, rest);
      SpliceNext(was, at, e, k);
      a[at + k] := rest % 256;
      k, rest := k + 1, rest / 256;
    }
  }

  /** memcpy of bytes from outside the array. */
  method CopyIn(a: array<byte>, at: nat, t: seq<byte>)
    requires at + |t| <= a.Length
    modifies a
    ensures a[..] == Splice(old(a[..]), at, t)
  {
    hide Splice;
    var k := 0;
    ghost var was := a[..];
    SpliceEnds(was, at, t);
    while k < |t|
      invariant k <= |t| && a[..] == Splice(was, at, t[..k])
    {
      SpliceNext(was, at, t, k);
      a[at + k] := t[k];
      k := k + 1;
    }
  }
}

/** Small pieces that several modules use. */
module Wrappers {
  datatype Option<+T> = None | Some(value: T)

  type byte = x: int | 0 <= x < 256

  const TWO_31 := 0x8000_0000
  const TWO_32 := 0x1_0000_0000
  const TWO_63 := 0x8000_0000_0000_0000
  const TWO_64 := 0x1_0000_0000_0000_0000

  const ENOENT := 2
  const EIO := 5
  const EBADF := 9
  const ENOMEM := 12
  const EACCES := 13
  const ENOTDIR := 20
  const EISDIR := 21
  const EINVAL := 22
  const ENOSYS := 38

  function Min(a: nat, b: nat): nat {
    if a < b then a else b
  }

  ghost predicate Distinct<T>(s: seq<T>) {
    forall i, j | 0 <= i < j < |s| :: s[i] != s[j]
  }

  function Zeros(n: nat): (z: seq<byte>)
    ensures |z| == n && forall k | 0 <= k < n :: z[k] == 0
  {
    seq(n, _ => 0)
  }

  /** m with the bytes from position a on replaced by b. */
  function Splice(m: seq<byte>, a: nat, b: seq<byte>): seq<byte>
    requires a + |b| <= |m|
  {
    m[..a] + b + m[a + |b|..]
  }

  /** The sizes of all elements added up. */
  function SumOf<T>(xs: seq<T>, size: T -> nat): nat {
    if xs == [] then 0 else SumOf(xs[..|xs|-1], size) + size(xs[|xs|-1])
  }

  lemma {:induction false} SumOfGrows<T>(xs: seq<T>, size: T -> nat, n: nat)
    requires n <= |xs|
    ensures SumOf(xs[..n], size) <= SumOf(xs, size)
    decreases |xs|
  {
    if n < |xs| {
      SumOfGrows(xs[..|xs|-1], size, n);
      assert xs[..|xs|-1][..n] == xs[..n];
    } else {
      assert xs[..n] == xs;
    }
  }

  /** Two sets that agree outside t differ in size only by t. */
  lemma MoveSet<T>(a: set<T>, b: set<T>, t: T)
    requires a - {t} == b - {t}
    ensures |b| - |a| == (if t in b then 1 else 0) - (if t in a then 1 else 0)
  {
    if t in a { assert a == (a - {t}) + {t}; } else { assert a == a - {t}; }
    if t in b { assert b == (b - {t}) + {t}; } else { assert b == b - {t}; }
  }
}

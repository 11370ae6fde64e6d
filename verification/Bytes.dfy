/** Big-endian integers and byte strings, as Python's `struct`, `int.to_bytes` and
    slicing treat them. */
module Bytes {
  type Byte = x: int | 0 <= x < 256

  const TWO32 := 0x1_0000_0000

  function Pow256(n: nat): (p: nat)
    ensures p > 0
  {
    if n == 0 then 1 else 256 * Pow256(n - 1)
  }

  lemma {:induction false} Pow256Values()
    ensures Pow256(1) == 0x100 && Pow256(2) == 0x1_0000 && Pow256(3) == 0x100_0000
    ensures Pow256(4) == TWO32 && Pow256(8) == 0x1_0000_0000_0000_0000
  {
    assert Pow256(4) == 256 * Pow256(3) == 65536 * Pow256(2);
    assert Pow256(8) == 256 * Pow256(7) == 65536 * Pow256(6) == 65536 * 256 * Pow256(5);
  }

  /** The value of a big-endian byte string. */
  function Be(s: seq<Byte>): (v: nat)
    ensures v < Pow256(|s|)
  {
    if s == [] then 0 else 256 * Be(s[..|s| - 1]) + s[|s| - 1]
  }

  /** The n-byte big-endian string of v. */
  function ToBe(v: int, n: nat): (s: seq<Byte>)
    ensures |s| == n
    decreases n
  {
    if n == 0 then [] else ToBe(v / 256, n - 1) + [v % 256]
  }

  lemma {:induction false} BeToBe(v: nat, n: nat)
    requires v < Pow256(n)
    ensures Be(ToBe(v, n)) == v
  {
    if n > 0 {
      BeToBe(v / 256, n - 1);
      assert ToBe(v, n)[..n - 1] == ToBe(v / 256, n - 1);
    }
  }

  lemma {:induction false} ToBeBe(s: seq<Byte>)
    ensures ToBe(Be(s), |s|) == s
  {
    if s != [] {
      ToBeBe(s[..|s| - 1]);
      assert s == s[..|s| - 1] + [s[|s| - 1]];
    }
  }

  /** The high byte comes first. */
  lemma {:induction false} BeWord(a: Byte, b: Byte, c: Byte, d: Byte)
    ensures Be([a, b]) == 0x100 * a + b
    ensures Be([a, b, c]) == 0x1_0000 * a + 0x100 * b + c
    ensures Be([a, b, c, d]) == 0x100_0000 * a + 0x1_0000 * b + 0x100 * c + d
  {
    assert [a, b, c, d][..3] == [a, b, c] && [a, b, c][..2] == [a, b] && [a, b][..1] == [a] && [a][..0] == [];
    assert Be([a]) == a && Be([a, b]) == 256 * Be([a]) + b && Be([a, b, c]) == 256 * Be([a, b]) + c;
    assert Be([a, b, c, d]) == 256 * Be([a, b, c]) + d;
  }

  /** And the low 32 bits are what is written. */
  lemma {:induction false} ToBeWord(v: int)
    ensures ToBe(v, 4) == [v / 0x100_0000 % 0x100, v / 0x1_0000 % 0x100, v / 0x100 % 0x100, v % 0x100]
    ensures ToBe(v, 2) == [v / 0x100 % 0x100, v % 0x100]
  {
    var v1 := v / 256;
    var v2 := v1 / 256;
    var v3 := v2 / 256;
    assert v2 == v / 0x1_0000 && v3 == v / 0x100_0000;
    assert ToBe(v3, 1) == ToBe(v3 / 256, 0) + [v3 % 256] && ToBe(v3 / 256, 0) == [];
    assert ToBe(v2, 2) == ToBe(v3, 1) + [v2 % 256] && ToBe(v1, 3) == ToBe(v2, 2) + [v1 % 256];
    assert ToBe(v1, 1) == ToBe(v2, 0) + [v1 % 256] && ToBe(v2, 0) == [];
    assert ToBe(v, 2) == ToBe(v1, 1) + [v % 256] && ToBe(v, 4) == ToBe(v1, 3) + [v % 256];
  }

  function Zeros(n: int): (s: seq<Byte>)
    ensures |s| == if n < 0 then 0 else n
    ensures forall i :: 0 <= i < |s| ==> s[i] == 0
  {
    seq(if n < 0 then 0 else n, _ => 0)
  }

  /** Python's `b[i:j]` for non-negative bounds: both ends are clipped to the length. */
  function Slice<T>(b: seq<T>, i: nat, j: nat): (s: seq<T>)
    ensures i <= j <= |b| ==> s == b[i..j]
  {
    var hi := if j < |b| then j else |b|;
    if i <= hi then b[i..hi] else []
  }

  /** `data[a:a+|x|] = x` on a string that is long enough. */
  function Splice<T>(s: seq<T>, a: nat, x: seq<T>): (r: seq<T>)
    requires a + |x| <= |s|
    ensures |r| == |s|
    ensures forall i :: 0 <= i < |r| ==> r[i] == if a <= i < a + |x| then x[i - a] else s[i]
  {
    s[..a] + x + s[a + |x|..]
  }

  /** `block * n`. */
  function Times<T>(n: nat, block: seq<T>): seq<T> {
    if n == 0 then [] else block + Times(n - 1, block)
  }

  lemma {:induction false} Regroup<T>(a: seq<T>, b: seq<T>, c: seq<T>, d: seq<T>)
    ensures a + (b + (c + d)) == a + b + c + d
  {
  }

  lemma {:induction false} SubSlice<T>(raw: seq<T>, at: nat, end: nat, i: nat, j: nat)
    requires at <= end <= |raw| && i <= j <= end - at
    ensures raw[at..end][i..j] == raw[at + i..at + j]
  {
    var a, b := raw[at..end][i..j], raw[at + i..at + j];
    assert |a| == |b|;
    forall k | 0 <= k < |a| ensures a[k] == b[k] {
      assert a[k] == raw[at..end][i + k] == raw[at + i + k];
    }
    assert a == b;
  }
}

/** Bytes, powers of two and the fixed-width big-endian integers of util/functions.cpp. */
module Bytes {

  datatype Option<+T> = None | Some(value: T)

  const UINT32 := 0x1_0000_0000
  const UINT64 := 0x1_0000_0000_0000_0000

  newtype byte = x: int | 0 <= x < 256

  type bytes = seq<byte>

  function Min(a: nat, b: nat): nat {
    if a <= b then a else b
  }

  lemma SubsetSize<T>(a: set<T>, b: set<T>)
    requires a <= b
    ensures |a| <= |b| && (|a| == |b| ==> a == b)
  {
    assert b == a + (b - a);
    assert |b| == |a| + |b - a|;
  }

  /** 2 to the power n. */
  function Pow2(n: nat): (p: nat)
    ensures p >= 1
  {
    if n == 0 then 1 else 2 * Pow2(n - 1)
  }

  lemma {:induction false} Pow2Add(a: nat, b: nat)
    ensures Pow2(a + b) == Pow2(a) * Pow2(b)
  {
    if a != 0 {
      Pow2Add(a - 1, b);
      assert Pow2(a + b) == 2 * (Pow2(a - 1) * Pow2(b));
    }
  }

  lemma {:induction false} Pow2Monotone(a: nat, b: nat)
    requires a < b
    ensures 2 * Pow2(a) <= Pow2(b)
    decreases b - a
  {
    if a + 1 < b {
      Pow2Monotone(a + 1, b);
    }
  }

  lemma Pow2Small()
    ensures Pow2(1) == 2 && Pow2(2) == 4 && Pow2(3) == 8 && Pow2(4) == 16
    ensures Pow2(5) == 32 && Pow2(6) == 64 && Pow2(7) == 128 && Pow2(8) == 256
  {
    assert Pow2(4) == 2 * Pow2(3);
    assert Pow2(6) == 2 * Pow2(5);
    assert Pow2(8) == 2 * Pow2(7);
  }

  lemma Pow2Wide()
    ensures Pow2(16) == 0x1_0000 && Pow2(32) == 0x1_0000_0000 && Pow2(64) == 0x1_0000_0000_0000_0000
  {
    Pow2Small();
    Pow2Add(8, 8);
    Pow2Add(16, 16);
    Pow2Add(32, 32);
  }

  /** The number that a big-endian byte string stands for. */
  function Val(k: bytes): (v: nat)
  {
    if k == [] then 0 else k[0] as nat * Pow2(8 * (|k| - 1)) + Val(k[1..])
  }

  lemma {:induction false} ValBound(k: bytes)
    ensures Val(k) < Pow2(8 * |k|)
  {
    if k != [] {
      ValBound(k[1..]);
      Pow2Split(|k|);
      var unit := Pow2(8 * (|k| - 1));
      MulLe(k[0] as nat, 255, unit);
    }
  }

  lemma Pow2Split(n: nat)
    requires n > 0
    ensures Pow2(8 * n) == 256 * Pow2(8 * (n - 1))
  {
    Pow2Add(8, 8 * (n - 1));
    Pow2Small();
  }

  lemma MulLe(a: nat, b: nat, c: nat)
    requires a <= b
    ensures a * c <= b * c
  {
  }

  /** Two byte strings of equal length stand for the same number only if they are the same. */
  lemma {:induction false} ValInjective(a: bytes, b: bytes)
    requires |a| == |b| && Val(a) == Val(b)
    ensures a == b
  {
    if a != [] {
      if a[0] < b[0] {
        HeadDecides(a, b);
      } else if b[0] < a[0] {
        HeadDecides(b, a);
      } else {
        ValInjective(a[1..], b[1..]);
        assert a == [a[0]] + a[1..];
        assert b == [b[0]] + b[1..];
      }
    }
  }

  /** The first byte that differs decides the numeric order. */
  lemma HeadDecides(a: bytes, b: bytes)
    requires |a| == |b| && a != [] && a[0] < b[0]
    ensures Val(a) < Val(b)
  {
    var unit := Pow2(8 * (|a| - 1));
    ValBound(a[1..]);
    MulLe(a[0] as nat + 1, b[0] as nat, unit);
    assert (a[0] as nat + 1) * unit == a[0] as nat * unit + unit;
  }

  /** WriteUint16, WriteUint32 and WriteUint64: n bytes, most significant first. */
  function BigEndian(v: nat, n: nat): (r: bytes)
    requires v < Pow2(8 * n)
    ensures |r| == n && Val(r) == v
  {
    if n == 0 then []
    else
      var unit := Pow2(8 * (n - 1));
      Pow2Split(n);
      HighByte(v, unit);
      var high, rest := (v / unit) as byte, BigEndian(v % unit, n - 1);
      ValCons(high, rest);
      [high] + rest
  }

  lemma ValCons(high: byte, rest: bytes)
    ensures Val([high] + rest) == high as nat * Pow2(8 * |rest|) + Val(rest)
  {
    assert ([high] + rest)[1..] == rest;
  }

  lemma HighByte(v: nat, unit: nat)
    requires unit > 0 && v < 256 * unit
    ensures 0 <= v / unit < 256 && 0 <= v % unit < unit && v == (v / unit) * unit + v % unit
  {
  }

  /** Writing a number back that was read from n bytes gives those n bytes. */
  lemma BigEndianOfVal(k: bytes)
    ensures Val(k) < Pow2(8 * |k|) && BigEndian(Val(k), |k|) == k
  {
    ValBound(k);
    ValInjective(BigEndian(Val(k), |k|), k);
  }
}

/** The binary digits of the numbers that fit a byte, and the bit operators of the source on them. */
module Bits {
  import opened Bytes

  /** Bit i of a number, counted from the least significant end. */
  predicate NatBit(x: nat, i: nat) {
    if i == 0 then x % 2 == 1 else NatBit(x / 2, i - 1)
  }

  /** The exclusive or: a bit is on where exactly one of the two numbers has it on. */
  function XorNat(x: nat, y: nat): nat {
    if x == 0 && y == 0 then 0
    else 2 * XorNat(x / 2, y / 2) + (if x % 2 == y % 2 then 0 else 1)
  }

  function WithBit(x: nat, i: nat, on: bool): nat {
    if i == 0 then 2 * (x / 2) + (if on then 1 else 0)
    else 2 * WithBit(x / 2, i - 1, on) + x % 2
  }

  lemma {:induction false} ZeroBits(i: nat)
    ensures !NatBit(0, i)
  {
    if i > 0 {
      ZeroBits(i - 1);
    }
  }

  lemma {:induction false} XorNatBits(x: nat, y: nat, i: nat)
    ensures NatBit(XorNat(x, y), i) <==> NatBit(x, i) != NatBit(y, i)
  {
    if x == 0 && y == 0 {
      ZeroBits(i);
    } else if i > 0 {
      XorNatBits(x / 2, y / 2, i - 1);
      assert XorNat(x, y) / 2 == XorNat(x / 2, y / 2);
    }
  }

  lemma {:induction false} XorNatLaws(x: nat, y: nat)
    ensures XorNat(x, y) == XorNat(y, x)
    ensures XorNat(x, y) == 0 <==> x == y
    ensures XorNat(x, XorNat(x, y)) == y
  {
    if x != 0 || y != 0 {
      XorNatLaws(x / 2, y / 2);
      var z := XorNat(x, y);
      assert z / 2 == XorNat(x / 2, y / 2);
    }
  }

  lemma {:induction false} XorNatBound(x: nat, y: nat, k: nat)
    requires x < Pow2(k) && y < Pow2(k)
    ensures XorNat(x, y) < Pow2(k)
  {
    if k > 0 && (x != 0 || y != 0) {
      XorNatBound(x / 2, y / 2, k - 1);
    }
  }

  lemma {:induction false} WithBitBits(x: nat, i: nat, on: bool, k: nat)
    ensures NatBit(WithBit(x, i, on), k) <==> (if k == i then on else NatBit(x, k))
  {
    if i > 0 && k > 0 {
      WithBitBits(x / 2, i - 1, on, k - 1);
      assert WithBit(x, i, on) / 2 == WithBit(x / 2, i - 1, on);
    } else if i == 0 && k > 0 {
      assert WithBit(x, 0, on) / 2 == x / 2;
    }
  }

  lemma {:induction false} WithBitBound(x: nat, i: nat, on: bool, k: nat)
    requires x < Pow2(k) && i < k
    ensures WithBit(x, i, on) < Pow2(k)
  {
    if i > 0 {
      assert x / 2 < Pow2(k - 1);
      WithBitBound(x / 2, i - 1, on, k - 1);
      assert WithBit(x, i, on) == 2 * WithBit(x / 2, i - 1, on) + x % 2;
    } else {
      assert x / 2 < Pow2(k - 1);
      assert WithBit(x, i, on) <= 2 * (x / 2) + 1;
    }
  }

  /** The highest bit that is on bounds the number from both sides. */
  lemma {:induction false} HighestBit(x: nat, i: nat, k: nat)
    requires x < Pow2(k) && i < k && NatBit(x, i)
    requires forall h :: i < h < k ==> !NatBit(x, h)
    ensures Pow2(i) <= x < Pow2(i + 1)
  {
    if i > 0 {
      forall h | i - 1 < h < k - 1
        ensures !NatBit(x / 2, h)
      {
        assert !NatBit(x, h + 1);
      }
      HighestBit(x / 2, i - 1, k - 1);
    } else {
      OnlyLowBit(x, k);
    }
  }

  lemma {:induction false} OnlyLowBit(x: nat, k: nat)
    requires x < Pow2(k) && k > 0 && NatBit(x, 0)
    requires forall h :: 0 < h < k ==> !NatBit(x, h)
    ensures x == 1
  {
    forall h | 0 <= h < k - 1
      ensures !NatBit(x / 2, h)
    {
      assert !NatBit(x, h + 1);
    }
    NoBits(x / 2, k - 1);
  }

  lemma {:induction false} NoBits(x: nat, k: nat)
    requires x < Pow2(k) && forall h :: 0 <= h < k ==> !NatBit(x, h)
    ensures x == 0
  {
    if k > 0 {
      forall h | 0 <= h < k - 1
        ensures !NatBit(x / 2, h)
      {
        assert !NatBit(x, h + 1);
      }
      assert !NatBit(x, 0);
      NoBits(x / 2, k - 1);
    }
  }

  function XorByte(a: byte, b: byte): (r: byte)
    ensures r as nat == XorNat(a as nat, b as nat)
  {
    Pow2Small();
    XorNatBound(a as nat, b as nat, 8);
    XorNat(a as nat, b as nat) as byte
  }

  /** The test x & (0x80 >> j): bit j of a byte, counted from the most significant end. */
  predicate BitOn(x: byte, j: nat)
    requires j < 8
  {
    NatBit(x as nat, 7 - j)
  }

  /** The assignments x |= 0x80 >> j and x &= ~(0x80 >> j). */
  function PutBit(x: byte, j: nat, on: bool): (r: byte)
    requires j < 8
    ensures forall k: nat :: k < 8 ==> (BitOn(r, k) <==> if k == j then on else BitOn(x, k))
  {
    Pow2Small();
    WithBitBound(x as nat, 7 - j, on, 8);
    var r := WithBit(x as nat, 7 - j, on) as byte;
    assert forall k: nat :: k < 8 ==> (BitOn(r, k) <==> if k == j then on else BitOn(x, k)) by {
      forall k: nat | k < 8
        ensures BitOn(r, k) <==> if k == j then on else BitOn(x, k)
      {
        WithBitBits(x as nat, 7 - j, on, 7 - k);
      }
    }
    r
  }

  lemma BitOfXor(a: byte, b: byte, j: nat)
    requires j < 8
    ensures BitOn(XorByte(a, b), j) <==> BitOn(a, j) != BitOn(b, j)
  {
    XorNatBits(a as nat, b as nat, 7 - j);
  }

  /** The first bit that is on bounds the byte from both sides. */
  lemma FirstBitBounds(x: byte, j: nat)
    requires j < 8 && BitOn(x, j)
    requires forall i: nat :: i < j ==> !BitOn(x, i)
    ensures Pow2(7 - j) <= x as nat < Pow2(8 - j)
  {
    Pow2Small();
    var n: nat := x as nat;
    forall h | 7 - j < h < 8
      ensures !NatBit(n, h)
    {
      assert !BitOn(x, 7 - h);
    }
    HighestBit(n, 7 - j, 8);
  }

  /** A byte other than zero has a bit on. */
  lemma SomeBitOn(x: byte)
    requires forall j: nat :: j < 8 ==> !BitOn(x, j)
    ensures x == 0
  {
    Pow2Small();
    var n: nat := x as nat;
    forall h | 0 <= h < 8
      ensures !NatBit(n, h)
    {
      assert !BitOn(x, 7 - h);
    }
    NoBits(n, 8);
  }
}

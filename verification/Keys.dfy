/** 160-bit keys of the distributed hash table: order, XOR distance and single bits. */
module Keys {
  import opened Bits
  import opened Bytes

  type Key = k: bytes | |k| == 20 witness seq(20, _ => 0 as byte)

  /** The order of the keys as numbers; std::map and std::set iterate in this order. */
  predicate Less(a: Key, b: Key) {
    Val(a) < Val(b)
  }

  /** Key::distance: the bytewise exclusive or. */
  function Distance(a: Key, b: Key): Key {
    seq(20, i requires 0 <= i < 20 => XorByte(a[i], b[i]))
  }

  /** Key::operator<, a loop that stops at the first byte that differs. */
  method LessThan(a: Key, b: Key) returns (r: bool)
    ensures r <==> Less(a, b)
  {
    for i := 0 to 20
      invariant a[..i] == b[..i]
    {
      if a[i] < b[i] {
        CommonPrefix(a, b, i);
        HeadDecides(a[i..], b[i..]);
        return true;
      } else if a[i] > b[i] {
        CommonPrefix(a, b, i);
        HeadDecides(b[i..], a[i..]);
        return false;
      }
    }
    assert a[..20] == a && b[..20] == b;
    return false;
  }

  /** Key::operator>, the mirror image of operator<. */
  method GreaterThan(a: Key, b: Key) returns (r: bool)
    ensures r <==> Less(b, a)
  {
    for i := 0 to 20
      invariant a[..i] == b[..i]
    {
      if a[i] < b[i] {
        CommonPrefix(a, b, i);
        HeadDecides(a[i..], b[i..]);
        return false;
      } else if a[i] > b[i] {
        CommonPrefix(a, b, i);
        HeadDecides(b[i..], a[i..]);
        return true;
      }
    }
    assert a[..20] == a && b[..20] == b;
    return false;
  }

  /** A common prefix leaves the order to the rest. */
  lemma {:induction false} CommonPrefix(a: bytes, b: bytes, i: nat)
    requires |a| == |b| && i <= |a| && a[..i] == b[..i]
    ensures Val(a) - Val(b) == Val(a[i..]) - Val(b[i..])
  {
    if i != 0 {
      assert a[0] == a[..i][0] == b[..i][0] == b[0];
      assert a[1..][..i - 1] == a[..i][1..] == b[..i][1..] == b[1..][..i - 1];
      CommonPrefix(a[1..], b[1..], i - 1);
      assert a[1..][i - 1..] == a[i..] && b[1..][i - 1..] == b[i..];
    } else {
      assert a[i..] == a && b[i..] == b;
    }
  }

  /** The order is total: keys with equal numbers are equal keys. */
  lemma LessIsTotal(a: Key, b: Key)
    ensures Less(a, b) || Less(b, a) || a == b
    ensures !(Less(a, b) && Less(b, a)) && !(Less(a, b) && a == b) && !(Less(b, a) && a == b)
  {
    if Val(a) == Val(b) {
      ValInjective(a, b);
    }
  }

  /** Two keys are at distance zero exactly when they are equal. */
  lemma DistanceZero(a: Key, b: Key)
    ensures Val(Distance(a, b)) == 0 <==> a == b
  {
    var d := Distance(a, b);
    var zero: Key := seq(20, _ => 0 as byte);
    ZeroVal(zero);
    if Val(d) == 0 {
      ValInjective(d, zero);
      forall i | 0 <= i < 20
        ensures a[i] == b[i]
      {
        assert d[i] == zero[i];
        XorNatLaws(a[i] as nat, b[i] as nat);
      }
    }
    if a == b {
      forall i | 0 <= i < 20
        ensures d[i] == zero[i]
      {
        XorNatLaws(a[i] as nat, b[i] as nat);
      }
      assert d == zero;
    }
  }

  lemma {:induction false} ZeroVal(k: bytes)
    requires forall i :: 0 <= i < |k| ==> k[i] == 0
    ensures Val(k) == 0
  {
    if k != [] {
      ZeroVal(k[1..]);
    }
  }

  /** For a fixed target no two keys are equally far away, and the distance is symmetric. */
  lemma DistanceInjective(target: Key, a: Key, b: Key)
    ensures Distance(target, a) == Distance(target, b) ==> a == b
    ensures Distance(a, b) == Distance(b, a)
  {
    forall i | 0 <= i < 20
      ensures Distance(target, a)[i] == Distance(target, b)[i] ==> a[i] == b[i]
      ensures Distance(a, b)[i] == Distance(b, a)[i]
    {
      XorNatLaws(target[i] as nat, a[i] as nat);
      XorNatLaws(target[i] as nat, b[i] as nat);
      XorNatLaws(a[i] as nat, b[i] as nat);
    }
  }

  /** How far a key is from a target, as a number. */
  function Rank(target: Key, k: Key): nat {
    Val(Distance(target, k))
  }

  lemma RankInjective(target: Key, a: Key, b: Key)
    ensures Rank(target, a) == Rank(target, b) ==> a == b
  {
    if Rank(target, a) == Rank(target, b) {
      ValInjective(Distance(target, a), Distance(target, b));
      DistanceInjective(target, a, b);
    }
  }

  /** Bit i of a key, counted from the most significant end. */
  predicate KeyBit(k: Key, i: nat)
    requires i < 160
  {
    BitOn(k[i / 8], i % 8)
  }

  /** The position of the highest bit of a number, counted from the least significant end. */
  function Log2(n: nat): (i: nat)
    requires n > 0
    ensures Pow2(i) <= n < Pow2(i + 1)
  {
    if n == 1 then 0 else 1 + Log2(n / 2)
  }

  /** The bounds determine the position. */
  lemma Log2Unique(n: nat, i: nat)
    requires n > 0
    ensures Log2(n) == i <==> Pow2(i) <= n < Pow2(i + 1)
  {
    var l := Log2(n);
    if i < l {
      Pow2Monotone(i, l);
    } else if l < i {
      Pow2Monotone(l, i);
    }
  }

  /** Leading zero bytes followed by a byte whose first bit on is j place the whole number. */
  lemma LeadingBit(d: bytes, i: nat, j: nat)
    requires i < |d| && j < 8
    requires forall k :: 0 <= k < i ==> d[k] == 0
    requires BitOn(d[i], j) && forall k: nat :: k < j ==> !BitOn(d[i], k)
    ensures var b := (|d| - 1 - i) * 8 + (7 - j);
            Pow2(b) <= Val(d) < Pow2(b + 1)
  {
    FirstBitBounds(d[i], j);
    LeadingByte(d, i, j);
  }

  lemma {:induction false} LeadingByte(d: bytes, i: nat, j: nat)
    requires i < |d| && j < 8
    requires forall k :: 0 <= k < i ==> d[k] == 0
    requires Pow2(7 - j) <= d[i] as nat < Pow2(8 - j)
    ensures var b := (|d| - 1 - i) * 8 + (7 - j);
            Pow2(b) <= Val(d) < Pow2(b + 1)
  {
    if i > 0 {
      SkipZero(d);
      LeadingByte(d[1..], i - 1, j);
    } else {
      FirstByteBounds(d[0], d[1..], 7 - j);
      assert d == [d[0]] + d[1..];
    }
  }

  lemma SkipZero(d: bytes)
    requires d != [] && d[0] == 0
    ensures Val(d) == Val(d[1..])
  {
  }

  lemma FirstByteBounds(high: byte, rest: bytes, e: nat)
    requires Pow2(e) <= high as nat < Pow2(e + 1)
    ensures var b := |rest| * 8 + e; Pow2(b) <= Val([high] + rest) < Pow2(b + 1)
  {
    hide Val, Pow2;
    var low := 8 * |rest|;
    ValCons(high, rest);
    ValBound(rest);
    Pow2Add(e, low);
    Pow2Add(e + 1, low);
    ScaleBounds(high as nat, Pow2(e), Pow2(e + 1), Pow2(low), Val(rest));
  }

  lemma ScaleBounds(x: nat, lo: nat, hi: nat, unit: nat, rest: nat)
    requires lo <= x < hi && rest < unit
    ensures lo * unit <= x * unit + rest < hi * unit
  {
    MulLe(lo, x, unit);
    MulLe(x + 1, hi, unit);
  }
}

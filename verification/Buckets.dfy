/** Which bucket an id belongs to, and keys to refresh a bucket with (node.cpp). */
module Buckets {
  import opened Bits
  import opened Bytes
  import opened Keys

  /** The documented rule: bucket i holds the ids whose distance d to ours has 2^i <= d < 2^(i+1). */
  ghost predicate InBucket(i: nat, id: Key, ourId: Key) {
    Pow2(i) <= Rank(id, ourId) < Pow2(i + 1)
  }

  /** Node::findBucket: the first bit on in the distance, or 0xFF. */
  method FindBucket(id: Key, ourId: Key) returns (bitOn: nat)
    ensures bitOn == 0xFF <==> id == ourId
    ensures bitOn != 0xFF ==> bitOn < 160 && InBucket(bitOn, id, ourId)
  {
    var d := Distance(id, ourId);
    DistanceZero(id, ourId);
    for i := 0 to 20
      invariant forall k :: 0 <= k < i ==> d[k] == 0
    {
      var b := d[i];
      if b == 0 {
        continue;
      }
      for j: nat := 0 to 8
        invariant forall k: nat :: k < j ==> !BitOn(b, k)
      {
        if BitOn(b, j) {
          LeadingBit(d, i, j);
          Pow2Positive(d, (19 - i) * 8 + (7 - j));
          return (19 - i) * 8 + (7 - j);
        }
      }
      SomeBitOn(b);
      assert false;
    }
    ZeroVal(d);
    return 0xFF;
  }

  lemma Pow2Positive(d: Key, b: nat)
    requires Pow2(b) <= Val(d)
    ensures Val(d) != 0
  {
  }

  /** The rule places every other id in one bucket and only one: the position of the highest bit of the
      distance. */
  lemma BucketIsLog(i: nat, id: Key, ourId: Key)
    requires id != ourId
    ensures Rank(id, ourId) > 0
    ensures InBucket(i, id, ourId) <==> i == Log2(Rank(id, ourId))
  {
    DistanceZero(id, ourId);
    Log2Unique(Rank(id, ourId), i);
  }

  lemma OwnIdInNoBucket(i: nat, id: Key)
    ensures !InBucket(i, id, id)
  {
    DistanceZero(id, id);
  }

  /** RandomKeyInBucket, the random key being a parameter. Bit b is counted from the most significant end. */
  method RandomKeyInBucket(b: nat, ourId: Key, random: Key) returns (r: Key)
    requires b < 160
    ensures forall i: nat :: i < b ==> (KeyBit(r, i) <==> KeyBit(ourId, i))
    ensures KeyBit(r, b) <==> !KeyBit(ourId, b)
    ensures forall i: nat :: b < i < 160 ==> (KeyBit(r, i) <==> KeyBit(random, i))
  {
    var data := new byte[20](i requires 0 <= i < 20 => random[i]);
    var nb := b / 8;
    for i := 0 to nb
      invariant data[..i] == ourId[..i] && data[i..] == random[i..]
    {
      data[i] := ourId[i];
    }
    var ob := ourId[nb];
    for j := 0 to b % 8
      invariant data[..nb] == ourId[..nb] && data[nb + 1..] == random[nb + 1..]
      invariant forall k: nat :: k < 8 ==> (BitOn(data[nb], k) <==> BitOn(if k < j then ob else random[nb], k))
    {
      if BitOn(ob, j) {
        data[nb] := PutBit(data[nb], j, true);
      } else {
        data[nb] := PutBit(data[nb], j, false);
      }
    }
    if BitOn(ob, b % 8) {
      data[nb] := PutBit(data[nb], b % 8, false);
    } else {
      data[nb] := PutBit(data[nb], b % 8, true);
    }
    r := data[..];
    assert r[..nb] == ourId[..nb] && r[nb + 1..] == random[nb + 1..];
    BitsByByte(r, ourId, random, b);
  }

  lemma BitsByByte(r: Key, ourId: Key, random: Key, b: nat)
    requires b < 160
    requires var nb := b / 8;
             && r[..nb] == ourId[..nb] && r[nb + 1..] == random[nb + 1..]
             && (forall k: nat :: k < b % 8 ==> (BitOn(r[nb], k) <==> BitOn(ourId[nb], k)))
             && (forall k: nat :: b % 8 < k < 8 ==> (BitOn(r[nb], k) <==> BitOn(random[nb], k)))
    ensures forall i: nat :: i < b ==> (KeyBit(r, i) <==> KeyBit(ourId, i))
    ensures forall i: nat :: b < i < 160 ==> (KeyBit(r, i) <==> KeyBit(random, i))
  {
    var nb := b / 8;
    forall i: nat | i < b
      ensures KeyBit(r, i) <==> KeyBit(ourId, i)
    {
      if i / 8 < nb {
        assert r[i / 8] == r[..nb][i / 8] == ourId[..nb][i / 8];
      }
    }
    forall i: nat | b < i < 160
      ensures KeyBit(r, i) <==> KeyBit(random, i)
    {
      if i / 8 > nb {
        assert r[i / 8] == r[nb + 1..][i / 8 - nb - 1] == random[nb + 1..][i / 8 - nb - 1];
      }
    }
  }

  /** A key that agrees with ours on the first b bits and differs at bit b is in bucket 159 - b. */
  lemma PrefixPlacesKey(r: Key, ourId: Key, b: nat)
    requires b < 160
    requires forall i: nat :: i < b ==> (KeyBit(r, i) <==> KeyBit(ourId, i))
    requires KeyBit(r, b) <==> !KeyBit(ourId, b)
    ensures r != ourId && InBucket(159 - b, r, ourId)
  {
    var d := Distance(r, ourId);
    var nb := b / 8;
    forall k | 0 <= k < nb
      ensures d[k] == 0
    {
      forall j: nat | j < 8
        ensures !BitOn(d[k], j)
      {
        BitOfXor(r[k], ourId[k], j);
        assert KeyBit(r, 8 * k + j) == KeyBit(ourId, 8 * k + j);
      }
      SomeBitOn(d[k]);
    }
    forall j: nat | j <= b % 8
      ensures BitOn(d[nb], j) <==> j == b % 8
    {
      BitOfXor(r[nb], ourId[nb], j);
      assert 8 * nb + j <= b;
      assert KeyBit(r, 8 * nb + j) <==> BitOn(r[nb], j);
      assert KeyBit(ourId, 8 * nb + j) <==> BitOn(ourId[nb], j);
    }
    LeadingBit(d, nb, b % 8);
  }

  /** The refresh key of Node::refreshBuckets for bucket b: it lies in bucket 159 - b and in no other. So it
      never lies in the bucket it was asked for, although its name and its comment promise that. */
  method RefreshKeyBucket(b: nat, ourId: Key, random: Key) returns (key: Key, found: nat)
    requires b < 160
    ensures found == 159 - b && found != b
    ensures InBucket(found, key, ourId) && !InBucket(b, key, ourId)
  {
    key := RandomKeyInBucket(b, ourId, random);
    found := FindBucket(key, ourId);
    PrefixPlacesKey(key, ourId, b);
    BucketIsLog(found, key, ourId);
    BucketIsLog(159 - b, key, ourId);
    BucketIsLog(b, key, ourId);
  }
}

/** Bucket entries as 26 or 38 bytes of compact node info (pack.cpp, rpcmsg.cpp PackedNodeContainer). */
module Pack {
  import opened Bytes
  import opened Entries

  function PortBytes(p: Port): (r: bytes)
    ensures |r| == 2 && Val(r) == p
  {
    Pow2Wide();
    BigEndian(p, 2)
  }

  function AddressBytes(a: Address): bytes {
    match a
    case V4(ip, port) => ip + PortBytes(port)
    case V6(ip, port) => ip + PortBytes(port)
  }

  function PackEntry(e: Entry): (r: bytes)
    ensures |r| == if e.addr.V4? then 26 else 38
  {
    e.id + AddressBytes(e.addr)
  }

  /** memcpy. */
  method CopyInto(a: array<byte>, off: nat, src: bytes)
    requires off + |src| <= a.Length
    modifies a
    ensures a[..] == old(a[..off]) + src + old(a[off + |src|..])
  {
    for i := 0 to |src|
      invariant a[..off] == old(a[..off]) && a[off..off + i] == src[..i]
      invariant a[off + i..] == old(a[off + i..])
    {
      a[off + i] := src[i];
      assert a[off..off + i + 1] == a[off..off + i] + [src[i]];
      assert a[off + i + 1..] == a[off + i..][1..];
    }
    assert src[..|src|] == src;
  }

  /** PackBucketEntry: writes in place, or throws when there is no room. */
  method PackBucketEntry(e: Entry, a: array<byte>, off: nat) returns (ok: bool)
    modifies a
    ensures ok <==> off + |PackEntry(e)| <= a.Length
    ensures a[..] == if ok then old(a[..off]) + PackEntry(e) + old(a[off + |PackEntry(e)|..]) else old(a[..])
  {
    if off + (if e.addr.V4? then 26 else 38) > a.Length {
      return false;
    }
    ghost var before := a[..];
    CopyInto(a, off, e.id);
    ghost var mid := a[..];
    assert mid == before[..off] + e.id + before[off + 20..];
    var rest := AddressBytes(e.addr);
    CopyInto(a, off + 20, rest);
    assert a[..] == mid[..off + 20] + rest + mid[off + 20 + |rest|..];
    assert mid[..off + 20] == before[..off] + e.id;
    assert mid[off + 20 + |rest|..] == before[off + 20 + |rest|..];
    assert a[..] == before[..off] + PackEntry(e) + before[off + |PackEntry(e)|..];
    return true;
  }

  /** UnpackBucketEntry: the entry gets the time of unpacking, and None stands for the exception. */
  function Unpack(ba: bytes, off: nat, ipVersion: nat, now: Time): Option<Entry> {
    if ipVersion == 4 then
      if off + 26 > |ba| then None
      else Some(Fresh(V4(ba[off + 20..off + 24], PortAt(ba, off + 24)), ba[off..off + 20], now))
    else
      if off + 38 > |ba| then None
      else Some(Fresh(V6(ba[off + 20..off + 36], PortAt(ba, off + 36)), ba[off..off + 20], now))
  }

  function PortAt(ba: bytes, off: nat): Port
    requires off + 2 <= |ba|
  {
    Pow2Wide();
    ValBound(ba[off..off + 2]);
    Val(ba[off..off + 2])
  }

  function Version(e: Entry): nat {
    if e.addr.V4? then 4 else 6
  }

  /** What is left of an entry after a trip through its packed form. */
  function Renewed(e: Entry, now: Time): Entry {
    Fresh(e.addr, e.id, now)
  }

  lemma UnpackPacked(e: Entry, before: bytes, after: bytes, now: Time)
    ensures Unpack(before + PackEntry(e) + after, |before|, Version(e), now) == Some(Renewed(e, now))
  {
    var ba, off := before + PackEntry(e) + after, |before|;
    var n := if e.addr.V4? then 4 else 16;
    var ip: bytes := if e.addr.V4? then e.addr.ip4 else e.addr.ip6;
    assert ba == before + e.id + ip + PortBytes(e.addr.port) + after;
    assert ba[off..off + 20] == e.id;
    assert ba[off + 20..off + 20 + n] == ip;
    assert ba[off + 20 + n..off + 22 + n] == PortBytes(e.addr.port);
  }

  lemma PackUnpacked(ba: bytes, off: nat, ipVersion: nat, now: Time)
    requires Unpack(ba, off, ipVersion, now).Some?
    ensures var e := Unpack(ba, off, ipVersion, now).value;
            PackEntry(e) == ba[off..off + |PackEntry(e)|]
  {
    hide Val, BigEndian;
    var e := Unpack(ba, off, ipVersion, now).value;
    var n := if ipVersion == 4 then 4 else 16;
    PortReadBack(ba, off + 20 + n);
    assert PackEntry(e) == ba[off..off + 20] + (ba[off + 20..off + 20 + n] + ba[off + 20 + n..off + 22 + n]);
    JoinSlices(ba, off, off + 20, off + 20 + n, off + 22 + n);
  }

  lemma PortReadBack(ba: bytes, off: nat)
    requires off + 2 <= |ba|
    ensures PortBytes(PortAt(ba, off)) == ba[off..off + 2]
  {
    Pow2Wide();
    BigEndianOfVal(ba[off..off + 2]);
  }

  lemma JoinSlices(ba: bytes, a: nat, b: nat, c: nat, d: nat)
    requires a <= b <= c <= d <= |ba|
    ensures ba[a..b] + (ba[b..c] + ba[c..d]) == ba[a..d]
  {
  }

  /** PackedNodeContainer: the 26-byte items joined, and every other item by itself. */
  datatype Container = Container(nodes: bytes, nodes2: seq<bytes>) {
    function AddNode(a: bytes): Container {
      if |a| == 26 then this.(nodes := nodes + a) else this.(nodes2 := nodes2 + [a])
    }
  }

  /** KClosestNodesSearch::pack, in the order of the map. */
  function PackAll(es: seq<Entry>): Container {
    AddAll(Container([], []), es)
  }

  function AddAll(c: Container, es: seq<Entry>): Container {
    if es == [] then c else AddAll(c, es[..|es| - 1]).AddNode(PackEntry(es[|es| - 1]))
  }

  lemma AddNothing(c: Container)
    ensures AddAll(c, []) == c
  {
  }

  lemma AddAllSnoc(c: Container, es: seq<Entry>, e: Entry)
    ensures AddAll(c, es + [e]) == AddAll(c, es).AddNode(PackEntry(e))
  {
    hide PackEntry;
    assert (es + [e])[..|es|] == es;
  }

  /** The nodes read back in steps of 26 bytes; a shorter rest is ignored. */
  function UnpackNodes(nodes: bytes, now: Time): seq<Entry> {
    if |nodes| < 26 then []
    else [Unpack(nodes, 0, 4, now).value] + UnpackNodes(nodes[26..], now)
  }

  /** The items read back one by one; an item that is too short is ignored. */
  function UnpackNodes2(items: seq<bytes>, now: Time): seq<Entry> {
    if items == [] then []
    else
      (match Unpack(items[0], 0, 6, now) case Some(e) => [e] case None => []) + UnpackNodes2(items[1..], now)
  }

  function UnpackAll(c: Container, now: Time): seq<Entry> {
    UnpackNodes(c.nodes, now) + UnpackNodes2(c.nodes2, now)
  }

  function OfFamily(es: seq<Entry>, v4: bool, now: Time): seq<Entry> {
    if es == [] then []
    else OfFamily(es[..|es| - 1], v4, now)
         + (if es[|es| - 1].addr.V4? == v4 then [Renewed(es[|es| - 1], now)] else [])
  }

  lemma {:induction false} UnpackNodesSnoc(nodes: bytes, item: bytes, now: Time)
    requires |nodes| % 26 == 0 && |item| == 26
    ensures UnpackNodes(nodes + item, now) == UnpackNodes(nodes, now) + [Unpack(item, 0, 4, now).value]
  {
    var all := nodes + item;
    if nodes == [] {
      assert all == item;
      assert UnpackNodes(item[26..], now) == [];
    } else {
      UnpackNodesSnoc(nodes[26..], item, now);
      assert all[26..] == nodes[26..] + item;
      assert all[..26] == nodes[..26];
      SamePrefix(all, nodes, now);
    }
  }

  lemma SamePrefix(a: bytes, b: bytes, now: Time)
    requires |a| >= 26 && |b| >= 26 && a[..26] == b[..26]
    ensures Unpack(a, 0, 4, now) == Unpack(b, 0, 4, now)
  {
    assert a[0..20] == a[..26][0..20] == b[0..20];
    assert a[20..24] == a[..26][20..24] == b[20..24];
    assert a[24..26] == a[..26][24..26] == b[24..26];
  }

  /** The j-th node is the one at offset 26 * j. */
  lemma {:induction false} UnpackNodesAt(nodes: bytes, j: nat, now: Time)
    requires j < |nodes| / 26
    ensures |UnpackNodes(nodes, now)| == |nodes| / 26
    ensures Unpack(nodes, 26 * j, 4, now) == Some(UnpackNodes(nodes, now)[j])
  {
    UnpackNodesSize(nodes, now);
    if j > 0 {
      UnpackNodesAt(nodes[26..], j - 1, now);
      UnpackShift(nodes, 26 * (j - 1), now);
    }
  }

  lemma UnpackShift(nodes: bytes, o: nat, now: Time)
    requires o + 52 <= |nodes|
    ensures Unpack(nodes[26..], o, 4, now) == Unpack(nodes, o + 26, 4, now)
  {
    SliceShift(nodes, 26, o, o + 20);
    SliceShift(nodes, 26, o + 20, o + 24);
    SliceShift(nodes, 26, o + 24, o + 26);
  }

  lemma SliceShift(s: bytes, k: nat, a: nat, b: nat)
    requires a <= b && k + b <= |s|
    ensures s[k..][a..b] == s[k + a..k + b]
  {
  }

  lemma {:induction false} UnpackNodesSize(nodes: bytes, now: Time)
    ensures |UnpackNodes(nodes, now)| == |nodes| / 26
  {
    if |nodes| >= 26 {
      UnpackNodesSize(nodes[26..], now);
    }
  }

  lemma {:induction false} UnpackNodes2Snoc(items: seq<bytes>, item: bytes, now: Time)
    ensures UnpackNodes2(items + [item], now)
            == UnpackNodes2(items, now) + (match Unpack(item, 0, 6, now) case Some(e) => [e] case None => [])
  {
    var all := items + [item];
    if items == [] {
      assert all[1..] == [];
    } else {
      UnpackNodes2Snoc(items[1..], item, now);
      assert all[1..] == items[1..] + [item];
    }
  }

  lemma {:induction false} PackedSizes(es: seq<Entry>)
    ensures var c := PackAll(es);
            |c.nodes| % 26 == 0 && forall i :: 0 <= i < |c.nodes2| ==> |c.nodes2[i]| == 38
  {
    if es != [] {
      PackedSizes(es[..|es| - 1]);
    }
  }

  lemma UnpackWhole(e: Entry, now: Time)
    ensures Unpack(PackEntry(e), 0, Version(e), now) == Some(Renewed(e, now))
  {
    UnpackPacked(e, [], [], now);
    assert [] + PackEntry(e) + [] == PackEntry(e);
  }

  /** Packing entries and reading the container back gives the same nodes, in the same order within each
      address family. */
  lemma {:induction false} UnpackAllPacked(es: seq<Entry>, now: Time)
    ensures UnpackNodes(PackAll(es).nodes, now) == OfFamily(es, true, now)
    ensures UnpackNodes2(PackAll(es).nodes2, now) == OfFamily(es, false, now)
  {
    if es != [] {
      var front, e := es[..|es| - 1], es[|es| - 1];
      UnpackAllPacked(front, now);
      PackedSizes(front);
      UnpackWhole(e, now);
      if e.addr.V4? {
        UnpackNodesSnoc(PackAll(front).nodes, PackEntry(e), now);
      } else {
        UnpackNodes2Snoc(PackAll(front).nodes2, PackEntry(e), now);
      }
    }
  }

  /** Every node belongs to one family. */
  lemma {:induction false} FamiliesCover(es: seq<Entry>, now: Time)
    ensures |OfFamily(es, true, now)| + |OfFamily(es, false, now)| == |es|
  {
    if es != [] {
      FamiliesCover(es[..|es| - 1], now);
    }
  }
}

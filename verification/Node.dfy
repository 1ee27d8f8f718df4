/** The Node object: our place in the network and the routing table around it (node.cpp). */
module Nodes {
  import opened Bytes
  import opened Keys
  import opened Entries
  import opened Buckets
  import opened Bucket
  import opened KBuckets
  import opened Routing
  import opened TableFile
  import KClosest
  import R = Routing

  class Node {
    const ourId: Key
    const bucket: array<KBucket?>
    var numReceives: nat
    var numEntries: nat
    var deleteTable: bool

    /** A bucket knows its own index, so no bucket is in two places. */
    ghost predicate Valid()
      reads bucket
    {
      bucket.Length == 160 && forall i :: 0 <= i < 160 && bucket[i] != null ==> bucket[i].idx == i
    }

    ghost function InUse(): set<KBucket>
      reads bucket
    {
      set i | 0 <= i < bucket.Length && bucket[i] != null :: bucket[i]
    }

    ghost function Slot(i: nat): Option<Bucket>
      requires i < bucket.Length
      reads bucket, InUse()
    {
      if bucket[i] == null then None else Some(bucket[i].Abs())
    }

    ghost function Slots(): Slots
      requires Valid()
      reads bucket, InUse()
    {
      seq(160, i requires 0 <= i < 160 && Valid() reads bucket, InUse() => Slot(i))
    }

    ghost function Abs(): Table
      requires Valid()
      reads this, bucket, InUse()
    {
      Table(Slots(), numReceives, numEntries)
    }

    constructor (ourId: Key, newKey: bool)
      ensures Valid() && fresh(bucket) && Abs() == FRESH_TABLE && InUse() == {}
      ensures this.ourId == ourId && deleteTable == newKey
    {
      this.ourId, numReceives, numEntries, deleteTable := ourId, 0, 0, newKey;
      bucket := new KBucket?[160](_ => null);
    }

    /** A ping that the bucket sends gets the number call. */
    method Received(origin: Address, id: Key, now: Time, call: nat) returns (findOwnNode: bool, pinged: bool)
      requires Valid()
      modifies this, bucket, InUse()
      ensures Valid() && fresh(InUse() - old(InUse())) && deleteTable == old(deleteTable)
      ensures Abs() == R.Received(old(Abs()), ourId, origin, id, now, call)
      ensures findOwnNode <==> id != ourId && numReceives == 3
      ensures pinged <==> Pinged(Slots(), Index(id, ourId), call)
    {
      hide R.Received, Inserted, AllEntries, InBucket;
      var bitOn := FindBucket(id, ourId);
      SameIndex(bitOn, id);
      if bitOn >= 160 {
        OwnMessage(Abs(), ourId, origin, id, now, call);
        return false, false;
      }
      ghost var t := Abs();
      InsertAt(bitOn, Fresh(origin, id, now), now, call);
      numReceives := (numReceives + 1) % UINT32;
      findOwnNode := numReceives == 3;
      Recount();
      assert Slots()[bitOn] == Slot(bitOn);
      pinged := bucket[bitOn] != null && call in bucket[bitOn].pendingEntriesBusyPinging;
      ReceivedParts(t, Abs(), ourId, origin, id, now, call);
    }

    static lemma OwnMessage(t: Table, ourId: Key, origin: Address, id: Key, now: Time, call: nat)
      requires Index(id, ourId) >= 160
      ensures R.Received(t, ourId, origin, id, now, call) == t
    {
    }

    static lemma ReceivedParts(t: Table, r: Table, ourId: Key, origin: Address, id: Key, now: Time, call: nat)
      requires var i := Index(id, ourId);
               i < 160 && r.buckets == t.buckets[i := Some(Inserted(t.buckets[i], Fresh(origin, id, now), now, call))]
      requires r.numReceives == (t.numReceives + 1) % UINT32 && r.numEntries == |AllEntries(r.buckets)|
      ensures r == R.Received(t, ourId, origin, id, now, call)
    {
      hide Index, AllEntries, B.Insert;
    }

    static function Inserted(b: Option<Bucket>, e: Entry, now: Time, call: nat): Bucket {
      B.Insert(if b.None? then EMPTY else b.value, e, now, call)
    }

    /** The bucket is made when it is first needed. */
    method InsertAt(i: nat, e: Entry, now: Time, call: nat)
      requires Valid() && i < 160
      modifies bucket, InUse()
      ensures Valid() && fresh(InUse() - old(InUse()))
      ensures Slots() == old(Slots())[i := Some(Inserted(old(Slots())[i], e, now, call))]
    {
      hide B.Insert;
      if bucket[i] == null {
        bucket[i] := new KBucket(i);
      }
      bucket[i].Insert(e, now, call);
      assert forall j :: 0 <= j < 160 && j != i ==> Slot(j) == old(Slot(j));
    }

    lemma SameIndex(bitOn: nat, id: Key)
      requires bitOn == 0xFF <==> id == ourId
      requires bitOn != 0xFF ==> bitOn < 160 && InBucket(bitOn, id, ourId)
      ensures bitOn == Index(id, ourId)
    {
      if id != ourId {
        BucketIsLog(bitOn, id, ourId);
        BucketIsLog(Index(id, ourId), id, ourId);
      }
    }

    method Recount()
      requires Valid()
      modifies this`numEntries
      ensures Abs() == old(Abs()).(numEntries := |AllEntries(Slots())|)
    {
      numEntries := 0;
      for i := 0 to 160
        invariant Slots() == old(Slots())
        invariant numEntries == |AllEntries(Slots()[..i])|
      {
        assert Slots()[..i + 1][..i] == Slots()[..i];
        assert Slots()[i] == Slot(i);
        if bucket[i] != null {
          numEntries := numEntries + |bucket[i].entries|;
        }
      }
      assert Slots()[..160] == Slots();
    }

    /** Fills the search with the closest entries of all buckets. */
    method FindKClosestNodes(kns: KClosest.KClosestNodesSearch)
      requires Valid() && kns.Valid()
      modifies kns
      ensures kns.Valid()
      ensures kns.emap == KClosest.Scan(old(kns.emap), kns.key, kns.maxEntries, AllEntries(Slots()))
    {
      hide AllEntries, KClosest.Scan;
      ghost var bs, m := Slots(), kns.emap;
      NothingScanned(m, kns.key, kns.maxEntries, bs);
      for i := 0 to 160
        invariant kns.Valid() && Valid() && Slots() == bs
        invariant kns.emap == KClosest.Scan(m, kns.key, kns.maxEntries, AllEntries(bs[..i]))
      {
        BucketScanned(m, kns.key, kns.maxEntries, bs, i);
        assert bs[i] == Slot(i);
        if bucket[i] != null {
          bucket[i].FindKClosestNodes(kns);
        }
      }
      assert bs[..160] == bs;
    }

    method OnTimeout(destination: Address)
      requires Valid()
      modifies InUse()
      ensures Valid() && Abs() == QueryFailed(old(Abs()), destination)
    {
      ghost var was := Slots();
      for i := 0 to 160
        invariant Valid() && Abs() == old(Abs())
        invariant i <= FirstWithAddress(was, destination)
      {
        assert was[i] == Slot(i);
        if bucket[i] != null {
          var found := bucket[i].OnTimeout(destination);
          if found {
            assert i == FirstWithAddress(was, destination);
            assert Slots() == was[i := Some(RequestFailed(was[i].value, destination))];
            return;
          }
        }
      }
    }

    method SaveTable() returns (file: bytes)
      requires Valid()
      ensures file == SavedFrom(Slots(), 0)
    {
      hide SavedFrom, Saved;
      ghost var bs := Slots();
      file := [];
      for i := 0 to 160
        invariant Slots() == bs && file + SavedFrom(bs, i) == SavedFrom(bs, 0)
      {
        SavedStep(file, bs, i);
        assert bs[i] == Slot(i);
        if bucket[i] != null {
          var b := bucket[i].Save();
          file := file + b;
        }
      }
      SavedEnd(file, bs);
    }

    /** None stands for a file that cannot be opened. After a new key was made the table is removed instead of
        read. outside reports a header naming bucket 160. */
    method LoadTable(file: Option<bytes>, now: Time) returns (removed: bool, outside: bool)
      requires Valid()
      modifies this, bucket
      ensures Valid() && removed == old(deleteTable) && !deleteTable && numReceives == old(numReceives)
      ensures removed || file.None? ==> !outside && Abs() == old(Abs())
      ensures !removed && file.Some? ==>
                match LoadFrom(file.value, 0, old(Slots()), 0, now)
                case Outside => outside
                case Loading(bs, count) => !outside && Slots() == bs && numEntries == count
    {
      removed, outside := deleteTable, false;
      deleteTable := false;
      if removed || file.None? {
        return;
      }
      outside := ReadBuckets(file.value, now);
    }

    method ReadBuckets(f: bytes, now: Time) returns (outside: bool)
      requires Valid()
      modifies this`numEntries, bucket
      ensures Valid()
      ensures match LoadFrom(f, 0, old(Slots()), 0, now)
              case Outside => outside
              case Loading(bs, count) => !outside && Slots() == bs && numEntries == count
    {
      hide LoadFrom, ReadEntries, WordAt;
      ghost var was := Slots();
      numEntries := 0;
      var pos := 0;
      assert Slots() == was;
      while pos + 12 <= |f|
        invariant Valid() && pos <= |f|
        invariant LoadFrom(f, pos, Slots(), numEntries, now) == LoadFrom(f, 0, was, 0, now)
        decreases |f| - pos
      {
        var magic, index, n := WordAt(f, pos), WordAt(f, pos + 4), WordAt(f, pos + 8);
        if magic != MAGIC || n > K || index > 160 {
          LoadStops(f, pos, Slots(), numEntries, now);
          return false;
        }
        if n != 0 && index == 160 {
          LoadStops(f, pos, Slots(), numEntries, now);
          return true;
        }
        LoadStep(f, pos, Slots(), numEntries, now);
        pos := pos + 12;
        if n != 0 {
          pos := LoadAt(f, pos, index, n, now);
        }
      }
      LoadStops(f, pos, Slots(), numEntries, now);
      return false;
    }

    /** A bucket that is already there is replaced. */
    method LoadAt(f: bytes, pos: nat, i: nat, n: nat, now: Time) returns (next: nat)
      requires Valid() && i < 160 && pos <= |f| && n <= K
      modifies this`numEntries, bucket
      ensures Valid()
      ensures var c := ReadEntries(f, pos, n, now);
              && next == c.next && numEntries == old(numEntries) + |c.entries|
              && Slots() == old(Slots())[i := Some(Bucket(c.entries, [], map[]))]
    {
      hide ReadEntries;
      ghost var was := Slots();
      var kb := new KBucket(i);
      bucket[i] := kb;
      next := kb.Load(f, pos, n, now);
      assert kb.Abs() == Bucket(ReadEntries(f, pos, n, now).entries, [], map[]);
      numEntries := numEntries + |kb.entries|;
      assert forall j :: 0 <= j < 160 && j != i ==> Slot(j) == was[j];
    }
  }
}

/** The KBucket object, with the loops of kbucket.cpp. */
module KBuckets {
  import opened Bytes
  import opened Entries
  import opened Bucket
  import B = Bucket
  import opened TableFile
  import KClosest

  class KBucket {
    const idx: nat
    var entries: seq<Entry>
    var pendingEntries: seq<Entry>
    var pendingEntriesBusyPinging: map<nat, Probe>

    function Abs(): Bucket
      reads this
    {
      Bucket(entries, pendingEntries, pendingEntriesBusyPinging)
    }

    constructor (idx: nat)
      ensures this.idx == idx && Abs() == EMPTY
    {
      this.idx := idx;
      entries, pendingEntries, pendingEntriesBusyPinging := [], [], map[];
    }

    method Insert(entry: Entry, now: Time, call: nat)
      modifies this
      ensures Abs() == B.Insert(old(Abs()), entry, now, call)
    {
      var i := IndexOf(entries, entry);
      if i < |entries| {
        entries := entries[..i] + entries[i + 1..];
        entries := entries + [entry];
        return;
      }
      if |entries| < K {
        entries := entries + [entry];
      } else {
        var replaced := ReplaceBadEntry(entry, now);
        if !replaced {
          PingQuestionable(entry, now, call);
        }
      }
    }

    method ReplaceBadEntry(entry: Entry, now: Time) returns (done: bool)
      modifies this`entries
      ensures done <==> FirstBad(old(entries), now) < |old(entries)|
      ensures entries == if done then Swap(old(entries), FirstBad(old(entries), now), entry) else old(entries)
    {
      for i := 0 to |entries|
        invariant entries == old(entries)
        invariant forall j :: 0 <= j < i ==> !entries[j].IsBad(now)
      {
        if entries[i].IsBad(now) {
          assert i == FirstBad(entries, now);
          entries := entries[..i] + entries[i + 1..];
          entries := entries + [entry];
          return true;
        }
      }
      return false;
    }

    /** The ping gets the name call; it goes to the first questionable entry. */
    method PingQuestionable(replacement: Entry, now: Time, call: nat)
      modifies this
      ensures Abs() == Ping(old(Abs()), replacement, now, call)
    {
      if |pendingEntriesBusyPinging| >= MAX_PROBES {
        pendingEntries := pendingEntries + [replacement];
        return;
      }
      for i := 0 to |entries|
        invariant Abs() == old(Abs())
        invariant forall j :: 0 <= j < i ==> !entries[j].IsQuestionable(now)
      {
        var e := entries[i];
        if e.IsQuestionable(now) {
          assert i == FirstQuestionable(entries, now);
          entries := entries[i := e.PingedQuestionable()];
          pendingEntriesBusyPinging := pendingEntriesBusyPinging[call := Probe(replacement, e.addr)];
          return;
        }
      }
    }

    method ReplaceOrPing(entry: Entry, now: Time, call: nat)
      modifies this
      ensures Abs() == B.ReplaceOrPing(old(Abs()), entry, now, call)
    {
      var replaced := ReplaceBadEntry(entry, now);
      if !replaced {
        PingQuestionable(entry, now, call);
      }
    }

    method OnResponse(c: nat, now: Time, call: nat)
      modifies this
      ensures Abs() == Answered(old(Abs()), c, now, call)
    {
      if c !in pendingEntriesBusyPinging {
        return;
      }
      var entry := pendingEntriesBusyPinging[c].replacement;
      pendingEntriesBusyPinging := pendingEntriesBusyPinging - {c};
      ReplaceOrPing(entry, now, call);
    }

    method OnCallTimeout(c: nat, now: Time, call: nat)
      modifies this
      ensures Abs() == Unanswered(old(Abs()), c, now, call)
    {
      if c !in pendingEntriesBusyPinging {
        return;
      }
      var entry, target := pendingEntriesBusyPinging[c].replacement, pendingEntriesBusyPinging[c].target;
      for i := 0 to |entries|
        invariant Abs() == old(Abs())
        invariant forall j :: 0 <= j < i ==> entries[j].addr != target
      {
        if entries[i].addr == target {
          assert i == IndexOfAddress(entries, target);
          entries := entries[..i] + entries[i + 1..];
          entries := entries + [entry];
          break;
        }
      }
      pendingEntriesBusyPinging := pendingEntriesBusyPinging - {c};
      assert Abs() == Evict(old(Abs()), c);
      if |pendingEntriesBusyPinging| < MAX_PROBES && |pendingEntries| > 0 {
        var pe := pendingEntries[0];
        pendingEntries := pendingEntries[1..];
        ReplaceOrPing(pe, now, call);
      }
    }

    method OnTimeout(addr: Address) returns (found: bool)
      modifies this`entries
      ensures found <==> exists i :: 0 <= i < |old(entries)| && old(entries)[i].addr == addr
      ensures Abs() == RequestFailed(old(Abs()), addr)
    {
      for i := 0 to |entries|
        invariant Abs() == old(Abs())
        invariant forall j :: 0 <= j < i ==> entries[j].addr != addr
      {
        if entries[i].addr == addr {
          assert i == IndexOfAddress(entries, addr);
          entries := entries[i := entries[i].RequestTimedOut()];
          return true;
        }
      }
      return false;
    }

    method Save() returns (file: bytes)
      requires idx < 160
      ensures file == Saved(idx, Some(Abs()))
    {
      hide Header, Record;
      file := Header(idx, |entries| % UINT32);
      for i := 0 to |entries|
        invariant file + Records(entries[i..]) == Saved(idx, Some(Abs()))
      {
        assert entries[i..][0] == entries[i] && entries[i..][1..] == entries[i + 1..];
        assert file + Records(entries[i..]) == file + Record(entries[i]) + Records(entries[i + 1..]);
        file := file + Record(entries[i]);
      }
      assert file + [] == file;
    }

    /** The header promises n entries; next is where reading stopped. */
    method Load(f: bytes, pos: nat, n: nat, now: Time) returns (next: nat)
      requires pos <= |f|
      modifies this`entries
      ensures n > K ==> next == pos && Abs() == old(Abs())
      ensures n <= K ==>
                var c := ReadEntries(f, pos, n, now);
                next == c.next && Abs() == Loaded(old(Abs()), c.entries)
    {
      hide ReadRecord, ReadEntries;
      next := pos;
      if n > K {
        return;
      }
      ghost var all := ReadEntries(f, pos, n, now);
      ghost var read := [];
      for i := 0 to n
        invariant pos <= next <= |f| && pendingEntries == old(pendingEntries)
        invariant entries == old(entries) + read
        invariant var rest := ReadEntries(f, next, n - i, now);
                  all == Chunk(read + rest.entries, rest.next, rest.short)
      {
        ReadStep(f, next, n - i, now, read);
        var r := ReadRecord(f, next, now);
        if r.None? {
          next := |f|;
          return;
        }
        entries := entries + [r.value.e];
        next := r.value.next;
        read := read + [r.value.e];
      }
      ReadDone(f, next, now, read);
    }

    method FindKClosestNodes(kns: KClosest.KClosestNodesSearch)
      requires kns.Valid()
      modifies kns
      ensures kns.Valid() && kns.emap == KClosest.Scan(old(kns.emap), kns.key, kns.maxEntries, entries)
    {
      kns.TryInsertAll(entries);
    }
  }
}

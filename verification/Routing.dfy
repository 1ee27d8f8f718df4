/** The routing table: our id and the 160 buckets around it (node.cpp). */
module Routing {
  import opened Bits
  import opened Bytes
  import opened Keys
  import opened Entries
  import opened Buckets
  import opened Bucket
  import B = Bucket
  import StdMap
  import KClosest

  type Slots = s: seq<Option<Bucket>> | |s| == 160 witness seq(160, _ => None)

  const NO_BUCKETS: Slots := seq(160, _ => None)

  datatype Table = Table(buckets: Slots, numReceives: nat, numEntries: nat)

  const FRESH_TABLE := Table(NO_BUCKETS, 0, 0)

  function EntriesOf(b: Option<Bucket>): seq<Entry> {
    match b
    case None => []
    case Some(b) => b.entries
  }

  function AllEntries(bs: seq<Option<Bucket>>): seq<Entry> {
    if bs == [] then [] else AllEntries(bs[..|bs| - 1]) + EntriesOf(bs[|bs| - 1])
  }

  /** The bucket an id belongs to. */
  function Index(id: Key, ourId: Key): (i: nat)
    ensures i == 0xFF <==> id == ourId
    ensures id != ourId ==> i < 160 && InBucket(i, id, ourId)
  {
    if id == ourId then 0xFF
    else
      RankWidth(id, ourId);
      Log2(Rank(id, ourId))
  }

  lemma RankWidth(id: Key, ourId: Key)
    requires id != ourId
    ensures Rank(id, ourId) > 0 && Log2(Rank(id, ourId)) < 160
  {
    var d := Distance(id, ourId);
    DistanceZero(id, ourId);
    ValBound(d);
    Log2Bound(Val(d), 8 * |d|);
  }

  lemma Log2Bound(n: nat, w: nat)
    requires 0 < n < Pow2(w)
    ensures Log2(n) < w
  {
    if w < Log2(n) {
      Pow2Monotone(w, Log2(n));
    }
  }

  /** received: our own id is ignored, the bucket is made when it is first needed. */
  function Received(t: Table, ourId: Key, addr: Address, id: Key, now: Time, call: nat): Table {
    var i := Index(id, ourId);
    if i >= 160 then t
    else
      var b := if t.buckets[i].None? then EMPTY else t.buckets[i].value;
      var bs := t.buckets[i := Some(B.Insert(b, Fresh(addr, id, now), now, call))];
      Table(bs, (t.numReceives + 1) % UINT32, |AllEntries(bs)|)
  }

  /** The bucket has sent a ping, which was given this number. */
  predicate Pinged(bs: Slots, i: nat, call: nat) {
    i < 160 && bs[i].Some? && call in bs[i].value.busy
  }

  function FirstWithAddress(bs: seq<Option<Bucket>>, a: Address): (i: nat)
    ensures i <= |bs|
    ensures i < |bs| ==> bs[i].Some? && IndexOfAddress(bs[i].value.entries, a) < |bs[i].value.entries|
    ensures forall j :: 0 <= j < i && bs[j].Some? ==>
              IndexOfAddress(bs[j].value.entries, a) == |bs[j].value.entries|
  {
    if bs == [] then 0
    else if bs[0].Some? && IndexOfAddress(bs[0].value.entries, a) < |bs[0].value.entries| then 0
    else 1 + FirstWithAddress(bs[1..], a)
  }

  /** onTimeout: the first bucket that knows the address counts a failed query. */
  function QueryFailed(t: Table, a: Address): Table {
    var i := FirstWithAddress(t.buckets, a);
    if i == 160 then t
    else t.(buckets := t.buckets[i := Some(RequestFailed(t.buckets[i].value, a))])
  }

  /** A ping of the i-th bucket is answered or times out. */
  function Probed(t: Table, i: nat, ev: B.Event, now: Time, call: nat): Table
    requires i < 160 && t.buckets[i].Some?
  {
    t.(buckets := t.buckets[i := Some(B.Step(t.buckets[i].value, ev, now, call))])
  }

  datatype Event =
    | Message(addr: Address, id: Key)
    | PingAnswered(i: nat, c: nat)
    | PingTimedOut(i: nat, c: nat)
    | QueryTimedOut(a: Address)

  function Step(t: Table, ourId: Key, ev: Event, now: Time, call: nat): Table {
    match ev
    case Message(addr, id) => Received(t, ourId, addr, id, now, call)
    case PingAnswered(i, c) =>
      if i < 160 && t.buckets[i].Some? then Probed(t, i, ProbeAnswered(c), now, call) else t
    case PingTimedOut(i, c) =>
      if i < 160 && t.buckets[i].Some? then Probed(t, i, ProbeTimedOut(c), now, call) else t
    case QueryTimedOut(a) => QueryFailed(t, a)
  }

  ghost function InSlot(i: nat, ourId: Key): Entry -> bool {
    (e: Entry) => InBucket(i, e.id, ourId)
  }

  ghost predicate BucketInv(b: Bucket, i: nat, ourId: Key) {
    B.Inv(b) && AllNodes(b, InSlot(i, ourId))
  }

  ghost predicate SlotsInv(bs: Slots, ourId: Key) {
    forall i :: 0 <= i < 160 && bs[i].Some? ==> BucketInv(bs[i].value, i, ourId)
  }

  /** Everyone is in the bucket of the documented rule, the buckets keep their bounds, and the count is right. */
  ghost predicate Inv(t: Table, ourId: Key) {
    SlotsInv(t.buckets, ourId) && t.numEntries == |AllEntries(t.buckets)|
  }

  /** The name is not that of a ping still on its way. */
  ghost predicate Unused(t: Table, call: nat) {
    forall i :: 0 <= i < 160 && t.buckets[i].Some? ==> call !in t.buckets[i].value.busy
  }

  /** Replacing one bucket changes the number of entries by the difference. */
  lemma {:induction false} CountUpdate(bs: seq<Option<Bucket>>, i: nat, b: Option<Bucket>)
    requires i < |bs|
    ensures |AllEntries(bs[i := b])| == |AllEntries(bs)| - |EntriesOf(bs[i])| + |EntriesOf(b)|
  {
    var n := |bs| - 1;
    if i < n {
      CountUpdate(bs[..n], i, b);
      assert bs[i := b][..n] == bs[..n][i := b];
    } else {
      assert bs[i := b][..n] == bs[..n];
    }
  }

  lemma BucketStepKeeps(b: Bucket, i: nat, ourId: Key, ev: B.Event, now: Time, call: nat)
    requires BucketInv(b, i, ourId) && call !in b.busy
    requires ev.Seen? ==> InBucket(i, ev.e.id, ourId)
    ensures BucketInv(B.Step(b, ev, now, call), i, ourId)
    ensures !ev.Seen? ==> |B.Step(b, ev, now, call).entries| == |b.entries|
  {
    B.StepKeeps(b, ev, now, call, InSlot(i, ourId));
  }

  lemma ProbedKeeps(t: Table, ourId: Key, i: nat, ev: B.Event, now: Time, call: nat)
    requires Inv(t, ourId) && i < 160 && t.buckets[i].Some? && !ev.Seen? && call !in t.buckets[i].value.busy
    ensures Inv(Probed(t, i, ev, now, call), ourId)
  {
    hide B.Step, InSlot, B.Inv;
    BucketStepKeeps(t.buckets[i].value, i, ourId, ev, now, call);
    CountUpdate(t.buckets, i, Some(B.Step(t.buckets[i].value, ev, now, call)));
  }

  lemma ReceivedKeeps(t: Table, ourId: Key, addr: Address, id: Key, now: Time, call: nat)
    requires Inv(t, ourId) && Unused(t, call)
    ensures Inv(Received(t, ourId, addr, id, now, call), ourId)
  {
    hide B.Insert, InSlot, B.Inv, AllNodes;
    var i := Index(id, ourId);
    if i < 160 {
      var b := if t.buckets[i].None? then EMPTY else t.buckets[i].value;
      EmptyBucketInv(i, ourId);
      BucketStepKeeps(b, i, ourId, Seen(Fresh(addr, id, now)), now, call);
    }
  }

  lemma EmptyBucketInv(i: nat, ourId: Key)
    ensures BucketInv(EMPTY, i, ourId)
  {
  }

  lemma QueryFailedIsStep(t: Table, a: Address, now: Time, call: nat)
    ensures var i := FirstWithAddress(t.buckets, a);
            i < 160 ==> QueryFailed(t, a) == Probed(t, i, RequestTimedOut(a), now, call)
  {
  }

  lemma StepKeeps(t: Table, ourId: Key, ev: Event, now: Time, call: nat)
    requires Inv(t, ourId) && Unused(t, call)
    ensures Inv(Step(t, ourId, ev, now, call), ourId)
  {
    hide Inv, Received, QueryFailed, Probed;
    match ev
    case Message(addr, id) => ReceivedKeeps(t, ourId, addr, id, now, call);
    case PingAnswered(i, c) =>
      if i < 160 && t.buckets[i].Some? {
        ProbedKeeps(t, ourId, i, ProbeAnswered(c), now, call);
      }
    case PingTimedOut(i, c) =>
      if i < 160 && t.buckets[i].Some? {
        ProbedKeeps(t, ourId, i, ProbeTimedOut(c), now, call);
      }
    case QueryTimedOut(a) =>
      var i := FirstWithAddress(t.buckets, a);
      QueryFailedIsStep(t, a, now, call);
      if i < 160 {
        ProbedKeeps(t, ourId, i, RequestTimedOut(a), now, call);
      } else {
        assert QueryFailed(t, a) == t by { NobodyFailed(t, a); }
      }
  }

  lemma NobodyFailed(t: Table, a: Address)
    ensures FirstWithAddress(t.buckets, a) == 160 ==> QueryFailed(t, a) == t
  {
  }

  /** A run: what happened, when, and the name for a ping that was not in use at the time. */
  function Run(t: Table, ourId: Key, evs: seq<(Event, Time, nat)>): Table
    decreases |evs|
  {
    if evs == [] then t
    else
      var (ev, now, call) := evs[|evs| - 1];
      Step(Run(t, ourId, evs[..|evs| - 1]), ourId, ev, now, call)
  }

  ghost predicate NamesFresh(t: Table, ourId: Key, evs: seq<(Event, Time, nat)>)
    decreases |evs|
  {
    evs != [] ==>
      && NamesFresh(t, ourId, evs[..|evs| - 1])
      && Unused(Run(t, ourId, evs[..|evs| - 1]), evs[|evs| - 1].2)
  }

  /** Over every run from a table in order, so in particular from the empty one. */
  lemma {:induction false} RunKeeps(t: Table, ourId: Key, evs: seq<(Event, Time, nat)>)
    requires Inv(t, ourId) && NamesFresh(t, ourId, evs)
    ensures Inv(Run(t, ourId, evs), ourId)
  {
    hide Inv, Step;
    if evs != [] {
      RunKeeps(t, ourId, evs[..|evs| - 1]);
      var (ev, now, call) := evs[|evs| - 1];
      StepKeeps(Run(t, ourId, evs[..|evs| - 1]), ourId, ev, now, call);
    }
  }

  lemma {:induction false} NothingInNothing(bs: seq<Option<Bucket>>)
    requires forall i :: 0 <= i < |bs| ==> bs[i].None?
    ensures AllEntries(bs) == []
  {
    if bs != [] {
      NothingInNothing(bs[..|bs| - 1]);
    }
  }

  /** What the table of a running node looks like: our own id is in no bucket, everyone else is in the bucket
      their distance puts them in, and there are at most 160 * 20 of them. */
  lemma ReachableTable(ourId: Key, evs: seq<(Event, Time, nat)>)
    requires NamesFresh(FRESH_TABLE, ourId, evs)
    ensures var t := Run(FRESH_TABLE, ourId, evs);
            && Inv(t, ourId)
            && (forall i, e :: 0 <= i < 160 && e in EntriesOf(t.buckets[i]) ==>
                  e.id != ourId && i == Index(e.id, ourId))
            && t.numEntries <= 160 * K
  {
    NothingInNothing(FRESH_TABLE.buckets);
    RunKeeps(FRESH_TABLE, ourId, evs);
    var t := Run(FRESH_TABLE, ourId, evs);
    EntryPlaces(t.buckets, ourId);
    CountBound(t.buckets);
  }

  lemma EntryPlaces(bs: Slots, ourId: Key)
    requires SlotsInv(bs, ourId)
    ensures forall i, e :: 0 <= i < 160 && e in EntriesOf(bs[i]) ==> e.id != ourId && i == Index(e.id, ourId)
  {
    forall i, e | 0 <= i < 160 && e in EntriesOf(bs[i])
      ensures e.id != ourId && i == Index(e.id, ourId)
    {
      EntryPlace(bs[i].value, i, ourId, e);
    }
  }

  lemma EntryPlace(b: Bucket, i: nat, ourId: Key, e: Entry)
    requires BucketInv(b, i, ourId) && e in b.entries
    ensures e.id != ourId && i == Index(e.id, ourId)
  {
    assert InSlot(i, ourId)(e);
    OwnIdInNoBucket(i, ourId);
    BucketIsLog(i, e.id, ourId);
    BucketIsLog(Index(e.id, ourId), e.id, ourId);
  }

  lemma {:induction false} CountBound(bs: seq<Option<Bucket>>)
    requires forall i :: 0 <= i < |bs| ==> |EntriesOf(bs[i])| <= K
    ensures |AllEntries(bs)| <= |bs| * K
  {
    if bs != [] {
      CountBound(bs[..|bs| - 1]);
    }
  }

  lemma {:induction false} WhereFrom(bs: seq<Option<Bucket>>, e: Entry)
    ensures e in AllEntries(bs) <==> exists i :: 0 <= i < |bs| && e in EntriesOf(bs[i])
  {
    if bs != [] {
      var n := |bs| - 1;
      WhereFrom(bs[..n], e);
      if i :| 0 <= i < |bs| && e in EntriesOf(bs[i]) {
        if i < n {
          assert bs[..n][i] == bs[i];
        }
      }
    }
  }

  /** Buckets do not share ids, so the table as a whole has no id twice exactly if no bucket has. */
  lemma {:induction false} DistinctByBucket(bs: seq<Option<Bucket>>, ourId: Key)
    requires forall i, e :: 0 <= i < |bs| && e in EntriesOf(bs[i]) ==> i == Index(e.id, ourId)
    ensures DistinctIds(AllEntries(bs)) <==> forall i :: 0 <= i < |bs| ==> DistinctIds(EntriesOf(bs[i]))
  {
    hide DistinctIds, EntriesOf, Index;
    if bs == [] {
      NobodyTwice();
    } else {
      var n := |bs| - 1;
      var front, last := bs[..n], EntriesOf(bs[n]);
      assert forall i :: 0 <= i < n ==> front[i] == bs[i];
      DistinctByBucket(front, ourId);
      OtherIds(bs, ourId);
      DistinctJoin(AllEntries(front), last);
      EachAndLast(bs);
    }
  }

  lemma OtherIds(bs: seq<Option<Bucket>>, ourId: Key)
    requires bs != [] && forall i, e :: 0 <= i < |bs| && e in EntriesOf(bs[i]) ==> i == Index(e.id, ourId)
    ensures var n := |bs| - 1;
            forall e, f :: e in AllEntries(bs[..n]) && f in EntriesOf(bs[n]) ==> e.id != f.id
  {
    hide AllEntries, EntriesOf, Index;
    var n := |bs| - 1;
    forall e, f | e in AllEntries(bs[..n]) && f in EntriesOf(bs[n])
      ensures e.id != f.id
    {
      WhereFrom(bs[..n], e);
      var i :| 0 <= i < n && e in EntriesOf(bs[..n][i]);
      assert e in EntriesOf(bs[i]);
    }
  }

  lemma EachAndLast(bs: seq<Option<Bucket>>)
    requires bs != []
    ensures var n := |bs| - 1;
            (forall i :: 0 <= i < |bs| ==> DistinctIds(EntriesOf(bs[i])))
            <==> (forall i :: 0 <= i < n ==> DistinctIds(EntriesOf(bs[..n][i]))) && DistinctIds(EntriesOf(bs[n]))
  {
    hide DistinctIds, EntriesOf;
    var n := |bs| - 1;
    assert forall i :: 0 <= i < n ==> bs[..n][i] == bs[i];
  }

  lemma NobodyTwice()
    ensures DistinctIds([])
  {
  }

  lemma DistinctJoin(a: seq<Entry>, b: seq<Entry>)
    requires forall e, f :: e in a && f in b ==> e.id != f.id
    ensures DistinctIds(a + b) <==> DistinctIds(a) && DistinctIds(b)
  {
    var c := a + b;
    if DistinctIds(c) {
      assert forall i :: 0 <= i < |a| ==> c[i] == a[i];
      assert forall j :: 0 <= j < |b| ==> c[|a| + j] == b[j];
    }
  }

  lemma {:induction false} ScanJoin(m: seq<(nat, Entry)>, target: Key, n: nat, a: seq<Entry>, b: seq<Entry>)
    requires n > 0
    ensures KClosest.Scan(m, target, n, a + b) == KClosest.Scan(KClosest.Scan(m, target, n, a), target, n, b)
  {
    if b == [] {
      assert a + b == a;
    } else {
      ScanJoin(m, target, n, a, b[..|b| - 1]);
      assert (a + b)[..|a + b| - 1] == a + b[..|b| - 1];
    }
  }

  lemma NothingScanned(m: seq<(nat, Entry)>, target: Key, n: nat, bs: seq<Option<Bucket>>)
    requires n > 0
    ensures KClosest.Scan(m, target, n, AllEntries(bs[..0])) == m
  {
  }

  lemma BucketScanned(m: seq<(nat, Entry)>, target: Key, n: nat, bs: seq<Option<Bucket>>, i: nat)
    requires n > 0 && i < |bs|
    ensures KClosest.Scan(m, target, n, AllEntries(bs[..i + 1]))
            == KClosest.Scan(KClosest.Scan(m, target, n, AllEntries(bs[..i])), target, n, EntriesOf(bs[i]))
    ensures bs[i].None? ==>
              KClosest.Scan(m, target, n, AllEntries(bs[..i + 1])) == KClosest.Scan(m, target, n, AllEntries(bs[..i]))
  {
    hide KClosest.Scan;
    assert bs[..i + 1][..i] == bs[..i];
    ScanJoin(m, target, n, AllEntries(bs[..i]), EntriesOf(bs[i]));
    if bs[i].None? {
      assert AllEntries(bs[..i]) + [] == AllEntries(bs[..i]);
    }
  }

  /** For a table in order whose buckets hold no id twice, the search yields exactly the n closest entries of
      the whole table, in the order of their distance to the target. */
  lemma SearchFindsClosest(bs: Slots, ourId: Key, target: Key, n: nat)
    requires n > 0 && SlotsInv(bs, ourId)
    requires forall i :: 0 <= i < 160 ==> DistinctIds(EntriesOf(bs[i]))
    ensures var m := KClosest.Scan([], target, n, AllEntries(bs));
            && KClosest.FromEntries(m, target, AllEntries(bs))
            && (forall i, j :: 0 <= i < j < |m| ==> m[i].0 < m[j].0)
            && |m| == Min(n, |AllEntries(bs)|)
            && (forall e, i :: e in AllEntries(bs) && 0 <= i < |m| ==>
                  (exists j :: 0 <= j < |m| && m[j].1 == e) || m[i].0 < Rank(target, e.id))
  {
    hide SlotsInv, AllEntries, DistinctIds, KClosest.Scan, KClosest.Closest, KClosest.Distances;
    var es := AllEntries(bs);
    var m := KClosest.Scan([], target, n, es);
    EntryPlaces(bs, ourId);
    DistinctByBucket(bs, ourId);
    KClosest.ScanIsClosest(target, n, es);
    KClosest.ScanFromEntries(target, n, es);
    forall e, i | e in es && 0 <= i < |m|
      ensures (exists j :: 0 <= j < |m| && m[j].1 == e) || m[i].0 < Rank(target, e.id)
    {
      KeptOrFarther(target, n, es, e, i);
    }
  }

  /** For any table in order, with repeated ids or without: the search finds just the n closest distances if and only if
      there are fewer than n or no entry spoils it; and an entry that does repeats an id of its own bucket. */
  lemma SearchExact(bs: Slots, ourId: Key, target: Key, n: nat)
    requires n > 0 && SlotsInv(bs, ourId)
    ensures var es := AllEntries(bs);
            var all := KClosest.Distances(target, es);
            && (KClosest.Closest(StdMap.KeySet(KClosest.Scan([], target, n, es)), all, n)
                <==> |all| < n || forall i :: 0 <= i < |es| ==> !KClosest.Spoils(target, n, es, i))
            && forall i :: n <= |all| && 0 <= i < |es| && KClosest.Spoils(target, n, es, i) ==>
                 RepeatsInBucket(bs, ourId, i)
  {
    hide SlotsInv, AllEntries, KClosest.Scan, KClosest.Closest, KClosest.Distances, KClosest.Spoils, Index;
    var es := AllEntries(bs);
    KClosest.ScanExact(target, n, es);
    forall i | n <= |KClosest.Distances(target, es)| && 0 <= i < |es| && KClosest.Spoils(target, n, es, i)
      ensures RepeatsInBucket(bs, ourId, i)
    {
      var k := KClosest.SpoilerRepeats(target, n, es, i);
      SameBucket(bs, ourId, i, k);
    }
  }

  /** An earlier entry of the same bucket has the id of the i-th entry of the table. */
  ghost predicate RepeatsInBucket(bs: Slots, ourId: Key, i: nat)
    requires i < |AllEntries(bs)|
  {
    var es := AllEntries(bs);
    var b := Index(es[i].id, ourId);
    b < 160 && exists k :: 0 <= k < i && es[k].id == es[i].id && es[k] in EntriesOf(bs[b]) && es[i] in EntriesOf(bs[b])
  }

  lemma SameBucket(bs: Slots, ourId: Key, i: nat, k: nat)
    requires SlotsInv(bs, ourId) && k < i < |AllEntries(bs)| && AllEntries(bs)[k].id == AllEntries(bs)[i].id
    ensures RepeatsInBucket(bs, ourId, i)
  {
    hide SlotsInv, AllEntries, Index, EntriesOf;
    var es := AllEntries(bs);
    EntryPlaces(bs, ourId);
    WhereFrom(bs, es[i]);
    WhereFrom(bs, es[k]);
  }

  lemma KeptOrFarther(target: Key, n: nat, es: seq<Entry>, e: Entry, i: nat)
    requires n > 0 && DistinctIds(es) && e in es
    requires i < |KClosest.Scan([], target, n, es)|
    ensures var m := KClosest.Scan([], target, n, es);
            (exists j :: 0 <= j < |m| && m[j].1 == e) || m[i].0 < Rank(target, e.id)
  {
    var m := KClosest.Scan([], target, n, es);
    KClosest.ScanIsClosest(target, n, es);
    KClosest.ScanFromEntries(target, n, es);
    var d := Rank(target, e.id);
    var k :| 0 <= k < |es| && es[k] == e;
    assert Rank(target, es[k].id) in KClosest.Distances(target, es);
    assert m[i].0 in StdMap.KeySet(m);
    if d in StdMap.KeySet(m) {
      var j :| 0 <= j < |m| && m[j].0 == d;
      assert m[j] in m;
      RankInjective(target, e.id, m[j].1.id);
      KClosest.SameIdSameEntry(es, e, m[j].1);
    }
  }

  /** Nobody is above the i-th bucket. */
  ghost predicate EmptyAbove(bs: Slots, i: nat) {
    forall j :: i < j < 160 ==> bs[j].None?
  }

  lemma {:induction false} NothingAbove(bs: seq<Option<Bucket>>, k: nat)
    requires k <= |bs| && forall j :: k <= j < |bs| ==> bs[j].None?
    ensures AllEntries(bs) == AllEntries(bs[..k])
    decreases |bs|
  {
    if k < |bs| {
      NothingAbove(bs[..|bs| - 1], k);
      assert bs[..|bs| - 1][..k] == bs[..k];
    } else {
      assert bs[..k] == bs;
    }
  }

  /** A node that is new to the highest bucket in use, which has room, goes to the end of all entries. */
  lemma ReceivedLast(t: Table, ourId: Key, addr: Address, id: Key, now: Time, call: nat)
    requires id != ourId && EmptyAbove(t.buckets, Index(id, ourId))
    requires var es := EntriesOf(t.buckets[Index(id, ourId)]);
             |es| < K && forall i :: 0 <= i < |es| ==> !es[i].SameNode(Fresh(addr, id, now))
    requires NoPings(t)
    ensures var r := Received(t, ourId, addr, id, now, call);
            && AllEntries(r.buckets) == AllEntries(t.buckets) + [Fresh(addr, id, now)]
            && EmptyAbove(r.buckets, Index(id, ourId)) && NoPings(r)
            && EntriesOf(r.buckets[Index(id, ourId)])
               == EntriesOf(t.buckets[Index(id, ourId)]) + [Fresh(addr, id, now)]
  {
    hide Index;
    var i, e := Index(id, ourId), Fresh(addr, id, now);
    var b := if t.buckets[i].None? then EMPTY else t.buckets[i].value;
    assert IndexOf(b.entries, e) == |b.entries|;
    var r := Received(t, ourId, addr, id, now, call);
    NothingAbove(t.buckets, i + 1);
    NothingAbove(r.buckets, i + 1);
    assert r.buckets[..i + 1][..i] == t.buckets[..i + 1][..i];
    assert r.buckets[..i + 1][i] == Some(b.(entries := b.entries + [e]));
  }

  ghost predicate NoPings(t: Table) {
    forall i :: 0 <= i < 160 && t.buckets[i].Some? ==> t.buckets[i].value.busy == map[]
  }

  /** One message from each of the ids. */
  function Messages(addr: Address, ids: seq<Key>): (r: seq<(Event, Time, nat)>)
    ensures |r| == |ids| && forall i :: 0 <= i < |ids| ==> r[i] == (Message(addr, ids[i]), 0, 0)
  {
    seq(|ids|, i requires 0 <= i < |ids| => (Message(addr, ids[i]), 0, 0))
  }

  function Arrivals(addr: Address, ids: seq<Key>): (r: seq<Entry>)
    ensures |r| == |ids| && forall i :: 0 <= i < |ids| ==> r[i] == Fresh(addr, ids[i], 0)
  {
    seq(|ids|, i requires 0 <= i < |ids| => Fresh(addr, ids[i], 0))
  }

  /** Different ids, from the nearest bucket to the farthest. */
  ghost predicate Ascending(ids: seq<Key>, ourId: Key) {
    && |ids| <= K
    && (forall i :: 0 <= i < |ids| ==> ids[i] != ourId)
    && (forall i, j :: 0 <= i < j < |ids| ==> ids[i] != ids[j] && Index(ids[i], ourId) <= Index(ids[j], ourId))
  }

  /** Messages from different nodes, from the nearest bucket to the farthest, fill the table in this order. */
  lemma {:induction false} MessagesFill(addr: Address, ids: seq<Key>, ourId: Key)
    requires Ascending(ids, ourId)
    ensures var t := Run(FRESH_TABLE, ourId, Messages(addr, ids));
            && NamesFresh(FRESH_TABLE, ourId, Messages(addr, ids))
            && NoPings(t) && AllEntries(t.buckets) == Arrivals(addr, ids)
            && EmptyAbove(t.buckets, if ids == [] then 0 else Index(ids[|ids| - 1], ourId))
            && (ids == [] ==> t == FRESH_TABLE)
  {
    hide Index, Received, AllEntries, Run, NamesFresh, EmptyAbove;
    if ids == [] {
      NoEventsYet(ourId);
      NothingInNothing(FRESH_TABLE.buckets);
    } else {
      var front, id := ids[..|ids| - 1], ids[|ids| - 1];
      MessagesFill(addr, front, ourId);
      assert Messages(addr, ids)[..|ids| - 1] == Messages(addr, front);
      var t := Run(FRESH_TABLE, ourId, Messages(addr, front));
      assert Arrivals(addr, ids) == Arrivals(addr, front) + [Fresh(addr, id, 0)];
      assert forall e :: e in Arrivals(addr, front) ==> e.id != id;
      Unknown(t.buckets, Index(id, ourId), Fresh(addr, id, 0));
      StillEmptyAbove(t.buckets, front, id, ourId);
      ReceivedLast(t, ourId, addr, id, 0, 0);
      RunSnoc(FRESH_TABLE, ourId, Messages(addr, ids));
      assert Messages(addr, ids)[|ids| - 1] == (Message(addr, id), 0, 0);
    }
  }

  lemma NoEventsYet(ourId: Key)
    ensures Run(FRESH_TABLE, ourId, []) == FRESH_TABLE && NamesFresh(FRESH_TABLE, ourId, [])
    ensures EmptyAbove(NO_BUCKETS, 0)
  {
  }

  lemma StillEmptyAbove(bs: Slots, front: seq<Key>, id: Key, ourId: Key)
    requires EmptyAbove(bs, if front == [] then 0 else Index(front[|front| - 1], ourId))
    requires front != [] ==> Index(front[|front| - 1], ourId) <= Index(id, ourId)
    ensures EmptyAbove(bs, Index(id, ourId))
  {
    hide Index;
  }

  lemma RunSnoc(t: Table, ourId: Key, evs: seq<(Event, Time, nat)>)
    requires evs != []
    ensures var front := evs[..|evs| - 1];
            var (ev, now, call) := evs[|evs| - 1];
            && Run(t, ourId, evs) == Step(Run(t, ourId, front), ourId, ev, now, call)
            && (NamesFresh(t, ourId, evs) <==> NamesFresh(t, ourId, front) && Unused(Run(t, ourId, front), call))
  {
    hide Step;
  }

  /** A node that is in no bucket is not in this one. */
  lemma Unknown(bs: Slots, i: nat, e: Entry)
    requires i < 160 && forall x :: x in AllEntries(bs) ==> !x.SameNode(e)
    ensures var es := EntriesOf(bs[i]); |es| <= |AllEntries(bs)| && forall k :: 0 <= k < |es| ==> !es[k].SameNode(e)
  {
    InsideAll(bs, i);
    assert forall k :: 0 <= k < |EntriesOf(bs[i])| ==> EntriesOf(bs[i])[k] in AllEntries(bs);
  }

  /** The entries of one bucket are among all entries, and no more. */
  lemma {:induction false} InsideAll(bs: seq<Option<Bucket>>, i: nat)
    requires i < |bs|
    ensures |EntriesOf(bs[i])| <= |AllEntries(bs)| && forall e :: e in EntriesOf(bs[i]) ==> e in AllEntries(bs)
  {
    if i < |bs| - 1 {
      InsideAll(bs[..|bs| - 1], i);
    }
  }

  /** Keys that differ from the key of zeros in the last byte only. */
  function LastByte(v: byte): Key {
    seq(19, _ => 0) + [v]
  }

  lemma LastByteRank(v: byte, target: Key)
    requires target == LastByte(0)
    ensures Rank(LastByte(v), target) == v as nat && Rank(target, LastByte(v)) == v as nat
    ensures v != 0 ==> LastByte(v) != target && Index(LastByte(v), target) == Log2(v as nat)
  {
    hide Index, Log2;
    var k := LastByte(v);
    XorWithZero(v);
    assert Distance(k, target) == k && Distance(target, k) == k;
    ValOfLast(k, v);
    if v != 0 {
      assert k[19] != target[19];
      BucketIsLog(Index(k, target), k, target);
    }
  }

  lemma XorWithZero(v: byte)
    ensures XorByte(v, 0) == v && XorByte(0, v) == v && XorByte(0, 0) == 0
  {
    hide XorNat;
    XorNatLaws(v as nat, v as nat);
    XorNatLaws(v as nat, 0);
    XorNatLaws(0, 0);
  }

  lemma {:induction false} ValOfLast(k: bytes, v: byte)
    requires k != [] && k[|k| - 1] == v && forall i :: 0 <= i < |k| - 1 ==> k[i] == 0
    ensures Val(k) == v as nat
  {
    if |k| > 1 {
      ValOfLast(k[1..], v);
    } else {
      assert Val(k[1..]) == 0;
    }
  }

  lemma AscendingBytes(ids: seq<Key>, ourId: Key)
    requires ourId == LastByte(0) && |ids| == K && forall i :: 0 <= i < K ==> ids[i] == LastByte((i + 1) as byte)
    ensures Ascending(ids, ourId)
    ensures forall i :: 0 <= i < K ==> Index(ids[i], ourId) == Log2(i + 1)
  {
    hide Index, Log2, Rank, LastByte;
    forall i | 0 <= i < K
      ensures ids[i] != ourId && Index(ids[i], ourId) == Log2(i + 1) && Rank(ids[i], ourId) == i + 1
    {
      LastByteRank((i + 1) as byte, ourId);
    }
    forall i, j | 0 <= i < j < K
      ensures ids[i] != ids[j] && Index(ids[i], ourId) <= Index(ids[j], ourId)
    {
      Log2Monotone(i + 1, j + 1);
    }
  }

  lemma Log2Monotone(a: nat, b: nat)
    requires 0 < a <= b
    ensures Log2(a) <= Log2(b)
  {
    if Log2(b) < Log2(a) {
      Pow2Monotone(Log2(b), Log2(a));
    }
  }

  /** A table reached by messages alone: twenty nodes, and then one of them from another address. It is in order and
      has 21 entries, but a find_node for our own id is answered with 19 nodes instead of 20. */
  lemma RepeatedIdShortens(a: Address, b: Address, ids: seq<Key>, ourId: Key)
    requires a != b
    requires ourId == LastByte(0) && |ids| == K && forall i :: 0 <= i < K ==> ids[i] == LastByte((i + 1) as byte)
    ensures var evs := Messages(a, ids) + [(Message(b, ids[15]), 0, 0)];
            var t := Run(FRESH_TABLE, ourId, evs);
            && NamesFresh(FRESH_TABLE, ourId, evs) && Inv(t, ourId)
            && |AllEntries(t.buckets)| == K + 1
            && |KClosest.Scan([], ourId, K, AllEntries(t.buckets))| == K - 1
  {
    hide Index, Log2, Rank, LastByte, Received, AllEntries, KClosest.Scan, Run, NamesFresh, EmptyAbove;
    var es, msgs := Arrivals(a, ids), Messages(a, ids);
    var evs := msgs + [(Message(b, ids[15]), 0, 0)];
    AscendingBytes(ids, ourId);
    MessagesFill(a, ids, ourId);
    var t := Run(FRESH_TABLE, ourId, msgs);
    assert evs[..|evs| - 1] == msgs;
    SameTop();
    ReachableTable(ourId, msgs);
    HighestHasRoom(t, es, ids, ourId);
    Unknown(t.buckets, Index(ids[15], ourId), Fresh(b, ids[15], 0));
    ReceivedLast(t, ourId, b, ids[15], 0, 0);
    RunSnoc(FRESH_TABLE, ourId, evs);
    ReachableTable(ourId, evs);
    LastByteRank(16, ourId);
    LastByteRank(20, ourId);
    assert Rank(ourId, es[15].id) < Rank(ourId, es[19].id);
    KClosest.RepeatLoses(ourId, K, es, Fresh(b, ids[15], 0), 15);
  }

  lemma SameTop()
    ensures Log2(16) == Log2(20) && Log2(1) != Log2(20)
  {
    Pow2Small();
    Log2Unique(16, 4);
    Log2Unique(20, 4);
  }

  /** The first node is in another bucket than the last, so the bucket of the last is not full. */
  lemma HighestHasRoom(t: Table, es: seq<Entry>, ids: seq<Key>, ourId: Key)
    requires |ids| == |es| == K && AllEntries(t.buckets) == es && Inv(t, ourId)
    requires forall i :: 0 <= i < K ==> es[i].id == ids[i]
    requires Index(ids[0], ourId) != Index(ids[19], ourId) && ids[0] != ourId && ids[19] != ourId
    ensures |EntriesOf(t.buckets[Index(ids[19], ourId)])| < K
  {
    hide Index, SlotsInv, AllEntries;
    var i, j := Index(ids[0], ourId), Index(ids[19], ourId);
    EntryPlaces(t.buckets, ourId);
    WhereFrom(t.buckets, es[0]);
    TwoBuckets(t.buckets, i, j, es[0]);
  }

  lemma {:induction false} TwoBuckets(bs: seq<Option<Bucket>>, i: nat, j: nat, e: Entry)
    requires i < |bs| && j < |bs| && i != j && e in EntriesOf(bs[i])
    ensures |EntriesOf(bs[j])| < |AllEntries(bs)|
  {
    var n := |bs| - 1;
    if i < n && j < n {
      TwoBuckets(bs[..n], i, j, e);
    } else if i == n {
      InsideAll(bs[..n], j);
    } else {
      InsideAll(bs[..n], i);
    }
  }
}

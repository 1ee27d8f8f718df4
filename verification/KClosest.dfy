/** The bounded search for the K entries closest to a key (kclosestnodessearch.cpp). */
module KClosest {
  import opened Bytes
  import opened Keys
  import opened StdMap
  import opened Entries
  import P = Pack

  class KClosestNodesSearch {
    const key: Key
    const maxEntries: nat
    var emap: seq<(nat, Entry)>

    ghost predicate Valid()
      reads this
    {
      maxEntries > 0 && Sorted(emap)
    }

    constructor (key: Key, maxEntries: nat)
      requires maxEntries > 0
      ensures Valid() && this.key == key && this.maxEntries == maxEntries && emap == []
    {
      this.key, this.maxEntries, emap := key, maxEntries, [];
    }

    method TryInsert(e: Entry)
      requires Valid()
      modifies this
      ensures Valid() && emap == Offer(old(emap), key, maxEntries, e)
    {
      var d := Rank(key, e.id);
      OfferRankSorted(emap, maxEntries, d, e);
      if |emap| < maxEntries {
        emap := Insert(emap, d, e);
      } else {
        var max := emap[|emap| - 1].0;
        if d < max {
          emap := Insert(emap, d, e);
          emap := Erase(emap, max);
        }
      }
    }

    /** KBucket::findKClosestNodes offers every entry of a bucket. */
    method TryInsertAll(es: seq<Entry>)
      requires Valid()
      modifies this
      ensures Valid() && emap == Scan(old(emap), key, maxEntries, es)
    {
      for i := 0 to |es|
        invariant Valid() && emap == Scan(old(emap), key, maxEntries, es[..i])
      {
        TryInsert(es[i]);
        assert es[..i + 1][..i] == es[..i];
      }
      assert es[..|es|] == es;
    }

    /** The bytes of one node, in a buffer of just the size it needs. */
    static method PackOne(e: Entry) returns (r: bytes)
      ensures r == P.PackEntry(e)
    {
      hide P.PackEntry;
      var d := new byte[if e.addr.V4? then 26 else 38](_ => 0);
      var ok := P.PackBucketEntry(e, d, 0);
      r := d[..];
    }

    /** The nodes of the map, nearest first, added to a container. */
    method Pack(cnt: P.Container) returns (r: P.Container)
      ensures r == P.AddAll(cnt, Values(emap))
    {
      hide P.PackEntry, P.AddAll, Values, P.Container.AddNode;
      ghost var es := Values(emap);
      r := cnt;
      P.AddNothing(cnt);
      assert es[..0] == [];
      for i := 0 to |emap|
        invariant r == P.AddAll(cnt, es[..i])
      {
        var e := emap[i].1;
        var d := PackOne(e);
        P.AddAllSnoc(cnt, es[..i], e);
        assert es[..i + 1] == es[..i] + [e];
        r := r.AddNode(d);
      }
      assert es[..|emap|] == es;
    }
  }

  function Values(m: seq<(nat, Entry)>): (es: seq<Entry>)
    ensures |es| == |m| && forall i :: 0 <= i < |m| ==> es[i] == m[i].1
  {
    seq(|m|, i requires 0 <= i < |m| => m[i].1)
  }

  /** What tryInsert makes of the map. */
  function Offer(m: seq<(nat, Entry)>, target: Key, n: nat, e: Entry): seq<(nat, Entry)>
    requires n > 0
  {
    OfferRank(m, n, Rank(target, e.id), e)
  }

  function OfferRank(m: seq<(nat, Entry)>, n: nat, d: nat, e: Entry): seq<(nat, Entry)>
    requires n > 0
  {
    if |m| < n then Insert(m, d, e)
    else
      var max := m[|m| - 1].0;
      if d < max then Erase(Insert(m, d, e), max) else m
  }

  function Scan(m: seq<(nat, Entry)>, target: Key, n: nat, es: seq<Entry>): seq<(nat, Entry)>
    requires n > 0
  {
    if es == [] then m
    else Offer(Scan(m, target, n, es[..|es| - 1]), target, n, es[|es| - 1])
  }

  /** The reference definition: n of the keys, or all if there are fewer, and every key left out is greater
      than every key kept. */
  ghost predicate Closest(kept: set<nat>, all: set<nat>, n: nat) {
    && kept <= all
    && |kept| == Min(n, |all|)
    && forall x, y :: x in all && x !in kept && y in kept ==> y < x
  }

  /** The reference definition leaves no choice. */
  lemma ClosestUnique(a: set<nat>, b: set<nat>, all: set<nat>, n: nat)
    requires Closest(a, all, n) && Closest(b, all, n)
    ensures a == b
  {
    if a != b {
      var x := NotIn(a, b);
      var y := NotIn(b, a);
    }
  }

  lemma NotIn(a: set<nat>, b: set<nat>) returns (x: nat)
    requires |a| == |b| && a != b
    ensures x in a && x !in b
  {
    if a <= b {
      SubsetSize(a, b);
      assert false;
    }
    x :| x in a && x !in b;
  }

  lemma OfferDropsLast(m: seq<(nat, Entry)>, n: nat, d: nat, e: Entry)
    requires Sorted(m) && 0 < n <= |m| && d < m[|m| - 1].0
    ensures Sorted(Insert(m, d, e)) && Insert(m, d, e) != []
    ensures OfferRank(m, n, d, e) == Insert(m, d, e)[..|Insert(m, d, e)| - 1]
    ensures Insert(m, d, e)[|Insert(m, d, e)| - 1].0 == m[|m| - 1].0
  {
    InsertSorted(m, d, e);
    LastStays(m, d, e);
    EraseGreatest(Insert(m, d, e), m[|m| - 1].0);
  }

  lemma EraseGreatest(big: seq<(nat, Entry)>, max: nat)
    requires Sorted(big) && big != [] && big[|big| - 1].0 == max
    ensures Erase(big, max) == big[..|big| - 1]
  {
    EraseLast(big);
  }

  /** A smaller distance pushes the greatest one out of a full map; a distance already there takes the
      greatest one with it and adds nothing. */
  lemma OfferFull(m: seq<(nat, Entry)>, n: nat, d: nat, e: Entry)
    requires Sorted(m) && 0 < n <= |m| && d < m[|m| - 1].0
    ensures var r := OfferRank(m, n, d, e);
            && Sorted(r)
            && KeySet(r) == KeySet(m) + {d} - {m[|m| - 1].0}
            && |r| == |m| - (if d in KeySet(m) then 1 else 0)
  {
    hide OfferRank, Insert, Sorted, KeySet;
    InsertInto(m, d, e);
    OfferDropsLast(m, n, d, e);
    DropLast(Insert(m, d, e));
  }

  lemma OfferRankSorted(m: seq<(nat, Entry)>, n: nat, d: nat, e: Entry)
    requires Sorted(m) && n > 0
    ensures Sorted(OfferRank(m, n, d, e))
  {
    InsertInto(m, d, e);
    if |m| >= n && d < m[|m| - 1].0 {
      OfferFull(m, n, d, e);
    }
  }

  lemma {:induction false} LastStays(m: seq<(nat, Entry)>, d: nat, e: Entry)
    requires Sorted(m) && m != [] && d < m[|m| - 1].0
    ensures var r := Insert(m, d, e); r != [] && r[|r| - 1].0 == m[|m| - 1].0
  {
    if m[0].0 != d && d > m[0].0 {
      LastStays(m[1..], d, e);
    }
  }

  lemma DropLast(m: seq<(nat, Entry)>)
    requires Sorted(m) && m != []
    ensures KeySet(m[..|m| - 1]) == KeySet(m) - {m[|m| - 1].0} && Sorted(m[..|m| - 1])
  {
    var r := m[..|m| - 1];
    forall k | k in KeySet(m) - {m[|m| - 1].0}
      ensures k in KeySet(r)
    {
      var i :| 0 <= i < |m| && m[i].0 == k;
      assert r[i].0 == k;
    }
    forall k | k in KeySet(r)
      ensures k in KeySet(m) - {m[|m| - 1].0}
    {
      var i :| 0 <= i < |r| && r[i].0 == k;
      assert m[i].0 == k && m[i].0 < m[|m| - 1].0;
    }
  }

  /** tryInsert keeps the closest n of everything seen so far exactly when the map is not full, or the
      distance is new to it, or the distance is no smaller than the greatest one. */
  lemma OfferExact(m: seq<(nat, Entry)>, target: Key, n: nat, e: Entry, seen: set<nat>)
    requires n > 0 && Sorted(m) && Closest(KeySet(m), seen, n)
    ensures var d := Rank(target, e.id);
            var r := Offer(m, target, n, e);
            && Sorted(r)
            && (Closest(KeySet(r), seen + {d}, n)
                <==> |m| < n || d !in KeySet(m) || m[|m| - 1].0 <= d)
  {
    OfferRankExact(m, n, Rank(target, e.id), e, seen);
  }

  lemma OfferRankExact(m: seq<(nat, Entry)>, n: nat, d: nat, e: Entry, seen: set<nat>)
    requires n > 0 && Sorted(m) && Closest(KeySet(m), seen, n)
    ensures var r := OfferRank(m, n, d, e);
            && Sorted(r)
            && (Closest(KeySet(r), seen + {d}, n)
                <==> |m| < n || d !in KeySet(m) || m[|m| - 1].0 <= d)
  {
    OfferRankSorted(m, n, d, e);
    KeySetSize(m);
    if |m| < n {
      OfferWithRoom(m, n, d, e, seen);
    } else {
      MaxIsGreatest(m);
      if d < m[|m| - 1].0 {
        OfferFull(m, n, d, e);
        KeySetSize(OfferRank(m, n, d, e));
        OfferToFull(KeySet(m), KeySet(OfferRank(m, n, d, e)), seen, n, d, m[|m| - 1].0);
      } else {
        KeptWhenGreater(KeySet(m), seen, n, d, m[|m| - 1].0);
      }
    }
  }

  lemma OfferWithRoom(m: seq<(nat, Entry)>, n: nat, d: nat, e: Entry, seen: set<nat>)
    requires Sorted(m) && |m| < n && Closest(KeySet(m), seen, n)
    ensures Closest(KeySet(OfferRank(m, n, d, e)), seen + {d}, n)
  {
    var r := OfferRank(m, n, d, e);
    InsertInto(m, d, e);
    KeySetSize(m);
    KeySetSize(r);
    SubsetSize(KeySet(m), seen);
    assert KeySet(r) == seen + {d};
  }

  lemma OfferToFull(kept: set<nat>, kept': set<nat>, seen: set<nat>, n: nat, d: nat, max: nat)
    requires Closest(kept, seen, n) && |kept| == n && max in kept && d < max
    requires forall k :: k in kept && k != max ==> k < max
    requires kept' == kept + {d} - {max} && |kept'| == n - (if d in kept then 1 else 0)
    ensures Closest(kept', seen + {d}, n) <==> d !in kept
  {
    SubsetSize(seen, seen + {d});
    SubsetSize(kept, seen);
  }

  lemma MaxIsGreatest(m: seq<(nat, Entry)>)
    requires Sorted(m) && m != []
    ensures m[|m| - 1].0 in KeySet(m)
    ensures forall k :: k in KeySet(m) && k != m[|m| - 1].0 ==> k < m[|m| - 1].0
  {
    assert m[|m| - 1].0 in KeySet(m);
  }

  lemma KeptWhenGreater(kept: set<nat>, seen: set<nat>, n: nat, d: nat, max: nat)
    requires Closest(kept, seen, n) && |kept| == n && max in kept
    requires forall k :: k in kept && k != max ==> k < max
    requires d == max || max < d
    ensures Closest(kept, seen + {d}, n)
  {
    SubsetSize(seen, seen + {d});
  }

  function Distances(target: Key, es: seq<Entry>): set<nat> {
    set i | 0 <= i < |es| :: Rank(target, es[i].id)
  }

  /** Every pair in the result is an offered entry under its own distance. */
  ghost predicate FromEntries(m: seq<(nat, Entry)>, target: Key, es: seq<Entry>) {
    forall p :: p in m ==> p.1 in es && p.0 == Rank(target, p.1.id)
  }

  /** Scanning entries with distinct ids leaves exactly the n closest. */
  lemma {:induction false} ScanIsClosest(target: Key, n: nat, es: seq<Entry>)
    requires n > 0 && DistinctIds(es)
    ensures var m := Scan([], target, n, es);
            && Sorted(m)
            && Closest(KeySet(m), Distances(target, es), n)
            && |m| == Min(n, |es|)
    ensures |Distances(target, es)| == |es|
  {
    if es == [] {
      assert Distances(target, es) == {};
    } else {
      var front, e := es[..|es| - 1], es[|es| - 1];
      var before := Scan([], target, n, front);
      ScanIsClosest(target, n, front);
      DistancesSnoc(target, es);
      OfferExact(before, target, n, e, Distances(target, front));
      KeySetSize(Scan([], target, n, es));
    }
  }

  lemma {:induction false} ScanFromEntries(target: Key, n: nat, es: seq<Entry>)
    requires n > 0 && DistinctIds(es)
    ensures FromEntries(Scan([], target, n, es), target, es)
  {
    hide DistinctIds, FromEntries, Closest, Distances, Offer, Sorted;
    if es == [] {
      NothingFrom(target, es);
    } else {
      var front, e := es[..|es| - 1], es[|es| - 1];
      DistinctFront(es);
      ScanFromEntries(target, n, front);
      ScanIsClosest(target, n, front);
      OfferMembers(Scan([], target, n, front), target, n, e, front);
      assert front + [e] == es;
    }
  }

  lemma NothingFrom(target: Key, es: seq<Entry>)
    ensures FromEntries([], target, es)
  {
  }

  lemma DistinctFront(es: seq<Entry>)
    requires DistinctIds(es) && es != []
    ensures DistinctIds(es[..|es| - 1])
  {
  }

  lemma DistancesSnoc(target: Key, es: seq<Entry>)
    requires es != [] && DistinctIds(es)
    ensures var front, e := es[..|es| - 1], es[|es| - 1];
            && Distances(target, es) == Distances(target, front) + {Rank(target, e.id)}
            && Rank(target, e.id) !in Distances(target, front)
  {
    var front, e := es[..|es| - 1], es[|es| - 1];
    forall i | 0 <= i < |front|
      ensures Rank(target, front[i].id) != Rank(target, e.id)
      ensures Rank(target, front[i].id) in Distances(target, es)
    {
      RankInjective(target, front[i].id, e.id);
      assert es[i] == front[i];
    }
    assert Rank(target, es[|es| - 1].id) in Distances(target, es);
    forall k | k in Distances(target, es)
      ensures k in Distances(target, front) + {Rank(target, e.id)}
    {
      var i :| 0 <= i < |es| && k == Rank(target, es[i].id);
      if i < |front| {
        assert front[i] == es[i];
      }
    }
  }

  lemma OfferMembers(m: seq<(nat, Entry)>, target: Key, n: nat, e: Entry, es: seq<Entry>)
    requires n > 0 && Sorted(m) && FromEntries(m, target, es)
    ensures FromEntries(Offer(m, target, n, e), target, es + [e])
  {
    var d := Rank(target, e.id);
    var big := Insert(m, d, e);
    forall p | p in big
      ensures p.1 in es + [e] && p.0 == Rank(target, p.1.id)
    {
      InsertMembers(m, d, e, p);
    }
    if |m| >= n && d < m[|m| - 1].0 {
      OfferDropsLast(m, n, d, e);
    }
  }

  /** Two scan orders of the same entries give the same map. */
  lemma ScanOrderIrrelevant(target: Key, n: nat, a: seq<Entry>, b: seq<Entry>)
    requires n > 0 && DistinctIds(a) && DistinctIds(b)
    requires forall e :: e in a <==> e in b
    ensures Scan([], target, n, a) == Scan([], target, n, b)
  {
    ScanSameKeys(target, n, a, b);
    ScanFromEntries(target, n, a);
    ScanFromEntries(target, n, b);
    ClosestDetermined(target, a, b, Scan([], target, n, a), Scan([], target, n, b));
  }

  lemma ScanSameKeys(target: Key, n: nat, a: seq<Entry>, b: seq<Entry>)
    requires n > 0 && DistinctIds(a) && DistinctIds(b)
    requires forall e :: e in a <==> e in b
    ensures var m, w := Scan([], target, n, a), Scan([], target, n, b);
            Sorted(m) && Sorted(w) && KeySet(m) == KeySet(w)
  {
    ScanIsClosest(target, n, a);
    ScanIsClosest(target, n, b);
    DistancesSubset(target, a, b);
    DistancesSubset(target, b, a);
    assert Distances(target, a) == Distances(target, b);
    ClosestUnique(KeySet(Scan([], target, n, a)), KeySet(Scan([], target, n, b)), Distances(target, a), n);
  }

  lemma ClosestDetermined(target: Key, a: seq<Entry>, b: seq<Entry>, m: seq<(nat, Entry)>, w: seq<(nat, Entry)>)
    requires DistinctIds(a) && DistinctIds(b) && forall e :: e in a <==> e in b
    requires Sorted(m) && Sorted(w) && KeySet(m) == KeySet(w)
    requires FromEntries(m, target, a) && FromEntries(w, target, b)
    ensures m == w
  {
    SamePairs(target, a, b, m, w);
    SamePairs(target, b, a, w, m);
    SortedUnique(m, w);
  }

  lemma DistancesSubset(target: Key, a: seq<Entry>, b: seq<Entry>)
    requires forall e :: e in a ==> e in b
    ensures Distances(target, a) <= Distances(target, b)
  {
    forall i | 0 <= i < |a|
      ensures Rank(target, a[i].id) in Distances(target, b)
    {
      assert a[i] in b;
    }
  }

  lemma SamePairs(target: Key, a: seq<Entry>, b: seq<Entry>, m: seq<(nat, Entry)>, w: seq<(nat, Entry)>)
    requires DistinctIds(b) && forall e :: e in a ==> e in b
    requires FromEntries(m, target, a) && FromEntries(w, target, b) && KeySet(m) == KeySet(w)
    ensures forall p :: p in m ==> p in w
  {
    forall p | p in m
      ensures p in w
    {
      assert p.0 in KeySet(m);
      var i :| 0 <= i < |w| && w[i].0 == p.0;
      assert w[i] in w;
      RankInjective(target, p.1.id, w[i].1.id);
      SameIdSameEntry(b, p.1, w[i].1);
    }
  }

  lemma SameIdSameEntry(b: seq<Entry>, x: Entry, y: Entry)
    requires DistinctIds(b) && x in b && y in b && x.id == y.id
    ensures x == y
  {
  }

  ghost predicate NearestFirst(target: Key, es: seq<Entry>) {
    forall i, j :: 0 <= i < j < |es| ==> Rank(target, es[i].id) < Rank(target, es[j].id)
  }

  lemma {:induction false} FamilyNearestFirst(target: Key, es: seq<Entry>, v4: bool, now: Time)
    requires NearestFirst(target, es)
    ensures var l := P.OfFamily(es, v4, now);
            && NearestFirst(target, l)
            && (es != [] ==> forall r :: r in l ==> Rank(target, r.id) <= Rank(target, es[|es| - 1].id))
            && forall e :: e in es && e.addr.V4? == v4 ==> P.Renewed(e, now) in l
  {
    hide Rank;
    if es != [] {
      var front := es[..|es| - 1];
      FamilyNearestFirst(target, front, v4, now);
    }
  }

  /** The answer to a find_node request: of each address family, whoever unpacks it gets the packed nodes of
      the search in the order of their distance to the target. */
  lemma PackedSearch(target: Key, n: nat, es: seq<Entry>, now: Time)
    requires n > 0 && DistinctIds(es)
    ensures var found := Values(Scan([], target, n, es));
            var c := P.PackAll(found);
            && |found| == Min(n, |es|)
            && NearestFirst(target, P.UnpackNodes(c.nodes, now))
            && NearestFirst(target, P.UnpackNodes2(c.nodes2, now))
            && (forall e :: e in found && e.addr.V4? ==> P.Renewed(e, now) in P.UnpackNodes(c.nodes, now))
            && (forall e :: e in found && !e.addr.V4? ==> P.Renewed(e, now) in P.UnpackNodes2(c.nodes2, now))
            && |P.UnpackNodes(c.nodes, now)| + |P.UnpackNodes2(c.nodes2, now)| == |found|
  {
    hide Scan, P.PackAll, P.UnpackNodes, P.UnpackNodes2, P.Renewed, Distances, Closest, DistinctIds;
    var m := Scan([], target, n, es);
    var found := Values(m);
    ScanIsClosest(target, n, es);
    ScanFromEntries(target, n, es);
    SortedNearestFirst(target, m, es);
    P.UnpackAllPacked(found, now);
    FamilyNearestFirst(target, found, true, now);
    FamilyNearestFirst(target, found, false, now);
    P.FamiliesCover(found, now);
  }

  lemma SortedNearestFirst(target: Key, m: seq<(nat, Entry)>, es: seq<Entry>)
    requires Sorted(m) && FromEntries(m, target, es)
    ensures NearestFirst(target, Values(m))
  {
    assert forall i :: 0 <= i < |m| ==> m[i] in m;
  }

  /** An id offered again, under another address, to a full map of any size: unless it is the farthest one, the map
      loses its farthest entry and gains nothing. */
  lemma RepeatLoses(target: Key, n: nat, es: seq<Entry>, dup: Entry, m: nat)
    requires n > 0 && DistinctIds(es) && |es| == n && m < n && dup.id == es[m].id
    ensures var kept := Scan([], target, n, es);
            && |kept| == n
            && |Scan([], target, n, es + [dup])|
               == if exists q :: 0 <= q < n && Rank(target, es[m].id) < Rank(target, es[q].id) then n - 1 else n
  {
    hide Scan, DistinctIds, Rank;
    var kept, d := Scan([], target, n, es), Rank(target, dup.id);
    ScanIsClosest(target, n, es);
    ScanSnoc(target, n, es, dup);
    KeySetSize(kept);
    SubsetSize(KeySet(kept), Distances(target, es));
    assert Rank(target, es[m].id) in Distances(target, es);
    MaxIsGreatest(kept);
    if d < kept[n - 1].0 {
      OfferFull(kept, n, d, dup);
      assert kept[n - 1].0 in Distances(target, es);
    } else {
      forall q | 0 <= q < n
        ensures Rank(target, es[q].id) <= d
      {
        assert Rank(target, es[q].id) in KeySet(kept);
      }
    }
  }

  lemma ScanSnoc(target: Key, n: nat, es: seq<Entry>, e: Entry)
    requires n > 0
    ensures Scan([], target, n, es + [e]) == Offer(Scan([], target, n, es), target, n, e)
  {
    assert (es + [e])[..|es|] == es;
  }

  ghost function Greatest(s: set<nat>): (r: nat)
    requires s != {}
    ensures r in s && forall x :: x in s ==> x <= r
  {
    var x :| x in s;
    if s == {x} then x
    else
      assert s == (s - {x}) + {x};
      var g := Greatest(s - {x});
      if g < x then x else g
  }

  /** The n smallest of the numbers, or all if there are fewer. */
  ghost function Nearest(all: set<nat>, n: nat): (r: set<nat>)
    ensures Closest(r, all, n)
    decreases |all|
  {
    if |all| <= n then all
    else
      var g := Greatest(all);
      var r := Nearest(all - {g}, n);
      NearestWithout(all, g, r, n);
      r
  }

  lemma NearestWithout(all: set<nat>, g: nat, r: set<nat>, n: nat)
    requires |all| > n && g in all && (forall x :: x in all ==> x <= g) && Closest(r, all - {g}, n)
    ensures Closest(r, all, n)
  {
    assert |all - {g}| == |all| - 1;
    assert all == (all - {g}) + {g};
    assert g !in r;
  }

  /** The i-th entry offered costs the search its farthest node: it is nearer than that node, all the nearest ones have
      been offered before, so that the map holds just these, and the farthest is not offered again. */
  ghost predicate Spoils(target: Key, n: nat, es: seq<Entry>, i: nat)
    requires 0 < n <= |Distances(target, es)| && i < |es|
  {
    var nearest := Nearest(Distances(target, es), n);
    Spoiling(target, es, nearest, Farthest(nearest), i, |es|)
  }

  ghost function Farthest(nearest: set<nat>): nat {
    if nearest == {} then 0 else Greatest(nearest)
  }

  /** The same among the first p entries. */
  ghost predicate Spoiling(target: Key, es: seq<Entry>, nearest: set<nat>, far: nat, i: nat, p: nat)
    requires i < p <= |es|
  {
    && Rank(target, es[i].id) < far && nearest <= Distances(target, es[..i])
    && forall j :: i < j < p ==> Rank(target, es[j].id) != far
  }

  /** Any search, with repeated ids or without, finds exactly the n closest distances if and only if there are fewer
      than n in all or no entry spoils it. */
  lemma ScanExact(target: Key, n: nat, es: seq<Entry>)
    requires n > 0
    ensures var m := Scan([], target, n, es);
            && Sorted(m)
            && (Closest(KeySet(m), Distances(target, es), n)
                <==> |Distances(target, es)| < n || forall i :: 0 <= i < |es| ==> !Spoils(target, n, es, i))
  {
    hide Scan, Sorted, KeySet, Distances, Nearest, Spoiling, Closest, Greatest;
    var all := Distances(target, es);
    assert es[..|es|] == es;
    if |all| < n {
      ScanFew(target, n, es);
    } else {
      var nearest := Nearest(all, n);
      var far := NearestParts(all, n, nearest);
      ScanHolds(target, n, es, nearest, far, |es|);
      HoldsIfUnspoilt(target, es, nearest, far, |es|);
      FarIsNearest(Scan([], target, n, es), all, n, nearest, far);
      forall i | 0 <= i < |es|
        ensures Spoils(target, n, es, i) <==> Spoiling(target, es, nearest, far, i, |es|)
      {
      }
    }
  }

  /** Only an entry that repeats the id of an earlier one can spoil a search. */
  lemma SpoilerRepeats(target: Key, n: nat, es: seq<Entry>, i: nat) returns (k: nat)
    requires 0 < n <= |Distances(target, es)| && i < |es| && Spoils(target, n, es, i)
    ensures k < i && es[k].id == es[i].id
  {
    hide Nearest, Greatest, Rank;
    var all := Distances(target, es);
    var nearest := Nearest(all, n);
    var far := NearestParts(all, n, nearest);
    assert Rank(target, es[i].id) in all;
    assert Rank(target, es[i].id) in Distances(target, es[..i]);
    k :| 0 <= k < i && Rank(target, es[..i][k].id) == Rank(target, es[i].id);
    RankInjective(target, es[k].id, es[i].id);
  }

  lemma NearestParts(all: set<nat>, n: nat, nearest: set<nat>) returns (far: nat)
    requires 0 < n <= |all| && Closest(nearest, all, n)
    ensures far == Farthest(nearest) && far in all && IsFarthest(nearest, far, all, n)
  {
    far := Greatest(nearest);
  }

  /** nearest are n of all the numbers, with far their greatest, and the others are greater. */
  ghost predicate IsFarthest(nearest: set<nat>, far: nat, all: set<nat>, n: nat) {
    && Closest(nearest, all, n) && |nearest| == n && far in nearest
    && forall x :: x in all ==> (x in nearest <==> x <= far)
  }

  /** With fewer than n distances nothing is ever left out. */
  lemma {:induction false} ScanFew(target: Key, n: nat, es: seq<Entry>)
    requires n > 0 && |Distances(target, es)| < n
    ensures var m := Scan([], target, n, es);
            Sorted(m) && KeySet(m) == Distances(target, es) && Closest(KeySet(m), Distances(target, es), n)
  {
    hide Distances, OfferRank, Insert;
    if es == [] {
      NoDistances(target);
    } else {
      var front, e := es[..|es| - 1], es[|es| - 1];
      DistancesAre(target, es);
      SubsetSize(Distances(target, front), Distances(target, es));
      ScanFew(target, n, front);
      var m := Scan([], target, n, front);
      KeySetSize(m);
      OfferKeys(m, n, Rank(target, e.id), e);
    }
  }

  lemma NoDistances(target: Key)
    ensures Distances(target, []) == {}
  {
  }

  lemma DistancesAre(target: Key, es: seq<Entry>)
    requires es != []
    ensures Distances(target, es) == Distances(target, es[..|es| - 1]) + {Rank(target, es[|es| - 1].id)}
  {
    hide Rank;
    var n := |es| - 1;
    assert forall i :: 0 <= i < n ==> es[i] == es[..n][i];
  }

  /** The keys after an offer. */
  lemma OfferKeys(m: seq<(nat, Entry)>, n: nat, d: nat, e: Entry)
    requires Sorted(m) && n > 0 && |m| <= n
    ensures var r := OfferRank(m, n, d, e);
            && Sorted(r) && |r| <= n && |KeySet(r)| == |r|
            && KeySet(r) == if |m| < n then KeySet(m) + {d}
                            else if d < m[n - 1].0 then KeySet(m) + {d} - {m[n - 1].0} else KeySet(m)
  {
    hide Insert, Sorted, KeySet;
    InsertInto(m, d, e);
    if |m| == n && d < m[n - 1].0 {
      OfferFull(m, n, d, e);
    }
    OfferRankSorted(m, n, d, e);
    KeySetSize(OfferRank(m, n, d, e));
  }

  /** Whether the map still holds the farthest of the nearest after p offers. */
  ghost predicate Holds(target: Key, es: seq<Entry>, nearest: set<nat>, far: nat, p: nat)
    requires p <= |es|
  {
    p > 0 &&
    var d := Rank(target, es[p - 1].id);
    d == far || (!(d < far && nearest <= Distances(target, es[..p - 1])) && Holds(target, es, nearest, far, p - 1))
  }

  /** After p offers the map holds all the nearest ones offered so far, except perhaps the farthest of them. */
  lemma {:induction false} ScanHolds(target: Key, n: nat, es: seq<Entry>, nearest: set<nat>, far: nat, p: nat)
    requires 0 < n && p <= |es| && IsFarthest(nearest, far, Distances(target, es), n)
    ensures var m, seen := Scan([], target, n, es[..p]), Distances(target, es[..p]);
            && Sorted(m) && |m| <= n && KeySet(m) <= seen && nearest * seen - {far} <= KeySet(m)
            && (far in KeySet(m) <==> Holds(target, es, nearest, far, p))
  {
    hide Distances, IsFarthest, OfferRank, Sorted, KeySet, Rank;
    if p == 0 {
      NoDistances(target);
      NothingKept();
      assert es[..0] == [];
    } else {
      var m, e := Scan([], target, n, es[..p - 1]), es[p - 1];
      ScanHolds(target, n, es, nearest, far, p - 1);
      assert es[..p][..p - 1] == es[..p - 1];
      DistancesAre(target, es[..p]);
      DistancesGrow(target, es, p);
      DistancesGrow(target, es, p - 1);
      OfferKeys(m, n, Rank(target, e.id), e);
      KeySetSize(m);
      if |m| > 0 {
        MaxIsGreatest(m);
      }
      OfferHolds(KeySet(m), KeySet(Offer(m, target, n, e)), Rank(target, e.id), if m == [] then 0 else m[|m| - 1].0,
                 Distances(target, es[..p - 1]), Distances(target, es), n, nearest, far);
    }
  }

  lemma NothingKept()
    ensures Sorted<Entry>([]) && KeySet<Entry>([]) == {}
  {
  }

  lemma DistancesGrow(target: Key, es: seq<Entry>, p: nat)
    requires p <= |es|
    ensures Distances(target, es[..p]) <= Distances(target, es)
  {
    assert forall i :: 0 <= i < p ==> es[..p][i] == es[i];
  }

  /** One offer to a map with the given keys. The farthest of the nearest is lost only if the map holds just the nearest
      ones. */
  lemma OfferHolds(keys: set<nat>, keys': set<nat>, d: nat, max: nat, seen: set<nat>, all: set<nat>, n: nat,
                   nearest: set<nat>, far: nat)
    requires n > 0 && IsFarthest(nearest, far, all, n) && |keys| <= n && keys <= seen && seen + {d} <= all
    requires nearest * seen - {far} <= keys
    requires keys != {} ==> max in keys && forall k :: k in keys ==> k <= max
    requires keys' == if |keys| < n then keys + {d} else if d < max then keys + {d} - {max} else keys
    ensures keys' <= seen + {d} && nearest * (seen + {d}) - {far} <= keys'
    ensures far in keys' <==> d == far || (!(d < far && nearest <= seen) && far in keys)
  {
    hide Closest;
    if |keys| == n && max <= far {
      assert keys <= nearest;
      SubsetSize(keys, nearest);
    }
    if far in keys && nearest <= seen {
      assert nearest <= keys;
      SubsetSize(nearest, keys);
    }
  }

  ghost predicate Unspoilt(target: Key, es: seq<Entry>, nearest: set<nat>, far: nat, p: nat)
    requires p <= |es|
  {
    forall i :: 0 <= i < p ==> !Spoiling(target, es, nearest, far, i, p)
  }

  /** The map still holds it at the end exactly if it was offered and nothing spoilt the search. */
  lemma {:induction false} HoldsIfUnspoilt(target: Key, es: seq<Entry>, nearest: set<nat>, far: nat, p: nat)
    requires p <= |es|
    ensures Holds(target, es, nearest, far, p)
            <==> far in Distances(target, es[..p]) && Unspoilt(target, es, nearest, far, p)
  {
    hide Distances, Rank, Unspoilt;
    if p == 0 {
      assert es[..0] == [];
      NoDistances(target);
    } else {
      HoldsIfUnspoilt(target, es, nearest, far, p - 1);
      assert es[..p][..p - 1] == es[..p - 1];
      DistancesAre(target, es[..p]);
      OneMoreEntry(target, es, nearest, far, p - 1, p);
    }
  }

  /** What one more entry makes of it. */
  lemma OneMoreEntry(target: Key, es: seq<Entry>, nearest: set<nat>, far: nat, q: nat, p: nat)
    requires p == q + 1 <= |es|
    ensures Unspoilt(target, es, nearest, far, p) <==>
              var d := Rank(target, es[q].id);
              || d == far
              || (Unspoilt(target, es, nearest, far, q) && !(d < far && nearest <= Distances(target, es[..q])))
  {
    hide Distances, Rank;
    var d := Rank(target, es[q].id);
    forall i | 0 <= i < q
      ensures Spoiling(target, es, nearest, far, i, p) <==> Spoiling(target, es, nearest, far, i, q) && d != far
    {
    }
    assert Spoiling(target, es, nearest, far, q, p) <==> d < far && nearest <= Distances(target, es[..q]);
  }

  lemma FarIsNearest(m: seq<(nat, Entry)>, all: set<nat>, n: nat, nearest: set<nat>, far: nat)
    requires Sorted(m) && |m| <= n && IsFarthest(nearest, far, all, n) && KeySet(m) <= all
    requires nearest * all - {far} <= KeySet(m)
    ensures Closest(KeySet(m), all, n) <==> far in KeySet(m)
  {
    hide Sorted;
    KeySetSize(m);
    if Closest(KeySet(m), all, n) {
      ClosestUnique(KeySet(m), nearest, all, n);
    }
    if far in KeySet(m) {
      assert nearest <= KeySet(m);
      SubsetSize(nearest, KeySet(m));
    }
  }
}

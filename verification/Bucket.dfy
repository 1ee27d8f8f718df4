/** A bucket of the routing table: insertion, replacement of bad entries, and probes of questionable ones
    (kbucket.cpp). */
module Bucket {
  import opened Entries

  const K: nat := 20
  const MAX_PROBES: nat := 2

  /** A ping on its way: who gets in if it is not answered, and where it was sent. */
  datatype Probe = Probe(replacement: Entry, target: Address)

  datatype Bucket = Bucket(entries: seq<Entry>, pending: seq<Entry>, busy: map<nat, Probe>)

  const EMPTY := Bucket([], [], map[])

  function IndexOf(es: seq<Entry>, e: Entry): (i: nat)
    ensures i <= |es| && (i < |es| ==> es[i].SameNode(e)) && forall j :: 0 <= j < i ==> !es[j].SameNode(e)
  {
    if es == [] || es[0].SameNode(e) then 0 else 1 + IndexOf(es[1..], e)
  }

  function IndexOfAddress(es: seq<Entry>, a: Address): (i: nat)
    ensures i <= |es| && (i < |es| ==> es[i].addr == a) && forall j :: 0 <= j < i ==> es[j].addr != a
  {
    if es == [] || es[0].addr == a then 0 else 1 + IndexOfAddress(es[1..], a)
  }

  function FirstBad(es: seq<Entry>, now: Time): (i: nat)
    ensures i <= |es| && (i < |es| ==> es[i].IsBad(now)) && forall j :: 0 <= j < i ==> !es[j].IsBad(now)
  {
    if es == [] || es[0].IsBad(now) then 0 else 1 + FirstBad(es[1..], now)
  }

  function FirstQuestionable(es: seq<Entry>, now: Time): (i: nat)
    ensures i <= |es| && (i < |es| ==> es[i].IsQuestionable(now))
    ensures forall j :: 0 <= j < i ==> !es[j].IsQuestionable(now)
  {
    if es == [] || es[0].IsQuestionable(now) then 0 else 1 + FirstQuestionable(es[1..], now)
  }

  /** Take the i-th entry out and put e at the end. */
  function Swap(es: seq<Entry>, i: nat, e: Entry): seq<Entry>
    requires i < |es|
  {
    es[..i] + es[i + 1..] + [e]
  }

  /** pingQuestionable; call names the ping that is sent. */
  function Ping(b: Bucket, e: Entry, now: Time, call: nat): Bucket {
    if |b.busy| >= MAX_PROBES then b.(pending := b.pending + [e])
    else
      var i := FirstQuestionable(b.entries, now);
      if i == |b.entries| then b
      else Bucket(b.entries[i := b.entries[i].PingedQuestionable()], b.pending,
                  b.busy[call := Probe(e, b.entries[i].addr)])
  }

  /** replaceBadEntry, or else pingQuestionable. */
  function ReplaceOrPing(b: Bucket, e: Entry, now: Time, call: nat): Bucket {
    var i := FirstBad(b.entries, now);
    if i < |b.entries| then b.(entries := Swap(b.entries, i, e)) else Ping(b, e, now, call)
  }

  /** insert */
  function Insert(b: Bucket, e: Entry, now: Time, call: nat): Bucket {
    var i := IndexOf(b.entries, e);
    if i < |b.entries| then b.(entries := Swap(b.entries, i, e))
    else if |b.entries| < K then b.(entries := b.entries + [e])
    else ReplaceOrPing(b, e, now, call)
  }

  /** onResponse(RPCCall*, MsgBase*) */
  function Answered(b: Bucket, c: nat, now: Time, call: nat): Bucket {
    if c !in b.busy then b
    else ReplaceOrPing(b.(busy := b.busy - {c}), b.busy[c].replacement, now, call)
  }

  /** The first half of onTimeout(RPCCall*): the entry that did not answer makes room. */
  function Evict(b: Bucket, c: nat): Bucket
    requires c in b.busy
  {
    var i := IndexOfAddress(b.entries, b.busy[c].target);
    Bucket(if i < |b.entries| then Swap(b.entries, i, b.busy[c].replacement) else b.entries,
           b.pending, b.busy - {c})
  }

  /** onTimeout(RPCCall*) */
  function Unanswered(b: Bucket, c: nat, now: Time, call: nat): Bucket {
    if c !in b.busy then b
    else
      var b1 := Evict(b, c);
      if |b1.busy| < MAX_PROBES && b1.pending != []
      then ReplaceOrPing(b1.(pending := b1.pending[1..]), b1.pending[0], now, call)
      else b1
  }

  /** onTimeout(KInetSocketAddress) */
  function RequestFailed(b: Bucket, a: Address): Bucket {
    var i := IndexOfAddress(b.entries, a);
    if i < |b.entries| then b.(entries := b.entries[i := b.entries[i].RequestTimedOut()]) else b
  }

  /** load into a bucket; the header promises at most K entries. */
  function Loaded(b: Bucket, es: seq<Entry>): Bucket {
    if |es| > K then b else b.(entries := b.entries + es)
  }

  /** What happens to a bucket, when, and the name of the ping that may be sent because of it. */
  datatype Event =
    | Seen(e: Entry)
    | ProbeAnswered(c: nat)
    | ProbeTimedOut(c: nat)
    | RequestTimedOut(a: Address)

  function Step(b: Bucket, ev: Event, now: Time, call: nat): Bucket {
    match ev
    case Seen(e) => Insert(b, e, now, call)
    case ProbeAnswered(c) => Answered(b, c, now, call)
    case ProbeTimedOut(c) => Unanswered(b, c, now, call)
    case RequestTimedOut(a) => RequestFailed(b, a)
  }

  /** At most K entries and two probes; replacements wait or are being tried only while the bucket is full. */
  ghost predicate Inv(b: Bucket) {
    && |b.entries| <= K
    && |b.busy| <= MAX_PROBES
    && (b.pending != [] || b.busy != map[] ==> |b.entries| == K)
  }

  /** Everyone in the bucket, waiting for it or being tried for it. */
  ghost predicate AllNodes(b: Bucket, p: Entry -> bool) {
    && (forall i :: 0 <= i < |b.entries| ==> p(b.entries[i]))
    && (forall i :: 0 <= i < |b.pending| ==> p(b.pending[i]))
    && (forall c :: c in b.busy ==> p(b.busy[c].replacement))
  }

  /** A property of nodes, which the counters and the time of an entry do not influence. */
  ghost predicate OfNodes(p: Entry -> bool) {
    forall e, f :: p(e) && e.SameNode(f) ==> p(f)
  }

  lemma PingKeeps(b: Bucket, e: Entry, now: Time, call: nat, p: Entry -> bool)
    requires Inv(b) && |b.entries| == K && call !in b.busy
    requires OfNodes(p) && AllNodes(b, p) && p(e)
    ensures var r := Ping(b, e, now, call);
            Inv(r) && |r.entries| == K && AllNodes(r, p)
  {
    var i := FirstQuestionable(b.entries, now);
    if |b.busy| < MAX_PROBES && i < |b.entries| {
      var old_, new_ := b.entries[i], b.entries[i].PingedQuestionable();
      assert p(old_) && old_.SameNode(new_);
      assert |b.busy[call := Probe(e, old_.addr)].Keys| == |b.busy.Keys| + 1 by {
        assert b.busy[call := Probe(e, old_.addr)].Keys == b.busy.Keys + {call};
      }
    }
  }

  lemma SwapKeeps(es: seq<Entry>, i: nat, e: Entry, p: Entry -> bool)
    requires i < |es| && p(e) && forall j :: 0 <= j < |es| ==> p(es[j])
    ensures |Swap(es, i, e)| == |es| && forall j :: 0 <= j < |es| ==> p(Swap(es, i, e)[j])
  {
  }

  lemma ReplaceOrPingKeeps(b: Bucket, e: Entry, now: Time, call: nat, p: Entry -> bool)
    requires Inv(b) && |b.entries| == K && call !in b.busy
    requires OfNodes(p) && AllNodes(b, p) && p(e)
    ensures var r := ReplaceOrPing(b, e, now, call);
            Inv(r) && |r.entries| == K && AllNodes(r, p)
  {
    var i := FirstBad(b.entries, now);
    if i < |b.entries| {
      SwapKeeps(b.entries, i, e, p);
    } else {
      PingKeeps(b, e, now, call, p);
    }
  }

  lemma DropProbe(b: Bucket, c: nat)
    requires c in b.busy
    ensures |b.busy - {c}| == |b.busy| - 1
  {
    assert (b.busy - {c}).Keys == b.busy.Keys - {c};
    assert |b.busy.Keys - {c}| == |b.busy.Keys| - 1;
  }

  lemma InsertKeeps(b: Bucket, e: Entry, now: Time, call: nat, p: Entry -> bool)
    requires Inv(b) && call !in b.busy
    requires OfNodes(p) && AllNodes(b, p) && p(e)
    ensures var r := Insert(b, e, now, call);
            && Inv(r) && AllNodes(r, p)
            && |b.entries| <= |r.entries| && (|b.entries| == K ==> |r.entries| == K)
  {
    var i := IndexOf(b.entries, e);
    if i < |b.entries| {
      SwapKeeps(b.entries, i, e, p);
    } else if |b.entries| == K {
      ReplaceOrPingKeeps(b, e, now, call, p);
    }
  }

  lemma UnansweredKeeps(b: Bucket, c: nat, now: Time, call: nat, p: Entry -> bool)
    requires Inv(b) && call !in b.busy && c in b.busy
    requires OfNodes(p) && AllNodes(b, p)
    ensures var r := Unanswered(b, c, now, call);
            Inv(r) && AllNodes(r, p) && |r.entries| == |b.entries|
  {
    EvictKeeps(b, c, p);
    var b1 := Evict(b, c);
    if |b1.busy| < MAX_PROBES && b1.pending != [] {
      ReplaceOrPingKeeps(b1.(pending := b1.pending[1..]), b1.pending[0], now, call, p);
    }
  }

  /** One step of any kind keeps the bounds, keeps a full bucket full, and brings in nobody who was not offered. */
  lemma StepKeeps(b: Bucket, ev: Event, now: Time, call: nat, p: Entry -> bool)
    requires Inv(b) && call !in b.busy
    requires OfNodes(p) && AllNodes(b, p) && (ev.Seen? ==> p(ev.e))
    ensures var r := Step(b, ev, now, call);
            && Inv(r) && AllNodes(r, p)
            && |b.entries| <= |r.entries|
            && (|b.entries| == K || !ev.Seen? ==> |r.entries| == |b.entries|)
  {
    match ev
    case Seen(e) =>
      InsertKeeps(b, e, now, call, p);
    case ProbeAnswered(c) =>
      if c in b.busy {
        DropProbe(b, c);
        ReplaceOrPingKeeps(b.(busy := b.busy - {c}), b.busy[c].replacement, now, call, p);
      }
    case ProbeTimedOut(c) =>
      if c in b.busy {
        UnansweredKeeps(b, c, now, call, p);
      }
    case RequestTimedOut(a) =>
      var i := IndexOfAddress(b.entries, a);
      if i < |b.entries| {
        assert b.entries[i].SameNode(b.entries[i].RequestTimedOut());
      }
  }

  /** A run: what happened, when, and the name for a ping that was not in use at the time. */
  function Run(b: Bucket, evs: seq<(Event, Time, nat)>): Bucket
    decreases |evs|
  {
    if evs == [] then b
    else
      var (ev, now, call) := evs[|evs| - 1];
      Step(Run(b, evs[..|evs| - 1]), ev, now, call)
  }

  ghost predicate NamesFresh(b: Bucket, evs: seq<(Event, Time, nat)>)
    decreases |evs|
  {
    evs != [] ==>
      NamesFresh(b, evs[..|evs| - 1]) && evs[|evs| - 1].2 !in Run(b, evs[..|evs| - 1]).busy
  }

  /** Over every run of a bucket that was loaded from a file: the bounds hold, and a bucket that is full once
      stays full. */
  lemma {:induction false} RunKeeps(es: seq<Entry>, evs: seq<(Event, Time, nat)>)
    requires NamesFresh(Loaded(EMPTY, es), evs)
    ensures var r := Run(Loaded(EMPTY, es), evs);
            && Inv(r)
            && (evs != [] && |Run(Loaded(EMPTY, es), evs[..|evs| - 1]).entries| == K ==> |r.entries| == K)
  {
    if evs != [] {
      RunKeeps(es, evs[..|evs| - 1]);
      var (ev, now, call) := evs[|evs| - 1];
      StepKeeps(Run(Loaded(EMPTY, es), evs[..|evs| - 1]), ev, now, call, _ => true);
    }
  }

  lemma EvictKeeps(b: Bucket, c: nat, p: Entry -> bool)
    requires Inv(b) && c in b.busy && AllNodes(b, p)
    ensures var r := Evict(b, c);
            Inv(r) && |r.entries| == K && AllNodes(r, p) && r.busy.Keys == b.busy.Keys - {c}
  {
    DropProbe(b, c);
    var i := IndexOfAddress(b.entries, b.busy[c].target);
    if i < |b.entries| {
      SwapKeeps(b.entries, i, b.busy[c].replacement, p);
    }
  }

  /** The node of an entry is still in the list. */
  ghost predicate Stays(x: Entry, es: seq<Entry>) {
    exists j :: 0 <= j < |es| && es[j].SameNode(x)
  }

  /** Whoever leaves the bucket was bad, or is the one that left a ping unanswered. */
  lemma StepEvicts(b: Bucket, ev: Event, now: Time, call: nat, k: nat)
    requires k < |b.entries|
    ensures var x := b.entries[k];
            || Stays(x, Step(b, ev, now, call).entries)
            || x.IsBad(now)
            || (ev.ProbeTimedOut? && ev.c in b.busy && x.addr == b.busy[ev.c].target)
  {
    var x := b.entries[k];
    match ev
    case Seen(e) =>
      var i := IndexOf(b.entries, e);
      if i < |b.entries| {
        SwapLoses(b.entries, i, e, k);
        if i == k {
          assert Swap(b.entries, i, e)[|b.entries| - 1].SameNode(x);
        }
      } else if |b.entries| < K {
        assert (b.entries + [e])[k].SameNode(x);
      } else {
        ReplaceOrPingEvicts(b, e, now, call, k);
      }
    case ProbeAnswered(c) =>
      if c in b.busy {
        ReplaceOrPingEvicts(b.(busy := b.busy - {c}), b.busy[c].replacement, now, call, k);
      } else {
        assert b.entries[k].SameNode(x);
      }
    case ProbeTimedOut(c) =>
      if c in b.busy {
        UnansweredEvicts(b, c, now, call, k);
      } else {
        assert b.entries[k].SameNode(x);
      }
    case RequestTimedOut(a) =>
      assert RequestFailed(b, a).entries[k].SameNode(x);
  }

  lemma SwapLoses(es: seq<Entry>, i: nat, e: Entry, k: nat)
    requires i < |es| && k < |es|
    ensures k != i ==> es[k] in Swap(es, i, e) && Stays(es[k], Swap(es, i, e))
  {
    var r := Swap(es, i, e);
    if k < i {
      assert r[k] == es[k];
    } else if k > i {
      assert r[k - 1] == es[k];
    }
  }

  lemma ReplaceOrPingEvicts(b: Bucket, e: Entry, now: Time, call: nat, k: nat)
    requires k < |b.entries|
    ensures Stays(b.entries[k], ReplaceOrPing(b, e, now, call).entries) || b.entries[k].IsBad(now)
  {
    var i := FirstBad(b.entries, now);
    if i < |b.entries| {
      SwapLoses(b.entries, i, e, k);
    } else {
      assert Ping(b, e, now, call).entries[k].SameNode(b.entries[k]);
    }
  }

  lemma UnansweredEvicts(b: Bucket, c: nat, now: Time, call: nat, k: nat)
    requires k < |b.entries| && c in b.busy
    ensures || Stays(b.entries[k], Unanswered(b, c, now, call).entries)
            || b.entries[k].IsBad(now)
            || b.entries[k].addr == b.busy[c].target
  {
    var b1, x := Evict(b, c), b.entries[k];
    var i := IndexOfAddress(b.entries, b.busy[c].target);
    if i < |b.entries| {
      SwapLoses(b.entries, i, b.busy[c].replacement, k);
    }
    if x.addr != b.busy[c].target {
      assert x in b1.entries;
      var j :| 0 <= j < |b1.entries| && b1.entries[j] == x;
      if |b1.busy| < MAX_PROBES && b1.pending != [] {
        ReplaceOrPingEvicts(b1.(pending := b1.pending[1..]), b1.pending[0], now, call, j);
      } else {
        assert b1.entries[j].SameNode(x);
      }
    }
  }

  /** insert puts out at most one entry: of any two, one stays. */
  lemma InsertEvictsOne(b: Bucket, e: Entry, now: Time, call: nat, j: nat, k: nat)
    requires j < k < |b.entries|
    ensures var r := Insert(b, e, now, call);
            && (Stays(b.entries[j], r.entries) || Stays(b.entries[k], r.entries))
            && (!Stays(b.entries[j], r.entries) ==> b.entries[j].IsBad(now))
            && (!Stays(b.entries[k], r.entries) ==> b.entries[k].IsBad(now))
  {
    StepEvicts(b, Seen(e), now, call, j);
    StepEvicts(b, Seen(e), now, call, k);
    var i := IndexOf(b.entries, e);
    var bad := FirstBad(b.entries, now);
    if i < |b.entries| {
      SwapLoses(b.entries, i, e, j);
      SwapLoses(b.entries, i, e, k);
    } else if |b.entries| >= K && bad < |b.entries| {
      SwapLoses(b.entries, bad, e, j);
      SwapLoses(b.entries, bad, e, k);
    } else if |b.entries| < K {
      assert (b.entries + [e])[j].SameNode(b.entries[j]);
    } else {
      assert Ping(b, e, now, call).entries[j].SameNode(b.entries[j]);
    }
  }

  /** The newcomer is in, is being tried, waits, or is turned away from a bucket of good entries only. */
  lemma InsertOutcome(b: Bucket, e: Entry, now: Time, call: nat)
    requires Inv(b) && call !in b.busy
    ensures var r := Insert(b, e, now, call);
            || (r.entries != [] && r.entries[|r.entries| - 1] == e)
            || (call in r.busy && r.busy[call].replacement == e)
            || (r.pending != [] && r.pending[|r.pending| - 1] == e)
            || (r == b && |b.entries| == K && forall i :: 0 <= i < K ==> b.entries[i].IsGood(now))
  {
  }

  /** The event lets in the replacement that waited longest. */
  predicate TakesWaiting(b: Bucket, ev: Event) {
    ev.ProbeTimedOut? && ev.c in b.busy && |b.busy - {ev.c}| < MAX_PROBES && b.pending != []
  }

  /** A waiting replacement gets its turn exactly when a ping times out: answers, insertions and failed requests leave
      the queue as it is, or longer. So with no ping on its way everybody keeps waiting. */
  lemma WaitingExact(b: Bucket, ev: Event, now: Time, call: nat)
    ensures var r := Step(b, ev, now, call);
            && (TakesWaiting(b, ev) ==> r.pending == b.pending[1..])
            && (!TakesWaiting(b, ev) ==> b.pending <= r.pending)
    ensures b.busy == map[] ==> b.pending <= Step(b, ev, now, call).pending
  {
    hide IndexOf, IndexOfAddress, FirstBad, FirstQuestionable, Swap;
  }

  /** The list is sorted by the time last seen, least recently seen first, and nothing is newer than now. */
  ghost predicate Chronological(es: seq<Entry>, now: Time) {
    && (forall i, j :: 0 <= i < j < |es| ==> es[i].lastResponded <= es[j].lastResponded)
    && (forall i :: 0 <= i < |es| ==> es[i].lastResponded <= now)
  }

  /** Messages received one after the other, each at its own moment. */
  function InsertAll(b: Bucket, seen: seq<(Entry, nat)>): Bucket
    decreases |seen|
  {
    if seen == [] then b
    else
      var (e, call) := seen[|seen| - 1];
      Insert(InsertAll(b, seen[..|seen| - 1]), e, e.lastResponded, call)
  }

  lemma WithoutChronological(es: seq<Entry>, i: nat, now: Time)
    requires Chronological(es, now) && i < |es|
    ensures Chronological(es[..i] + es[i + 1..], now)
  {
    var r := es[..i] + es[i + 1..];
    forall j | 0 <= j < |r|
      ensures r[j] == es[if j < i then j else j + 1]
    {
    }
  }

  lemma AppendChronological(es: seq<Entry>, e: Entry, now: Time)
    requires Chronological(es, now) && e.lastResponded <= now
    ensures Chronological(es + [e], now) <==> es == [] || es[|es| - 1].lastResponded <= e.lastResponded
  {
    var r := es + [e];
    if es != [] {
      assert r[|es| - 1] == es[|es| - 1] && r[|es|] == e;
    }
  }

  lemma LaterChronological(es: seq<Entry>, before: Time, now: Time)
    requires Chronological(es, before) && before <= now
    ensures Chronological(es, now)
  {
  }

  lemma SwapChronological(es: seq<Entry>, i: nat, e: Entry)
    requires Chronological(es, e.lastResponded) && i < |es|
    ensures Chronological(Swap(es, i, e), e.lastResponded)
  {
    WithoutChronological(es, i, e.lastResponded);
    AppendChronological(es[..i] + es[i + 1..], e, e.lastResponded);
  }

  lemma InsertChronological(b: Bucket, e: Entry, call: nat, before: Time)
    requires Chronological(b.entries, before) && before <= e.lastResponded
    ensures Chronological(Insert(b, e, e.lastResponded, call).entries, e.lastResponded)
  {
    hide Chronological, Swap;
    var now := e.lastResponded;
    LaterChronological(b.entries, before, now);
    var i := IndexOf(b.entries, e);
    var bad := FirstBad(b.entries, now);
    if i < |b.entries| {
      SwapChronological(b.entries, i, e);
    } else if |b.entries| < K {
      AppendNewest(b.entries, e);
    } else if bad < |b.entries| {
      SwapChronological(b.entries, bad, e);
    } else {
      PingChronological(b, e, now, call);
    }
  }

  lemma AppendNewest(es: seq<Entry>, e: Entry)
    requires Chronological(es, e.lastResponded)
    ensures Chronological(es + [e], e.lastResponded)
  {
    AppendChronological(es, e, e.lastResponded);
  }

  lemma PingChronological(b: Bucket, e: Entry, now: Time, call: nat)
    requires Chronological(b.entries, now)
    ensures Chronological(Ping(b, e, now, call).entries, now)
  {
    var r := Ping(b, e, now, call).entries;
    assert forall j :: 0 <= j < |r| ==> r[j].lastResponded == b.entries[j].lastResponded;
  }

  /** As long as nothing but insertions happens, at increasing times, the first entry is the least recently
      seen one. */
  lemma {:induction false} InsertionsChronological(seen: seq<(Entry, nat)>, start: Time)
    requires forall i, j :: 0 <= i < j < |seen| ==> seen[i].0.lastResponded <= seen[j].0.lastResponded
    requires forall i :: 0 <= i < |seen| ==> start <= seen[i].0.lastResponded
    ensures Chronological(InsertAll(EMPTY, seen).entries,
                          if seen == [] then start else seen[|seen| - 1].0.lastResponded)
  {
    if seen != [] {
      var front := seen[..|seen| - 1];
      InsertionsChronological(front, start);
      InsertChronological(InsertAll(EMPTY, front), seen[|seen| - 1].0, seen[|seen| - 1].1,
                          if front == [] then start else front[|front| - 1].0.lastResponded);
    }
  }

  function Without(es: seq<Entry>, i: nat): seq<Entry>
    requires i < |es|
  {
    es[..i] + es[i + 1..]
  }

  /** An entry that is appended was seen no earlier than all that are there, and not after now. */
  predicate Follows(es: seq<Entry>, e: Entry, now: Time) {
    e.lastResponded <= now && (es != [] ==> es[|es| - 1].lastResponded <= e.lastResponded)
  }

  /** The same for an entry that takes the place of the first bad one. */
  predicate ReplacementFollows(es: seq<Entry>, e: Entry, now: Time) {
    var i := FirstBad(es, now);
    i < |es| ==> Follows(Without(es, i), e, now)
  }

  /** The same for an unanswered ping: the entry that did not answer makes room for its replacement, and then the
      first bad one, which may be this replacement, for the one that waited longest. */
  predicate TimeoutFollows(b: Bucket, c: nat, now: Time)
    requires c in b.busy
  {
    var i, r := IndexOfAddress(b.entries, b.busy[c].target), b.busy[c].replacement;
    var es := Evict(b, c).entries;
    var k := FirstBad(es, now);
    if |b.busy - {c}| >= MAX_PROBES || b.pending == [] || k == |es| then
      i < |b.entries| ==> Follows(Without(b.entries, i), r, now)
    else if i == |b.entries| then Follows(Without(es, k), b.pending[0], now)
    else
      var rest := Without(b.entries, i);
      if k >= |rest| then Follows(rest, b.pending[0], now)
      else Follows(Without(rest, k), r, now) && Follows([r], b.pending[0], now)
  }

  predicate StepFollows(b: Bucket, ev: Event, now: Time) {
    match ev
    case Seen(e) =>
      var i := IndexOf(b.entries, e);
      if i < |b.entries| then Follows(Without(b.entries, i), e, now)
      else if |b.entries| < K then Follows(b.entries, e, now)
      else ReplacementFollows(b.entries, e, now)
    case ProbeAnswered(c) => c in b.busy ==> ReplacementFollows(b.entries, b.busy[c].replacement, now)
    case ProbeTimedOut(c) => c in b.busy ==> TimeoutFollows(b, c, now)
    case RequestTimedOut(_) => true
  }

  lemma AppendExact(es: seq<Entry>, e: Entry, now: Time)
    requires Chronological(es, now)
    ensures Chronological(es + [e], now) <==> Follows(es, e, now)
  {
    if e.lastResponded <= now {
      AppendChronological(es, e, now);
    } else {
      assert (es + [e])[|es|] == e;
    }
  }

  lemma SwapExact(es: seq<Entry>, i: nat, e: Entry, now: Time)
    requires Chronological(es, now) && i < |es|
    ensures Chronological(Swap(es, i, e), now) <==> Follows(Without(es, i), e, now)
  {
    WithoutChronological(es, i, now);
    AppendExact(Without(es, i), e, now);
  }

  lemma ReplaceOrPingExact(b: Bucket, e: Entry, now: Time, call: nat)
    requires Chronological(b.entries, now)
    ensures Chronological(ReplaceOrPing(b, e, now, call).entries, now) <==> ReplacementFollows(b.entries, e, now)
  {
    hide Chronological, Swap, Follows, Ping;
    var i := FirstBad(b.entries, now);
    if i < |b.entries| {
      SwapExact(b.entries, i, e, now);
    } else {
      PingChronological(b, e, now, call);
    }
  }

  lemma PrefixChronological(es: seq<Entry>, e: Entry, now: Time)
    requires Chronological(es + [e], now)
    ensures Chronological(es, now)
  {
    var r := es + [e];
    assert forall j :: 0 <= j < |es| ==> r[j] == es[j];
  }

  /** Two entries out, two entries in. */
  lemma TwoSwapsExact(es: seq<Entry>, i: nat, r: Entry, k: nat, p: Entry, now: Time)
    requires Chronological(es, now) && i < |es| && k < |es|
    ensures var rest := Without(es, i);
            Chronological(Swap(Swap(es, i, r), k, p), now) <==>
              if k == |rest| then Follows(rest, p, now)
              else Follows(Without(rest, k), r, now) && Follows([r], p, now)
  {
    hide Chronological;
    var rest := Without(es, i);
    WithoutChronological(es, i, now);
    if k == |rest| {
      assert Swap(Swap(es, i, r), k, p) == rest + [p];
      AppendExact(rest, p, now);
    } else {
      var short := Without(rest, k);
      WithoutChronological(rest, k, now);
      assert Swap(Swap(es, i, r), k, p) == short + [r] + [p];
      AppendExact(short, r, now);
      if Follows(short, r, now) {
        AppendExact(short + [r], p, now);
      } else if Chronological(short + [r] + [p], now) {
        PrefixChronological(short + [r], p, now);
      }
    }
  }

  lemma TimeoutExact(b: Bucket, c: nat, now: Time, call: nat)
    requires Inv(b) && c in b.busy && Chronological(b.entries, now)
    ensures Chronological(Unanswered(b, c, now, call).entries, now) <==> TimeoutFollows(b, c, now)
  {
    hide Chronological, Follows, Ping, Inv;
    EvictKeeps(b, c, _ => true);
    var i, r := IndexOfAddress(b.entries, b.busy[c].target), b.busy[c].replacement;
    var b1 := Evict(b, c);
    var es := b1.entries;
    var k := FirstBad(es, now);
    if i < |b.entries| {
      SwapExact(b.entries, i, r, now);
    }
    if |b1.busy| < MAX_PROBES && b1.pending != [] {
      if k < |es| {
        if i < |b.entries| {
          TwoSwapsExact(b.entries, i, r, k, b.pending[0], now);
        } else {
          SwapExact(es, k, b.pending[0], now);
        }
      } else {
        PingExact(b1.(pending := b1.pending[1..]), b.pending[0], now, call);
      }
    }
  }

  /** A ping changes nobody's time. */
  lemma PingExact(b: Bucket, e: Entry, now: Time, call: nat)
    ensures Chronological(Ping(b, e, now, call).entries, now) <==> Chronological(b.entries, now)
  {
    var r := Ping(b, e, now, call).entries;
    assert forall j :: 0 <= j < |r| ==> r[j].lastResponded == b.entries[j].lastResponded;
  }

  /** One event of any kind keeps the order exactly if what it appends was seen no earlier than what stays. */
  lemma StepExact(b: Bucket, ev: Event, now: Time, call: nat)
    requires Inv(b) && Chronological(b.entries, now)
    ensures Chronological(Step(b, ev, now, call).entries, now) <==> StepFollows(b, ev, now)
  {
    hide Chronological, Follows, Without, Ping, Swap, TimeoutFollows, Unanswered, ReplaceOrPing, ReplacementFollows;
    match ev
    case Seen(e) =>
      var i := IndexOf(b.entries, e);
      if i < |b.entries| {
        SwapExact(b.entries, i, e, now);
      } else if |b.entries| < K {
        AppendExact(b.entries, e, now);
      } else {
        ReplaceOrPingExact(b, e, now, call);
      }
    case ProbeAnswered(c) =>
      if c in b.busy {
        ReplaceOrPingExact(b.(busy := b.busy - {c}), b.busy[c].replacement, now, call);
      }
    case ProbeTimedOut(c) =>
      if c in b.busy {
        TimeoutExact(b, c, now, call);
      } else {
        SilentTimeout(b, c, now, call);
      }
    case RequestTimedOut(a) => CountExact(b, a, now);
  }

  lemma SilentTimeout(b: Bucket, c: nat, now: Time, call: nat)
    requires c !in b.busy
    ensures Unanswered(b, c, now, call) == b
  {
  }

  lemma CountExact(b: Bucket, a: Address, now: Time)
    ensures Chronological(RequestFailed(b, a).entries, now) <==> Chronological(b.entries, now)
  {
    var r := RequestFailed(b, a).entries;
    assert forall j :: 0 <= j < |r| ==> r[j].lastResponded == b.entries[j].lastResponded;
  }

  lemma InsertsNew(es: seq<Entry>, e: Entry)
    requires |es| < K && forall i :: 0 <= i < |es| ==> !es[i].SameNode(e)
    ensures Insert(Bucket(es, [], map[]), e, e.lastResponded, 0) == Bucket(es + [e], [], map[])
  {
    assert IndexOf(es, e) == |es|;
  }

  /** Different nodes seen one after the other fill the bucket. */
  lemma {:induction false} Filled(es: seq<Entry>)
    requires |es| <= K && forall i, j :: 0 <= i < j < |es| ==> !es[i].SameNode(es[j])
    ensures Run(EMPTY, AllSeen(es)) == Bucket(es, [], map[]) && NamesFresh(EMPTY, AllSeen(es))
  {
    hide Insert;
    if es != [] {
      var front, e := es[..|es| - 1], es[|es| - 1];
      Filled(front);
      assert AllSeen(es)[..|es| - 1] == AllSeen(front);
      assert AllSeen(es)[|es| - 1] == (Seen(e), e.lastResponded, 0);
      InsertsNew(front, e);
      assert front + [e] == es;
    }
  }

  function AllSeen(es: seq<Entry>): (r: seq<(Event, Time, nat)>)
    ensures |r| == |es|
  {
    seq(|es|, i requires 0 <= i < |es| => (Seen(es[i]), es[i].lastResponded, 0))
  }

  /** The run that breaks the order: twenty nodes, and a quarter of an hour later a newcomer, for whom the first node
      is pinged; then the second node is seen again; then the ping times out. */
  function BreakingEvents(es: seq<Entry>, late: Entry, t: Time): seq<(Event, Time, nat)>
    requires |es| == K
  {
    [(Seen(late), late.lastResponded, 0), (Seen(Fresh(es[1].addr, es[1].id, t)), t, 1), (ProbeTimedOut(0), t, 2)]
  }

  /** From the empty bucket, by a clock that does not go back: the newcomer ends up behind the node that was seen
      after it. */
  lemma OrderBreaks(es: seq<Entry>, late: Entry, t: Time)
    requires |es| == K && forall i, j :: 0 <= i < j < K ==> !es[i].SameNode(es[j]) && es[i].addr != es[j].addr
    requires forall i :: 0 <= i < K ==>
               es[i].lastResponded == es[0].lastResponded && es[i].failedQueries == es[i].questionablePings == 0
    requires forall i :: 0 <= i < K ==> !es[i].SameNode(late)
    requires es[0].lastResponded + 15 * 60 * 1000 < late.lastResponded < t
    ensures var evs := AllSeen(es) + BreakingEvents(es, late, t);
            && NamesFresh(EMPTY, evs)
            && (forall i, j :: 0 <= i < j < |evs| ==> evs[i].1 <= evs[j].1)
            && !Chronological(Run(EMPTY, evs).entries, t)
  {
    hide Chronological, Step;
    var seen, last := AllSeen(es), BreakingEvents(es, late, t);
    Filled(es);
    var b0 := Bucket(es, [], map[]);
    var b1 := NewcomerIsTried(b0, late);
    var again := Fresh(es[1].addr, es[1].id, t);
    var b2 := SecondSeenAgain(es, b1, again);
    FirstTimesOut(es, b2, late, again, t);
    var e1, e2, e3 := seen + last[..1], seen + last[..2], seen + last;
    assert e3[..|e3| - 1] == e2 && e2[..|e2| - 1] == e1 && e1[..|e1| - 1] == seen;
    assert Run(EMPTY, e1) == b1 && NamesFresh(EMPTY, e1);
    assert Run(EMPTY, e2) == b2 && NamesFresh(EMPTY, e2);
    assert NamesFresh(EMPTY, e3);
  }

  lemma NewcomerIsTried(b: Bucket, late: Entry) returns (r: Bucket)
    requires |b.entries| == K && b.busy == map[] && b.pending == []
    requires forall i :: 0 <= i < K ==>
               && b.entries[i].lastResponded == b.entries[0].lastResponded
               && b.entries[i].failedQueries == b.entries[i].questionablePings == 0
    requires forall i :: 0 <= i < K ==> !b.entries[i].SameNode(late)
    requires b.entries[0].lastResponded + 15 * 60 * 1000 < late.lastResponded
    ensures r == Step(b, Seen(late), late.lastResponded, 0)
    ensures r == Bucket(b.entries[0 := b.entries[0].PingedQuestionable()], [], map[0 := Probe(late, b.entries[0].addr)])
  {
    r := Step(b, Seen(late), late.lastResponded, 0);
    var now := late.lastResponded;
    assert IndexOf(b.entries, late) == K;
    assert FirstBad(b.entries, now) == K;
    assert b.entries[0].IsQuestionable(now);
    assert FirstQuestionable(b.entries, now) == 0;
  }

  lemma SecondSeenAgain(es: seq<Entry>, b: Bucket, again: Entry) returns (r: Bucket)
    requires |es| == K && !es[0].SameNode(es[1]) && again.SameNode(es[1])
    requires b.entries == es[0 := es[0].PingedQuestionable()]
    ensures r == Step(b, Seen(again), again.lastResponded, 1)
    ensures r.pending == b.pending && r.busy == b.busy
    ensures r.entries == Swap(b.entries, 1, again)
  {
    r := Step(b, Seen(again), again.lastResponded, 1);
    assert !b.entries[0].SameNode(again);
    assert b.entries[1].SameNode(again);
    assert IndexOf(b.entries, again) == 1;
  }

  lemma FirstTimesOut(es: seq<Entry>, b: Bucket, late: Entry, again: Entry, t: Time)
    requires |es| == K && late.lastResponded < again.lastResponded
    requires b.entries == Swap(es[0 := es[0].PingedQuestionable()], 1, again) && b.pending == []
    requires b.busy == map[0 := Probe(late, es[0].addr)]
    ensures !Chronological(Step(b, ProbeTimedOut(0), t, 2).entries, t)
  {
    var r := Step(b, ProbeTimedOut(0), t, 2);
    assert b.entries[0].addr == es[0].addr && b.entries[K - 1] == again;
    assert IndexOfAddress(b.entries, es[0].addr) == 0;
    assert r.entries == Swap(b.entries, 0, late);
    assert r.entries[K - 2] == again && r.entries[K - 1] == late;
  }

  /** The run that leaves a replacement waiting: twenty nodes, the first of them long ago; three newcomers, for two of
      whom the first node is pinged; then the first node is seen again, and both pings are answered. */
  function WaitingEvents(es: seq<Entry>, a: Entry, b: Entry, c: Entry, t: Time): (r: seq<(Event, Time, nat)>)
    requires |es| == K
    ensures |r| == 6
  {
    [(Seen(a), t, 0), (Seen(b), t, 1), (Seen(c), t, 2), (Seen(Fresh(es[0].addr, es[0].id, t)), t, 2),
     (ProbeAnswered(0), t, 2), (ProbeAnswered(1), t, 2)]
  }

  /** Different nodes, the first questionable at the time and the others good. */
  ghost predicate FirstIsOld(es: seq<Entry>, t: Time) {
    && |es| == K && (forall i, j :: 0 <= i < j < K ==> !es[i].SameNode(es[j]))
    && es[0].failedQueries == 0 && es[0].lastResponded + 15 * 60 * 1000 < t
    && forall i :: 0 < i < K ==> es[0].lastResponded <= es[i].lastResponded <= t <= es[i].lastResponded + 15 * 60 * 1000
  }

  ghost predicate Stranger(es: seq<Entry>, e: Entry, t: Time) {
    e.lastResponded == t && forall i :: 0 <= i < |es| ==> !es[i].SameNode(e)
  }

  /** From the empty bucket, by a clock that does not go back: in the end no ping is on its way and the last newcomer
      still waits; by WaitingExact it goes on waiting until a ping sent for somebody else times out. */
  lemma WaitsOn(es: seq<Entry>, a: Entry, b: Entry, c: Entry, t: Time)
    requires FirstIsOld(es, t) && es[0].questionablePings == 0
    requires forall i, j :: 0 < i < j < K ==> es[i].lastResponded <= es[j].lastResponded
    requires Stranger(es, a, t) && Stranger(es, b, t) && Stranger(es, c, t)
    ensures var evs := AllSeen(es) + WaitingEvents(es, a, b, c, t);
            && NamesFresh(EMPTY, evs)
            && (forall i, j :: 0 <= i < j < |evs| ==> evs[i].1 <= evs[j].1)
            && Run(EMPTY, evs).busy == map[] && Run(EMPTY, evs).pending == [c]
  {
    hide Step, FirstIsOld, Stranger, AllSeen, WaitingEvents, Run, NamesFresh;
    SeenInTime(es, t);
    Filled(es);
    var seen, last := AllSeen(es), WaitingEvents(es, a, b, c, t);
    var r := WaitsRun(es, seen, last, a, b, c, t);
    assert last[..6] == last;
    ClockForward(es, a, b, c, t);
  }

  lemma WaitsRun(es: seq<Entry>, seen: seq<(Event, Time, nat)>, last: seq<(Event, Time, nat)>,
                 a: Entry, b: Entry, c: Entry, t: Time) returns (r: Bucket)
    requires |es| == K && FirstIsOld(es, t) && es[0].questionablePings == 0
    requires Stranger(es, a, t) && Stranger(es, b, t) && Stranger(es, c, t)
    requires last == WaitingEvents(es, a, b, c, t)
    requires Run(EMPTY, seen) == Bucket(es, [], map[]) && NamesFresh(EMPTY, seen)
    ensures r == Run(EMPTY, seen + last[..6]) && NamesFresh(EMPTY, seen + last[..6])
    ensures r.busy == map[] && r.pending == [c]
  {
    hide Step, FirstIsOld, Stranger, Run, NamesFresh;
    var b0 := Bucket(es, [], map[]);
    assert es[0 := es[0].(questionablePings := 0)] == es;
    var b1 := FirstPinged(es, b0, a, t, 0);
    RunsOn(seen, last, 0, b0, b1);
    var b2 := FirstPinged(es, b1, b, t, 1);
    RunsOn(seen, last, 1, b1, b2);
    var b3 := NewcomerWaits(es, b2, c, t);
    RunsOn(seen, last, 2, b2, b3);
    r := WaitsRest(es, seen, last, b3, t);
  }

  lemma WaitsRest(es: seq<Entry>, seen: seq<(Event, Time, nat)>, last: seq<(Event, Time, nat)>, b: Bucket, t: Time)
    returns (r: Bucket)
    requires |es| == K && FirstIsOld(es, t) && |last| == 6 && b.busy.Keys == {0, 1}
    requires b.entries == es[0 := es[0].(questionablePings := 2)]
    requires last[3..]
             == [(Seen(Fresh(es[0].addr, es[0].id, t)), t, 2), (ProbeAnswered(0), t, 2), (ProbeAnswered(1), t, 2)]
    requires Run(EMPTY, seen + last[..3]) == b && NamesFresh(EMPTY, seen + last[..3])
    ensures r == Run(EMPTY, seen + last[..6]) && NamesFresh(EMPTY, seen + last[..6])
    ensures r.busy == map[] && r.pending == b.pending
  {
    hide Step, FirstIsOld, Run, NamesFresh;
    assert last[3] == last[3..][0] && last[4] == last[3..][1] && last[5] == last[3..][2];
    assert |b.busy| == |b.busy.Keys| == 2;
    var b4 := FirstSeenAgain(es, b, Fresh(es[0].addr, es[0].id, t), t);
    RunsOn(seen, last, 3, b, b4);
    var b5 := NobodyToPing(b4, 0, t);
    RunsOn(seen, last, 4, b4, b5);
    var b6 := NobodyToPing(b5, 1, t);
    RunsOn(seen, last, 5, b5, b6);
    r := b6;
  }

  lemma ClockForward(es: seq<Entry>, a: Entry, b: Entry, c: Entry, t: Time)
    requires |es| == K && forall i :: 0 <= i < K ==> es[i].lastResponded <= t
    requires forall i, j :: 0 <= i < j < K ==> es[i].lastResponded <= es[j].lastResponded
    ensures var evs := AllSeen(es) + WaitingEvents(es, a, b, c, t);
            forall i, j :: 0 <= i < j < |evs| ==> evs[i].1 <= evs[j].1
  {
    var seen, last := AllSeen(es), WaitingEvents(es, a, b, c, t);
    assert forall k :: 0 <= k < |last| ==> last[k].1 == t;
    assert forall k :: 0 <= k < K ==> seen[k].1 == es[k].lastResponded;
  }

  lemma SeenInTime(es: seq<Entry>, t: Time)
    requires FirstIsOld(es, t) && forall i, j :: 0 < i < j < K ==> es[i].lastResponded <= es[j].lastResponded
    ensures |es| == K && (forall i, j :: 0 <= i < j < K ==> !es[i].SameNode(es[j]))
    ensures forall i :: 0 <= i < K ==> es[i].lastResponded <= t
    ensures forall i, j :: 0 <= i < j < K ==> es[i].lastResponded <= es[j].lastResponded
  {
  }

  /** One more event of a run. */
  lemma RunsOn(seen: seq<(Event, Time, nat)>, last: seq<(Event, Time, nat)>, i: nat, b: Bucket, r: Bucket)
    requires i < |last|
    requires i == 0 ==> Run(EMPTY, seen) == b && NamesFresh(EMPTY, seen)
    requires i > 0 ==> Run(EMPTY, seen + last[..i]) == b && NamesFresh(EMPTY, seen + last[..i])
    requires r == Step(b, last[i].0, last[i].1, last[i].2) && last[i].2 !in b.busy
    ensures Run(EMPTY, seen + last[..i + 1]) == r && NamesFresh(EMPTY, seen + last[..i + 1])
  {
    hide Step;
    var evs := seen + last[..i + 1];
    assert evs[..|evs| - 1] == seen + last[..i];
    if i == 0 {
      assert seen + last[..0] == seen;
    }
  }

  lemma FirstPinged(es: seq<Entry>, b: Bucket, e: Entry, t: Time, call: nat) returns (r: Bucket)
    requires FirstIsOld(es, t) && Stranger(es, e, t) && call == |b.busy| < MAX_PROBES && b.pending == []
    requires b.entries == es[0 := es[0].(questionablePings := call)] && forall k :: k in b.busy ==> k < call
    ensures r == Step(b, Seen(e), t, call)
    ensures r == Bucket(es[0 := es[0].(questionablePings := call + 1)], [], b.busy[call := Probe(e, es[0].addr)])
    ensures |r.busy| == call + 1
  {
    hide IndexOf, FirstBad, FirstQuestionable;
    r := Step(b, Seen(e), t, call);
    FirstAnswersNot(es, b.entries, e, t, call);
    assert b.busy[call := Probe(e, es[0].addr)].Keys == b.busy.Keys + {call};
    assert |b.busy.Keys + {call}| == call + 1;
  }

  lemma FirstAnswersNot(es: seq<Entry>, es': seq<Entry>, e: Entry, t: Time, pings: nat)
    requires FirstIsOld(es, t) && Stranger(es, e, t) && pings <= 2
    requires es' == es[0 := es[0].(questionablePings := pings)]
    ensures IndexOf(es', e) == K && FirstBad(es', t) == K && FirstQuestionable(es', t) == 0
  {
    hide IndexOf, FirstBad, FirstQuestionable;
    assert es'[0].IsQuestionable(t);
    assert forall i :: 0 < i < K ==> es'[i] == es[i] && es[i].IsGood(t);
  }

  lemma NewcomerWaits(es: seq<Entry>, b: Bucket, e: Entry, t: Time) returns (r: Bucket)
    requires FirstIsOld(es, t) && Stranger(es, e, t) && |b.busy| == MAX_PROBES && b.pending == []
    requires b.entries == es[0 := es[0].(questionablePings := 2)]
    ensures r == Step(b, Seen(e), t, 2) && r == b.(pending := [e])
  {
    hide IndexOf, FirstBad, FirstQuestionable;
    r := Step(b, Seen(e), t, 2);
    FirstAnswersNot(es, b.entries, e, t, 2);
  }

  lemma FirstSeenAgain(es: seq<Entry>, b: Bucket, again: Entry, t: Time) returns (r: Bucket)
    requires FirstIsOld(es, t) && again == Fresh(es[0].addr, es[0].id, t)
    requires b.entries == es[0 := es[0].(questionablePings := 2)]
    ensures r == Step(b, Seen(again), t, 2) && r.busy == b.busy && r.pending == b.pending
    ensures |r.entries| == K && forall i :: 0 <= i < K ==> r.entries[i].IsGood(t)
  {
    r := Step(b, Seen(again), t, 2);
    assert b.entries[0].SameNode(again);
    assert IndexOf(b.entries, again) == 0;
    assert r.entries == es[1..] + [again];
  }

  lemma NobodyToPing(b: Bucket, c: nat, t: Time) returns (r: Bucket)
    requires c in b.busy && |b.busy| <= MAX_PROBES && forall i :: 0 <= i < |b.entries| ==> b.entries[i].IsGood(t)
    ensures r == Step(b, ProbeAnswered(c), t, 2) && r == b.(busy := b.busy - {c})
    ensures |r.busy| == |b.busy| - 1
  {
    r := Step(b, ProbeAnswered(c), t, 2);
    DropProbe(b, c);
    assert FirstBad(b.entries, t) == |b.entries| && FirstQuestionable(b.entries, t) == |b.entries|;
  }
}

/** What the counter of failed queries of an entry counts, and what becomes of an entry whose queries fail
    (kbucket.cpp). */
module Failures {
  import opened Bytes
  import opened Entries
  import opened Bucket
  import R = Routing

  /** Where the j-th entry was before the i-th was taken out and another one was put at the end; None if it is this
      one. */
  function BeforeSwap(n: nat, i: nat, j: nat): Option<nat> {
    if j < i then Some(j) else if j + 1 < n then Some(j + 1) else None
  }

  function BeforeTurn(b: Bucket, now: Time, j: nat): Option<nat> {
    var i := FirstBad(b.entries, now);
    if i < |b.entries| then BeforeSwap(|b.entries|, i, j) else Some(j)
  }

  function BeforeEvict(b: Bucket, c: nat, j: nat): Option<nat>
    requires c in b.busy
  {
    var i := IndexOfAddress(b.entries, b.busy[c].target);
    if i < |b.entries| then BeforeSwap(|b.entries|, i, j) else Some(j)
  }

  /** Where the j-th entry after an event was before it; None if it was put in by it. */
  function Before(b: Bucket, ev: Event, now: Time, j: nat): Option<nat> {
    match ev
    case Seen(e) =>
      var i := IndexOf(b.entries, e);
      if i < |b.entries| then BeforeSwap(|b.entries|, i, j)
      else if |b.entries| < K then (if j < |b.entries| then Some(j) else None)
      else BeforeTurn(b, now, j)
    case ProbeAnswered(c) => if c in b.busy then BeforeTurn(b, now, j) else Some(j)
    case ProbeTimedOut(c) =>
      if c !in b.busy then Some(j)
      else
        var b1 := Evict(b, c);
        if |b1.busy| < MAX_PROBES && b1.pending != [] then
          match BeforeTurn(b1, now, j)
          case Some(i) => BeforeEvict(b, c, i)
          case None => None
        else BeforeEvict(b, c, j)
    case RequestTimedOut(_) => Some(j)
  }

  /** The event is a failed query to the i-th entry: it is the first with the address. */
  ghost predicate FailsAt(b: Bucket, ev: Event, i: nat)
    requires i < |b.entries|
  {
    && ev.RequestTimedOut? && b.entries[i].addr == ev.a
    && forall h :: 0 <= h < i ==> b.entries[h].addr != ev.a
  }

  /** Nobody who is offered or waits has a failure to his name. */
  ghost predicate NewcomersClean(b: Bucket) {
    && (forall i :: 0 <= i < |b.pending| ==> b.pending[i].failedQueries == 0)
    && (forall c :: c in b.busy ==> b.busy[c].replacement.failedQueries == 0)
  }

  ghost predicate CleanEvent(ev: Event) {
    ev.Seen? ==> ev.e.failedQueries == 0
  }

  /** What one event does to the counter of an entry: a newcomer starts at zero, a failed query to the first entry with
      its address counts one, modulo 2^32, and nothing else changes it. */
  lemma StepCounts(b: Bucket, ev: Event, now: Time, call: nat, j: nat)
    requires NewcomersClean(b) && CleanEvent(ev) && j < |Step(b, ev, now, call).entries|
    requires forall i :: 0 <= i < |b.entries| ==> b.entries[i].failedQueries < UINT32
    ensures var x := Step(b, ev, now, call).entries[j];
            match Before(b, ev, now, j)
            case None => x.failedQueries == 0
            case Some(i) =>
              && i < |b.entries| && x.SameNode(b.entries[i]) && x.lastResponded == b.entries[i].lastResponded
              && x.failedQueries == (b.entries[i].failedQueries + (if FailsAt(b, ev, i) then 1 else 0)) % UINT32
  {
    hide IndexOf, IndexOfAddress, FirstBad, FirstQuestionable, Evict, ReplaceOrPing, Insert, RequestFailed, Swap;
    hide BeforeTurn, BeforeEvict, BeforeSwap, NewcomersClean;
    match ev
    case Seen(e) => SeenCounts(b, e, now, call, j);
    case ProbeAnswered(c) =>
      if c in b.busy {
        ProbeClean(b, c);
        TurnCounts(b.(busy := b.busy - {c}), b.busy[c].replacement, now, call, j);
        SameTurn(b, b.(busy := b.busy - {c}), now, j);
      }
    case ProbeTimedOut(c) =>
      if c in b.busy {
        TimeoutCounts(b, c, now, call, j);
      }
    case RequestTimedOut(a) => FailureCounts(b, a, j);
  }

  lemma SeenCounts(b: Bucket, e: Entry, now: Time, call: nat, j: nat)
    requires e.failedQueries == 0 && j < |Insert(b, e, now, call).entries|
    ensures var x := Insert(b, e, now, call).entries[j];
            match Before(b, Seen(e), now, j)
            case None => x.failedQueries == 0
            case Some(i) =>
              && i < |b.entries| && x.SameNode(b.entries[i]) && x.lastResponded == b.entries[i].lastResponded
              && x.failedQueries == b.entries[i].failedQueries
  {
    hide IndexOf, ReplaceOrPing, BeforeTurn;
    if IndexOf(b.entries, e) == |b.entries| && |b.entries| >= K {
      TurnCounts(b, e, now, call, j);
    }
  }

  lemma FailureCounts(b: Bucket, a: Address, j: nat)
    requires j < |RequestFailed(b, a).entries|
    ensures var x := RequestFailed(b, a).entries[j];
            && j < |b.entries| && x.SameNode(b.entries[j]) && x.lastResponded == b.entries[j].lastResponded
            && (if FailsAt(b, RequestTimedOut(a), j) then x.failedQueries == (b.entries[j].failedQueries + 1) % UINT32
                else x.failedQueries == b.entries[j].failedQueries)
  {
    hide IndexOfAddress;
  }

  lemma TurnCounts(b: Bucket, e: Entry, now: Time, call: nat, j: nat)
    requires e.failedQueries == 0 && j < |ReplaceOrPing(b, e, now, call).entries|
    ensures var x := ReplaceOrPing(b, e, now, call).entries[j];
            match BeforeTurn(b, now, j)
            case None => x.failedQueries == 0
            case Some(i) =>
              && i < |b.entries| && x.SameNode(b.entries[i]) && x.lastResponded == b.entries[i].lastResponded
              && x.failedQueries == b.entries[i].failedQueries
  {
  }

  lemma EvictCounts(b: Bucket, c: nat, j: nat)
    requires c in b.busy && NewcomersClean(b) && j < |Evict(b, c).entries|
    ensures var x := Evict(b, c).entries[j];
            match BeforeEvict(b, c, j)
            case None => x.failedQueries == 0
            case Some(i) => i < |b.entries| && x == b.entries[i]
  {
  }

  lemma TimeoutCounts(b: Bucket, c: nat, now: Time, call: nat, j: nat)
    requires c in b.busy && NewcomersClean(b) && j < |Unanswered(b, c, now, call).entries|
    ensures var x := Unanswered(b, c, now, call).entries[j];
            match Before(b, ProbeTimedOut(c), now, j)
            case None => x.failedQueries == 0
            case Some(i) =>
              && i < |b.entries| && x.SameNode(b.entries[i]) && x.lastResponded == b.entries[i].lastResponded
              && x.failedQueries == b.entries[i].failedQueries
  {
    hide Evict, ReplaceOrPing, BeforeTurn, BeforeEvict;
    var b1 := Evict(b, c);
    assert b1.pending == b.pending by { EvictPending(b, c); }
    if |b1.busy| < MAX_PROBES && b1.pending != [] {
      TurnCounts(b1.(pending := b1.pending[1..]), b1.pending[0], now, call, j);
      SameTurn(b1, b1.(pending := b1.pending[1..]), now, j);
      if BeforeTurn(b1, now, j).Some? {
        EvictCounts(b, c, BeforeTurn(b1, now, j).value);
      }
    } else {
      EvictCounts(b, c, j);
    }
  }

  lemma EvictPending(b: Bucket, c: nat)
    requires c in b.busy
    ensures Evict(b, c).pending == b.pending
  {
  }

  lemma SameTurn(b: Bucket, r: Bucket, now: Time, j: nat)
    requires r.entries == b.entries
    ensures BeforeTurn(r, now, j) == BeforeTurn(b, now, j)
  {
  }

  lemma StepClean(b: Bucket, ev: Event, now: Time, call: nat)
    requires NewcomersClean(b) && CleanEvent(ev)
    ensures NewcomersClean(Step(b, ev, now, call))
  {
    hide IndexOf, IndexOfAddress, FirstBad, FirstQuestionable, Swap, ReplaceOrPing, Evict, NewcomersClean;
    match ev
    case Seen(e) => TurnClean(b, e, now, call);
    case ProbeAnswered(c) =>
      if c in b.busy {
        ProbeClean(b, c);
        TurnClean(b.(busy := b.busy - {c}), b.busy[c].replacement, now, call);
      }
    case ProbeTimedOut(c) =>
      if c in b.busy {
        ProbeClean(b, c);
        var b1 := Evict(b, c);
        if |b1.busy| < MAX_PROBES && b1.pending != [] {
          FirstWaiting(b1);
          TurnClean(b1.(pending := b1.pending[1..]), b1.pending[0], now, call);
        }
      }
    case RequestTimedOut(a) => SameNewcomers(b, RequestFailed(b, a));
  }

  lemma TurnClean(b: Bucket, e: Entry, now: Time, call: nat)
    requires NewcomersClean(b) && e.failedQueries == 0
    ensures NewcomersClean(ReplaceOrPing(b, e, now, call)) && NewcomersClean(Insert(b, e, now, call))
  {
    hide IndexOf, FirstBad, FirstQuestionable, Swap;
  }

  lemma ProbeClean(b: Bucket, c: nat)
    requires NewcomersClean(b) && c in b.busy
    ensures NewcomersClean(b.(busy := b.busy - {c})) && b.busy[c].replacement.failedQueries == 0
    ensures NewcomersClean(Evict(b, c))
  {
    hide IndexOfAddress, Swap;
  }

  lemma FirstWaiting(b: Bucket)
    requires NewcomersClean(b) && b.pending != []
    ensures NewcomersClean(b.(pending := b.pending[1..])) && b.pending[0].failedQueries == 0
  {
  }

  lemma SameNewcomers(b: Bucket, r: Bucket)
    requires NewcomersClean(b) && r.pending == b.pending && r.busy == b.busy
    ensures NewcomersClean(r)
  {
  }

  /** The failed queries of the j-th entry since it was last put in. */
  ghost function Failed(b: Bucket, evs: seq<(Event, Time, nat)>, j: nat): nat
    decreases |evs|
  {
    if evs == [] then 0
    else
      var n := |evs| - 1;
      var m := Run(b, evs[..n]);
      match Before(m, evs[n].0, evs[n].1, j)
      case None => 0
      case Some(i) => Failed(b, evs[..n], i) + (if i < |m.entries| && FailsAt(m, evs[n].0, i) then 1 else 0)
  }

  /** A bucket in which nothing has failed yet: the empty one, or one that was loaded. */
  ghost predicate Clean(b: Bucket) {
    NewcomersClean(b) && forall i :: 0 <= i < |b.entries| ==> b.entries[i].failedQueries == 0
  }

  ghost predicate CleanEvents(evs: seq<(Event, Time, nat)>) {
    forall i :: 0 <= i < |evs| ==> CleanEvent(evs[i].0)
  }

  /** Over every run the counter of an entry is the number of its failed queries since it was last put in. */
  lemma {:induction false} RunCounts(b: Bucket, evs: seq<(Event, Time, nat)>, j: nat)
    requires Clean(b) && CleanEvents(evs) && j < |Run(b, evs).entries|
    ensures Run(b, evs).entries[j].failedQueries == Failed(b, evs, j) % UINT32
    decreases |evs|
  {
    hide Step, Before, FailsAt;
    if evs != [] {
      var n := |evs| - 1;
      var m := Run(b, evs[..n]);
      RunClean(b, evs[..n]);
      StepCounts(m, evs[n].0, evs[n].1, evs[n].2, j);
      match Before(m, evs[n].0, evs[n].1, j)
      case None =>
      case Some(i) =>
        RunCounts(b, evs[..n], i);
        CountOn(Failed(b, evs[..n], i));
    }
  }

  lemma CountOn(n: nat)
    ensures (n % UINT32 + 0) % UINT32 == n % UINT32 && (n % UINT32 + 1) % UINT32 == (n + 1) % UINT32
  {
  }

  lemma {:induction false} RunClean(b: Bucket, evs: seq<(Event, Time, nat)>)
    requires Clean(b) && CleanEvents(evs)
    ensures NewcomersClean(Run(b, evs))
    ensures forall i :: 0 <= i < |Run(b, evs).entries| ==> Run(b, evs).entries[i].failedQueries < UINT32
    decreases |evs|
  {
    hide Step, Before, FailsAt, NewcomersClean;
    if evs == [] {
      NothingFailed(b);
    } else {
      var n := |evs| - 1;
      var m := Run(b, evs[..n]);
      RunClean(b, evs[..n]);
      StepClean(m, evs[n].0, evs[n].1, evs[n].2);
      forall j | 0 <= j < |Run(b, evs).entries|
        ensures Run(b, evs).entries[j].failedQueries < UINT32
      {
        StepCounts(m, evs[n].0, evs[n].1, evs[n].2, j);
      }
    }
  }

  lemma NothingFailed(b: Bucket)
    requires Clean(b)
    ensures NewcomersClean(b) && forall i :: 0 <= i < |b.entries| ==> b.entries[i].failedQueries < UINT32
  {
  }

  /** More than two failed queries and more than a quarter of an hour of silence make an entry bad; and then a newcomer
      to a full bucket takes the place of the first bad entry, and nobody is pinged for it. */
  lemma FailedMakesRoom(b: Bucket, e: Entry, k: nat, now: Time, call: nat)
    requires |b.entries| == K && k < K && forall i :: 0 <= i < K ==> !b.entries[i].SameNode(e)
    requires b.entries[k].failedQueries > 2 && Elapsed(now, b.entries[k].lastResponded) > 15 * 60 * 1000
    requires forall h :: 0 <= h < k ==> !b.entries[h].IsBad(now)
    ensures b.entries[k].IsBad(now)
    ensures Insert(b, e, now, call) == b.(entries := b.entries[..k] + b.entries[k + 1..] + [e])
  {
    assert IndexOf(b.entries, e) == K;
    assert FirstBad(b.entries, now) == k;
  }

  /** For instance after three failed queries to an entry with no failure to its name, in a bucket whose other entries
      are good. */
  lemma ThreeFailures(b: Bucket, e: Entry, k: nat, now: Time, call: nat)
    requires |b.entries| == K && k < K && forall i :: 0 <= i < K ==> !b.entries[i].SameNode(e)
    requires b.entries[k].failedQueries == 0 && Elapsed(now, b.entries[k].lastResponded) > 15 * 60 * 1000
    requires forall h :: 0 <= h < K && h != k ==> b.entries[h].addr != b.entries[k].addr && b.entries[h].IsGood(now)
    ensures var fail := (RequestTimedOut(b.entries[k].addr), now, call);
            var r := Run(b, [fail, fail, fail, (Seen(e), now, call)]);
            r.entries == b.entries[..k] + b.entries[k + 1..] + [e] && r.busy == b.busy && r.pending == b.pending
  {
    hide Insert;
    var a := b.entries[k].addr;
    var fail := (RequestTimedOut(a), now, call);
    var evs := [fail, fail, fail, (Seen(e), now, call)];
    assert evs[..3] == [fail, fail, fail] && evs[..3][..2] == [fail, fail] && [fail, fail][..1] == [fail];
    assert Run(b, [fail][..0]) == b;
    var b1 := OneFails(b, k, 0);
    var b2 := OneFails(b1, k, 1);
    var b3 := OneFails(b2, k, 2);
    assert Run(b, [fail]) == b1;
    assert Run(b, [fail, fail]) == b2;
    assert Run(b, [fail, fail, fail]) == b3;
    FailedMakesRoom(b3, e, k, now, call);
  }

  lemma OneFails(b: Bucket, k: nat, n: nat) returns (r: Bucket)
    requires k < |b.entries| && b.entries[k].failedQueries == n < 3
    requires forall h :: 0 <= h < k ==> b.entries[h].addr != b.entries[k].addr
    ensures r == RequestFailed(b, b.entries[k].addr)
    ensures r == b.(entries := b.entries[k := b.entries[k].(failedQueries := n + 1)])
  {
    r := RequestFailed(b, b.entries[k].addr);
    assert IndexOfAddress(b.entries, b.entries[k].addr) == k;
  }

  ghost predicate Knows(b: Option<Bucket>, a: Address) {
    b.Some? && exists k :: 0 <= k < |b.value.entries| && b.value.entries[k].addr == a
  }

  ghost predicate FirstKnowing(bs: R.Slots, i: nat, a: Address) {
    i < 160 && Knows(bs[i], a) && forall h :: 0 <= h < i ==> !Knows(bs[h], a)
  }

  /** A failed query reaches the first bucket with an entry of the address, whatever its index, and no other. */
  lemma QueryOutcome(t: R.Table, a: Address, now: Time, call: nat)
    ensures var r := R.QueryFailed(t, a);
            && (forall i: nat :: FirstKnowing(t.buckets, i, a) ==>
                  r == t.(buckets := t.buckets[i := Some(Step(t.buckets[i].value, RequestTimedOut(a), now, call))]))
            && ((forall i :: 0 <= i < 160 ==> !Knows(t.buckets[i], a)) ==> r == t)
  {
    hide RequestFailed, IndexOfAddress;
    var i := R.FirstWithAddress(t.buckets, a);
    forall h | 0 <= h < 160
      ensures Knows(t.buckets[h], a)
              <==> t.buckets[h].Some?
                   && IndexOfAddress(t.buckets[h].value.entries, a) < |t.buckets[h].value.entries|
    {
      if t.buckets[h].Some? {
        KnowsByIndex(t.buckets[h].value, a);
      }
    }
    forall h: nat | FirstKnowing(t.buckets, h, a)
      ensures h == i
    {
      assert !(i < h) && !(h < i);
    }
  }

  lemma KnowsByIndex(b: Bucket, a: Address)
    ensures Knows(Some(b), a) <==> IndexOfAddress(b.entries, a) < |b.entries|
  {
    var i := IndexOfAddress(b.entries, a);
    assert i < |b.entries| ==> b.entries[i].addr == a;
  }
}

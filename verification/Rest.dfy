/** The node comes to rest: within a quarter of an hour the number of calls that end is bounded by the state at the
    beginning and by what is asked of the node, whoever it hears from; and when none can end, nothing is left to wait
    for (node.cpp, kbucket.cpp, task.cpp, rpcserver.cpp). */
module Rest {
  import opened Bytes
  import opened Keys
  import opened Entries
  import S = Scheduler
  import opened Whole
  import B = Bucket
  import R = Routing
  import Announce
  import Lookup
  import Rpc

  ghost function Sum(m: map<nat, nat>): nat
    decreases m.Keys
  {
    if m == map[] then 0
    else
      var k :| k in m;
      m[k] + Sum(m - {k})
  }

  /** Any number may come first. */
  lemma {:induction false} SumWithout(m: map<nat, nat>, k: nat)
    requires k in m
    ensures Sum(m) == m[k] + Sum(m - {k})
    decreases |m.Keys|
  {
    var l :| l in m && Sum(m) == m[l] + Sum(m - {l});
    if l != k {
      assert (m - {l}).Keys == m.Keys - {l};
      assert (m - {k}).Keys == m.Keys - {k};
      SumWithout(m - {l}, k);
      SumWithout(m - {k}, l);
      assert m - {l} - {k} == m - {k} - {l};
    }
  }

  lemma SumPut(m: map<nat, nat>, k: nat, v: nat)
    ensures Sum(m[k := v]) == Sum(m) - (if k in m then m[k] else 0) + v
  {
    SumWithout(m[k := v], k);
    if k in m {
      SumWithout(m, k);
      assert m[k := v] - {k} == m - {k};
    } else {
      assert m[k := v] - {k} == m;
    }
  }

  lemma {:induction false} SumLess(m: map<nat, nat>, s: set<nat>)
    ensures Sum(m - s) <= Sum(m)
    decreases |m.Keys|
  {
    if k :| k in m && k in s {
      assert (m - {k}).Keys == m.Keys - {k};
      SumLess(m - {k}, s);
      assert m - {k} - s == m - s;
      SumWithout(m, k);
    } else {
      assert m - s == m;
    }
  }

  /** After this time an entry is questionable. */
  const QUARTER_HOUR: nat := 15 * 60 * 1000

  /** How often an entry can still be pinged up to a time: not at all if it stays good until then, and otherwise three
      times in all before it counts as bad. */
  function Pings(e: Entry, until: nat): nat {
    if e.lastResponded + QUARTER_HOUR >= until || e.questionablePings > 2 then 0 else 3 - e.questionablePings
  }

  function PingsOf(es: seq<Entry>, until: nat): nat {
    if es == [] then 0 else PingsOf(es[..|es| - 1], until) + Pings(es[|es| - 1], until)
  }

  function Replacements(busy: map<nat, B.Probe>, until: nat): map<nat, nat> {
    map c | c in busy :: Pings(busy[c].replacement, until)
  }

  /** How many pings a bucket can still send up to that time. */
  ghost function BucketRoom(b: B.Bucket, until: nat): nat {
    PingsOf(b.entries, until) + PingsOf(b.pending, until) + Sum(Replacements(b.busy, until))
  }

  ghost function SlotRoom(b: Option<B.Bucket>, until: nat): nat {
    if b.None? then 0 else BucketRoom(b.value, until)
  }

  ghost function TableRoom(bs: seq<Option<B.Bucket>>, until: nat): nat {
    if bs == [] then 0 else TableRoom(bs[..|bs| - 1], until) + SlotRoom(bs[|bs| - 1], until)
  }

  /** How many requests a task can still send. */
  function JobRoom(j: S.Job): nat {
    match j
    case Find(l) => S.More(|l.sent|, Lookup.MAX_VISITED)
    case Publish(a) => S.More(Announce.Requests(a), Announce.MAX_REQUESTS)
  }

  function JobRooms(tasks: map<nat, S.Slot>): map<nat, nat> {
    map id | id in tasks :: JobRoom(tasks[id].job)
  }

  function QueueRoom(q: seq<S.Slot>): nat {
    if q == [] then 0 else JobRoom(q[0].job) + QueueRoom(q[1..])
  }

  ghost function TasksRoom(s: S.State): nat {
    Sum(JobRooms(s.tasks)) + QueueRoom(s.queued)
  }

  function Pending(rpc: Rpc.State): nat {
    |rpc.active| + |rpc.queue|
  }

  /** The calls that are not over, and those that the buckets and the tasks can still make up to that time. */
  ghost function Work(n: Node, until: nat): nat {
    Pending(n.tasks.rpc) + TableRoom(n.table.buckets, until) + TasksRoom(n.tasks)
  }

  /** The end of a call: a ping, a call of a task, or a call nobody waits for any more. */
  predicate IsCompletion(ev: Event) {
    ev.PingOver? || ev.TaskCallOver? || ev.OtherOver?
  }

  function CallEnded(ev: Event): byte
    requires IsCompletion(ev)
  {
    match ev
    case PingOver(call, _) => call
    case TaskCallOver(_, call, _) => call
    case OtherOver(call) => call
  }

  /** Every active call can end: whatever made it, the end of it is an event of the node. */
  lemma CallCanEnd(n: Node, ourId: Key, call: byte) returns (ev: Event)
    requires Inv(n, ourId) && call in n.tasks.rpc.active
    ensures IsCompletion(ev) && CallEnded(ev) == call && Legal(n, ev)
  {
    hide R.Inv, S.Inv, OwnersOpen, CallsOwned, S.Id;
    var no := Called(n, call);
    if no !in n.owner {
      ev := OtherOver(call);
    } else {
      match n.owner[no]
      case ByBucket(i) =>
        ev := PingOver(call, false);
      case ByTask(k) =>
        if S.Running(n.tasks, k) {
          var job := n.tasks.tasks[S.Id(k)].job;
          ev := TaskCallOver(S.Id(k), call,
                             if job.Find? then S.OfLookup(ourId, Lookup.NoAnswer) else S.OfAnnounce(Announce.NoAnswer));
        } else {
          ev := OtherOver(call);
        }
    }
  }

  lemma {:induction false} PingsOfJoin(a: seq<Entry>, b: seq<Entry>, until: nat)
    ensures PingsOf(a + b, until) == PingsOf(a, until) + PingsOf(b, until)
  {
    if b == [] {
      assert a + b == a;
    } else {
      PingsOfJoin(a, b[..|b| - 1], until);
      assert (a + b)[..|a + b| - 1] == a + b[..|b| - 1];
    }
  }

  lemma PingsOfOne(e: Entry, until: nat)
    ensures PingsOf([e], until) == Pings(e, until)
  {
    assert [e][..0] == [];
  }

  lemma PingsOfPut(es: seq<Entry>, i: nat, e: Entry, until: nat)
    requires i < |es|
    ensures PingsOf(es[i := e], until) == PingsOf(es, until) - Pings(es[i], until) + Pings(e, until)
    ensures PingsOf(B.Swap(es, i, e), until) == PingsOf(es, until) - Pings(es[i], until) + Pings(e, until)
  {
    hide PingsOf, Pings;
    assert es == es[..i] + [es[i]] + es[i + 1..];
    assert es[i := e] == es[..i] + [e] + es[i + 1..];
    PingsOfJoin(es[..i], [es[i]], until);
    PingsOfJoin(es[..i] + [es[i]], es[i + 1..], until);
    PingsOfJoin(es[..i], [e], until);
    PingsOfJoin(es[..i] + [e], es[i + 1..], until);
    PingsOfJoin(es[..i], es[i + 1..], until);
    PingsOfJoin(es[..i] + es[i + 1..], [e], until);
    PingsOfOne(es[i], until);
    PingsOfOne(e, until);
  }

  lemma PingsOfAppend(es: seq<Entry>, e: Entry, until: nat)
    ensures PingsOf(es + [e], until) == PingsOf(es, until) + Pings(e, until)
  {
    hide PingsOf, Pings;
    PingsOfJoin(es, [e], until);
    PingsOfOne(e, until);
  }

  /** Nobody was seen later than now. */
  ghost predicate PastEntries(es: seq<Entry>, now: Time) {
    forall i :: 0 <= i < |es| ==> es[i].lastResponded <= now
  }

  ghost predicate PastBucket(b: B.Bucket, now: Time) {
    && PastEntries(b.entries, now) && PastEntries(b.pending, now)
    && forall c :: c in b.busy ==> b.busy[c].replacement.lastResponded <= now
  }

  ghost predicate Past(n: Node, now: Time) {
    forall i :: 0 <= i < 160 && n.table.buckets[i].Some? ==> PastBucket(n.table.buckets[i].value, now)
  }

  function Sent(busy: map<nat, B.Probe>, call: nat): nat {
    if call in busy then 1 else 0
  }

  /** Whoever is pinged now was questionable, and could still be pinged. */
  lemma PingedOnce(e: Entry, now: Time, until: nat)
    requires e.lastResponded <= now <= until && e.IsQuestionable(now) && !e.IsBad(now)
    ensures Pings(e.PingedQuestionable(), until) == Pings(e, until) - 1
  {
  }

  /** A replacement that gets its turn brings its own pings with it, and a ping that is sent is one fewer. */
  lemma TurnRoom(b: B.Bucket, e: Entry, now: Time, call: nat, until: nat)
    requires call !in b.busy && PastEntries(b.entries, now) && now <= until
    ensures var r := B.ReplaceOrPing(b, e, now, call);
            BucketRoom(r, until) + Sent(r.busy, call) <= BucketRoom(b, until) + Pings(e, until)
  {
    hide PingsOf, Pings, Sum, B.Swap;
    var i, k := B.FirstBad(b.entries, now), B.FirstQuestionable(b.entries, now);
    if i < |b.entries| {
      PingsOfPut(b.entries, i, e, until);
    } else if |b.busy| >= B.MAX_PROBES {
      PingsOfAppend(b.pending, e, until);
    } else if k < |b.entries| {
      var f := b.entries[k];
      PingedOnce(f, now, until);
      PingsOfPut(b.entries, k, f.PingedQuestionable(), until);
      var p := B.Probe(e, f.addr);
      assert Replacements(b.busy[call := p], until) == Replacements(b.busy, until)[call := Pings(e, until)];
      SumPut(Replacements(b.busy, until), call, Pings(e, until));
    }
  }

  lemma DropReplacement(busy: map<nat, B.Probe>, c: nat, until: nat)
    requires c in busy
    ensures Sum(Replacements(busy - {c}, until))
            == Sum(Replacements(busy, until)) - Pings(busy[c].replacement, until)
  {
    assert Replacements(busy - {c}, until) == Replacements(busy, until) - {c};
    SumWithout(Replacements(busy, until), c);
  }

  lemma PingsOfFirst(es: seq<Entry>, until: nat)
    requires es != []
    ensures PingsOf(es, until) == Pings(es[0], until) + PingsOf(es[1..], until)
  {
    assert es == [es[0]] + es[1..];
    PingsOfJoin([es[0]], es[1..], until);
    PingsOfOne(es[0], until);
  }

  lemma EvictRoom(b: B.Bucket, c: nat, until: nat)
    requires c in b.busy
    ensures BucketRoom(B.Evict(b, c), until) <= BucketRoom(b, until)
  {
    hide PingsOf, Pings, Sum, B.Swap;
    DropReplacement(b.busy, c, until);
    var i := B.IndexOfAddress(b.entries, b.busy[c].target);
    if i < |b.entries| {
      PingsOfPut(b.entries, i, b.busy[c].replacement, until);
    }
  }

  lemma EvictPast(b: B.Bucket, c: nat, now: Time)
    requires c in b.busy && PastBucket(b, now)
    ensures PastBucket(B.Evict(b, c), now)
  {
  }

  lemma TurnPast(b: B.Bucket, e: Entry, now: Time, call: nat)
    requires PastBucket(b, now) && e.lastResponded <= now
    ensures PastBucket(B.ReplaceOrPing(b, e, now, call), now)
  {
  }

  /** A ping that ends leads to at most one more, and that one is accounted for. */
  lemma ProbeRoom(b: B.Bucket, ev: B.Event, now: Time, call: nat, until: nat)
    requires B.Inv(b) && call !in b.busy && (ev.ProbeAnswered? || ev.ProbeTimedOut?) && ev.c in b.busy
    requires PastBucket(b, now) && now <= until
    ensures var r := B.Step(b, ev, now, call);
            BucketRoom(r, until) + Sent(r.busy, call) <= BucketRoom(b, until) && PastBucket(r, now)
  {
    hide PingsOf, Pings, Sum, B.ReplaceOrPing, B.Evict;
    B.DropProbe(b, ev.c);
    if ev.ProbeAnswered? {
      var b1 := b.(busy := b.busy - {ev.c});
      DropReplacement(b.busy, ev.c, until);
      TurnRoom(b1, b.busy[ev.c].replacement, now, call, until);
      TurnPast(b1, b.busy[ev.c].replacement, now, call);
    } else {
      var b1 := B.Evict(b, ev.c);
      EvictRoom(b, ev.c, until);
      EvictPast(b, ev.c, now);
      EvictBusy(b, ev.c);
      assert call !in b1.busy.Keys;
      if |b1.busy| < B.MAX_PROBES && b1.pending != [] {
        PingsOfFirst(b1.pending, until);
        var b2 := b1.(pending := b1.pending[1..]);
        TurnRoom(b2, b1.pending[0], now, call, until);
        TurnPast(b2, b1.pending[0], now, call);
      }
    }
  }

  /** Whoever is heard from now stays good for a quarter of an hour, and so brings no pings. */
  lemma InsertRoom(b: B.Bucket, e: Entry, now: Time, call: nat, until: nat)
    requires call !in b.busy && PastBucket(b, now) && e.lastResponded == now <= until <= now + QUARTER_HOUR
    ensures var r := B.Insert(b, e, now, call);
            BucketRoom(r, until) + Sent(r.busy, call) <= BucketRoom(b, until) && PastBucket(r, now)
  {
    hide PingsOf, Sum, B.ReplaceOrPing;
    assert Pings(e, until) == 0;
    var i := B.IndexOf(b.entries, e);
    if i < |b.entries| {
      PingsOfPut(b.entries, i, e, until);
    } else if |b.entries| < B.K {
      PingsOfAppend(b.entries, e, until);
    } else {
      TurnRoom(b, e, now, call, until);
      TurnPast(b, e, now, call);
    }
  }

  /** A failed query changes nothing here. */
  lemma FailedRoom(b: B.Bucket, a: Address, now: Time, until: nat)
    requires PastBucket(b, now)
    ensures BucketRoom(B.RequestFailed(b, a), until) == BucketRoom(b, until) && PastBucket(B.RequestFailed(b, a), now)
  {
    hide PingsOf, Sum;
    var i := B.IndexOfAddress(b.entries, a);
    if i < |b.entries| {
      PingsOfPut(b.entries, i, b.entries[i].RequestTimedOut(), until);
    }
  }

  lemma {:induction false} TableRoomPut(bs: seq<Option<B.Bucket>>, i: nat, b: Option<B.Bucket>, until: nat)
    requires i < |bs|
    ensures TableRoom(bs[i := b], until) == TableRoom(bs, until) - SlotRoom(bs[i], until) + SlotRoom(b, until)
  {
    hide SlotRoom;
    var n := |bs| - 1;
    if i < n {
      TableRoomPut(bs[..n], i, b, until);
      assert bs[i := b][..n] == bs[..n][i := b];
    } else {
      assert bs[i := b][..n] == bs[..n];
    }
  }

  lemma PendingAfter(rpc: Rpc.State, call: byte, inner: seq<Rpc.Method>)
    requires Rpc.Inv(rpc) && call in rpc.active
    ensures var r := Rpc.Complete(rpc, call, inner);
            Rpc.Inv(r) && Pending(r) == Pending(rpc) - 1 + |inner|
  {
    hide Rpc.Complete, Rpc.SubmitAll;
    Rpc.CompleteKeeps(rpc, call, inner);
  }

  /** The table after one bucket has changed. */
  lemma BucketChanged(n: Node, r: Node, i: nat, b: B.Bucket, now: Time)
    requires i < 160 && r.table.buckets == n.table.buckets[i := Some(b)] && Past(n, now) && PastBucket(b, now)
    ensures Past(r, now)
  {
    hide PastBucket;
  }

  lemma PastSlot(n: Node, i: nat, now: Time)
    requires i < 160 && Past(n, now) && n.table.buckets[i].Some?
    ensures PastBucket(n.table.buckets[i].value, now)
  {
  }

  /** The end of a ping. */
  lemma PingWork(n: Node, ourId: Key, call: byte, answered: bool, now: Time, until: nat)
    requires Inv(n, ourId) && Legal(n, PingOver(call, answered)) && Past(n, now) && now <= until
    ensures var r := EndPing(n, call, answered, now); Work(r, until) < Work(n, until) && Past(r, now)
  {
    hide R.Inv, S.Inv, Rpc.Complete, Rpc.Inv, CallsOwned, BucketRoom, TableRoom, TasksRoom, Pending, B.Step;
    hide Past, PastBucket;
    var rpc, no, new_ := n.tasks.rpc, Called(n, call), n.tasks.rpc.issued;
    var i := n.owner[no].i;
    var ev := if answered then B.ProbeAnswered(no) else B.ProbeTimedOut(no);
    var b := n.table.buckets[i].value;
    NextUnused(n);
    UnusedIn(n.table, i, new_);
    BucketInOrder(n.table, ourId, i);
    PastSlot(n, i, now);
    assert R.Pinged(n.table.buckets, i, no);
    ProbeRoom(b, ev, now, new_, until);
    TableRoomPut(n.table.buckets, i, Some(B.Step(b, ev, now, new_)), until);
    RpcOf(n.tasks);
    var r := EndPing(n, call, answered, now);
    BucketChanged(n, r, i, B.Step(b, ev, now, new_), now);
    PendingAfter(rpc, call, if R.Pinged(r.table.buckets, i, new_) then [Rpc.PING] else []);
    assert TasksRoom(r.tasks) == TasksRoom(n.tasks) by { SameTasksRoom(n.tasks, r.tasks); }
  }

  lemma PendingMore(rpc: Rpc.State, meth: Rpc.Method)
    requires Rpc.Inv(rpc)
    ensures Pending(Rpc.Submit(rpc, meth)) == Pending(rpc) + 1
  {
    hide Rpc.Submit, Rpc.Inv;
    Rpc.SubmitKeeps(rpc, meth);
    Rpc.Counts(rpc);
    Rpc.Counts(Rpc.Submit(rpc, meth));
  }

  /** A message from anybody. */
  lemma HeardWork(n: Node, ourId: Key, addr: Address, id: Key, now: Time, until: nat)
    requires Inv(n, ourId) && Past(n, now) && now <= until <= now + QUARTER_HOUR
    ensures var r := Hear(n, ourId, addr, id, now); Work(r, until) <= Work(n, until) && Past(r, now)
  {
    hide R.Inv, S.Inv, Rpc.Submit, Rpc.Inv, CallsOwned, BucketRoom, TableRoom, TasksRoom, Pending, B.Insert, R.Index;
    hide Past, PastBucket;
    var i, call := R.Index(id, ourId), n.tasks.rpc.issued;
    if i < 160 {
      var b := if n.table.buckets[i].None? then B.EMPTY else n.table.buckets[i].value;
      NextUnused(n);
      if n.table.buckets[i].Some? {
        UnusedIn(n.table, i, call);
        PastSlot(n, i, now);
      } else {
        EmptyRoom(now, until);
      }
      var e := Fresh(addr, id, now);
      InsertRoom(b, e, now, call, until);
      TableRoomPut(n.table.buckets, i, Some(B.Insert(b, e, now, call)), until);
      RpcOf(n.tasks);
      PendingMore(n.tasks.rpc, Rpc.PING);
      var r := Hear(n, ourId, addr, id, now);
      BucketChanged(n, r, i, B.Insert(b, e, now, call), now);
      assert TasksRoom(r.tasks) == TasksRoom(n.tasks) by { SameTasksRoom(n.tasks, r.tasks); }
    }
  }

  lemma EmptyRoom(now: Time, until: nat)
    ensures BucketRoom(B.EMPTY, until) == 0 && PastBucket(B.EMPTY, now)
  {
  }

  /** A query that failed. */
  lemma FailedWork(n: Node, a: Address, now: Time, until: nat)
    requires Past(n, now)
    ensures var r := n.(table := R.QueryFailed(n.table, a)); Work(r, until) == Work(n, until) && Past(r, now)
  {
    hide BucketRoom, TableRoom, TasksRoom, Pending, B.RequestFailed, Past, PastBucket;
    var bs := n.table.buckets;
    var i := R.FirstWithAddress(bs, a);
    if i < 160 {
      PastSlot(n, i, now);
      FailedRoom(bs[i].value, a, now, until);
      TableRoomPut(bs, i, Some(B.RequestFailed(bs[i].value, a)), until);
      BucketChanged(n, n.(table := R.QueryFailed(n.table, a)), i, B.RequestFailed(bs[i].value, a), now);
    }
  }

  lemma SameTasksRoom(s: S.State, r: S.State)
    requires r.tasks == s.tasks && r.queued == s.queued
    ensures TasksRoom(r) == TasksRoom(s)
  {
  }

  lemma BucketInOrder(t: R.Table, ourId: Key, i: nat)
    requires R.Inv(t, ourId) && i < 160 && t.buckets[i].Some?
    ensures B.Inv(t.buckets[i].value)
  {
    assert R.BucketInv(t.buckets[i].value, i, ourId);
  }

  /** The requests a task sends after the end of a call come out of what it had left. */
  lemma ProceedRoom(j: S.Job, c: S.Completion)
    requires j.Inv() && S.Fits(j, c) && j.Outstanding() > 0
    ensures JobRoom(S.Proceed(j, c)) + |S.Calls(j, S.Proceed(j, c))| == JobRoom(j)
  {
    hide Lookup.Step, Announce.Step;
    match j
    case Find(l) => Lookup.StepKeeps(l, c.ourId, c.ev);
    case Publish(a) => Announce.StepKeeps(a, c.e);
  }

  lemma TaskRoomPut(tasks: map<nat, S.Slot>, id: nat, t: S.Slot)
    ensures Sum(JobRooms(tasks[id := t]))
            == Sum(JobRooms(tasks)) - (if id in tasks then JobRoom(tasks[id].job) else 0) + JobRoom(t.job)
  {
    assert JobRooms(tasks[id := t]) == JobRooms(tasks)[id := JobRoom(t.job)];
    SumPut(JobRooms(tasks), id, JobRoom(t.job));
  }

  /** The end of a call of a task. */
  lemma TaskCallWork(n: Node, ourId: Key, id: nat, call: byte, c: S.Completion, now: Time, until: nat)
    requires Inv(n, ourId) && Legal(n, TaskCallOver(id, call, c))
    ensures Work(Step(n, ourId, TaskCallOver(id, call, c), now), until) < Work(n, until)
  {
    hide R.Inv, Rpc.Inv, Rpc.Complete, S.Calls, Assign, PingsOwned, OwnersOpen, S.JobsInv, S.Placed;
    hide JobRoom, Sum, JobRooms, S.FirstComeFirstServed, CallsOwned, TableRoom, QueueRoom, Pending, S.Proceed;
    var s := n.tasks;
    var t := s.tasks[id];
    var j := S.Proceed(t.job, c);
    HasCall(s, n.owner, id, Called(n, call));
    ProceedRoom(t.job, c);
    RpcOf(s);
    PendingAfter(s.rpc, call, S.Calls(t.job, j));
    TaskRoomPut(s.tasks, id, S.Slot(t.no, j));
  }

  /** The end of a call for which nobody waits. */
  lemma StrayWork(n: Node, ourId: Key, call: byte, now: Time, until: nat)
    requires Inv(n, ourId) && Legal(n, OtherOver(call))
    ensures Work(Step(n, ourId, OtherOver(call), now), until) < Work(n, until)
  {
    hide R.Inv, Rpc.Inv, Rpc.Complete, PingsOwned, OwnersOpen, CallsOwned, TableRoom, TasksRoom, Pending, S.Inv;
    RpcOf(n.tasks);
    PendingAfter(n.tasks.rpc, call, []);
    SameTasksRoom(n.tasks, Step(n, ourId, OtherOver(call), now).tasks);
  }

  lemma SweepRoom(s: S.State)
    ensures Sum(JobRooms(S.Sweep(s).tasks)) <= Sum(JobRooms(s.tasks))
  {
    assert JobRooms(S.Sweep(s).tasks) == JobRooms(s.tasks) - S.Finished(s);
    SumLess(JobRooms(s.tasks), S.Finished(s));
  }

  lemma {:induction false} PendingAfterAll(rpc: Rpc.State, meths: seq<Rpc.Method>)
    requires Rpc.Inv(rpc)
    ensures Pending(Rpc.SubmitAll(rpc, meths)) == Pending(rpc) + |meths|
  {
    hide Rpc.SubmitAll;
    Rpc.SubmitAllKeeps(rpc, meths);
  }

  lemma ResumeRoom(j: S.Job)
    requires j.Inv() && j.Queued()
    ensures JobRoom(j.Resume()) + |S.Calls(j, j.Resume())| == JobRoom(j)
  {
    match j
    case Find(l) =>
      Lookup.UpdateKeeps(l.(queued := false));
    case Publish(a) =>
      hide Announce.Update;
      Announce.StepKeeps(a, Announce.Resumed);
  }

  /** A task taken from the queue sends its first batch out of what it had left. */
  lemma ResumeFirstWork(s: S.State)
    requires S.Inv(s) && s.queued != [] && S.MayStart(s)
    ensures var r := S.ResumeFirst(s); Pending(r.rpc) + TasksRoom(r) == Pending(s.rpc) + TasksRoom(s)
  {
    hide Rpc.Inv, S.Calls, S.Job.Resume, S.JobsInv, S.Placed, S.FirstComeFirstServed, S.Id;
    hide Pending, JobRoom, Sum, JobRooms;
    var t := s.queued[0];
    FirstQueued(s);
    FirstIdFree(s);
    ResumeRoom(t.job);
    RpcOf(s);
    PendingAfterAll(s.rpc, S.Calls(t.job, t.job.Resume()));
    TaskRoomPut(s.tasks, S.Id(t.no), S.Slot(t.no, t.job.Resume()));
  }

  lemma FirstIdFree(s: S.State)
    requires S.Inv(s) && s.queued != []
    ensures S.Id(s.queued[0].no) !in s.tasks
  {
    hide Rpc.Inv, S.JobsInv, S.FirstComeFirstServed;
  }

  lemma {:induction false} ResumeWork(s: S.State)
    requires S.Inv(s)
    ensures var r := S.ResumeSome(s); Pending(r.rpc) + TasksRoom(r) == Pending(s.rpc) + TasksRoom(s)
    decreases |s.queued|
  {
    hide S.Inv, TasksRoom, Pending;
    if S.MayStart(s) && s.queued != [] {
      ResumeFirstWork(s);
      S.ResumeFirstKeeps(s);
      ResumeWork(S.ResumeFirst(s));
    }
  }

  lemma UpdateWork(n: Node, ourId: Key, until: nat)
    requires Inv(n, ourId)
    ensures Work(SweepAndResume(n), until) <= Work(n, until)
  {
    hide R.Inv, S.Inv, PingsOwned, OwnersOpen, CallsOwned, Pending, TableRoom, QueueRoom, Sum, JobRooms;
    S.SweepKeeps(n.tasks);
    SweepRoom(n.tasks);
    ResumeWork(S.Sweep(n.tasks));
  }

  /** The requests a new task can send, or one for a call made from outside. */
  function AskedBy(ev: Event): nat {
    match ev
    case NewTask(publish, kns) =>
      if kns == [] then 0 else if publish then Announce.MAX_REQUESTS else Lookup.MAX_VISITED
    case OtherCall(_) => 1
    case _ => 0
  }

  lemma BeginRoom(publish: bool, kns: seq<Entry>, queued: bool)
    ensures var j := S.Begin(publish, kns, queued);
            JobRoom(j) + |S.Calls(S.Blank(publish), j)| == if publish then Announce.MAX_REQUESTS else Lookup.MAX_VISITED
  {
    hide Announce.Start, Lookup.Start;
    if publish {
      Announce.StartKeeps(kns, queued);
    } else {
      Lookup.StartKeeps(kns, queued);
    }
  }

  lemma {:induction false} QueueRoomPut(q: seq<S.Slot>, i: nat, t: S.Slot)
    requires i < |q|
    ensures QueueRoom(q[i := t]) == QueueRoom(q) - JobRoom(q[i].job) + JobRoom(t.job)
  {
    hide JobRoom;
    if i > 0 {
      QueueRoomPut(q[1..], i - 1, t);
      assert q[i := t][1..] == q[1..][i - 1 := t];
    } else {
      assert q[i := t][1..] == q[1..];
    }
  }

  lemma {:induction false} QueueRoomAppend(q: seq<S.Slot>, t: S.Slot)
    ensures QueueRoom(q + [t]) == QueueRoom(q) + JobRoom(t.job)
  {
    hide JobRoom;
    if q == [] {
      assert q + [t] == [t];
    } else {
      QueueRoomAppend(q[1..], t);
      assert (q + [t])[1..] == q[1..] + [t];
    }
  }

  /** A new task. */
  lemma NewTaskWork(n: Node, ourId: Key, publish: bool, kns: seq<Entry>, until: nat)
    requires Inv(n, ourId) && S.IdFree(n.tasks, S.Id(n.tasks.added))
    ensures Work(StartTask(n, publish, kns), until) == Work(n, until) + AskedBy(NewTask(publish, kns))
  {
    hide R.Inv, Rpc.Inv, PingsOwned, OwnersOpen, CallsOwned, TableRoom, Pending, S.Begin, S.Calls, Assign, JobRoom;
    hide S.JobsInv, S.Placed, S.FirstComeFirstServed, Sum, JobRooms, QueueRoom, S.Id;
    if kns != [] {
      var s := n.tasks;
      var j := S.Begin(publish, kns, !S.MayStart(s));
      BeginRoom(publish, kns, !S.MayStart(s));
      RpcOf(s);
      PendingAfterAll(s.rpc, S.Calls(S.Blank(publish), j));
      TaskRoomPut(s.tasks, S.Id(s.added), S.Slot(s.added, j));
      QueueRoomAppend(s.queued, S.Slot(s.added, j));
    }
  }

  /** A task that is killed has sent what it had sent. */
  lemma KillWork(n: Node, ourId: Key, ev: Event, now: Time, until: nat)
    requires Legal(n, ev) && (ev.KillRunning? || ev.KillQueued?)
    ensures Work(Step(n, ourId, ev, now), until) == Work(n, until)
  {
    hide TableRoom, Pending, Sum, JobRooms, QueueRoom;
    match ev
    case KillRunning(id) => TaskRoomPut(n.tasks.tasks, id, S.Slot(n.tasks.tasks[id].no, n.tasks.tasks[id].job.Kill()));
    case KillQueued(i) => QueueRoomPut(n.tasks.queued, i, S.Slot(n.tasks.queued[i].no, n.tasks.queued[i].job.Kill()));
    case _ =>
  }

  /** A call made from outside. */
  lemma OtherCallWork(n: Node, ourId: Key, meth: Rpc.Method, now: Time, until: nat)
    requires Legal(n, OtherCall(meth)) && Inv(n, ourId)
    ensures Work(Step(n, ourId, OtherCall(meth), now), until) == Work(n, until) + 1
  {
    hide R.Inv, Rpc.Inv, Rpc.Submit, PingsOwned, OwnersOpen, CallsOwned, TableRoom, TasksRoom, Pending, S.Inv;
    RpcOf(n.tasks);
    PendingMore(n.tasks.rpc, meth);
    SameTasksRoom(n.tasks, Step(n, ourId, OtherCall(meth), now).tasks);
  }

  lemma PastLater(n: Node, then_: Time, now: Time)
    requires Past(n, then_) && then_ <= now
    ensures Past(n, now)
  {
    forall i | 0 <= i < 160 && n.table.buckets[i].Some?
      ensures PastBucket(n.table.buckets[i].value, now)
    {
      assert PastBucket(n.table.buckets[i].value, then_);
    }
  }

  function Ended(ev: Event): nat {
    if IsCompletion(ev) then 1 else 0
  }

  /** Whatever happens within the quarter of an hour: a call that ends makes the calls pending and still possible
      fewer, and only what is asked of the node makes them more. */
  lemma StepWinds(n: Node, ourId: Key, ev: Event, now: Time, until: nat)
    requires Inv(n, ourId) && Legal(n, ev) && Past(n, now) && now <= until <= now + QUARTER_HOUR
    requires ev.NewTask? ==> n.tasks.added < UINT32
    ensures var r := Step(n, ourId, ev, now);
            Inv(r, ourId) && Past(r, now) && Ended(ev) + Work(r, until) <= Work(n, until) + AskedBy(ev)
  {
    hide Inv, Legal, Hear, EndPing, R.QueryFailed, StartTask, SweepAndResume, Work, Past;
    match ev
    case Heard(addr, id) =>
      HearKeeps(n, ourId, addr, id, now);
      HeardWork(n, ourId, addr, id, now, until);
    case PingOver(call, answered) =>
      EndPingKeeps(n, ourId, call, answered, now);
      PingWork(n, ourId, call, answered, now, until);
    case QueryFailed(a) =>
      QueryKeeps(n, ourId, a);
      FailedWork(n, a, now, until);
    case NewTask(publish, kns) =>
      NextIdFree(n, ourId);
      NewTaskKeeps(n, ourId, publish, kns);
      NewTaskWork(n, ourId, publish, kns, until);
      SameTable(n, ourId, ev, now);
    case TaskCallOver(id, call, c) =>
      TaskCallKeeps(n, ourId, id, call, c, now);
      TaskCallWork(n, ourId, id, call, c, now, until);
      SameTable(n, ourId, ev, now);
    case KillRunning(_) =>
      KillKeeps(n, ourId, ev, now);
      KillWork(n, ourId, ev, now, until);
      SameTable(n, ourId, ev, now);
    case KillQueued(_) =>
      KillKeeps(n, ourId, ev, now);
      KillWork(n, ourId, ev, now, until);
      SameTable(n, ourId, ev, now);
    case Update =>
      UpdateKeeps(n, ourId);
      UpdateWork(n, ourId, until);
      SameTable(n, ourId, ev, now);
    case OtherCall(meth) =>
      OtherKeeps(n, ourId, ev, now);
      OtherCallWork(n, ourId, meth, now, until);
      SameTable(n, ourId, ev, now);
    case OtherOver(call) =>
      OtherKeeps(n, ourId, ev, now);
      StrayWork(n, ourId, call, now, until);
      SameTable(n, ourId, ev, now);
  }

  lemma SameTable(n: Node, ourId: Key, ev: Event, now: Time)
    requires Legal(n, ev) && !ev.Heard? && !ev.PingOver? && !ev.QueryFailed? && Past(n, now)
    ensures Past(Step(n, ourId, ev, now), now)
  {
    hide PastBucket, S.RemoveFinishedTasks, S.Launch, Rpc.Submit, Rpc.Complete, S.Step, S.Proceed, S.Calls;
    hide ResumeOwners, Assign;
  }

  /** Events of any kind, by a clock that does not go back, between two moments. */
  ghost predicate Leading(nodes: seq<Node>, ourId: Key, evs: seq<(Event, Time)>, start: Time, end: nat) {
    && |nodes| == |evs| + 1
    && (forall i :: 0 <= i < |evs| ==> Leads(nodes[i], ourId, evs[i].0, evs[i].1, nodes[i + 1]))
    && (forall i :: 0 <= i < |evs| ==> evs[i].0.NewTask? ==> nodes[i].tasks.added < UINT32)
    && (forall i :: 0 <= i < |evs| ==> start <= evs[i].1 <= end)
    && (forall i, j :: 0 <= i < j < |evs| ==> evs[i].1 <= evs[j].1)
  }

  function Completions(evs: seq<(Event, Time)>): nat {
    if evs == [] then 0 else Completions(evs[..|evs| - 1]) + Ended(evs[|evs| - 1].0)
  }

  function Asked(evs: seq<(Event, Time)>): nat {
    if evs == [] then 0 else Asked(evs[..|evs| - 1]) + AskedBy(evs[|evs| - 1].0)
  }

  function LastTime(evs: seq<(Event, Time)>, start: Time): Time {
    if evs == [] then start else evs[|evs| - 1].1
  }

  /** Over every run within a quarter of an hour the number of calls that end is bounded by the state it began with and
      by what was asked of the node. */
  lemma {:induction false} RunWinds(nodes: seq<Node>, ourId: Key, evs: seq<(Event, Time)>, start: Time, until: nat)
    requires Leading(nodes, ourId, evs, start, until) && until <= start + QUARTER_HOUR
    requires Inv(nodes[0], ourId) && Past(nodes[0], start)
    ensures Inv(nodes[|evs|], ourId) && Past(nodes[|evs|], LastTime(evs, start))
    ensures Completions(evs) + Work(nodes[|evs|], until) <= Work(nodes[0], until) + Asked(evs)
    decreases |evs|
  {
    hide Inv, Step, Legal, Work, Past, AskedBy, Ended;
    var n := |evs|;
    if n > 0 {
      var front, last := evs[..n - 1], nodes[n - 1];
      assert nodes[..n][n - 1] == last;
      RunWinds(nodes[..n], ourId, front, start, until);
      assert Leads(last, ourId, evs[n - 1].0, evs[n - 1].1, nodes[n]);
      assert front != [] ==> front[n - 2] == evs[n - 2] && evs[n - 2].1 <= evs[n - 1].1;
      PastLater(last, LastTime(front, start), evs[n - 1].1);
      StepWinds(last, ourId, evs[n - 1].0, evs[n - 1].1, until);
    }
  }

  /** The same without a limit of time, for what needs none. */
  lemma {:induction false} RunPast(nodes: seq<Node>, ourId: Key, evs: seq<(Event, Time)>, start: Time, end: nat)
    requires Leading(nodes, ourId, evs, start, end) && Inv(nodes[0], ourId) && Past(nodes[0], start)
    ensures Inv(nodes[|evs|], ourId) && Past(nodes[|evs|], LastTime(evs, start))
    decreases |evs|
  {
    hide Inv, Step, Legal, Work, Past, AskedBy, Ended;
    var n := |evs|;
    if n > 0 {
      var front, last := evs[..n - 1], nodes[n - 1];
      assert nodes[..n][n - 1] == last;
      RunPast(nodes[..n], ourId, front, start, end);
      assert Leads(last, ourId, evs[n - 1].0, evs[n - 1].1, nodes[n]);
      assert front != [] ==> front[n - 2] == evs[n - 2] && evs[n - 2].1 <= evs[n - 1].1;
      PastLater(last, LastTime(front, start), evs[n - 1].1);
      StepWinds(last, ourId, evs[n - 1].0, evs[n - 1].1, evs[n - 1].1);
    }
  }

  lemma FreshPast(n: Node, ourId: Key)
    requires IsFresh(n)
    ensures Inv(n, ourId) && Past(n, 0)
  {
    hide Inv;
    StartInv(n, ourId);
  }

  /** So in any quarter of an hour of any run from the start: from its k-th event on. */
  lemma AnyQuarter(nodes: seq<Node>, ourId: Key, evs: seq<(Event, Time)>, end: nat, k: nat)
    requires Leading(nodes, ourId, evs, 0, end) && IsFresh(nodes[0])
    requires k < |evs| && evs[|evs| - 1].1 <= evs[k].1 + QUARTER_HOUR
    ensures var until := evs[k].1 + QUARTER_HOUR;
            Completions(evs[k..]) + Work(nodes[|evs|], until) <= Work(nodes[k], until) + Asked(evs[k..])
  {
    hide IsFresh, Inv, Past, Work, Completions, Asked, Leads;
    FreshPast(nodes[0], ourId);
    RunPast(nodes[..k + 1], ourId, evs[..k], 0, end);
    PastLater(nodes[k], LastTime(evs[..k], 0), evs[k].1);
    var rest := nodes[k..];
    RunWinds(rest, ourId, evs[k..], evs[k].1, evs[k].1 + QUARTER_HOUR);
  }

  /** Why there is a limit: beyond it whoever is heard from counts for three pings. A first message and then the end of
      a call make the calls pending and still possible more, not fewer. */
  lemma DeadlineNeeded(n: Node, ourId: Key, addr: Address, id: Key, call: byte, now: Time, until: nat)
    requires Inv(n, ourId) && n.owner == map[] && (forall i :: 0 <= i < 160 ==> n.table.buckets[i].None?)
    requires call in n.tasks.rpc.active && id != ourId && now + QUARTER_HOUR < until
    ensures var n1 := Step(n, ourId, Heard(addr, id), now);
            Legal(n1, OtherOver(call)) && Work(Step(n1, ourId, OtherOver(call), now), until) == Work(n, until) + 2
  {
    hide R.Inv, S.Inv, Rpc.Inv, Rpc.Complete, TableRoom, TasksRoom, Pending, R.Index, CallsOwned;
    var i := R.Index(id, ourId);
    var b := B.Insert(B.EMPTY, Fresh(addr, id, now), now, n.tasks.rpc.issued);
    FirstEntry(Fresh(addr, id, now), now, n.tasks.rpc.issued, until);
    TableRoomPut(n.table.buckets, i, Some(b), until);
    RpcOf(n.tasks);
    PendingAfter(n.tasks.rpc, call, []);
    var n1 := Step(n, ourId, Heard(addr, id), now);
    SameTasksRoom(n.tasks, Step(n1, ourId, OtherOver(call), now).tasks);
  }

  lemma FirstEntry(e: Entry, now: Time, call: nat, until: nat)
    requires e.lastResponded == now && e.questionablePings == 0 && now + QUARTER_HOUR < until
    ensures var b := B.Insert(B.EMPTY, e, now, call); BucketRoom(b, until) == 3 && b.busy == map[]
  {
    assert [] + [e] == [e];
    PingsOfOne(e, until);
  }

  /** Nothing is left to wait for: no call is active or waits for an id, all calls have been notified, no bucket has a
      ping on its way, and every running task is finished. */
  ghost predicate AtRest(n: Node) {
    && Pending(n.tasks.rpc) == 0 && |n.tasks.rpc.notified| == n.tasks.rpc.issued
    && (forall i :: 0 <= i < 160 && n.table.buckets[i].Some? ==> n.table.buckets[i].value.busy == map[])
    && (forall id :: id in n.tasks.tasks ==> n.tasks.tasks[id].job.Finished())
  }

  /** The node is at rest exactly when no call can end; so a run that goes on until none can comes to rest. */
  lemma RestExact(n: Node, ourId: Key)
    requires Inv(n, ourId)
    ensures AtRest(n) <==> forall ev: Event :: IsCompletion(ev) ==> !Legal(n, ev)
  {
    hide Inv, Legal;
    if n.tasks.rpc.active != map[] {
      var call :| call in n.tasks.rpc.active;
      var ev := CallCanEnd(n, ourId, call);
    } else {
      NothingLeft(n, ourId);
      forall ev: Event | IsCompletion(ev)
        ensures !Legal(n, ev)
      {
        EndsActive(n, ev);
      }
    }
  }

  lemma EndsActive(n: Node, ev: Event)
    requires IsCompletion(ev)
    ensures Legal(n, ev) ==> CallEnded(ev) in n.tasks.rpc.active
  {
  }

  lemma NothingLeft(n: Node, ourId: Key)
    requires Inv(n, ourId) && n.tasks.rpc.active == map[]
    ensures AtRest(n)
  {
    hide Inv, Rpc.Inv;
    assert S.Inv(n.tasks) by { TasksInOrder(n, ourId); }
    RpcOf(n.tasks);
    Rpc.PendingHasActive(n.tasks.rpc);
    forall i | 0 <= i < 160 && n.table.buckets[i].Some?
      ensures n.table.buckets[i].value.busy == map[]
    {
      if c :| c in n.table.buckets[i].value.busy {
        PingHasCall(n, ourId, i, c);
      }
    }
    forall id | id in n.tasks.tasks
      ensures n.tasks.tasks[id].job.Finished()
    {
      if !n.tasks.tasks[id].job.Finished() {
        var k := TaskHasCall(n, ourId, id);
      }
    }
  }

  lemma TasksInOrder(n: Node, ourId: Key)
    requires Inv(n, ourId)
    ensures S.Inv(n.tasks)
  {
  }

  lemma {:induction false} ResumeShortens(s: S.State)
    ensures |S.ResumeSome(s).queued| <= |s.queued|
    ensures S.MayStart(s) && s.queued != [] ==> |S.ResumeSome(s).queued| < |s.queued|
    decreases |s.queued|
  {
    hide S.MayStart;
    if S.MayStart(s) && s.queued != [] {
      S.ResumesFirst(s);
      ResumeShortens(S.ResumeFirst(s));
    }
  }

  /** At rest, when looking after the tasks changes nothing any more, there are none, neither running nor waiting. */
  lemma RestIsIdle(n: Node)
    requires AtRest(n) && SweepAndResume(n) == n
    ensures n.tasks.tasks == map[] && n.tasks.queued == []
  {
    hide S.ResumeSome;
    var s := n.tasks;
    var r := S.Sweep(s);
    assert r.tasks == map[];
    assert S.MayStart(r);
    ResumeShortens(r);
    assert S.ResumeSome(r) == s;
    if s.queued == [] {
      NothingToResume(r);
    }
  }

  lemma NothingToResume(s: S.State)
    requires s.queued == []
    ensures S.ResumeSome(s) == s
  {
  }

  /** So a run of any events within a quarter of an hour, at whose end no call can end, leaves the node at rest, after
      no more completions than the state at the beginning and what was asked allowed; and with no task left if
      looking after the tasks changes nothing. */
  lemma ComesToRest(nodes: seq<Node>, ourId: Key, evs: seq<(Event, Time)>, start: Time, until: nat)
    requires Leading(nodes, ourId, evs, start, until) && until <= start + QUARTER_HOUR
    requires Inv(nodes[0], ourId) && Past(nodes[0], start)
    requires forall ev: Event :: IsCompletion(ev) ==> !Legal(nodes[|evs|], ev)
    ensures var r := nodes[|evs|];
            && AtRest(r) && Completions(evs) <= Work(nodes[0], until) + Asked(evs)
            && (SweepAndResume(r) == r ==> r.tasks.tasks == map[] && r.tasks.queued == [])
  {
    hide Inv, AtRest, SweepAndResume, Work, Past, Legal;
    RunWinds(nodes, ourId, evs, start, until);
    RestExact(nodes[|evs|], ourId);
    if SweepAndResume(nodes[|evs|]) == nodes[|evs|] {
      RestIsIdle(nodes[|evs|]);
    }
  }
}

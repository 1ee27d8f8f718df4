/** The node as a whole: the routing table, the tasks and the RPC server they share. Every call is made by a bucket, by
    a task or by somebody else, and its outcome goes back to whoever made it (node.cpp, kbucket.cpp, task.cpp,
    rpcserver.cpp). */
module Whole {
  import opened Bytes
  import opened Keys
  import opened Entries
  import opened Scheduler
  import B = Bucket
  import R = Routing
  import Announce
  import Lookup
  import Rpc

  datatype Owner = ByBucket(i: nat) | ByTask(no: nat)

  /** owner tells who made the calls that are not over yet, as far as anybody waits for them, and made who made any
      call at all. */
  datatype Node = Node(table: R.Table, tasks: State, owner: map<nat, Owner>, made: map<nat, Owner>)

  /** No bucket, no task and no call yet. */
  ghost predicate IsFresh(n: Node) {
    && (forall i :: 0 <= i < 160 ==> n.table.buckets[i].None?) && n.table.numEntries == 0 && n.table.numReceives == 0
    && n.tasks == EMPTY && n.owner == map[] && n.made == map[]
  }

  function Range(from: nat, end: nat): (r: set<nat>)
    ensures forall k :: k in r <==> from <= k < end
    ensures |r| == if from <= end then end - from else 0
    decreases end - from
  {
    if from >= end then {} else {from} + Range(from + 1, end)
  }

  /** The calls numbered from..end get an owner. */
  function Assign(owner: map<nat, Owner>, from: nat, end: nat, o: Owner): map<nat, Owner> {
    map k | k in owner.Keys + Range(from, end) :: if from <= k < end then o else owner[k]
  }

  function CallsOf(owner: map<nat, Owner>, no: nat): set<nat> {
    set k | k in owner && owner[k] == ByTask(no)
  }

  datatype Event =
    | Heard(addr: Address, id: Key)
    | PingOver(call: byte, answered: bool)
    | QueryFailed(a: Address)
    | NewTask(publish: bool, kns: seq<Entry>)
    | TaskCallOver(task: nat, call: byte, c: Completion)
    | KillRunning(task: nat)
    | KillQueued(i: nat)
    | Update
    | OtherCall(meth: Rpc.Method)
    | OtherOver(call: byte)

  function Called(n: Node, call: byte): nat
    requires call in n.tasks.rpc.active
  {
    n.tasks.rpc.active[call].no
  }

  /** Nobody is left who waits for the call. */
  ghost predicate Stray(n: Node, no: nat) {
    no in n.owner ==> n.owner[no].ByTask? && !Running(n.tasks, n.owner[no].no)
  }

  /** The outcome of a call reaches the bucket or the task that made it, and nobody else. */
  ghost predicate Legal(n: Node, ev: Event) {
    match ev
    case PingOver(call, _) =>
      && call in n.tasks.rpc.active && Called(n, call) in n.owner && n.owner[Called(n, call)].ByBucket?
      && n.owner[Called(n, call)].i < 160 && n.table.buckets[n.owner[Called(n, call)].i].Some?
    case TaskCallOver(id, call, c) =>
      && id in n.tasks.tasks && call in n.tasks.rpc.active && Called(n, call) in n.owner
      && n.owner[Called(n, call)] == ByTask(n.tasks.tasks[id].no) && Fits(n.tasks.tasks[id].job, c)
    case KillRunning(id) => id in n.tasks.tasks
    case KillQueued(i) => i < |n.tasks.queued|
    case OtherOver(call) => call in n.tasks.rpc.active && Stray(n, Called(n, call))
    case _ => true
  }

  function OwnerAfterPing(owner: map<nat, Owner>, pinged: bool, call: nat, i: nat): map<nat, Owner> {
    if pinged then owner[call := ByBucket(i)] else owner
  }

  function Hear(n: Node, ourId: Key, addr: Address, id: Key, now: Time): Node {
    var rpc := n.tasks.rpc;
    var table := R.Received(n.table, ourId, addr, id, now, rpc.issued);
    var i := R.Index(id, ourId);
    var pinged := R.Pinged(table.buckets, i, rpc.issued);
    Node(table,
         if pinged then n.tasks.(rpc := Rpc.Submit(rpc, Rpc.PING)) else n.tasks,
         OwnerAfterPing(n.owner, pinged, rpc.issued, i), OwnerAfterPing(n.made, pinged, rpc.issued, i))
  }

  function EndPing(n: Node, call: byte, answered: bool, now: Time): Node
    requires call in n.tasks.rpc.active && Called(n, call) in n.owner && n.owner[Called(n, call)].ByBucket?
    requires n.owner[Called(n, call)].i < 160 && n.table.buckets[n.owner[Called(n, call)].i].Some?
  {
    var rpc, no := n.tasks.rpc, Called(n, call);
    var i := n.owner[no].i;
    var table := R.Probed(n.table, i, if answered then B.ProbeAnswered(no) else B.ProbeTimedOut(no), now, rpc.issued);
    var pinged := R.Pinged(table.buckets, i, rpc.issued);
    Node(table, n.tasks.(rpc := Rpc.Complete(rpc, call, if pinged then [Rpc.PING] else [])),
         OwnerAfterPing(n.owner - {no}, pinged, rpc.issued, i), OwnerAfterPing(n.made, pinged, rpc.issued, i))
  }

  /** Who owns the calls of the tasks that are started by a sweep. */
  function ResumeOwners(s: State, owner: map<nat, Owner>): map<nat, Owner>
    decreases |s.queued|
  {
    if !MayStart(s) || s.queued == [] then owner
    else
      var r := ResumeFirst(s);
      ResumeOwners(r, Assign(owner, s.rpc.issued, r.rpc.issued, ByTask(s.queued[0].no)))
  }

  function StartTask(n: Node, publish: bool, kns: seq<Entry>): Node {
    var r := Launch(n.tasks, publish, kns);
    n.(tasks := r, owner := Assign(n.owner, n.tasks.rpc.issued, r.rpc.issued, ByTask(n.tasks.added)),
       made := Assign(n.made, n.tasks.rpc.issued, r.rpc.issued, ByTask(n.tasks.added)))
  }

  function SweepAndResume(n: Node): Node {
    n.(tasks := RemoveFinishedTasks(n.tasks), owner := ResumeOwners(Sweep(n.tasks), n.owner),
       made := ResumeOwners(Sweep(n.tasks), n.made))
  }

  function Step(n: Node, ourId: Key, ev: Event, now: Time): Node
    requires Legal(n, ev)
  {
    var s := n.tasks;
    match ev
    case Heard(addr, id) => Hear(n, ourId, addr, id, now)
    case PingOver(call, answered) => EndPing(n, call, answered, now)
    case QueryFailed(a) => n.(table := R.QueryFailed(n.table, a))
    case NewTask(publish, kns) => StartTask(n, publish, kns)
    case TaskCallOver(id, call, c) =>
      var t := s.tasks[id];
      var j := Proceed(t.job, c);
      var r := s.(tasks := s.tasks[id := Slot(t.no, j)], rpc := Rpc.Complete(s.rpc, call, Calls(t.job, j)));
      n.(tasks := r, owner := Assign(n.owner - {Called(n, call)}, s.rpc.issued, r.rpc.issued, ByTask(t.no)),
         made := Assign(n.made, s.rpc.issued, r.rpc.issued, ByTask(t.no)))
    case KillRunning(id) => n.(tasks := Scheduler.Step(s, Scheduler.KillRunning(id)))
    case KillQueued(i) => n.(tasks := Scheduler.Step(s, Scheduler.KillQueued(i)))
    case Update => SweepAndResume(n)
    case OtherCall(meth) => n.(tasks := s.(rpc := Rpc.Submit(s.rpc, meth)))
    case OtherOver(call) =>
      n.(tasks := s.(rpc := Rpc.Complete(s.rpc, call, [])), owner := n.owner - {Called(n, call)})
  }

  /** A call that is not over. */
  ghost predicate Open(rpc: Rpc.State, k: nat) {
    k < rpc.issued && k !in rpc.notified
  }

  ghost predicate OwnersOpen(rpc: Rpc.State, owner: map<nat, Owner>) {
    forall k :: k in owner ==> Open(rpc, k)
  }

  /** The pings of the buckets are exactly the calls they own. */
  ghost predicate PingsOwned(bs: R.Slots, owner: map<nat, Owner>) {
    && (forall i, c :: 0 <= i < 160 && bs[i].Some? && c in bs[i].value.busy ==> c in owner && owner[c] == ByBucket(i))
    && (forall c :: c in owner && owner[c].ByBucket? ==> R.Pinged(bs, owner[c].i, c))
  }

  /** A running task owns as many calls as it waits for, and a waiting one none. */
  ghost predicate CallsOwned(s: State, owner: map<nat, Owner>) {
    && (forall id :: id in s.tasks ==> |CallsOf(owner, s.tasks[id].no)| == s.tasks[id].job.Outstanding())
    && (forall i :: 0 <= i < |s.queued| ==> CallsOf(owner, s.queued[i].no) == {})
    && (forall k :: k in owner && owner[k].ByTask? ==> owner[k].no < s.added)
  }

  ghost predicate Inv(n: Node, ourId: Key) {
    && R.Inv(n.table, ourId) && Scheduler.Inv(n.tasks)
    && OwnersOpen(n.tasks.rpc, n.owner) && PingsOwned(n.table.buckets, n.owner) && CallsOwned(n.tasks, n.owner)
  }

  /** The next number of a call is not that of any ping on its way. */
  lemma NextUnused(n: Node)
    requires OwnersOpen(n.tasks.rpc, n.owner) && PingsOwned(n.table.buckets, n.owner)
    ensures R.Unused(n.table, n.tasks.rpc.issued) && n.tasks.rpc.issued !in n.owner
  {
    assert n.tasks.rpc.issued in n.owner ==> Open(n.tasks.rpc, n.tasks.rpc.issued);
  }

  /** What a step of a bucket does to its pings. */
  lemma BusyAfter(b: B.Bucket, ev: B.Event, now: Time, call: nat)
    requires call !in b.busy
    ensures var r := B.Step(b, ev, now, call);
            var over := if ev.ProbeAnswered? || ev.ProbeTimedOut? then {ev.c} else {};
            r.busy.Keys == b.busy.Keys - over + (if call in r.busy then {call} else {})
  {
    hide B.Insert, B.Answered, B.Unanswered, B.RequestFailed;
    match ev
    case Seen(e) => BusyAfterInsert(b, e, now, call);
    case ProbeAnswered(c) => BusyAfterAnswer(b, c, now, call);
    case ProbeTimedOut(c) => BusyAfterTimeout(b, c, now, call);
    case RequestTimedOut(a) => BusyAfterFailure(b, a);
  }

  lemma BusyAfterFailure(b: B.Bucket, a: Address)
    ensures B.RequestFailed(b, a).busy == b.busy
  {
  }

  lemma BusyAfterInsert(b: B.Bucket, e: Entry, now: Time, call: nat)
    requires call !in b.busy
    ensures var r := B.Insert(b, e, now, call);
            r.busy.Keys == b.busy.Keys + (if call in r.busy then {call} else {})
  {
    hide B.ReplaceOrPing, B.Swap;
    BusyAfterTry(b, e, now, call);
  }

  lemma BusyAfterAnswer(b: B.Bucket, c: nat, now: Time, call: nat)
    requires call !in b.busy
    ensures var r := B.Answered(b, c, now, call);
            r.busy.Keys == b.busy.Keys - {c} + (if call in r.busy then {call} else {})
  {
    hide B.ReplaceOrPing;
    if c in b.busy {
      BusyAfterTry(b.(busy := b.busy - {c}), b.busy[c].replacement, now, call);
    }
  }

  lemma BusyAfterTimeout(b: B.Bucket, c: nat, now: Time, call: nat)
    requires call !in b.busy
    ensures var r := B.Unanswered(b, c, now, call);
            r.busy.Keys == b.busy.Keys - {c} + (if call in r.busy then {call} else {})
  {
    hide B.ReplaceOrPing, B.Evict;
    if c in b.busy {
      var b1 := B.Evict(b, c);
      EvictBusy(b, c);
      if b1.pending != [] {
        BusyAfterTry(b1.(pending := b1.pending[1..]), b1.pending[0], now, call);
      }
    }
  }

  lemma EvictBusy(b: B.Bucket, c: nat)
    requires c in b.busy
    ensures B.Evict(b, c).busy.Keys == b.busy.Keys - {c}
  {
  }

  lemma BusyAfterTry(b: B.Bucket, e: Entry, now: Time, call: nat)
    requires call !in b.busy
    ensures var r := B.ReplaceOrPing(b, e, now, call);
            r.busy.Keys == b.busy.Keys + (if call in r.busy then {call} else {})
  {
  }

  lemma HearKeeps(n: Node, ourId: Key, addr: Address, id: Key, now: Time)
    requires Inv(n, ourId)
    ensures Inv(Hear(n, ourId, addr, id, now), ourId)
  {
    hide R.Inv, R.Received, Scheduler.Inv, R.Index, Rpc.Submit, Rpc.Inv, PingsOwned, CallsOwned, OwnersOpen, R.Pinged;
    hide R.Unused, BusyChange, OwnerAfterPing;
    var call, i := n.tasks.rpc.issued, R.Index(id, ourId);
    var r := Hear(n, ourId, addr, id, now);
    NextUnused(n);
    R.ReceivedKeeps(n.table, ourId, addr, id, now, call);
    RpcOf(n.tasks);
    Rpc.SubmitKeeps(n.tasks.rpc, Rpc.PING);
    SameTasks(n.tasks, r.tasks.rpc);
    ReceivedBusy(n.table, ourId, addr, id, now, call);
    assert n.owner - {} == n.owner;
    NewPing(n.table.buckets, r.table.buckets, n.owner, call, i, {});
    PingLeavesTasks(n.tasks, r.tasks, n.owner, {}, R.Pinged(r.table.buckets, i, call), call, i);
    OwnersAfterPing(n.tasks.rpc, r.tasks.rpc, n.owner, {}, R.Pinged(r.table.buckets, i, call), i);
  }

  /** Calls that are over lose their owner, and a new ping gets one. */
  lemma OwnersAfterPing(rpc: Rpc.State, rpc': Rpc.State, owner: map<nat, Owner>, over: set<nat>, pinged: bool, i: nat)
    requires OwnersOpen(rpc, owner) && (forall k :: k in rpc.notified ==> k < rpc.issued)
    requires rpc'.issued == rpc.issued + (if pinged then 1 else 0)
    requires forall k :: k in rpc'.notified <==> k in rpc.notified || k in over
    requires forall k :: k in over ==> k < rpc.issued
    ensures OwnersOpen(rpc', OwnerAfterPing(owner - over, pinged, rpc.issued, i))
  {
    var owner' := OwnerAfterPing(owner - over, pinged, rpc.issued, i);
    forall k | k in owner'
      ensures Open(rpc', k)
    {
      assert k != rpc.issued || pinged ==> k in owner ==> Open(rpc, k);
    }
  }

  lemma RpcOf(s: State)
    requires Scheduler.Inv(s)
    ensures Rpc.Inv(s.rpc) && forall k :: k in s.rpc.notified ==> k < s.rpc.issued
  {
    hide JobsInv, Placed, FirstComeFirstServed;
    NotifiedIssued(s.rpc);
  }

  lemma NotifiedIssued(rpc: Rpc.State)
    requires Rpc.Inv(rpc)
    ensures forall k :: k in rpc.notified ==> k < rpc.issued
  {
  }

  lemma SameTasks(s: State, rpc: Rpc.State)
    requires Scheduler.Inv(s) && Rpc.Inv(rpc)
    ensures Scheduler.Inv(s.(rpc := rpc))
  {
    OtherRpc(s, rpc);
  }

  /** Only one bucket changes its pings: over are over, and call may be new. */
  ghost predicate BusyChange(old_: R.Slots, new_: R.Slots, i: nat, over: set<nat>, call: nat) {
    && (forall j :: 0 <= j < 160 && j != i ==> new_[j] == old_[j])
    && (i < 160 && (new_[i].Some? || old_[i].Some?) ==>
          && new_[i].Some?
          && var before := if old_[i].Some? then old_[i].value.busy.Keys else {};
             new_[i].value.busy.Keys == before - over + (if call in new_[i].value.busy then {call} else {}))
  }

  lemma ReceivedBusy(t: R.Table, ourId: Key, addr: Address, id: Key, now: Time, call: nat)
    requires R.Unused(t, call)
    ensures BusyChange(t.buckets, R.Received(t, ourId, addr, id, now, call).buckets, R.Index(id, ourId), {}, call)
  {
    hide R.Index, B.Insert;
    var i := R.Index(id, ourId);
    if i < 160 {
      BusyAfter(if t.buckets[i].None? then B.EMPTY else t.buckets[i].value, B.Seen(Fresh(addr, id, now)), now, call);
    }
  }

  /** The calls that were over are given up, and the new ping is owned by its bucket. */
  lemma NewPing(old_: R.Slots, new_: R.Slots, owner: map<nat, Owner>, call: nat, i: nat, over: set<nat>)
    requires PingsOwned(old_, owner) && BusyChange(old_, new_, i, over, call) && call !in owner
    requires forall c :: c in over ==> c in owner && owner[c] == ByBucket(i)
    ensures PingsOwned(new_, OwnerAfterPing(owner - over, R.Pinged(new_, i, call), call, i))
  {
  }

  lemma PingLeavesTasks(s: State, r: State, owner: map<nat, Owner>, over: set<nat>, pinged: bool, call: nat, i: nat)
    requires CallsOwned(s, owner) && r.tasks == s.tasks && r.queued == s.queued && r.added == s.added
    requires call !in owner && forall k :: k in over && k in owner ==> owner[k].ByBucket?
    ensures CallsOwned(r, OwnerAfterPing(owner - over, pinged, call, i))
  {
    var owner' := OwnerAfterPing(owner - over, pinged, call, i);
    forall no: nat
      ensures CallsOf(owner', no) == CallsOf(owner, no)
    {
    }
  }

  lemma EndPingKeeps(n: Node, ourId: Key, call: byte, answered: bool, now: Time)
    requires Inv(n, ourId) && Legal(n, PingOver(call, answered))
    ensures Inv(EndPing(n, call, answered, now), ourId)
  {
    hide R.Inv, R.Probed, Scheduler.Inv, Rpc.Complete, Rpc.Inv, PingsOwned, CallsOwned, OwnersOpen, R.Pinged;
    hide R.Unused, BusyChange, OwnerAfterPing;
    var rpc, no, new_ := n.tasks.rpc, Called(n, call), n.tasks.rpc.issued;
    var i := n.owner[no].i;
    var ev := if answered then B.ProbeAnswered(no) else B.ProbeTimedOut(no);
    var r := EndPing(n, call, answered, now);
    NextUnused(n);
    UnusedIn(n.table, i, new_);
    R.ProbedKeeps(n.table, ourId, i, ev, now, new_);
    RpcOf(n.tasks);
    var inner := if R.Pinged(r.table.buckets, i, new_) then [Rpc.PING] else [];
    Rpc.CompleteKeeps(rpc, call, inner);
    ActiveIssued(rpc, call);
    SameTasks(n.tasks, r.tasks.rpc);
    ProbedBusy(n.table, i, ev, now, new_);
    NewPing(n.table.buckets, r.table.buckets, n.owner, new_, i, {no});
    PingLeavesTasks(n.tasks, r.tasks, n.owner, {no}, R.Pinged(r.table.buckets, i, new_), new_, i);
    OwnersAfterPing(rpc, r.tasks.rpc, n.owner, {no}, R.Pinged(r.table.buckets, i, new_), i);
  }

  lemma UnusedIn(t: R.Table, i: nat, call: nat)
    requires R.Unused(t, call) && i < 160 && t.buckets[i].Some?
    ensures call !in t.buckets[i].value.busy
  {
  }

  lemma ActiveIssued(rpc: Rpc.State, call: byte)
    requires Rpc.Inv(rpc) && call in rpc.active
    ensures rpc.active[call].no < rpc.issued
  {
  }

  lemma ProbedBusy(t: R.Table, i: nat, ev: B.Event, now: Time, call: nat)
    requires i < 160 && t.buckets[i].Some? && call !in t.buckets[i].value.busy
    requires ev.ProbeAnswered? || ev.ProbeTimedOut?
    ensures BusyChange(t.buckets, R.Probed(t, i, ev, now, call).buckets, i, {ev.c}, call)
  {
    hide B.Step;
    BusyAfter(t.buckets[i].value, ev, now, call);
  }

  /** A query that fails touches no ping. */
  lemma QueryKeeps(n: Node, ourId: Key, a: Address)
    requires Inv(n, ourId)
    ensures Inv(n.(table := R.QueryFailed(n.table, a)), ourId)
  {
    hide R.Inv, Scheduler.Inv, CallsOwned, OwnersOpen, Rpc.Inv;
    NextUnused(n);
    R.StepKeeps(n.table, ourId, R.QueryTimedOut(a), 0, n.tasks.rpc.issued);
  }

  lemma AssignParts(owner: map<nat, Owner>, from: nat, end: nat, o: Owner) returns (r: map<nat, Owner>)
    requires from <= end && forall k :: k in owner ==> k < from
    ensures r == Assign(owner, from, end, o)
    ensures r.Keys == owner.Keys + Range(from, end) && owner.Keys !! Range(from, end)
    ensures forall k :: k in owner ==> r[k] == owner[k]
    ensures forall k :: k in r && k !in owner ==> r[k] == o
  {
    r := Assign(owner, from, end, o);
  }

  /** The task gets the new calls, and every other one keeps its own. */
  lemma AssignedCalls(owner: map<nat, Owner>, from: nat, end: nat, no: nat) returns (r: map<nat, Owner>)
    requires from <= end && forall k :: k in owner ==> k < from
    ensures r == Assign(owner, from, end, ByTask(no))
    ensures |CallsOf(r, no)| == |CallsOf(owner, no)| + (end - from)
    ensures forall other: nat :: other != no ==> CallsOf(r, other) == CallsOf(owner, other)
    ensures forall k :: k in r && r[k].ByTask? ==> r[k].no == no || (k in owner && owner[k] == r[k])
  {
    hide Assign, Range, CallsOf;
    r := AssignParts(owner, from, end, ByTask(no));
    NewCalls(owner, r, Range(from, end), no);
    forall other: nat | other != no
      ensures CallsOf(r, other) == CallsOf(owner, other)
    {
      OldCalls(owner, r, no, other);
    }
  }

  lemma NewCalls(owner: map<nat, Owner>, r: map<nat, Owner>, new_: set<nat>, no: nat)
    requires r.Keys == owner.Keys + new_ && owner.Keys !! new_
    requires forall k :: k in owner ==> r[k] == owner[k]
    requires forall k :: k in r && k !in owner ==> r[k] == ByTask(no)
    ensures |CallsOf(r, no)| == |CallsOf(owner, no)| + |new_|
  {
    assert CallsOf(r, no) == CallsOf(owner, no) + new_;
    assert CallsOf(owner, no) !! new_;
  }

  lemma OldCalls(owner: map<nat, Owner>, r: map<nat, Owner>, no: nat, other: nat)
    requires other != no && forall k :: k in owner ==> k in r && r[k] == owner[k]
    requires forall k :: k in r && k !in owner ==> r[k] == ByTask(no)
    ensures CallsOf(r, other) == CallsOf(owner, other)
  {
  }

  lemma OwnedBefore(rpc: Rpc.State, owner: map<nat, Owner>)
    requires OwnersOpen(rpc, owner)
    ensures forall k :: k in owner ==> k < rpc.issued
  {
    assert forall k :: k in owner ==> Open(rpc, k);
  }

  /** New calls of a task: their numbers are new, so nothing else changes hands. */
  lemma AssignOpen(rpc: Rpc.State, rpc': Rpc.State, owner: map<nat, Owner>, no: nat)
    requires OwnersOpen(rpc, owner) && rpc.issued <= rpc'.issued
    requires forall k :: k in rpc'.notified ==> k in rpc.notified
    requires forall k :: k in rpc.notified ==> k < rpc.issued
    ensures OwnersOpen(rpc', Assign(owner, rpc.issued, rpc'.issued, ByTask(no)))
  {
    var r := Assign(owner, rpc.issued, rpc'.issued, ByTask(no));
    forall k | k in r
      ensures Open(rpc', k)
    {
      assert k in owner ==> Open(rpc, k);
    }
  }

  lemma AssignPings(bs: R.Slots, owner: map<nat, Owner>, from: nat, end: nat, no: nat)
    requires PingsOwned(bs, owner) && from <= end && forall k :: k in owner ==> k < from
    ensures PingsOwned(bs, Assign(owner, from, end, ByTask(no)))
  {
    hide Assign, Range;
    var r := AssignParts(owner, from, end, ByTask(no));
    SamePings(bs, owner, r);
  }

  lemma SamePings(bs: R.Slots, owner: map<nat, Owner>, r: map<nat, Owner>)
    requires PingsOwned(bs, owner)
    requires forall k :: k in owner ==> k in r && r[k] == owner[k]
    requires forall k :: k in r && r[k].ByBucket? ==> k in owner && owner[k] == r[k]
    ensures PingsOwned(bs, r)
  {
    hide R.Pinged;
  }

  /** What holds of the server, the buckets and the owners, apart from the tasks. */
  ghost predicate Linked(rpc: Rpc.State, bs: R.Slots, owner: map<nat, Owner>) {
    && OwnersOpen(rpc, owner) && PingsOwned(bs, owner)
    && (forall k :: k in rpc.notified ==> k < rpc.issued)
  }

  lemma AssignKeeps(rpc: Rpc.State, rpc': Rpc.State, bs: R.Slots, owner: map<nat, Owner>, no: nat)
    requires Linked(rpc, bs, owner) && rpc.issued <= rpc'.issued && rpc'.notified == rpc.notified
    ensures Linked(rpc', bs, Assign(owner, rpc.issued, rpc'.issued, ByTask(no)))
    ensures forall k :: k in owner ==> k < rpc.issued
  {
    hide OwnersOpen, PingsOwned;
    OwnedBefore(rpc, owner);
    AssignOpen(rpc, rpc', owner, no);
    AssignPings(bs, owner, rpc.issued, rpc'.issued, no);
  }

  lemma AssignNothing(owner: map<nat, Owner>, from: nat, o: Owner)
    ensures Assign(owner, from, from, o) == owner
  {
  }

  /** A new task gets its first calls, as many as it then waits for. */
  lemma LaunchOwned(s: State, bs: R.Slots, owner: map<nat, Owner>, publish: bool, kns: seq<Entry>)
    requires Scheduler.Inv(s) && IdFree(s, Id(s.added)) && Linked(s.rpc, bs, owner) && CallsOwned(s, owner)
    ensures var r := Launch(s, publish, kns);
            var owner' := Assign(owner, s.rpc.issued, r.rpc.issued, ByTask(s.added));
            Scheduler.Inv(r) && Linked(r.rpc, bs, owner') && CallsOwned(r, owner')
  {
    hide Scheduler.Inv, Linked, Rpc.Inv, Begin, Calls, Id, Assign;
    LaunchKeeps(s, publish, kns);
    if kns == [] {
      AssignNothing(owner, s.rpc.issued, ByTask(s.added));
    } else {
      var j := Begin(publish, kns, !MayStart(s));
      BeginKeeps(publish, kns, !MayStart(s));
      RpcOf(s);
      Rpc.SubmitAllKeeps(s.rpc, Calls(Blank(publish), j));
      var r := Launch(s, publish, kns);
      AssignKeeps(s.rpc, r.rpc, bs, owner, s.added);
      if j.Queued() {
        QueuedHasNoCalls(publish, kns);
      }
      AddOwned(s, owner, j, r.rpc);
    }
  }

  lemma QueuedHasNoCalls(publish: bool, kns: seq<Entry>)
    ensures Begin(publish, kns, true).Outstanding() == 0
  {
    QueuedIsSilent(publish, kns);
  }

  lemma AddOwned(s: State, owner: map<nat, Owner>, j: Job, rpc: Rpc.State)
    requires CallsOwned(s, owner) && Scheduler.Inv(s) && IdFree(s, Id(s.added))
    requires rpc.issued == s.rpc.issued + j.Outstanding() && (j.Queued() ==> j.Outstanding() == 0)
    requires forall k :: k in owner ==> k < s.rpc.issued
    ensures CallsOwned(AddTask(s.(rpc := rpc), j), Assign(owner, s.rpc.issued, rpc.issued, ByTask(s.added)))
  {
    hide Id, JobsInv, FirstComeFirstServed, Rpc.Inv, Job.Outstanding, Assign;
    NoCallsYet(s, owner);
    var r := AssignedCalls(owner, s.rpc.issued, rpc.issued, s.added);
  }

  lemma NoCallsYet(s: State, owner: map<nat, Owner>)
    requires CallsOwned(s, owner) && Scheduler.Inv(s)
    ensures CallsOf(owner, s.added) == {}
    ensures forall id :: id in s.tasks ==> s.tasks[id].no != s.added
    ensures forall i :: 0 <= i < |s.queued| ==> s.queued[i].no != s.added
  {
    hide JobsInv, FirstComeFirstServed, Rpc.Inv, Id;
  }

  /** So does a task that is taken from the queue. */
  lemma ResumeFirstOwned(s: State, bs: R.Slots, owner: map<nat, Owner>)
    requires Scheduler.Inv(s) && MayStart(s) && s.queued != [] && Linked(s.rpc, bs, owner) && CallsOwned(s, owner)
    ensures var r := ResumeFirst(s);
            var owner' := Assign(owner, s.rpc.issued, r.rpc.issued, ByTask(s.queued[0].no));
            Scheduler.Inv(r) && Linked(r.rpc, bs, owner') && CallsOwned(r, owner')
  {
    hide Linked, Rpc.Inv, Calls, Id, Assign, JobsInv, Placed, FirstComeFirstServed, Job.Resume;
    var j := s.queued[0].job;
    FirstQueued(s);
    ResumeFirstKeeps(s);
    ResumeKeeps(j);
    RpcOf(s);
    Rpc.SubmitAllKeeps(s.rpc, Calls(j, j.Resume()));
    var r := ResumeFirst(s);
    AssignKeeps(s.rpc, r.rpc, bs, owner, s.queued[0].no);
    ResumedOwned(s, owner);
  }

  lemma FirstQueued(s: State)
    requires Scheduler.Inv(s) && s.queued != []
    ensures s.queued[0].job.Inv() && s.queued[0].job.Queued()
  {
  }

  lemma ResumedOwned(s: State, owner: map<nat, Owner>)
    requires CallsOwned(s, owner) && Scheduler.Inv(s) && s.queued != []
    requires ResumeFirst(s).rpc.issued == s.rpc.issued + s.queued[0].job.Resume().Outstanding()
    requires forall k :: k in owner ==> k < s.rpc.issued
    ensures CallsOwned(ResumeFirst(s), Assign(owner, s.rpc.issued, ResumeFirst(s).rpc.issued, ByTask(s.queued[0].no)))
  {
    hide Scheduler.Inv, Job.Outstanding, Job.Resume, Calls, Rpc.SubmitAll, Assign, CallsOf, Id;
    var no := s.queued[0].no;
    OthersDiffer(s);
    var r := AssignedCalls(owner, s.rpc.issued, ResumeFirst(s).rpc.issued, no);
    NumbersPlaced(s);
  }

  lemma NumbersPlaced(s: State)
    requires Scheduler.Inv(s)
    ensures forall i :: 0 <= i < |s.queued| ==> s.queued[i].no < s.added
    ensures forall id :: id in s.tasks ==> s.tasks[id].no < s.added
  {
    hide JobsInv, Rpc.Inv, FirstComeFirstServed, Id;
  }

  /** The first task in the queue is not another one. */
  lemma OthersDiffer(s: State)
    requires Scheduler.Inv(s) && s.queued != []
    ensures forall id :: id in s.tasks ==> s.tasks[id].no != s.queued[0].no
    ensures forall i :: 0 < i < |s.queued| ==> s.queued[i].no != s.queued[0].no
  {
    hide JobsInv, Rpc.Inv, Id;
  }

  lemma {:induction false} ResumeOwned(s: State, bs: R.Slots, owner: map<nat, Owner>)
    requires Scheduler.Inv(s) && Linked(s.rpc, bs, owner) && CallsOwned(s, owner)
    ensures var r, owner' := ResumeSome(s), ResumeOwners(s, owner);
            Scheduler.Inv(r) && Linked(r.rpc, bs, owner') && CallsOwned(r, owner')
    decreases |s.queued|
  {
    hide Scheduler.Inv, Linked, CallsOwned, MayStart, Assign;
    if MayStart(s) && s.queued != [] {
      ResumeFirstOwned(s, bs, owner);
      var r := ResumeFirst(s);
      ResumeOwned(r, bs, Assign(owner, s.rpc.issued, r.rpc.issued, ByTask(s.queued[0].no)));
    }
  }

  lemma UpdateOwned(s: State, bs: R.Slots, owner: map<nat, Owner>)
    requires Scheduler.Inv(s) && Linked(s.rpc, bs, owner) && CallsOwned(s, owner)
    ensures var r, owner' := RemoveFinishedTasks(s), ResumeOwners(Sweep(s), owner);
            Scheduler.Inv(r) && Linked(r.rpc, bs, owner') && CallsOwned(r, owner')
  {
    hide Scheduler.Inv, Linked, ResumeSome, ResumeOwners;
    SweepKeeps(s);
    ResumeOwned(Sweep(s), bs, owner);
  }

  /** A completion is counted down and the calls it leads to are counted up. */
  lemma ProceedCalls(j: Job, c: Completion)
    requires j.Inv() && Fits(j, c) && j.Outstanding() > 0
    ensures Proceed(j, c).Outstanding() == j.Outstanding() - 1 + |Calls(j, Proceed(j, c))|
  {
    hide Lookup.Step, Announce.Step, Lookup.Inv, Announce.Inv;
    match j
    case Find(l) => Lookup.StepKeeps(l, c.ourId, c.ev);
    case Publish(a) => Announce.StepKeeps(a, c.e);
  }

  lemma GivenUp(owner: map<nat, Owner>, k: nat, no: nat)
    requires k in owner
    ensures |CallsOf(owner - {k}, no)| == |CallsOf(owner, no)| - (if owner[k] == ByTask(no) then 1 else 0)
    ensures owner[k] != ByTask(no) ==> CallsOf(owner - {k}, no) == CallsOf(owner, no)
  {
    assert CallsOf(owner - {k}, no) == CallsOf(owner, no) - {k};
  }

  lemma OverLinked(rpc: Rpc.State, rpc': Rpc.State, bs: R.Slots, owner: map<nat, Owner>, k: nat)
    requires Linked(rpc, bs, owner) && (k in owner ==> owner[k].ByTask?) && k < rpc.issued
    requires rpc'.notified == rpc.notified + [k] && rpc.issued <= rpc'.issued
    ensures Linked(rpc', bs, owner - {k})
  {
    hide R.Pinged;
    forall h | h in owner - {k}
      ensures Open(rpc', h)
    {
      assert Open(rpc, h);
    }
  }

  lemma TaskCallKeeps(n: Node, ourId: Key, id: nat, call: byte, c: Completion, now: Time)
    requires Inv(n, ourId) && Legal(n, TaskCallOver(id, call, c))
    ensures Inv(Step(n, ourId, TaskCallOver(id, call, c), now), ourId)
  {
    hide R.Inv, Linked, Rpc.Inv, Rpc.Complete, Calls, Assign, PingsOwned, OwnersOpen, JobsInv, Placed;
    hide FirstComeFirstServed, CallsOwned;
    var s, k := n.tasks, Called(n, call);
    var t := s.tasks[id];
    var j := Proceed(t.job, c);
    var inner := Calls(t.job, j);
    RpcOf(s);
    ActiveIssued(s.rpc, call);
    HasCall(s, n.owner, id, k);
    ProceedCalls(t.job, c);
    Scheduler.StepKeeps(s, CallOver(id, call, c));
    Rpc.CompleteKeeps(s.rpc, call, inner);
    LinkedOf(n, ourId);
    OwnedBefore(s.rpc, n.owner);
    var rpc' := Rpc.Complete(s.rpc, call, inner);
    var mid := rpc'.(issued := s.rpc.issued);
    OverLinked(s.rpc, mid, n.table.buckets, n.owner, k);
    AssignKeeps(mid, rpc', n.table.buckets, n.owner - {k}, t.no);
    LinkedParts(rpc', n.table.buckets, Assign(n.owner - {k}, s.rpc.issued, rpc'.issued, ByTask(t.no)));
    CallOverOwned(s, n.owner, id, k, j, rpc');
  }

  lemma LinkedOf(n: Node, ourId: Key)
    requires Inv(n, ourId)
    ensures Linked(n.tasks.rpc, n.table.buckets, n.owner)
  {
    hide R.Inv, PingsOwned, OwnersOpen, CallsOwned;
    RpcOf(n.tasks);
  }

  lemma LinkedParts(rpc: Rpc.State, bs: R.Slots, owner: map<nat, Owner>)
    requires Linked(rpc, bs, owner)
    ensures OwnersOpen(rpc, owner) && PingsOwned(bs, owner)
  {
  }

  lemma HasCall(s: State, owner: map<nat, Owner>, id: nat, k: nat)
    requires Scheduler.Inv(s) && CallsOwned(s, owner) && id in s.tasks
    requires k in owner && owner[k] == ByTask(s.tasks[id].no)
    ensures s.tasks[id].job.Inv() && s.tasks[id].job.Outstanding() > 0
  {
    assert k in CallsOf(owner, s.tasks[id].no);
  }

  lemma CallOverOwned(s: State, owner: map<nat, Owner>, id: nat, k: nat, j: Job, rpc: Rpc.State)
    requires Scheduler.Inv(s) && CallsOwned(s, owner) && id in s.tasks
    requires k in owner && owner[k] == ByTask(s.tasks[id].no)
    requires s.rpc.issued <= rpc.issued && forall h :: h in owner ==> h < s.rpc.issued
    requires j.Outstanding() == s.tasks[id].job.Outstanding() - 1 + (rpc.issued - s.rpc.issued)
    ensures CallsOwned(s.(tasks := s.tasks[id := Slot(s.tasks[id].no, j)], rpc := rpc),
                       Assign(owner - {k}, s.rpc.issued, rpc.issued, ByTask(s.tasks[id].no)))
  {
    hide Scheduler.Inv, Job.Outstanding, Id, Assign, CallsOf;
    var no := s.tasks[id].no;
    forall other: nat
      ensures other != no ==> CallsOf(owner - {k}, other) == CallsOf(owner, other)
    {
      GivenUp(owner, k, other);
    }
    GivenUp(owner, k, no);
    var r := AssignedCalls(owner - {k}, s.rpc.issued, rpc.issued, no);
    RunningDiffer(s, id);
    NumbersPlaced(s);
  }

  lemma RunningDiffer(s: State, id: nat)
    requires Scheduler.Inv(s) && id in s.tasks
    ensures forall other :: other in s.tasks && other != id ==> s.tasks[other].no != s.tasks[id].no
    ensures forall i :: 0 <= i < |s.queued| ==> s.queued[i].no != s.tasks[id].no
  {
    hide JobsInv, Rpc.Inv, Id, FirstComeFirstServed;
  }

  lemma KillKeeps(n: Node, ourId: Key, ev: Event, now: Time)
    requires Inv(n, ourId) && Legal(n, ev) && (ev.KillRunning? || ev.KillQueued?)
    ensures Inv(Step(n, ourId, ev, now), ourId)
  {
    hide R.Inv, Scheduler.Inv, PingsOwned, OwnersOpen, CallsOf;
    match ev
    case KillRunning(id) => Scheduler.StepKeeps(n.tasks, Scheduler.KillRunning(id));
    case KillQueued(i) => Scheduler.StepKeeps(n.tasks, Scheduler.KillQueued(i));
    case _ =>
  }

  lemma OtherKeeps(n: Node, ourId: Key, ev: Event, now: Time)
    requires Inv(n, ourId) && Legal(n, ev) && (ev.OtherCall? || ev.OtherOver?)
    ensures Inv(Step(n, ourId, ev, now), ourId)
  {
    hide R.Inv, Scheduler.Inv, PingsOwned, OwnersOpen, CallsOwned, Rpc.Submit, Rpc.Complete, Rpc.Inv, Linked;
    RpcOf(n.tasks);
    LinkedOf(n, ourId);
    var rpc := n.tasks.rpc;
    match ev
    case OtherCall(meth) =>
      Rpc.SubmitKeeps(rpc, meth);
      SameTasks(n.tasks, Rpc.Submit(rpc, meth));
      LaterLinked(rpc, Rpc.Submit(rpc, meth), n.table.buckets, n.owner);
      LinkedParts(Rpc.Submit(rpc, meth), n.table.buckets, n.owner);
      ForgottenOwned(n.tasks, Rpc.Submit(rpc, meth), n.owner, {});
      assert n.owner - {} == n.owner;
    case OtherOver(call) =>
      var k := Called(n, call);
      ActiveIssued(rpc, call);
      Rpc.CompleteKeeps(rpc, call, []);
      var rpc' := Rpc.Complete(rpc, call, []);
      SameTasks(n.tasks, rpc');
      OverLinked(rpc, rpc', n.table.buckets, n.owner, k);
      LinkedParts(rpc', n.table.buckets, n.owner - {k});
      ForgottenOwned(n.tasks, rpc', n.owner, {k});
    case _ =>
  }

  lemma LaterLinked(rpc: Rpc.State, rpc': Rpc.State, bs: R.Slots, owner: map<nat, Owner>)
    requires Linked(rpc, bs, owner) && rpc.issued <= rpc'.issued && rpc'.notified == rpc.notified
    ensures Linked(rpc', bs, owner)
  {
    hide PingsOwned;
    assert forall k :: k in owner ==> Open(rpc, k);
  }

  /** Forgetting calls for which no running task waits. */
  lemma ForgottenOwned(s: State, rpc: Rpc.State, owner: map<nat, Owner>, over: set<nat>)
    requires CallsOwned(s, owner)
    requires forall k :: k in over && k in owner ==> owner[k].ByTask? && !Running(s, owner[k].no)
    requires Scheduler.Inv(s)
    ensures CallsOwned(s.(rpc := rpc), owner - over)
  {
    hide JobsInv, Rpc.Inv, FirstComeFirstServed, Id;
    forall id | id in s.tasks
      ensures CallsOf(owner - over, s.tasks[id].no) == CallsOf(owner, s.tasks[id].no)
    {
      assert Running(s, s.tasks[id].no);
    }
    forall i | 0 <= i < |s.queued|
      ensures CallsOf(owner - over, s.queued[i].no) == {}
    {
      assert CallsOf(owner - over, s.queued[i].no) <= CallsOf(owner, s.queued[i].no);
    }
  }

  lemma NewTaskKeeps(n: Node, ourId: Key, publish: bool, kns: seq<Entry>)
    requires Inv(n, ourId) && IdFree(n.tasks, Id(n.tasks.added))
    ensures Inv(StartTask(n, publish, kns), ourId)
  {
    hide R.Inv, Scheduler.Inv, PingsOwned, OwnersOpen, CallsOwned, Launch, Assign, Linked;
    LinkedOf(n, ourId);
    LaunchOwned(n.tasks, n.table.buckets, n.owner, publish, kns);
    var r := Launch(n.tasks, publish, kns);
    LinkedParts(r.rpc, n.table.buckets, Assign(n.owner, n.tasks.rpc.issued, r.rpc.issued, ByTask(n.tasks.added)));
  }

  lemma UpdateKeeps(n: Node, ourId: Key)
    requires Inv(n, ourId)
    ensures Inv(SweepAndResume(n), ourId)
  {
    hide R.Inv, Scheduler.Inv, PingsOwned, OwnersOpen, CallsOwned, RemoveFinishedTasks, ResumeOwners, Linked;
    LinkedOf(n, ourId);
    UpdateOwned(n.tasks, n.table.buckets, n.owner);
    LinkedParts(RemoveFinishedTasks(n.tasks).rpc, n.table.buckets, ResumeOwners(Sweep(n.tasks), n.owner));
  }

  /** Every event keeps the table, the tasks and the server in order, and the calls with those who made them. Pings
      need no names of their own: the number of a new call is never that of one still on its way. */
  lemma StepKeeps(n: Node, ourId: Key, ev: Event, now: Time)
    requires Inv(n, ourId) && Legal(n, ev) && n.tasks.added < UINT32
    ensures Inv(Step(n, ourId, ev, now), ourId)
  {
    hide Inv, Legal, Hear, EndPing, R.QueryFailed, SweepAndResume, StartTask;
    match ev
    case Heard(addr, id) => HearKeeps(n, ourId, addr, id, now);
    case PingOver(call, answered) => EndPingKeeps(n, ourId, call, answered, now);
    case QueryFailed(a) => QueryKeeps(n, ourId, a);
    case NewTask(publish, kns) =>
      NextIdFree(n, ourId);
      NewTaskKeeps(n, ourId, publish, kns);
    case TaskCallOver(id, call, c) => TaskCallKeeps(n, ourId, id, call, c, now);
    case KillRunning(_) => KillKeeps(n, ourId, ev, now);
    case KillQueued(_) => KillKeeps(n, ourId, ev, now);
    case Update => UpdateKeeps(n, ourId);
    case OtherCall(_) => OtherKeeps(n, ourId, ev, now);
    case OtherOver(_) => OtherKeeps(n, ourId, ev, now);
  }

  lemma NextIdFree(n: Node, ourId: Key)
    requires Inv(n, ourId) && n.tasks.added < UINT32
    ensures IdFree(n.tasks, Id(n.tasks.added))
  {
    hide R.Inv, Scheduler.Inv, PingsOwned, OwnersOpen, CallsOwned;
    FreeUntilWrap(n.tasks);
  }

  ghost predicate Leads(n: Node, ourId: Key, ev: Event, now: Time, r: Node) {
    Legal(n, ev) && r == Step(n, ourId, ev, now)
  }

  /** A run from the start, with the times of the events. */
  ghost predicate Reaches(nodes: seq<Node>, ourId: Key, evs: seq<(Event, Time)>) {
    && |nodes| == |evs| + 1 && IsFresh(nodes[0])
    && forall i :: 0 <= i < |evs| ==> Leads(nodes[i], ourId, evs[i].0, evs[i].1, nodes[i + 1])
  }

  /** Over every run, until 2^32 tasks have been added. */
  lemma {:induction false} RunKeeps(nodes: seq<Node>, ourId: Key, evs: seq<(Event, Time)>)
    requires Reaches(nodes, ourId, evs)
    requires forall i :: 0 <= i < |evs| ==> nodes[i].tasks.added < UINT32
    ensures Inv(nodes[|evs|], ourId)
    decreases |evs|
  {
    hide Inv, Step, Legal;
    var n := |evs|;
    if n == 0 {
      StartInv(nodes[0], ourId);
    } else {
      RunKeeps(nodes[..n], ourId, evs[..n - 1]);
      assert Leads(nodes[n - 1], ourId, evs[n - 1].0, evs[n - 1].1, nodes[n]);
      assert nodes[..n][n - 1] == nodes[n - 1];
      StepKeeps(nodes[n - 1], ourId, evs[n - 1].0, evs[n - 1].1);
    }
  }

  lemma StartInv(n: Node, ourId: Key)
    requires IsFresh(n)
    ensures Inv(n, ourId)
  {
    hide Scheduler.Inv;
    R.NothingInNothing(n.table.buckets);
    EmptyInv();
  }

  /** No running task starves: one that is not finished has made a call that is active or waits for an id, and whose
      outcome will go to it. */
  lemma TaskHasCall(n: Node, ourId: Key, id: nat) returns (k: nat)
    requires Inv(n, ourId) && id in n.tasks.tasks && !n.tasks.tasks[id].job.Finished()
    ensures k in n.owner && n.owner[k] == ByTask(n.tasks.tasks[id].no)
    ensures Rpc.Waiting(n.tasks.rpc, k) || Rpc.Active(n.tasks.rpc, k)
  {
    var s := n.tasks;
    Unfinished(s, id);
    RpcOf(s);
    assert |CallsOf(n.owner, s.tasks[id].no)| > 0;
    k :| k in CallsOf(n.owner, s.tasks[id].no);
    assert Open(s.rpc, k);
    OpenPlace(s.rpc, k);
  }

  lemma Unfinished(s: State, id: nat)
    requires Scheduler.Inv(s) && id in s.tasks && !s.tasks[id].job.Finished()
    ensures s.tasks[id].job.Outstanding() > 0
  {
    hide Placed, FirstComeFirstServed, Rpc.Inv;
  }

  lemma OpenPlace(rpc: Rpc.State, k: nat)
    requires Rpc.Inv(rpc) && Open(rpc, k)
    ensures Rpc.Waiting(rpc, k) || Rpc.Active(rpc, k)
  {
    if k >= |rpc.sent| {
      assert rpc.queue[k - |rpc.sent|].no == k;
    } else {
      assert Rpc.Placed(rpc, k);
    }
  }

  /** Every probe of a bucket is a call that is active or waits for an id. */
  lemma PingHasCall(n: Node, ourId: Key, i: nat, c: nat)
    requires R.Pinged(n.table.buckets, i, c) && Inv(n, ourId)
    ensures c in n.owner && n.owner[c] == ByBucket(i) && (Rpc.Waiting(n.tasks.rpc, c) || Rpc.Active(n.tasks.rpc, c))
  {
    hide R.Inv, Scheduler.Inv, CallsOwned;
    RpcOf(n.tasks);
    assert Open(n.tasks.rpc, c);
    OpenPlace(n.tasks.rpc, c);
  }
}

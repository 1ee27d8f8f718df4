/** The node as a whole does to its table and to its tasks what these do by themselves (node.cpp, taskmanager.cpp,
    rpcserver.cpp). */
module Parts {
  import opened Bytes
  import opened Keys
  import opened Entries
  import opened Whole
  import R = Routing
  import S = Scheduler
  import Rpc

  /** What an event is for the table. */
  function TableEvent(n: Node, ev: Event): Option<R.Event>
    requires ev.PingOver? ==> Legal(n, ev)
  {
    match ev
    case Heard(addr, id) => Some(R.Message(addr, id))
    case PingOver(call, answered) =>
      var no := Called(n, call);
      Some(if answered then R.PingAnswered(n.owner[no].i, no) else R.PingTimedOut(n.owner[no].i, no))
    case QueryFailed(a) => Some(R.QueryTimedOut(a))
    case _ => None
  }

  /** The bucket that has to do with the event has sent a ping because of it. */
  ghost predicate SentPing(n: Node, r: Node) {
    exists i :: R.Pinged(r.table.buckets, i, n.tasks.rpc.issued)
  }

  /** What it is for the task manager, which shares the server: a ping is a call by somebody else. */
  ghost function TaskEvent(n: Node, ev: Event, r: Node): Option<S.Event> {
    var pings := if SentPing(n, r) then [Rpc.PING] else [];
    match ev
    case Heard(_, _) => if SentPing(n, r) then Some(S.OtherCall(Rpc.Call(Rpc.PING))) else None
    case PingOver(call, answered) =>
      Some(S.OtherCall(if answered then Rpc.Response(call, pings) else Rpc.Timeout(call, pings)))
    case QueryFailed(_) => None
    case NewTask(publish, kns) => Some(S.NewTask(publish, kns))
    case TaskCallOver(id, call, c) => Some(S.CallOver(id, call, c))
    case KillRunning(id) => Some(S.KillRunning(id))
    case KillQueued(i) => Some(S.KillQueued(i))
    case Update => Some(S.Update)
    case OtherCall(meth) => Some(S.OtherCall(Rpc.Call(meth)))
    case OtherOver(call) => Some(S.OtherCall(Rpc.Response(call, [])))
  }

  /** One event of the node is one step of its table, or none, and one step of its task manager, or none. */
  lemma StepParts(n: Node, ourId: Key, ev: Event, now: Time)
    requires Inv(n, ourId) && Legal(n, ev)
    ensures var r := Step(n, ourId, ev, now);
            && (match TableEvent(n, ev)
                case None => r.table == n.table
                case Some(e) => r.table == R.Step(n.table, ourId, e, now, n.tasks.rpc.issued))
            && (match TaskEvent(n, ev, r)
                case None => r.tasks == n.tasks
                case Some(e) => S.Legal(n.tasks, e) && r.tasks == S.Step(n.tasks, e))
  {
    hide Inv, R.Step, R.Received, R.Probed, R.QueryFailed, R.Index, SentPing, Hear, EndPing, Rpc.Complete, Rpc.Submit;
    hide S.Proceed, S.Launch, S.RemoveFinishedTasks, SweepAndResume, StartTask, Assign, R.Pinged, S.Calls;
    match ev
    case Heard(addr, id) => HeardParts(n, ourId, addr, id, now);
    case PingOver(call, answered) => PingParts(n, ourId, call, answered, now);
    case QueryFailed(a) => FailedParts(n, ourId, a, now);
    case NewTask(publish, kns) => TaskParts(n, publish, kns);
    case TaskCallOver(id, call, c) => assert n.tasks.tasks[id].job.Outstanding() > 0 by { Waits(n, ourId, id, call); }
    case Update => TaskParts(n, false, []);
    case _ =>
  }

  lemma FailedParts(n: Node, ourId: Key, a: Address, now: Time)
    ensures R.Step(n.table, ourId, R.QueryTimedOut(a), now, n.tasks.rpc.issued) == R.QueryFailed(n.table, a)
  {
    hide R.QueryFailed;
  }

  lemma TaskParts(n: Node, publish: bool, kns: seq<Entry>)
    ensures StartTask(n, publish, kns).tasks == S.Launch(n.tasks, publish, kns)
    ensures StartTask(n, publish, kns).table == n.table
    ensures SweepAndResume(n).tasks == S.RemoveFinishedTasks(n.tasks) && SweepAndResume(n).table == n.table
  {
    hide S.Launch, S.RemoveFinishedTasks;
  }

  lemma Waits(n: Node, ourId: Key, id: nat, call: byte)
    requires Inv(n, ourId) && id in n.tasks.tasks && call in n.tasks.rpc.active && Called(n, call) in n.owner
    requires n.owner[Called(n, call)] == ByTask(n.tasks.tasks[id].no)
    ensures n.tasks.tasks[id].job.Outstanding() > 0
  {
    hide R.Inv, S.Inv, OwnersOpen, PingsOwned;
    HasCall(n.tasks, n.owner, id, Called(n, call));
  }

  /** Only the bucket that was touched can have sent the ping. */
  lemma OnlyTouched(n: Node, ourId: Key, bs: R.Slots, i: nat)
    requires Inv(n, ourId)
    requires i < 160 ==> bs == n.table.buckets[i := bs[i]]
    requires i >= 160 ==> bs == n.table.buckets
    ensures (exists j :: R.Pinged(bs, j, n.tasks.rpc.issued)) <==> R.Pinged(bs, i, n.tasks.rpc.issued)
  {
    hide R.Inv, S.Inv, OwnersOpen, PingsOwned, CallsOwned;
    NextUnused(n);
  }

  lemma HeardParts(n: Node, ourId: Key, addr: Address, id: Key, now: Time)
    requires Inv(n, ourId)
    ensures var r := Hear(n, ourId, addr, id, now);
            && r.table == R.Step(n.table, ourId, R.Message(addr, id), now, n.tasks.rpc.issued)
            && r.tasks == if SentPing(n, r) then n.tasks.(rpc := Rpc.Submit(n.tasks.rpc, Rpc.PING)) else n.tasks
  {
    hide Inv, R.Received, R.Index, R.Pinged, Rpc.Submit;
    var r := Hear(n, ourId, addr, id, now);
    ReceivedTouches(n.table, ourId, addr, id, now, n.tasks.rpc.issued);
    OnlyTouched(n, ourId, r.table.buckets, R.Index(id, ourId));
  }

  lemma ReceivedTouches(t: R.Table, ourId: Key, addr: Address, id: Key, now: Time, call: nat)
    ensures var i, r := R.Index(id, ourId), R.Received(t, ourId, addr, id, now, call);
            if i < 160 then r.buckets == t.buckets[i := r.buckets[i]] else r.buckets == t.buckets
  {
    hide R.Index, R.AllEntries, R.B.Insert;
  }

  lemma PingParts(n: Node, ourId: Key, call: byte, answered: bool, now: Time)
    requires Inv(n, ourId) && Legal(n, PingOver(call, answered))
    ensures var r := EndPing(n, call, answered, now);
            var no := Called(n, call);
            var i := n.owner[no].i;
            && r.table == R.Step(n.table, ourId, if answered then R.PingAnswered(i, no) else R.PingTimedOut(i, no), now,
                                 n.tasks.rpc.issued)
            && r.tasks == n.tasks.(rpc := Rpc.Complete(n.tasks.rpc, call, if SentPing(n, r) then [Rpc.PING] else []))
  {
    hide Inv, R.Pinged, Rpc.Complete, R.B.Step;
    var r := EndPing(n, call, answered, now);
    OnlyTouched(n, ourId, r.table.buckets, n.owner[Called(n, call)].i);
  }

  /** What happens to the table in a run of the node. */
  function TableEvents(nodes: seq<Node>, evs: seq<(Event, Time)>): seq<(R.Event, Time, nat)>
    requires |nodes| == |evs| + 1 && forall i :: 0 <= i < |evs| ==> Legal(nodes[i], evs[i].0)
    decreases |evs|
  {
    if evs == [] then []
    else
      var n := |evs| - 1;
      TableEvents(nodes[..n + 1], evs[..n])
      + match TableEvent(nodes[n], evs[n].0)
        case None => []
        case Some(e) => [(e, evs[n].1, nodes[n].tasks.rpc.issued)]
  }

  /** Over every run of the node the table is what a run of the table by itself leads to, in which every ping has a name
      that is not in use; so all that is proved of these runs holds of it. */
  lemma {:induction false} TableRuns(nodes: seq<Node>, ourId: Key, evs: seq<(Event, Time)>)
    requires Reaches(nodes, ourId, evs)
    requires forall i :: 0 <= i < |evs| ==> nodes[i].tasks.added < UINT32
    ensures forall i :: 0 <= i < |evs| ==> Legal(nodes[i], evs[i].0)
    ensures var tevs := TableEvents(nodes, evs);
            && R.NamesFresh(R.FRESH_TABLE, ourId, tevs)
            && R.Run(R.FRESH_TABLE, ourId, tevs) == nodes[|evs|].table
    decreases |evs|
  {
    hide Inv, Step, Legal, R.Step, TableEvent, TaskEvent, IsFresh;
    AllLegal(nodes, ourId, evs);
    var n := |evs| - 1;
    if evs == [] {
      StartsFresh(nodes[0]);
    } else {
      var front := nodes[..n + 1];
      TableRuns(front, ourId, evs[..n]);
      RunKeeps(front, ourId, evs[..n]);
      assert Leads(nodes[n], ourId, evs[n].0, evs[n].1, nodes[n + 1]);
      StepParts(nodes[n], ourId, evs[n].0, evs[n].1);
      var tevs := TableEvents(front, evs[..n]);
      match TableEvent(nodes[n], evs[n].0)
      case None => assert tevs + [] == tevs;
      case Some(e) =>
        var last := (e, evs[n].1, nodes[n].tasks.rpc.issued);
        NameUnused(nodes[n], ourId);
        OneTableEvent(ourId, tevs, last);
    }
  }

  lemma AllLegal(nodes: seq<Node>, ourId: Key, evs: seq<(Event, Time)>)
    requires Reaches(nodes, ourId, evs)
    ensures forall i :: 0 <= i < |evs| ==> Legal(nodes[i], evs[i].0)
    ensures evs != [] ==> Reaches(nodes[..|evs|], ourId, evs[..|evs| - 1])
  {
    hide Legal, Step, IsFresh;
    forall i | 0 <= i < |evs|
      ensures Legal(nodes[i], evs[i].0)
    {
      assert Leads(nodes[i], ourId, evs[i].0, evs[i].1, nodes[i + 1]);
    }
  }

  lemma StartsFresh(n: Node)
    requires IsFresh(n)
    ensures n.table == R.FRESH_TABLE
  {
    assert n.table.buckets == R.NO_BUCKETS;
  }

  lemma NameUnused(n: Node, ourId: Key)
    requires Inv(n, ourId)
    ensures R.Unused(n.table, n.tasks.rpc.issued)
  {
    hide R.Inv, S.Inv, OwnersOpen, PingsOwned, CallsOwned, R.Unused;
    NextUnused(n);
  }

  lemma OneTableEvent(ourId: Key, tevs: seq<(R.Event, Time, nat)>, last: (R.Event, Time, nat))
    requires R.NamesFresh(R.FRESH_TABLE, ourId, tevs) && R.Unused(R.Run(R.FRESH_TABLE, ourId, tevs), last.2)
    ensures R.NamesFresh(R.FRESH_TABLE, ourId, tevs + [last])
    ensures R.Run(R.FRESH_TABLE, ourId, tevs + [last])
            == R.Step(R.Run(R.FRESH_TABLE, ourId, tevs), ourId, last.0, last.1, last.2)
  {
    hide R.Step, R.Unused;
    assert (tevs + [last])[..|tevs|] == tevs;
  }
}

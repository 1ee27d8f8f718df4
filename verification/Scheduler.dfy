/** Which tasks run: the task manager and the limits of DHT::canStartTask (taskmanager.cpp, dht.cpp). */
module Scheduler {
  import opened Bytes
  import opened Keys
  import opened Entries
  import Announce
  import Lookup
  import Rpc

  const MAX_RUNNING: nat := 7
  const SPARE_SLOTS: nat := 16

  /** A task of either kind. */
  datatype Job = Find(lookup: Lookup.Task) | Publish(announce: Announce.Task) {
    predicate Finished() {
      if Find? then lookup.finished else announce.finished
    }

    predicate Queued() {
      if Find? then lookup.queued else announce.queued
    }

    function Outstanding(): nat {
      if Find? then lookup.outstanding else announce.outstanding
    }

    function Resume(): Job {
      match this
      case Find(l) => Find(Lookup.Resume(l))
      case Publish(a) => Publish(Announce.Resume(a))
    }

    function Kill(): Job {
      match this
      case Find(l) => Find(Lookup.Kill(l))
      case Publish(a) => Publish(Announce.Step(a, Announce.Killed))
    }

    ghost predicate Inv() {
      match this
      case Find(l) => Lookup.Inv(l)
      case Publish(a) => Announce.Inv(a)
    }
  }

  function Blank(publish: bool): Job {
    if publish then Publish(Announce.NEW) else Find(Lookup.NEW)
  }

  /** Task::start on a new task. */
  function Begin(publish: bool, kns: seq<Entry>, queued: bool): Job {
    if publish then Publish(Announce.Start(Announce.NEW, kns, queued))
    else Find(Lookup.Start(Lookup.NEW, kns, queued))
  }

  /** What happens to a running task: one of its requests is over. */
  datatype Completion = OfLookup(ourId: Key, ev: Lookup.Event) | OfAnnounce(e: Announce.Event)

  predicate Fits(j: Job, c: Completion) {
    match j
    case Find(_) => c.OfLookup? && Lookup.IsCompletion(c.ev)
    case Publish(_) => c.OfAnnounce? && Announce.IsCompletion(c.e)
  }

  function Proceed(j: Job, c: Completion): Job
    requires Fits(j, c)
  {
    match j
    case Find(l) => Find(Lookup.Step(l, c.ourId, c.ev))
    case Publish(a) => Publish(Announce.Step(a, c.e))
  }

  function Repeat(m: Rpc.Method, n: nat): (r: seq<Rpc.Method>)
    ensures |r| == n && forall i :: 0 <= i < n ==> r[i] == m
  {
    seq(n, _ => m)
  }

  function More(a: nat, b: nat): nat {
    if a <= b then b - a else 0
  }

  /** The calls a task made on its way from one state to another; an update announces before it asks. */
  function Calls(a: Job, b: Job): seq<Rpc.Method> {
    match (a, b)
    case (Find(x), Find(y)) => Repeat(Rpc.FIND_NODE, More(|x.sent|, |y.sent|))
    case (Publish(x), Publish(y)) =>
      Repeat(Rpc.ANNOUNCE_PEER, More(|x.announced|, |y.announced|))
      + Repeat(Rpc.GET_PEERS, More(|x.asked|, |y.asked|))
    case _ => []
  }

  /** A task and the number of tasks added before it. */
  datatype Slot = Slot(no: nat, job: Job)

  /** next_id is a 32-bit counter. */
  function Id(no: nat): nat {
    no % UINT32
  }

  /** The manager, with records of what it has removed and in which order queued tasks were started, and the RPC
      server it shares. */
  datatype State = State(
    tasks: map<nat, Slot>,
    queued: seq<Slot>,
    added: nat,
    removed: set<nat>,
    resumed: seq<nat>,
    rpc: Rpc.State)

  const EMPTY := State(map[], [], 0, {}, [], Rpc.EMPTY)

  predicate CanStart(tasks: nat, active: nat) {
    tasks < MAX_RUNNING && 256 - active > SPARE_SLOTS
  }

  predicate MayStart(s: State) {
    CanStart(|s.tasks|, |s.rpc.active|)
  }

  /** addTask */
  function AddTask(s: State, j: Job): State {
    var t := Slot(s.added, j);
    if j.Queued() then s.(added := s.added + 1, queued := s.queued + [t])
    else s.(added := s.added + 1, tasks := s.tasks[Id(s.added) := t])
  }

  /** announce, findNode and refreshBucket, with the closest nodes that were found. */
  function Launch(s: State, publish: bool, kns: seq<Entry>): State {
    if kns == [] then s
    else
      var j := Begin(publish, kns, !MayStart(s));
      AddTask(s.(rpc := Rpc.SubmitAll(s.rpc, Calls(Blank(publish), j))), j)
  }

  function Finished(s: State): set<nat> {
    set id | id in s.tasks && s.tasks[id].job.Finished()
  }

  function Numbers(s: State, ids: set<nat>): set<nat>
    requires ids <= s.tasks.Keys
  {
    set id | id in ids :: s.tasks[id].no
  }

  function Sweep(s: State): State {
    s.(tasks := s.tasks - Finished(s), removed := s.removed + Numbers(s, Finished(s)))
  }

  function ResumeFirst(s: State): State
    requires s.queued != []
  {
    var t := s.queued[0];
    var j := t.job.Resume();
    s.(tasks := s.tasks[Id(t.no) := Slot(t.no, j)], queued := s.queued[1..], resumed := s.resumed + [t.no],
       rpc := Rpc.SubmitAll(s.rpc, Calls(t.job, j)))
  }

  function ResumeSome(s: State): State
    decreases |s.queued|
  {
    if !MayStart(s) || s.queued == [] then s else ResumeSome(ResumeFirst(s))
  }

  /** removeFinishedTasks */
  function RemoveFinishedTasks(s: State): State {
    ResumeSome(Sweep(s))
  }

  datatype Event =
    | NewTask(publish: bool, kns: seq<Entry>)
    | CallOver(id: nat, call: byte, c: Completion)
    | KillRunning(id: nat)
    | KillQueued(i: nat)
    | OtherCall(ev: Rpc.Event)
    | Update

  /** CallOver is about a running task that waits for an answer, and comes with the call that is over. */
  ghost predicate Legal(s: State, ev: Event) {
    match ev
    case CallOver(id, call, c) =>
      id in s.tasks && call in s.rpc.active && Fits(s.tasks[id].job, c) && s.tasks[id].job.Outstanding() > 0
    case KillRunning(id) => id in s.tasks
    case KillQueued(i) => i < |s.queued|
    case _ => true
  }

  function Step(s: State, ev: Event): State
    requires Legal(s, ev)
  {
    match ev
    case NewTask(publish, kns) => Launch(s, publish, kns)
    case CallOver(id, call, c) =>
      var t := s.tasks[id];
      var j := Proceed(t.job, c);
      s.(tasks := s.tasks[id := Slot(t.no, j)], rpc := Rpc.Complete(s.rpc, call, Calls(t.job, j)))
    case KillRunning(id) => s.(tasks := s.tasks[id := Slot(s.tasks[id].no, s.tasks[id].job.Kill())])
    case KillQueued(i) => s.(queued := s.queued[i := Slot(s.queued[i].no, s.queued[i].job.Kill())])
    case OtherCall(ev) => s.(rpc := Rpc.Step(s.rpc, ev))
    case Update => RemoveFinishedTasks(s)
  }

  ghost predicate Running(s: State, no: nat) {
    Id(no) in s.tasks && s.tasks[Id(no)].no == no
  }

  ghost predicate Waiting(s: State, no: nat) {
    exists i :: 0 <= i < |s.queued| && s.queued[i].no == no
  }

  /** Nobody who is still here has the id. */
  ghost predicate IdFree(s: State, id: nat) {
    id !in s.tasks && forall i :: 0 <= i < |s.queued| ==> Id(s.queued[i].no) != id
  }

  /** At most 7 tasks run. The tasks in the queue have not sent anything. */
  ghost predicate JobsInv(s: State) {
    && |s.tasks| <= MAX_RUNNING
    && (forall id :: id in s.tasks ==> s.tasks[id].job.Inv() && !s.tasks[id].job.Queued())
    && (forall i :: 0 <= i < |s.queued| ==> s.queued[i].job.Inv() && s.queued[i].job.Queued())
  }

  /** Every task added so far runs, waits or was removed; it does one of these only, under an id of its own. */
  ghost predicate Placed(s: State) {
    && (forall id :: id in s.tasks ==>
          s.tasks[id].no < s.added && id == Id(s.tasks[id].no) && s.tasks[id].no !in s.removed)
    && (forall i :: 0 <= i < |s.queued| ==> s.queued[i].no < s.added && s.queued[i].no !in s.removed)
    && (forall i :: 0 <= i < |s.queued| ==> Id(s.queued[i].no) !in s.tasks)
    && (forall i, j :: 0 <= i < j < |s.queued| ==> Id(s.queued[i].no) != Id(s.queued[j].no))
    && (forall no :: no in s.removed ==> no < s.added)
    && (forall no: nat {:trigger Running(s, no)} :: no < s.added ==>
          Running(s, no) || Waiting(s, no) || no in s.removed)
  }

  /** The queue is in the order of arrival, and everyone who left it came before everyone who is in it. */
  ghost predicate FirstComeFirstServed(s: State) {
    && (forall i, j :: 0 <= i < j < |s.queued| ==> s.queued[i].no < s.queued[j].no)
    && (forall i, j :: 0 <= i < j < |s.resumed| ==> s.resumed[i] < s.resumed[j])
    && (forall i, j :: 0 <= i < |s.resumed| && 0 <= j < |s.queued| ==> s.resumed[i] < s.queued[j].no)
    && (forall i :: 0 <= i < |s.resumed| ==> s.resumed[i] < s.added)
    && (forall i :: 0 <= i < |s.queued| ==> s.queued[i].no < s.added)
  }

  ghost predicate Inv(s: State) {
    JobsInv(s) && Placed(s) && FirstComeFirstServed(s) && Rpc.Inv(s.rpc)
  }

  lemma BeginKeeps(publish: bool, kns: seq<Entry>, queued: bool)
    ensures var j := Begin(publish, kns, queued);
            j.Inv() && j.Queued() == queued && |Calls(Blank(publish), j)| == j.Outstanding() <= 16
  {
    if publish {
      Announce.StartKeeps(kns, queued);
      PublishFlag(kns, queued);
    } else {
      Lookup.StartKeeps(kns, queued);
      FindFlag(kns, queued);
    }
  }

  lemma PublishFlag(kns: seq<Entry>, queued: bool)
    ensures Announce.Start(Announce.NEW, kns, queued).queued == queued
  {
    Announce.FillTodoKeeps(Announce.NEW, kns);
    if !queued {
      Announce.UpdateKeeps(Announce.FillTodo(Announce.NEW, kns));
    }
  }

  lemma FindFlag(kns: seq<Entry>, queued: bool)
    ensures Lookup.Start(Lookup.NEW, kns, queued).queued == queued
  {
    Lookup.FillTodoKeeps(Lookup.NEW, kns);
    if !queued {
      Lookup.UpdateKeeps(Lookup.FillTodo(Lookup.NEW, kns));
    }
  }

  lemma ResumeKeeps(j: Job)
    requires j.Inv() && j.Queued()
    ensures var r := j.Resume();
            r.Inv() && !r.Queued() && |Calls(j, r)| == r.Outstanding() <= 16
  {
    match j
    case Find(l) =>
      Lookup.UpdateKeeps(l.(queued := false));
    case Publish(a) =>
      Announce.SameTokens(a, a.(queued := false));
      Announce.UpdateKeeps(a.(queued := false));
  }

  lemma ProceedKeeps(j: Job, c: Completion)
    requires j.Inv() && !j.Queued() && Fits(j, c) && j.Outstanding() > 0
    ensures Proceed(j, c).Inv() && !Proceed(j, c).Queued()
  {
    match j
    case Find(l) => Lookup.StepKeeps(l, c.ourId, c.ev); FindNotQueued(l, c.ourId, c.ev);
    case Publish(a) => Announce.StepKeeps(a, c.e); PublishNotQueued(a, c.e);
  }

  lemma FindNotQueued(l: Lookup.Task, ourId: Key, ev: Lookup.Event)
    requires Lookup.Inv(l) && !l.queued && Lookup.IsCompletion(ev) && l.outstanding > 0
    ensures !Lookup.Step(l, ourId, ev).queued
  {
    hide Lookup.Update;
    var t1 := Lookup.OneLess(l);
    if !t1.finished {
      var t2 := if ev.Answer? && ev.findNodeRsp then Lookup.LearnAll(t1, ourId, ev.es) else t1;
      if ev.Answer? {
        Lookup.LearnAllKeeps(t1, ourId, ev.es);
      }
      Lookup.UpdateKeeps(t2);
    }
  }

  lemma PublishNotQueued(a: Announce.Task, e: Announce.Event)
    requires Announce.Inv(a) && !a.queued && Announce.IsCompletion(e) && a.outstanding > 0
    ensures !Announce.Step(a, e).queued
  {
    hide Announce.Update;
    if !a.finished {
      var t1 := Announce.OneLess(a);
      Announce.SameTokens(a, t1);
      if e.GotPeers? {
        Announce.HeedKeeps(t1, (e.from, e.token), e.payload);
        Announce.UpdateKeeps(Announce.Heed(t1, (e.from, e.token), e.payload));
      } else {
        Announce.UpdateKeeps(t1);
      }
    }
  }

  lemma KillKeeps(j: Job)
    requires j.Inv()
    ensures j.Kill().Inv() && j.Kill().Queued() == j.Queued() && j.Kill().Finished()
  {
    if j.Publish? {
      Announce.SameTokens(j.announce, j.Kill().announce);
    }
  }

  lemma AddPlaced(s: State, j: Job)
    requires Placed(s) && IdFree(s, Id(s.added))
    ensures Placed(AddTask(s, j))
  {
    var r := AddTask(s, j);
    hide Id;
    forall no: nat | no < r.added
      ensures Running(r, no) || Waiting(r, no) || no in r.removed
    {
      if no == s.added {
        if j.Queued() {
          assert r.queued[|s.queued|].no == no;
        }
      } else {
        assert Running(s, no) || Waiting(s, no) || no in s.removed;
        if Waiting(s, no) {
          var i :| 0 <= i < |s.queued| && s.queued[i].no == no;
          assert r.queued[i].no == no;
        }
      }
    }
  }

  lemma AddJobs(s: State, j: Job)
    requires JobsInv(s) && j.Inv() && IdFree(s, Id(s.added)) && (!j.Queued() ==> |s.tasks| < MAX_RUNNING)
    ensures JobsInv(AddTask(s, j))
  {
    hide Id, Job.Inv, IdFree;
    assert AddTask(s, j).tasks.Keys <= s.tasks.Keys + {Id(s.added)};
  }

  lemma AddInOrder(s: State, j: Job)
    requires FirstComeFirstServed(s)
    ensures FirstComeFirstServed(AddTask(s, j))
  {
  }

  /** A new task starts at once or waits, as canStartTask says, and nothing else changes. */
  lemma LaunchKeeps(s: State, publish: bool, kns: seq<Entry>)
    requires Inv(s) && IdFree(s, Id(s.added))
    ensures Inv(Launch(s, publish, kns))
  {
    hide Placed, JobsInv, FirstComeFirstServed, Rpc.Inv, Begin;
    if kns != [] {
      var j := Begin(publish, kns, !MayStart(s));
      BeginKeeps(publish, kns, !MayStart(s));
      var s1 := s.(rpc := Rpc.SubmitAll(s.rpc, Calls(Blank(publish), j)));
      Rpc.SubmitAllKeeps(s.rpc, Calls(Blank(publish), j));
      OtherRpc(s, s1.rpc);
      AddPlaced(s1, j);
      AddJobs(s1, j);
      AddInOrder(s1, j);
    }
  }

  /** Only the server changes. */
  lemma OtherRpc(s: State, rpc: Rpc.State)
    ensures var s1 := s.(rpc := rpc);
            && (Placed(s) ==> Placed(s1)) && (JobsInv(s) ==> JobsInv(s1))
            && (FirstComeFirstServed(s) ==> FirstComeFirstServed(s1))
  {
    var s1 := s.(rpc := rpc);
    if Placed(s) {
      forall no: nat | no < s.added
        ensures Running(s1, no) || Waiting(s1, no) || no in s1.removed
      {
        assert Running(s, no) || Waiting(s, no) || no in s.removed;
      }
    }
  }

  /** A running task changes its state. */
  lemma ChangeRunning(s: State, id: nat, j: Job)
    requires JobsInv(s) && Placed(s) && FirstComeFirstServed(s) && id in s.tasks && j.Inv() && !j.Queued()
    ensures var s1 := s.(tasks := s.tasks[id := Slot(s.tasks[id].no, j)]);
            JobsInv(s1) && Placed(s1) && FirstComeFirstServed(s1)
  {
    hide Id, Job.Inv, Job.Queued;
    var s1 := s.(tasks := s.tasks[id := Slot(s.tasks[id].no, j)]);
    assert s1.tasks.Keys == s.tasks.Keys;
    forall no: nat | no < s.added
      ensures Running(s1, no) || Waiting(s1, no) || no in s1.removed
    {
      assert Running(s, no) || Waiting(s, no) || no in s.removed;
    }
  }

  /** A waiting task changes its state. */
  lemma ChangeQueued(s: State, i: nat, j: Job)
    requires JobsInv(s) && Placed(s) && FirstComeFirstServed(s) && i < |s.queued| && j.Inv() && j.Queued()
    ensures var s1 := s.(queued := s.queued[i := Slot(s.queued[i].no, j)]);
            JobsInv(s1) && Placed(s1) && FirstComeFirstServed(s1)
  {
    hide Id, Job.Inv, Job.Queued;
    var s1 := s.(queued := s.queued[i := Slot(s.queued[i].no, j)]);
    assert forall k :: 0 <= k < |s.queued| ==> s1.queued[k].no == s.queued[k].no;
    forall no: nat | no < s.added
      ensures Running(s1, no) || Waiting(s1, no) || no in s1.removed
    {
      assert Running(s, no) || Waiting(s, no) || no in s.removed;
      if Waiting(s, no) {
        var k :| 0 <= k < |s.queued| && s.queued[k].no == no;
        assert s1.queued[k].no == no;
      }
    }
  }

  lemma SweepPlaced(s: State)
    requires Placed(s)
    ensures Placed(Sweep(s))
  {
    hide Id;
    var r := Sweep(s);
    forall i | 0 <= i < |r.queued|
      ensures r.queued[i].no !in r.removed
    {
      assert Id(s.queued[i].no) !in s.tasks;
    }
    forall no: nat | no < r.added
      ensures Running(r, no) || Waiting(r, no) || no in r.removed
    {
      assert Running(s, no) || Waiting(s, no) || no in s.removed;
      if Running(s, no) && Id(no) in Finished(s) {
        assert s.tasks[Id(no)].no in Numbers(s, Finished(s));
      }
      if Waiting(s, no) {
        var i :| 0 <= i < |s.queued| && s.queued[i].no == no;
        assert r.queued[i].no == no;
      }
    }
  }

  /** Nothing finished is left, and no waiting task has moved. */
  lemma SweepKeeps(s: State)
    requires Inv(s)
    ensures var r := Sweep(s);
            && Inv(r)
            && (forall id :: id in r.tasks <==> id in s.tasks && !s.tasks[id].job.Finished())
            && (forall id :: id in r.tasks ==> r.tasks[id] == s.tasks[id])
            && r == s.(tasks := r.tasks, removed := r.removed)
  {
    SweepPlaced(s);
    var r := Sweep(s);
    assert r.tasks.Keys <= s.tasks.Keys;
    SubsetSize(r.tasks.Keys, s.tasks.Keys);
  }

  lemma ResumePlaced(s: State)
    requires Placed(s) && s.queued != []
    ensures Placed(ResumeFirst(s))
  {
    hide Id;
    var r := ResumeFirst(s);
    forall no: nat | no < r.added
      ensures Running(r, no) || Waiting(r, no) || no in r.removed
    {
      assert Running(s, no) || Waiting(s, no) || no in s.removed;
      if Waiting(s, no) {
        var i :| 0 <= i < |s.queued| && s.queued[i].no == no;
        if i > 0 {
          assert r.queued[i - 1].no == no;
        }
      }
    }
  }

  lemma ResumeInOrder(s: State)
    requires FirstComeFirstServed(s) && s.queued != []
    ensures FirstComeFirstServed(ResumeFirst(s))
  {
  }

  lemma ResumeJobs(s: State)
    requires JobsInv(s) && s.queued != [] && |s.tasks| < MAX_RUNNING
    ensures JobsInv(ResumeFirst(s))
  {
    hide Id, Job.Inv, Job.Resume;
    ResumeKeeps(s.queued[0].job);
    assert ResumeFirst(s).tasks.Keys <= s.tasks.Keys + {Id(s.queued[0].no)};
  }

  lemma ResumeFirstKeeps(s: State)
    requires Inv(s) && s.queued != [] && MayStart(s)
    ensures Inv(ResumeFirst(s))
  {
    hide Placed, JobsInv, FirstComeFirstServed, Rpc.Inv;
    ResumePlaced(s);
    ResumeInOrder(s);
    ResumeJobs(s);
    Rpc.SubmitAllKeeps(s.rpc, Calls(s.queued[0].job, s.queued[0].job.Resume()));
  }

  lemma {:induction false} ResumeSomeKeeps(s: State)
    requires Inv(s)
    ensures var r := ResumeSome(s); Inv(r) && (r.queued == [] || !MayStart(r))
    decreases |s.queued|
  {
    hide Inv, MayStart;
    if MayStart(s) && s.queued != [] {
      ResumeFirstKeeps(s);
      ResumeSomeKeeps(ResumeFirst(s));
    }
  }

  lemma ResumesFirst(s: State)
    requires s.queued != []
    ensures var r := ResumeFirst(s);
            && r.queued == s.queued[1..] && r.resumed == s.resumed + [s.queued[0].no]
            && r.added == s.added && r.removed == s.removed
  {
  }

  lemma FrontNumbers(before: seq<nat>, q: seq<Slot>, k: nat)
    requires k < |q|
    ensures before + NumbersOf(q[..k + 1]) == before + [q[0].no] + NumbersOf(q[1..][..k])
  {
    assert q[..k + 1] == [q[0]] + q[1..][..k];
  }

  function NumbersOf(q: seq<Slot>): (r: seq<nat>)
    ensures |r| == |q| && forall i :: 0 <= i < |q| ==> r[i] == q[i].no
  {
    seq(|q|, i requires 0 <= i < |q| => q[i].no)
  }

  /** Queued tasks are started from the front of the queue: what was started and what still waits together are
      the queue as it was. */
  lemma {:induction false} ResumedFromFront(s: State) returns (k: nat)
    ensures var r := ResumeSome(s);
            && k <= |s.queued| && r.queued == s.queued[k..] && r.resumed == s.resumed + NumbersOf(s.queued[..k])
            && r.added == s.added && r.removed == s.removed && (r.queued == [] || !MayStart(r))
    decreases |s.queued|
  {
    hide MayStart, ResumeFirst, NumbersOf;
    if !MayStart(s) || s.queued == [] {
      k := 0;
      assert s.resumed + NumbersOf(s.queued[..0]) == s.resumed;
    } else {
      ResumesFirst(s);
      var k1 := ResumedFromFront(ResumeFirst(s));
      k := k1 + 1;
      assert s.queued[1..][k1..] == s.queued[k..];
      FrontNumbers(s.resumed, s.queued, k1);
    }
  }

  /** A task that is killed, running or waiting, is finished from then on, and nothing else changes. */
  lemma KillFinishes(s: State, ev: Event)
    requires Legal(s, ev) && (ev.KillRunning? || ev.KillQueued?)
    ensures var r := Step(s, ev);
            match ev
            case KillRunning(id) =>
              && id in r.tasks && r.tasks[id].no == s.tasks[id].no && r.tasks[id].job.Finished()
              && r.tasks[id].job.Outstanding() == s.tasks[id].job.Outstanding()
              && r == s.(tasks := s.tasks[id := r.tasks[id]])
            case KillQueued(i) =>
              && |r.queued| == |s.queued| && r.queued[i].no == s.queued[i].no && r.queued[i].job.Finished()
              && r.queued[i].job.Queued() == s.queued[i].job.Queued()
              && r == s.(queued := s.queued[i := r.queued[i]])
            case _ => true
  {
  }

  /** Every step keeps the invariants, provided a new task is given an id that nobody has. */
  lemma StepKeeps(s: State, ev: Event)
    requires Inv(s) && Legal(s, ev) && (ev.NewTask? ==> IdFree(s, Id(s.added)))
    ensures Inv(Step(s, ev))
  {
    hide Placed, FirstComeFirstServed, Rpc.Inv, Launch, RemoveFinishedTasks;
    match ev
    case NewTask(publish, kns) => LaunchKeeps(s, publish, kns);
    case CallOver(id, call, c) =>
      var j := Proceed(s.tasks[id].job, c);
      ProceedKeeps(s.tasks[id].job, c);
      ChangeRunning(s, id, j);
      Rpc.CompleteKeeps(s.rpc, call, Calls(s.tasks[id].job, j));
      OtherRpc(s.(tasks := s.tasks[id := Slot(s.tasks[id].no, j)]),
               Rpc.Complete(s.rpc, call, Calls(s.tasks[id].job, j)));
    case KillRunning(id) =>
      KillKeeps(s.tasks[id].job);
      ChangeRunning(s, id, s.tasks[id].job.Kill());
    case KillQueued(i) =>
      KillKeeps(s.queued[i].job);
      ChangeQueued(s, i, s.queued[i].job.Kill());
    case OtherCall(e) =>
      Rpc.StepKeeps(s.rpc, e);
      OtherRpc(s, Rpc.Step(s.rpc, e));
    case Update => UpdateKeeps(s);
  }

  lemma UpdateKeeps(s: State)
    requires Inv(s)
    ensures Inv(RemoveFinishedTasks(s))
  {
    hide Inv, Sweep, ResumeSome;
    SweepKeeps(s);
    ResumeSomeKeeps(Sweep(s));
  }

  /** An update takes the finished tasks away, leaves all others that run as they are, and starts tasks from the front
      of the queue, until nobody waits or no more may start. */
  lemma UpdateOutcome(s: State) returns (k: nat)
    requires Inv(s)
    ensures var r := Step(s, Update);
            && (forall id :: id in s.tasks && !s.tasks[id].job.Finished() ==>
                  id in r.tasks && r.tasks[id] == s.tasks[id])
            && (forall id :: id in s.tasks && s.tasks[id].job.Finished() ==> s.tasks[id].no in r.removed)
            && k <= |s.queued| && r.queued == s.queued[k..] && r.resumed == s.resumed + NumbersOf(s.queued[..k])
            && (forall i :: 0 <= i < k ==> Resumed(r, s.queued[i]))
            && (r.queued == [] || !MayStart(r)) && r.added == s.added
  {
    hide Inv, Sweep, ResumeSome, MayStart, Resumed;
    SweepKeeps(s);
    SweptRemoved(s);
    k := ResumedFromFront(Sweep(s));
    ResumeLeaves(Sweep(s));
    ResumesAll(Sweep(s), k);
  }

  /** The task runs under its id as it was started from the queue. */
  ghost predicate Resumed(r: State, t: Slot) {
    Id(t.no) in r.tasks && r.tasks[Id(t.no)] == Slot(t.no, t.job.Resume())
  }

  lemma SweptRemoved(s: State)
    ensures forall id :: id in s.tasks && s.tasks[id].job.Finished() ==> s.tasks[id].no in Sweep(s).removed
  {
    forall id | id in s.tasks && s.tasks[id].job.Finished()
      ensures s.tasks[id].no in Numbers(s, Finished(s))
    {
      assert id in Finished(s);
    }
  }

  lemma {:induction false} ResumeLeaves(s: State)
    requires Inv(s)
    ensures var r := ResumeSome(s); forall id :: id in s.tasks ==> id in r.tasks && r.tasks[id] == s.tasks[id]
    decreases |s.queued|
  {
    hide Inv, MayStart;
    if MayStart(s) && s.queued != [] {
      ResumeFirstKeeps(s);
      ResumeLeaves(ResumeFirst(s));
      assert Id(s.queued[0].no) !in s.tasks by { QueuedNotRunning(s); }
    }
  }

  lemma QueuedNotRunning(s: State)
    requires Inv(s) && s.queued != []
    ensures Id(s.queued[0].no) !in s.tasks
  {
    hide JobsInv, FirstComeFirstServed, Rpc.Inv;
  }

  lemma {:induction false} ResumesAll(s: State, k: nat)
    requires Inv(s) && k <= |s.queued| && ResumeSome(s).queued == s.queued[k..]
    ensures forall i :: 0 <= i < k ==> Resumed(ResumeSome(s), s.queued[i])
    decreases |s.queued|
  {
    hide Inv, MayStart, ResumeFirst;
    if !MayStart(s) || s.queued == [] {
      assert |s.queued[k..]| == |s.queued| - k;
    } else {
      var m := ResumeFirst(s);
      ResumeFirstKeeps(s);
      FirstStarted(s);
      ResumeLeaves(m);
      if k > 0 {
        assert s.queued[1..][k - 1..] == s.queued[k..];
        ResumesAll(m, k - 1);
        forall i | 0 < i < k
          ensures Resumed(ResumeSome(s), s.queued[i])
        {
          assert m.queued[i - 1] == s.queued[i];
        }
      }
    }
  }

  lemma FirstStarted(s: State)
    requires s.queued != []
    ensures var m := ResumeFirst(s);
            m.queued == s.queued[1..] && Resumed(m, s.queued[0])
  {
  }

  /** A run from the empty manager. */
  ghost predicate Reaches(states: seq<State>, evs: seq<Event>) {
    && |states| == |evs| + 1 && states[0] == EMPTY
    && forall i :: 0 <= i < |evs| ==> Legal(states[i], evs[i]) && states[i + 1] == Step(states[i], evs[i])
  }

  /** In a run new tasks get ids that nobody has. */
  ghost predicate IdsFree(states: seq<State>, evs: seq<Event>)
    requires |states| == |evs| + 1
  {
    forall i :: 0 <= i < |evs| && evs[i].NewTask? ==> IdFree(states[i], Id(states[i].added))
  }

  /** Over every run in which new tasks get free ids: at most 7 tasks run, every task ever added is in exactly one
      place under its own id, and queued tasks are started in the order they were queued. */
  lemma {:induction false} RunKeepsGiven(states: seq<State>, evs: seq<Event>)
    requires Reaches(states, evs) && IdsFree(states, evs)
    ensures Inv(states[|evs|])
    decreases |evs|
  {
    hide Inv, Step, Legal;
    var n := |evs|;
    if n == 0 {
      EmptyInv();
    } else {
      RunKeepsGiven(states[..n], evs[..n - 1]);
      assert states[..n][n - 1] == states[n - 1];
      StepKeeps(states[n - 1], evs[n - 1]);
    }
  }

  function NewTasks(evs: seq<Event>): nat {
    if evs == [] then 0
    else NewTasks(evs[..|evs| - 1]) + (if evs[|evs| - 1].NewTask? then 1 else 0)
  }

  /** The same over every run with fewer than 2^32 new tasks; the next id is then free too. */
  lemma {:induction false} RunKeeps(states: seq<State>, evs: seq<Event>)
    requires Reaches(states, evs) && NewTasks(evs) < UINT32
    ensures Inv(states[|evs|]) && states[|evs|].added <= NewTasks(evs)
    decreases |evs|
  {
    hide Inv, Step, Legal, Id, IdFree;
    var n := |evs|;
    if n == 0 {
      EmptyInv();
    } else {
      RunKeeps(states[..n], evs[..n - 1]);
      assert states[..n][n - 1] == states[n - 1];
      FreeUntilWrap(states[n - 1]);
      StepKeeps(states[n - 1], evs[n - 1]);
      StepAdds(states[n - 1], evs[n - 1]);
    }
  }

  lemma StepAdds(s: State, ev: Event)
    requires Legal(s, ev)
    ensures Step(s, ev).added <= s.added + (if ev.NewTask? then 1 else 0)
  {
    hide ResumeSome;
    if ev.Update? {
      var k := ResumedFromFront(Sweep(s));
    }
  }

  lemma EmptyInv()
    ensures Inv(EMPTY)
  {
    hide Rpc.Inv, Placed, JobsInv, FirstComeFirstServed;
    EmptyParts();
    Rpc.RunKeeps([]);
  }

  lemma EmptyParts()
    ensures Placed(EMPTY) && JobsInv(EMPTY) && FirstComeFirstServed(EMPTY) && Rpc.Run(Rpc.EMPTY, []) == Rpc.EMPTY
  {
  }

  /** The ids are free as long as fewer than 2^32 tasks have been added. */
  lemma FreeUntilWrap(s: State)
    requires Inv(s) && s.added < UINT32
    ensures IdFree(s, Id(s.added))
  {
    hide JobsInv, FirstComeFirstServed, Rpc.Inv;
  }

  /** A task that may start is running afterwards, and its whole first batch of at most 16 requests is on the
      way: no call waits for an id. */
  lemma StartsWithWholeBatch(s: State, publish: bool, kns: seq<Entry>)
    requires Inv(s) && kns != [] && IdFree(s, Id(s.added))
    ensures var r := Step(s, NewTask(publish, kns));
            && r.added == s.added + 1
            && if MayStart(s) then
              && Running(r, s.added) && r.queued == s.queued
              && r.tasks[Id(s.added)].job == Begin(publish, kns, false)
              && var n := r.tasks[Id(s.added)].job.Outstanding();
                 && n <= 16
                 && |r.rpc.sent| == |s.rpc.sent| + n && |r.rpc.active| == |s.rpc.active| + n
                 && (n > 0 ==> r.rpc.queue == [])
            else
              && r.tasks == s.tasks && r.rpc == s.rpc
              && r.queued == s.queued + [Slot(s.added, Begin(publish, kns, true))]
  {
    hide Begin, Placed, JobsInv, FirstComeFirstServed;
    var j := Begin(publish, kns, !MayStart(s));
    BeginKeeps(publish, kns, !MayStart(s));
    if MayStart(s) {
      Rpc.BatchFits(s.rpc, Calls(Blank(publish), j));
    } else {
      QueuedIsSilent(publish, kns);
      assert Calls(Blank(publish), j) == [];
    }
  }

  lemma QueuedIsSilent(publish: bool, kns: seq<Entry>)
    ensures Begin(publish, kns, true).Outstanding() == 0
  {
    Lookup.FillTodoKeeps(Lookup.NEW, kns);
    Announce.FillTodoKeeps(Announce.NEW, kns);
  }

  /** The same for a task that is taken from the queue. */
  lemma ResumesWithWholeBatch(s: State)
    requires Inv(s) && s.queued != [] && MayStart(s)
    ensures var r := ResumeFirst(s);
            && Running(r, s.queued[0].no)
            && var n := r.tasks[Id(s.queued[0].no)].job.Outstanding();
               && n <= 16
               && |r.rpc.sent| == |s.rpc.sent| + n && |r.rpc.active| == |s.rpc.active| + n
               && (n > 0 ==> r.rpc.queue == [])
  {
    hide Placed, FirstComeFirstServed;
    var j := s.queued[0].job;
    ResumeKeeps(j);
    Rpc.BatchFits(s.rpc, Calls(j, j.Resume()));
  }
}

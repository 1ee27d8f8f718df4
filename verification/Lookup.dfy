/** The iterative find_node task and the skeleton it shares with the announce task (task.cpp, nodelookup.cpp). */
module Lookup {
  import opened Bytes
  import opened Keys
  import opened Entries
  import opened StdMap
  import opened Worklist

  /** The most nodes a lookup can ask: the limit and one last batch. */
  const MAX_VISITED: nat := 216

  /** The fields of the task. The set of visited nodes is ordered by id only, so it is the set of their ids. */
  datatype Task = Task(
    todo: seq<(nat, Entry)>,
    visited: set<nat>,
    outstanding: nat,
    finished: bool,
    queued: bool,
    sent: seq<Entry>)

  const NEW := Task([], {}, 0, false, false, [])

  function Ask(t: Task): Task
    requires t.todo != []
  {
    var (id, e) := t.todo[0];
    var t1 := if id in t.visited then t
              else t.(outstanding := t.outstanding + 1, visited := t.visited + {id}, sent := t.sent + [e]);
    t1.(todo := t.todo[1..])
  }

  /** The loop of NodeLookup::update. */
  function Drain(t: Task): Task
    decreases |t.todo|
  {
    if t.todo == [] || t.outstanding >= MAX_CONCURRENT_REQS then t else Drain(Ask(t))
  }

  /** NodeLookup::update. */
  function Update(t: Task): Task {
    var d := Drain(t);
    if (d.todo == [] && d.outstanding == 0 && !d.finished) || |d.visited| > VISIT_LIMIT
    then d.(finished := true) else d
  }

  function Learn(t: Task, ourId: Key, e: Entry): Task {
    if e.id != ourId && !Has(t.todo, IdNo(e)) && IdNo(e) !in t.visited
    then t.(todo := Insert(t.todo, IdNo(e), e)) else t
  }

  function LearnAll(t: Task, ourId: Key, es: seq<Entry>): Task {
    if es == [] then t else Learn(LearnAll(t, ourId, es[..|es| - 1]), ourId, es[|es| - 1])
  }

  /** Task::start with the result of a search for the closest nodes. */
  function Start(t: Task, kns: seq<Entry>, queued: bool): Task {
    var t1 := FillTodo(t, kns).(queued := queued);
    if queued then t1 else Update(t1)
  }

  function FillTodo(t: Task, kns: seq<Entry>): Task {
    t.(todo := Fill(t.todo, kns))
  }

  /** Task::start for a task that was queued. */
  function Resume(t: Task): Task {
    if t.queued then Update(t.(queued := false)) else t
  }

  function OneLess(t: Task): Task {
    if t.outstanding > 0 then t.(outstanding := t.outstanding - 1) else t
  }

  /** Task::onResponse; findNodeRsp says whether the message is a find_node response. */
  function Reply(t: Task, ourId: Key, findNodeRsp: bool, es: seq<Entry>): Task {
    var t1 := OneLess(t);
    if t1.finished then t1
    else
      var t2 := if findNodeRsp then LearnAll(t1, ourId, es) else t1;
      if t2.outstanding < MAX_CONCURRENT_REQS then Update(t2) else t2
  }

  /** Task::onTimeout. */
  function Expire(t: Task): Task {
    var t1 := OneLess(t);
    if t1.finished then t1
    else if t1.outstanding < MAX_CONCURRENT_REQS then Update(t1) else t1
  }

  function Kill(t: Task): Task {
    t.(finished := true)
  }

  datatype Event =
    | Answer(findNodeRsp: bool, es: seq<Entry>)
    | NoAnswer
    | Killed
    | Resumed

  predicate IsCompletion(e: Event) {
    e.Answer? || e.NoAnswer?
  }

  function Step(t: Task, ourId: Key, e: Event): Task {
    match e
    case Answer(ok, es) => Reply(t, ourId, ok, es)
    case NoAnswer => Expire(t)
    case Killed => Kill(t)
    case Resumed => Resume(t)
  }

  function Run(t: Task, ourId: Key, es: seq<Event>): Task
    decreases |es|
  {
    if es == [] then t else Step(Run(t, ourId, es[..|es| - 1]), ourId, es[|es| - 1])
  }

  /** Answers and timeouts come for requests that are outstanding, and only for those. */
  ghost predicate Legal(t: Task, ourId: Key, es: seq<Event>)
    decreases |es|
  {
    es != [] ==>
      && Legal(t, ourId, es[..|es| - 1])
      && (IsCompletion(es[|es| - 1]) ==> Run(t, ourId, es[..|es| - 1]).outstanding > 0)
  }

  function Completions(es: seq<Event>): nat {
    if es == [] then 0 else Completions(es[..|es| - 1]) + (if IsCompletion(es[|es| - 1]) then 1 else 0)
  }

  /** No node is asked twice, and the nodes asked are the visited ones. */
  ghost predicate AskedOnce(t: Task) {
    && (forall i :: 0 <= i < |t.sent| ==> IdNo(t.sent[i]) in t.visited)
    && (forall i, j :: 0 <= i < j < |t.sent| ==> t.sent[i].id != t.sent[j].id)
    && |t.visited| == |t.sent|
  }

  ghost predicate Shape(t: Task) {
    TodoFiled(t.todo) && AskedOnce(t) && t.outstanding <= MAX_CONCURRENT_REQS && t.outstanding <= |t.sent|
  }

  /** A task that is running and not finished is waiting for an answer, and if it has nodes left to ask, it is
      waiting for as many answers as it may. */
  ghost predicate NotStuck(t: Task) {
    !t.finished && !t.queued ==>
      && t.outstanding > 0
      && (t.todo != [] ==> t.outstanding == MAX_CONCURRENT_REQS)
      && |t.sent| <= VISIT_LIMIT
  }

  ghost predicate Inv(t: Task) {
    && Shape(t)
    && NotStuck(t)
    && |t.sent| <= MAX_VISITED
    && (t.queued ==> t.sent == [] && t.outstanding == 0)
  }

  lemma AskKeeps(t: Task)
    requires Shape(t) && t.todo != [] && t.outstanding < MAX_CONCURRENT_REQS
    ensures var r := Ask(t);
            && Shape(r)
            && |r.sent| - |t.sent| == r.outstanding - t.outstanding >= 0
            && t.sent <= r.sent
            && r.finished == t.finished && r.queued == t.queued
  {
    var (id, e) := t.todo[0];
    DropFirst(t.todo);
    if id !in t.visited {
      forall i | 0 <= i < |t.sent|
        ensures t.sent[i].id != e.id
      {
        assert IdNo(t.sent[i]) in t.visited;
      }
    }
  }

  /** The loop of update stops only when there is nobody left to ask or no slot left, and every request it
      sends is outstanding afterwards. */
  lemma {:induction false} DrainKeeps(t: Task)
    requires Shape(t)
    ensures var r := Drain(t);
            && Shape(r)
            && (r.todo == [] || r.outstanding == MAX_CONCURRENT_REQS)
            && |r.sent| - |t.sent| == r.outstanding - t.outstanding >= 0
            && t.sent <= r.sent
            && r.finished == t.finished && r.queued == t.queued
    decreases |t.todo|
  {
    if t.todo != [] && t.outstanding < MAX_CONCURRENT_REQS {
      AskKeeps(t);
      DrainKeeps(Ask(t));
    }
  }

  lemma UpdateKeeps(t: Task)
    requires Shape(t) && !t.queued && |t.sent| <= VISIT_LIMIT
    ensures var r := Update(t);
            && Inv(r)
            && |r.sent| - |t.sent| == r.outstanding - t.outstanding >= 0
            && t.sent <= r.sent
            && (t.finished ==> r.finished) && !r.queued
            && (r.finished && !t.finished ==> Exhausted(r) || |r.sent| > VISIT_LIMIT)
            && r.visited + KeySet(r.todo) == t.visited + KeySet(t.todo)
  {
    DrainKeeps(t);
    DrainForgetsNothing(t);
  }

  /** Nobody is left to ask and nobody owes an answer. */
  predicate Exhausted(t: Task) {
    t.todo == [] && t.outstanding == 0
  }

  lemma {:induction false} DrainForgetsNothing(t: Task)
    requires Shape(t)
    ensures Drain(t).visited + KeySet(Drain(t).todo) == t.visited + KeySet(t.todo)
    decreases |t.todo|
  {
    if t.todo != [] && t.outstanding < MAX_CONCURRENT_REQS {
      AskKeeps(t);
      DropFirst(t.todo);
      DrainForgetsNothing(Ask(t));
    }
  }

  lemma LearnKeeps(t: Task, ourId: Key, e: Entry)
    requires Shape(t)
    ensures var r := Learn(t, ourId, e); Shape(r) && r == t.(todo := r.todo)
  {
    FileKeeps(t, e);
  }

  lemma FileKeeps(t: Task, e: Entry)
    requires Shape(t)
    ensures Shape(t.(todo := Insert(t.todo, IdNo(e), e)))
  {
    InsertFiled(t.todo, e);
  }

  lemma {:induction false} LearnAllKeeps(t: Task, ourId: Key, es: seq<Entry>)
    requires Shape(t)
    ensures var r := LearnAll(t, ourId, es); Shape(r) && r == t.(todo := r.todo)
  {
    if es != [] {
      LearnAllKeeps(t, ourId, es[..|es| - 1]);
      LearnKeeps(LearnAll(t, ourId, es[..|es| - 1]), ourId, es[|es| - 1]);
    }
  }

  lemma FillTodoKeeps(t: Task, kns: seq<Entry>)
    requires Shape(t)
    ensures var r := FillTodo(t, kns); Shape(r) && r == t.(todo := r.todo)
  {
    FillFiled(t.todo, kns);
  }

  /** A started task has its invariants, and what it has sent is outstanding. */
  lemma StartKeeps(kns: seq<Entry>, queued: bool)
    ensures var r := Start(NEW, kns, queued); Inv(r) && |r.sent| == r.outstanding
  {
    FillTodoKeeps(NEW, kns);
    if !queued {
      UpdateKeeps(FillTodo(NEW, kns));
    }
  }

  /** What 2 * (216 - visited) + outstanding counts. */
  function Measure(t: Task): int {
    2 * (MAX_VISITED - |t.sent|) + t.outstanding
  }

  /** Every answer and every timeout of an outstanding request makes the measure smaller and keeps the
      invariants; it releases one request and sends the rest of the difference. */
  lemma StepKeeps(t: Task, ourId: Key, e: Event)
    requires Inv(t) && (IsCompletion(e) ==> t.outstanding > 0)
    ensures var r := Step(t, ourId, e);
            && Inv(r) && t.sent <= r.sent
            && (t.finished ==> r.finished)
            && (IsCompletion(e) ==> Measure(r) < Measure(t))
            && r.outstanding - t.outstanding == |r.sent| - |t.sent| - (if IsCompletion(e) then 1 else 0)
  {
    match e
    case Answer(ok, es) =>
      var t1 := OneLess(t);
      if !t1.finished {
        LearnAllKeeps(t1, ourId, es);
        UpdateKeeps(if ok then LearnAll(t1, ourId, es) else t1);
      }
    case NoAnswer =>
      if !t.finished {
        UpdateKeeps(OneLess(t));
      }
    case Killed =>
    case Resumed =>
      if t.queued {
        UpdateKeeps(t.(queued := false));
      }
  }

  /** Over every run: every request is answered, timed out or outstanding; so at most 216 requests are sent and
      at most 216 completions are handled, in whatever order they come. */
  lemma {:induction false} RunKeeps(kns: seq<Entry>, queued: bool, ourId: Key, es: seq<Event>)
    requires Legal(Start(NEW, kns, queued), ourId, es)
    ensures var r := Run(Start(NEW, kns, queued), ourId, es);
            && Inv(r)
            && Completions(es) + r.outstanding == |r.sent|
            && Completions(es) <= MAX_VISITED
  {
    if es == [] {
      StartKeeps(kns, queued);
    } else {
      var front := es[..|es| - 1];
      RunKeeps(kns, queued, ourId, front);
      StepKeeps(Run(Start(NEW, kns, queued), ourId, front), ourId, es[|es| - 1]);
    }
  }

  /** No run gets stuck: when every request has been answered or timed out, a task that was resumed or never
      queued is finished. */
  lemma QuietMeansFinished(kns: seq<Entry>, queued: bool, ourId: Key, es: seq<Event>)
    requires Legal(Start(NEW, kns, queued), ourId, es)
    requires var r := Run(Start(NEW, kns, queued), ourId, es); r.outstanding == 0 && !r.queued
    ensures Run(Start(NEW, kns, queued), ourId, es).finished
  {
    RunKeeps(kns, queued, ourId, es);
  }

  /** A task killed while it is queued still sends its first batch when it is resumed, and nothing after that:
      the answers are counted and otherwise ignored. */
  lemma KilledBeforeStart(kns: seq<Entry>, ourId: Key, es: seq<Event>)
    ensures var k := Kill(Start(NEW, kns, true));
            var r := Resume(k);
            && r.finished && r.sent == Drain(FillTodo(NEW, kns)).sent
            && (r.sent == [] <==> kns == [])
            && Run(r, ourId, es).sent == r.sent && Run(r, ourId, es).finished
  {
    WaitingSends(kns);
    var k := Kill(Start(NEW, kns, true));
    FillTodoKeeps(NEW, kns);
    DrainIgnoresFlags(FillTodo(NEW, kns), true);
    assert k.(queued := false) == FillTodo(NEW, kns).(finished := true);
    assert Shape(FillTodo(NEW, kns).(finished := true));
    UpdateKeeps(k.(queued := false));
    FinishedIsSilent(Resume(k), ourId, es);
  }

  /** The worklist of a new task holds somebody exactly if the search found somebody. */
  lemma WaitingSends(kns: seq<Entry>)
    ensures var t := FillTodo(NEW, kns);
            && (t.todo == [] <==> kns == [])
            && (Drain(t).sent == [] <==> kns == [])
  {
    var t := FillTodo(NEW, kns);
    FillTodoKeeps(NEW, kns);
    if kns != [] {
      var before, e := FillTodo(NEW, kns[..|kns| - 1]), kns[|kns| - 1];
      FillTodoKeeps(NEW, kns[..|kns| - 1]);
      InsertInto(before.todo, IdNo(e), e);
      FirstIsAsked(t);
    }
  }

  lemma FirstIsAsked(t: Task)
    requires Shape(t) && t.todo != [] && t.sent == [] && t.outstanding == 0
    ensures Drain(t).sent != []
  {
    hide Drain;
    DrainKeeps(t);
    DrainForgetsNothing(t);
    assert t.todo[0].0 in KeySet(t.todo);
  }

  /** A finished task sends nothing more, whatever happens, exactly if it is not waiting to be started or has nobody
      on its worklist. */
  lemma FinishedSilentExact(t: Task, ourId: Key)
    requires Inv(t) && t.finished
    ensures (forall es: seq<Event> :: Run(t, ourId, es).sent == t.sent) <==> !t.queued || t.todo == []
  {
    if t.queued && t.todo != [] {
      var u := t.(queued := false);
      assert Run(t, ourId, [Resumed]) == Step(t, ourId, Resumed) by {
        assert Run(t, ourId, [Resumed][..0]) == t;
      }
      FirstIsAsked(u);
      assert Run(t, ourId, [Resumed]).sent != t.sent;
    } else {
      forall es: seq<Event>
        ensures Run(t, ourId, es).sent == t.sent
      {
        FinishedOrEmptyIsSilent(t, ourId, es);
      }
    }
  }

  lemma {:induction false} FinishedOrEmptyIsSilent(t: Task, ourId: Key, es: seq<Event>)
    requires t.finished && (t.queued ==> t.todo == [])
    ensures var r := Run(t, ourId, es); r.finished && (r.queued ==> r.todo == []) && r.sent == t.sent
  {
    if es != [] {
      FinishedOrEmptyIsSilent(t, ourId, es[..|es| - 1]);
    }
  }

  lemma {:induction false} DrainIgnoresFlags(t: Task, fin: bool)
    ensures Drain(t.(finished := fin)) == Drain(t).(finished := fin)
    decreases |t.todo|
  {
    if t.todo != [] && t.outstanding < MAX_CONCURRENT_REQS {
      DrainIgnoresFlags(Ask(t), fin);
      assert Ask(t.(finished := fin)) == Ask(t).(finished := fin);
    }
  }

  /** A finished task that is not queued sends nothing more. */
  lemma {:induction false} FinishedIsSilent(t: Task, ourId: Key, es: seq<Event>)
    requires t.finished && !t.queued
    ensures var r := Run(t, ourId, es); r.finished && !r.queued && r.sent == t.sent
  {
    if es != [] {
      FinishedIsSilent(t, ourId, es[..|es| - 1]);
    }
  }

  function Ids(es: seq<Entry>): set<nat> {
    set i | 0 <= i < |es| :: IdNo(es[i])
  }

  /** The ids a task has heard of: its start nodes, and the nodes in find_node responses it was still
      interested in, without our own. */
  function Heard(kns: seq<Entry>, queued: bool, ourId: Key, es: seq<Event>): set<nat> {
    if es == [] then Ids(kns)
    else
      var e := es[|es| - 1];
      var before := Heard(kns, queued, ourId, es[..|es| - 1]);
      if e.Answer? && e.findNodeRsp && !Run(Start(NEW, kns, queued), ourId, es[..|es| - 1]).finished
      then before + (Ids(e.es) - {Val(ourId)}) else before
  }

  function Known(t: Task): set<nat> {
    t.visited + KeySet(t.todo)
  }

  lemma IdsSnoc(es: seq<Entry>)
    requires es != []
    ensures Ids(es) == Ids(es[..|es| - 1]) + {IdNo(es[|es| - 1])}
  {
    var front := es[..|es| - 1];
    forall x | x in Ids(es)
      ensures x in Ids(front) + {IdNo(es[|es| - 1])}
    {
      var i :| 0 <= i < |es| && IdNo(es[i]) == x;
      if i < |front| {
        assert front[i] == es[i];
      }
    }
    forall x | x in Ids(front)
      ensures x in Ids(es)
    {
      var i :| 0 <= i < |front| && IdNo(front[i]) == x;
      assert es[i] == front[i];
    }
    assert IdNo(es[|es| - 1]) in Ids(es);
  }

  lemma {:induction false} LearnAllKnows(t: Task, ourId: Key, es: seq<Entry>)
    requires Shape(t)
    ensures Known(LearnAll(t, ourId, es)) >= Known(t) + (Ids(es) - {Val(ourId)})
  {
    if es != [] {
      var front, e := es[..|es| - 1], es[|es| - 1];
      LearnAllKeeps(t, ourId, front);
      LearnAllKnows(t, ourId, front);
      IdsSnoc(es);
      LearnKnows(LearnAll(t, ourId, front), ourId, e);
    }
  }

  lemma LearnKnows(t: Task, ourId: Key, e: Entry)
    requires Shape(t)
    ensures Known(Learn(t, ourId, e)) >= Known(t) + ({IdNo(e)} - {Val(ourId)})
  {
    InsertKeys(t.todo, IdNo(e), e);
  }

  lemma {:induction false} FillTodoKnows(t: Task, kns: seq<Entry>)
    requires Shape(t)
    ensures Known(FillTodo(t, kns)) >= Ids(kns)
  {
    if kns != [] {
      var front, e := kns[..|kns| - 1], kns[|kns| - 1];
      FillTodoKeeps(t, front);
      FillTodoKnows(t, front);
      IdsSnoc(kns);
      InsertKeys(FillTodo(t, front).todo, IdNo(e), e);
    }
  }

  lemma StepForgetsNothing(t: Task, ourId: Key, e: Event)
    requires Inv(t) && (IsCompletion(e) ==> t.outstanding > 0)
    ensures Known(Step(t, ourId, e)) >= Known(t)
    ensures e.Answer? && e.findNodeRsp && !t.finished ==> Known(Step(t, ourId, e)) >= Ids(e.es) - {Val(ourId)}
  {
    var t1 := OneLess(t);
    match e
    case Answer(ok, es) =>
      if !t.finished {
        LearnAllKeeps(t1, ourId, es);
        LearnAllKnows(t1, ourId, es);
        UpdateKeeps(if ok then LearnAll(t1, ourId, es) else t1);
      }
    case NoAnswer =>
      if !t.finished {
        UpdateKeeps(t1);
      }
    case Killed =>
    case Resumed =>
      if t.queued {
        UpdateKeeps(t.(queued := false));
      }
  }

  ghost predicate NeverKilled(es: seq<Event>) {
    forall i :: 0 <= i < |es| ==> !es[i].Killed?
  }

  lemma {:induction false} RunForgetsNothing(kns: seq<Entry>, queued: bool, ourId: Key, es: seq<Event>)
    requires Legal(Start(NEW, kns, queued), ourId, es)
    ensures Heard(kns, queued, ourId, es) <= Known(Run(Start(NEW, kns, queued), ourId, es))
  {
    if es == [] {
      FillTodoKeeps(NEW, kns);
      FillTodoKnows(NEW, kns);
      if !queued {
        UpdateKeeps(FillTodo(NEW, kns));
      }
    } else {
      RunForgetsNothing(kns, queued, ourId, es[..|es| - 1]);
      RunKeeps(kns, queued, ourId, es[..|es| - 1]);
      StepForgetsNothing(Run(Start(NEW, kns, queued), ourId, es[..|es| - 1]), ourId, es[|es| - 1]);
    }
  }

  lemma {:induction false} FinishReason(kns: seq<Entry>, queued: bool, ourId: Key, es: seq<Event>)
    requires Legal(Start(NEW, kns, queued), ourId, es) && NeverKilled(es)
    ensures var r := Run(Start(NEW, kns, queued), ourId, es);
            r.finished ==> !r.queued && (Exhausted(r) || |r.sent| > VISIT_LIMIT)
  {
    if es == [] {
      FillTodoKeeps(NEW, kns);
      if !queued {
        UpdateKeeps(FillTodo(NEW, kns));
      }
    } else {
      var front, e := es[..|es| - 1], es[|es| - 1];
      var m := Run(Start(NEW, kns, queued), ourId, front);
      FinishReason(kns, queued, ourId, front);
      RunKeeps(kns, queued, ourId, front);
      if !m.finished {
        var t1 := OneLess(m);
        if e.Answer? {
          LearnAllKeeps(t1, ourId, e.es);
          UpdateKeeps(if e.findNodeRsp then LearnAll(t1, ourId, e.es) else t1);
        } else if e.NoAnswer? {
          UpdateKeeps(t1);
        } else if m.queued {
          UpdateKeeps(m.(queued := false));
        }
      }
    }
  }

  /** A lookup that was not killed and was not cut off at the limit has asked every node it heard of, and every
      one of them has answered or timed out. */
  lemma FinishedAskedEverybody(kns: seq<Entry>, queued: bool, ourId: Key, es: seq<Event>)
    requires Legal(Start(NEW, kns, queued), ourId, es) && NeverKilled(es)
    requires var r := Run(Start(NEW, kns, queued), ourId, es); r.finished && |r.sent| <= VISIT_LIMIT
    ensures var r := Run(Start(NEW, kns, queued), ourId, es);
            Heard(kns, queued, ourId, es) <= r.visited && Completions(es) == |r.sent|
  {
    RunForgetsNothing(kns, queued, ourId, es);
    FinishReason(kns, queued, ourId, es);
    RunKeeps(kns, queued, ourId, es);
    assert KeySet(Run(Start(NEW, kns, queued), ourId, es).todo) == {};
  }
}

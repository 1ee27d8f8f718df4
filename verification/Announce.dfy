/** The announce task: get_peers to find nodes, then announce_peer to the nodes that answered (task.cpp,
    announcetask.cpp). */
module Announce {
  import opened Bytes
  import opened Keys
  import opened Entries
  import opened StdMap
  import opened Worklist

  const ANNOUNCE_LIMIT: nat := 50
  const TODO_LIMIT: nat := 100

  /** The limits and one last batch. */
  const MAX_ASKED: nat := 216
  const MAX_ANNOUNCED: nat := 66
  const MAX_REQUESTS: nat := 266

  /** The fields of the task, and records of what it asked, announced, was answered and handed out. */
  datatype Task = Task(
    todo: seq<(nat, Entry)>,
    visited: set<nat>,
    answered: seq<(nat, (Entry, Key))>,
    answeredVisited: set<nat>,
    outstanding: nat,
    finished: bool,
    queued: bool,
    asked: seq<Entry>,
    announced: seq<(Entry, Key)>,
    replies: seq<(Entry, Key)>,
    stored: seq<Item>,
    returned: seq<Item>,
    taken: seq<Item>)

  const NEW := Task([], {}, [], {}, 0, false, false, [], [], [], [], [], [])

  function AnnounceFirst(t: Task): Task
    requires t.answered != []
  {
    var (id, r) := t.answered[0];
    var t1 := if id in t.answeredVisited then t
              else t.(outstanding := t.outstanding + 1, answeredVisited := t.answeredVisited + {id},
                      announced := t.announced + [r]);
    t1.(answered := t.answered[1..])
  }

  function AskFirst(t: Task): Task
    requires t.todo != []
  {
    var (id, e) := t.todo[0];
    var t1 := if id in t.visited then t
              else t.(outstanding := t.outstanding + 1, visited := t.visited + {id}, asked := t.asked + [e]);
    t1.(todo := t.todo[1..])
  }

  /** The two loops of AnnounceTask::update. */
  function DrainAnswered(t: Task): Task
    decreases |t.answered|
  {
    if t.answered == [] || t.outstanding >= MAX_CONCURRENT_REQS then t else DrainAnswered(AnnounceFirst(t))
  }

  function DrainTodo(t: Task): Task
    decreases |t.todo|
  {
    if t.todo == [] || t.outstanding >= MAX_CONCURRENT_REQS then t else DrainTodo(AskFirst(t))
  }

  predicate Exhausted(t: Task) {
    t.todo == [] && t.answered == [] && t.outstanding == 0
  }

  predicate OverLimit(t: Task) {
    |t.answeredVisited| > ANNOUNCE_LIMIT || |t.visited| > VISIT_LIMIT
  }

  /** AnnounceTask::update. */
  function Update(t: Task): Task {
    var d := DrainTodo(DrainAnswered(t));
    if (Exhausted(d) && !d.finished) || OverLimit(d) then d.(finished := true) else d
  }

  function Learn(t: Task, e: Entry): Task {
    if IdNo(e) !in t.visited && |t.todo| < TODO_LIMIT
    then t.(todo := Insert(t.todo, IdNo(e), e)) else t
  }

  function LearnAll(t: Task, es: seq<Entry>): Task {
    if es == [] then t else Learn(LearnAll(t, es[..|es| - 1]), es[|es| - 1])
  }

  /** The payload of a response to a get_peers request: nodes, or else peers. */
  datatype Payload = Nodes(es: seq<Entry>) | Values(items: seq<Item>)

  /** callFinished on a get_peers response. The entry made of its origin and id is remembered with the token. */
  function Heed(t: Task, r: (Entry, Key), p: Payload): Task {
    var t1 := match p
              case Nodes(es) => LearnAll(t, es)
              case Values(items) => t.(stored := t.stored + items, returned := t.returned + items);
    Remember(t1, r)
  }

  function Remember(t: Task, r: (Entry, Key)): Task {
    var t1 := t.(replies := t.replies + [r]);
    if IdNo(r.0) in t1.answeredVisited then t1
    else t1.(answered := Insert(t1.answered, IdNo(r.0), r))
  }

  function FillTodo(t: Task, kns: seq<Entry>): Task {
    t.(todo := Fill(t.todo, kns))
  }

  function Start(t: Task, kns: seq<Entry>, queued: bool): Task {
    var t1 := FillTodo(t, kns).(queued := queued);
    if queued then t1 else Update(t1)
  }

  function Resume(t: Task): Task {
    if t.queued then Update(t.(queued := false)) else t
  }

  function OneLess(t: Task): Task {
    if t.outstanding > 0 then t.(outstanding := t.outstanding - 1) else t
  }

  function Continue(t: Task): Task {
    if t.outstanding < MAX_CONCURRENT_REQS && !t.finished then Update(t) else t
  }

  datatype Event =
    | GotPeers(from: Entry, token: Key, payload: Payload)
    | OtherAnswer
    | NoAnswer
    | Killed
    | Resumed
    | TakeItem

  predicate IsCompletion(e: Event) {
    e.GotPeers? || e.OtherAnswer? || e.NoAnswer?
  }

  function Step(t: Task, e: Event): Task {
    match e
    case GotPeers(from, token, p) =>
      var t1 := OneLess(t);
      if t1.finished then t1 else Continue(Heed(t1, (from, token), p))
    case OtherAnswer => Continue(OneLess(t))
    case NoAnswer => Continue(OneLess(t))
    case Killed => t.(finished := true)
    case Resumed => Resume(t)
    case TakeItem =>
      if t.returned == [] then t else t.(returned := t.returned[1..], taken := t.taken + [t.returned[0]])
  }

  function Run(t: Task, es: seq<Event>): Task
    decreases |es|
  {
    if es == [] then t else Step(Run(t, es[..|es| - 1]), es[|es| - 1])
  }

  /** Answers and timeouts come for requests that are outstanding, and only for those. */
  ghost predicate Legal(t: Task, es: seq<Event>)
    decreases |es|
  {
    es != [] ==>
      && Legal(t, es[..|es| - 1])
      && (IsCompletion(es[|es| - 1]) ==> Run(t, es[..|es| - 1]).outstanding > 0)
  }

  function Completions(es: seq<Event>): nat {
    if es == [] then 0 else Completions(es[..|es| - 1]) + (if IsCompletion(es[|es| - 1]) then 1 else 0)
  }

  function Requests(t: Task): nat {
    |t.asked| + |t.announced|
  }

  /** No node gets a second get_peers, and none a second announce_peer. */
  ghost predicate Once(t: Task) {
    && (forall i :: 0 <= i < |t.asked| ==> IdNo(t.asked[i]) in t.visited)
    && (forall i, j :: 0 <= i < j < |t.asked| ==> t.asked[i].id != t.asked[j].id)
    && |t.visited| == |t.asked|
    && (forall i :: 0 <= i < |t.announced| ==> IdNo(t.announced[i].0) in t.answeredVisited)
    && (forall i, j :: 0 <= i < j < |t.announced| ==> t.announced[i].0.id != t.announced[j].0.id)
    && |t.answeredVisited| == |t.announced|
  }

  ghost predicate Filed(t: Task) {
    && TodoFiled(t.todo)
    && Sorted(t.answered) && (forall i :: 0 <= i < |t.answered| ==> t.answered[i].0 == IdNo(t.answered[i].1.0))
  }

  ghost predicate Shape(t: Task) {
    && Filed(t) && Once(t)
    && t.outstanding <= MAX_CONCURRENT_REQS && t.outstanding <= Requests(t)
  }

  /** r is the first reply from its node. */
  ghost predicate FirstReply(replies: seq<(Entry, Key)>, r: (Entry, Key)) {
    exists k :: 0 <= k < |replies| && replies[k] == r && forall j :: 0 <= j < k ==> replies[j].0.id != r.0.id
  }

  /** Announces go to nodes that answered, with the address and the token of their first answer; and no node
      that answered is forgotten. */
  ghost predicate TokensHonest(t: Task) {
    && (forall i :: 0 <= i < |t.announced| ==> FirstReply(t.replies, t.announced[i]))
    && (forall i :: 0 <= i < |t.answered| ==> FirstReply(t.replies, t.answered[i].1))
    && KeySet(t.answered) !! t.answeredVisited
    && (forall k :: 0 <= k < |t.replies| ==> IdNo(t.replies[k].0) in t.answeredVisited + KeySet(t.answered))
  }

  /** Peers are handed out in the order they came in. */
  ghost predicate ItemsInOrder(t: Task) {
    t.taken + t.returned == t.stored
  }

  ghost predicate NotStuck(t: Task) {
    !t.finished && !t.queued ==>
      && t.outstanding > 0
      && (t.todo != [] || t.answered != [] ==> t.outstanding == MAX_CONCURRENT_REQS)
      && |t.asked| <= VISIT_LIMIT && |t.announced| <= ANNOUNCE_LIMIT
  }

  ghost predicate Bounded(t: Task) {
    |t.asked| <= MAX_ASKED && |t.announced| <= MAX_ANNOUNCED && Requests(t) <= MAX_REQUESTS
  }

  ghost predicate Inv(t: Task) {
    && Shape(t) && NotStuck(t) && Bounded(t)
    && TokensHonest(t) && ItemsInOrder(t)
    && (t.queued ==> t.asked == [] && t.announced == [] && t.outstanding == 0 && t.answered == [])
  }

  /** What sending requests changes and what it leaves alone. */
  ghost predicate Sends(t: Task, r: Task) {
    && Requests(r) - Requests(t) == r.outstanding - t.outstanding >= 0
    && t.asked <= r.asked && t.announced <= r.announced
    && r.finished == t.finished && r.queued == t.queued
    && r.replies == t.replies && r.stored == t.stored && r.returned == t.returned && r.taken == t.taken
  }

  lemma AnnounceFirstKeeps(t: Task)
    requires Shape(t) && t.answered != [] && t.outstanding < MAX_CONCURRENT_REQS
    ensures var r := AnnounceFirst(t); Shape(r) && Sends(t, r) && r.todo == t.todo && r.asked == t.asked
  {
    var (id, r) := t.answered[0];
    DropFirst(t.answered);
    if id !in t.answeredVisited {
      forall i | 0 <= i < |t.announced|
        ensures t.announced[i].0.id != r.0.id
      {
        assert IdNo(t.announced[i].0) in t.answeredVisited;
      }
    }
  }

  lemma AnnounceFirstHonest(t: Task)
    requires Shape(t) && TokensHonest(t) && t.answered != []
    ensures TokensHonest(AnnounceFirst(t))
  {
    DropFirst(t.answered);
  }

  lemma AskFirstKeeps(t: Task)
    requires Shape(t) && t.todo != [] && t.outstanding < MAX_CONCURRENT_REQS
    ensures var r := AskFirst(t);
            Shape(r) && Sends(t, r) && r.answered == t.answered && r.answeredVisited == t.answeredVisited
            && r.announced == t.announced
  {
    var (id, e) := t.todo[0];
    DropFirst(t.todo);
    if id !in t.visited {
      forall i | 0 <= i < |t.asked|
        ensures t.asked[i].id != e.id
      {
        assert IdNo(t.asked[i]) in t.visited;
      }
    }
  }

  lemma {:induction false} DrainAnsweredKeeps(t: Task)
    requires Shape(t) && TokensHonest(t)
    ensures var r := DrainAnswered(t);
            && Shape(r) && TokensHonest(r) && Sends(t, r) && r.asked == t.asked && r.todo == t.todo
            && (r.answered == [] || r.outstanding == MAX_CONCURRENT_REQS)
    decreases |t.answered|
  {
    if t.answered != [] && t.outstanding < MAX_CONCURRENT_REQS {
      AnnounceFirstKeeps(t);
      AnnounceFirstHonest(t);
      DrainAnsweredKeeps(AnnounceFirst(t));
    }
  }

  lemma {:induction false} DrainTodoKeeps(t: Task)
    requires Shape(t)
    ensures var r := DrainTodo(t);
            && Shape(r) && Sends(t, r)
            && r.answered == t.answered && r.answeredVisited == t.answeredVisited && r.announced == t.announced
            && (r.todo == [] || r.outstanding == MAX_CONCURRENT_REQS)
    decreases |t.todo|
  {
    if t.todo != [] && t.outstanding < MAX_CONCURRENT_REQS {
      AskFirstKeeps(t);
      DrainTodoKeeps(AskFirst(t));
    }
  }

  /** Both loops together. */
  lemma DrainKeeps(t: Task)
    requires Shape(t) && TokensHonest(t)
    ensures var d := DrainTodo(DrainAnswered(t));
            && Shape(d) && TokensHonest(d) && Sends(t, d)
            && (d.todo != [] || d.answered != [] ==> d.outstanding == MAX_CONCURRENT_REQS)
  {
    var a := DrainAnswered(t);
    DrainAnsweredKeeps(t);
    DrainTodoKeeps(a);
    SameTokens(a, DrainTodo(a));
  }

  lemma SameTokens(a: Task, d: Task)
    requires TokensHonest(a) && d.announced == a.announced && d.answered == a.answered
    requires d.answeredVisited == a.answeredVisited && d.replies == a.replies
    ensures TokensHonest(d)
  {
  }

  /** One update, from below the limits: at most 16 more requests, and no way to get stuck. */
  lemma UpdateKeeps(t: Task)
    requires Shape(t) && TokensHonest(t) && ItemsInOrder(t) && !t.queued
    requires |t.asked| <= VISIT_LIMIT && |t.announced| <= ANNOUNCE_LIMIT
    ensures Inv(Update(t)) && Sends(t.(finished := Update(t).finished), Update(t))
    ensures t.finished ==> Update(t).finished
    ensures Update(t).finished && !t.finished ==> Exhausted(Update(t)) || OverLimit(Update(t))
  {
    DrainKeeps(t);
    SameTokens(DrainTodo(DrainAnswered(t)), Update(t));
  }

  lemma FileKeeps(t: Task, e: Entry)
    requires Shape(t)
    ensures Shape(t.(todo := Insert(t.todo, IdNo(e), e)))
  {
    InsertFiled(t.todo, e);
  }

  lemma {:induction false} LearnAllKeeps(t: Task, es: seq<Entry>)
    requires Shape(t)
    ensures var r := LearnAll(t, es);
            Shape(r) && r == t.(todo := r.todo) && (|t.todo| <= TODO_LIMIT ==> |r.todo| <= TODO_LIMIT)
  {
    if es != [] {
      var m, e := LearnAll(t, es[..|es| - 1]), es[|es| - 1];
      LearnAllKeeps(t, es[..|es| - 1]);
      FileKeeps(m, e);
      InsertKeys(m.todo, IdNo(e), e);
    }
  }

  lemma FillTodoKeeps(t: Task, kns: seq<Entry>)
    requires Shape(t)
    ensures var r := FillTodo(t, kns); Shape(r) && r == t.(todo := r.todo)
  {
    FillFiled(t.todo, kns);
  }

  lemma RememberShape(t: Task, r: (Entry, Key))
    requires Shape(t)
    ensures Shape(Remember(t, r))
  {
    var answered := Insert(t.answered, IdNo(r.0), r);
    InsertSorted(t.answered, IdNo(r.0), r);
    forall i | 0 <= i < |answered|
      ensures answered[i].0 == IdNo(answered[i].1.0)
    {
      InsertMembers(t.answered, IdNo(r.0), r, answered[i]);
    }
  }

  /** Remembering the first answer of a node, or a later one of a node that is remembered already. */
  lemma RememberHonest(t: Task, r: (Entry, Key))
    requires Shape(t) && TokensHonest(t)
    ensures TokensHonest(Remember(t, r))
  {
    var t2 := Remember(t, r);
    InsertKeys(t.answered, IdNo(r.0), r);
    forall i | 0 <= i < |t2.announced|
      ensures FirstReply(t2.replies, t2.announced[i])
    {
      FirstReplyStays(t.replies, r, t.announced[i]);
    }
    forall i | 0 <= i < |t2.answered|
      ensures FirstReply(t2.replies, t2.answered[i].1)
    {
      RememberedIsFirst(t, r, t2.answered[i]);
    }
    forall k | 0 <= k < |t2.replies|
      ensures IdNo(t2.replies[k].0) in t2.answeredVisited + KeySet(t2.answered)
    {
      if k < |t.replies| {
        assert t2.replies[k] == t.replies[k];
      }
    }
  }

  lemma RememberedIsFirst(t: Task, r: (Entry, Key), p: (nat, (Entry, Key)))
    requires Shape(t) && TokensHonest(t) && p in Remember(t, r).answered
    ensures FirstReply(t.replies + [r], p.1)
  {
    InsertMembers(t.answered, IdNo(r.0), r, p);
    if p in t.answered {
      FirstReplyStays(t.replies, r, p.1);
    } else {
      NewReplyIsFirst(t, r);
    }
  }

  lemma FirstReplyStays(replies: seq<(Entry, Key)>, r: (Entry, Key), x: (Entry, Key))
    requires FirstReply(replies, x)
    ensures FirstReply(replies + [r], x)
  {
    var k :| 0 <= k < |replies| && replies[k] == x && forall j :: 0 <= j < k ==> replies[j].0.id != x.0.id;
    assert (replies + [r])[k] == x;
  }

  lemma NewReplyIsFirst(t: Task, r: (Entry, Key))
    requires TokensHonest(t) && IdNo(r.0) !in t.answeredVisited + KeySet(t.answered)
    ensures FirstReply(t.replies + [r], r)
  {
    var replies := t.replies + [r];
    assert replies[|t.replies|] == r;
    forall j | 0 <= j < |t.replies|
      ensures replies[j].0.id != r.0.id
    {
      assert IdNo(t.replies[j].0) in t.answeredVisited + KeySet(t.answered);
    }
  }

  lemma HeedKeeps(t: Task, r: (Entry, Key), p: Payload)
    requires Shape(t) && TokensHonest(t) && ItemsInOrder(t)
    ensures var h := Heed(t, r, p);
            && Shape(h) && TokensHonest(h) && ItemsInOrder(h)
            && h.asked == t.asked && h.announced == t.announced && h.outstanding == t.outstanding
            && h.finished == t.finished && h.queued == t.queued && h.replies == t.replies + [r]
  {
    var t1 := match p
              case Nodes(es) => LearnAll(t, es)
              case Values(items) => t.(stored := t.stored + items, returned := t.returned + items);
    if p.Nodes? {
      LearnAllKeeps(t, p.es);
    } else {
      assert t.taken + (t.returned + p.items) == (t.taken + t.returned) + p.items;
    }
    SameTokens(t, t1);
    RememberShape(t1, r);
    RememberHonest(t1, r);
  }

  lemma StartKeeps(kns: seq<Entry>, queued: bool)
    ensures var r := Start(NEW, kns, queued); Inv(r) && Requests(r) == r.outstanding
  {
    hide Update, FillTodo, TokensHonest;
    NewIsHonest();
    FillTodoKeeps(NEW, kns);
    SameTokens(NEW, FillTodo(NEW, kns).(queued := queued));
    if !queued {
      UpdateKeeps(FillTodo(NEW, kns).(queued := queued));
    }
  }

  lemma NewIsHonest()
    ensures Shape(NEW) && TokensHonest(NEW)
  {
  }

  /** What twice the requests still possible plus the outstanding ones count. */
  function Measure(t: Task): int {
    2 * (MAX_REQUESTS - Requests(t)) + t.outstanding
  }

  /** What one event does: it keeps the invariants, says why a task finishes, and every completion of an
      outstanding request makes the measure smaller. */
  ghost predicate GoodStep(t: Task, e: Event, r: Task) {
    && Inv(r)
    && (t.finished ==> r.finished)
    && t.asked <= r.asked && t.announced <= r.announced
    && (r.finished && !t.finished && !e.Killed? ==> !r.queued && (Exhausted(r) || OverLimit(r)))
    && (IsCompletion(e) ==> Measure(r) < Measure(t))
    && r.outstanding - t.outstanding == Requests(r) - Requests(t) - (if IsCompletion(e) then 1 else 0)
  }

  lemma CompletionKeeps(t: Task, e: Event)
    requires Inv(t) && IsCompletion(e) && t.outstanding > 0 && !t.finished && !t.queued
    ensures GoodStep(t, e, Step(t, e))
  {
    var t1 := OneLess(t);
    SameTokens(t, t1);
    if e.GotPeers? {
      HeedKeeps(t1, (e.from, e.token), e.payload);
      UpdateKeeps(Heed(t1, (e.from, e.token), e.payload));
    } else {
      UpdateKeeps(t1);
    }
  }

  lemma StepKeeps(t: Task, e: Event)
    requires Inv(t) && (IsCompletion(e) ==> t.outstanding > 0)
    ensures GoodStep(t, e, Step(t, e))
  {
    hide Inv, GoodStep;
    if IsCompletion(e) && !t.finished {
      NotQueued(t);
      CompletionKeeps(t, e);
    } else if e.Resumed? && t.queued {
      ResumeKeeps(t);
    } else {
      IdleKeeps(t, e);
    }
  }

  lemma NotQueued(t: Task)
    requires Inv(t) && t.outstanding > 0
    ensures !t.queued
  {
  }

  lemma ResumeKeeps(t: Task)
    requires Inv(t) && t.queued
    ensures GoodStep(t, Resumed, Step(t, Resumed))
  {
    hide Update, TokensHonest, Once, Filed, ItemsInOrder;
    SameTokens(t, t.(queued := false));
    ShapeAside(t);
    UpdateKeeps(t.(queued := false));
  }

  /** The queued flag plays no part in the shape of a task. */
  lemma ShapeAside(t: Task)
    requires Shape(t) && ItemsInOrder(t)
    ensures Shape(t.(queued := false)) && ItemsInOrder(t.(queued := false))
  {
  }

  /** Events that send nothing. */
  lemma IdleKeeps(t: Task, e: Event)
    requires Inv(t) && (IsCompletion(e) ==> t.outstanding > 0 && t.finished) && !(e.Resumed? && t.queued)
    ensures GoodStep(t, e, Step(t, e))
  {
    hide TokensHonest, Update;
    SameTokens(t, Step(t, e));
  }

  /** Over every run: every request is answered, timed out or outstanding, no more than 216 get_peers, 66
      announce_peer and 266 requests in all are sent, announces carry the first token their node gave, and
      peers are handed out in the order received. */
  lemma {:induction false} RunKeeps(kns: seq<Entry>, queued: bool, es: seq<Event>)
    requires Legal(Start(NEW, kns, queued), es)
    ensures var r := Run(Start(NEW, kns, queued), es);
            && Inv(r)
            && Completions(es) + r.outstanding == Requests(r)
            && Completions(es) <= MAX_REQUESTS
  {
    if es == [] {
      StartKeeps(kns, queued);
    } else {
      var front := es[..|es| - 1];
      RunKeeps(kns, queued, front);
      StepKeeps(Run(Start(NEW, kns, queued), front), es[|es| - 1]);
    }
  }

  lemma QuietMeansFinished(kns: seq<Entry>, queued: bool, es: seq<Event>)
    requires Legal(Start(NEW, kns, queued), es)
    requires var r := Run(Start(NEW, kns, queued), es); r.outstanding == 0 && !r.queued
    ensures Run(Start(NEW, kns, queued), es).finished
  {
    RunKeeps(kns, queued, es);
  }

  /** Each announce goes to a node whose first answer carried this very token. */
  lemma AnnounceUsesFirstToken(kns: seq<Entry>, queued: bool, es: seq<Event>, i: nat)
    requires Legal(Start(NEW, kns, queued), es) && i < |Run(Start(NEW, kns, queued), es).announced|
    ensures var r := Run(Start(NEW, kns, queued), es);
            exists k :: 0 <= k < |r.replies| && r.replies[k] == r.announced[i]
                        && forall j :: 0 <= j < k ==> r.replies[j].0.id != r.announced[i].0.id
  {
    RunKeeps(kns, queued, es);
    var r := Run(Start(NEW, kns, queued), es);
    assert FirstReply(r.replies, r.announced[i]);
  }

  ghost predicate NeverKilled(es: seq<Event>) {
    forall i :: 0 <= i < |es| ==> !es[i].Killed?
  }

  lemma {:induction false} FinishReason(kns: seq<Entry>, queued: bool, es: seq<Event>)
    requires Legal(Start(NEW, kns, queued), es) && NeverKilled(es)
    ensures var r := Run(Start(NEW, kns, queued), es);
            r.finished ==> !r.queued && (Exhausted(r) || OverLimit(r))
  {
    if es == [] {
      FillTodoKeeps(NEW, kns);
      if !queued {
        UpdateKeeps(FillTodo(NEW, kns));
      }
    } else {
      var front, e := es[..|es| - 1], es[|es| - 1];
      FinishReason(kns, queued, front);
      RunKeeps(kns, queued, front);
      FinishedStays(Run(Start(NEW, kns, queued), front), e);
    }
  }

  lemma FinishedStays(t: Task, e: Event)
    requires Inv(t) && (IsCompletion(e) ==> t.outstanding > 0) && !e.Killed?
    requires t.finished ==> !t.queued && (Exhausted(t) || OverLimit(t))
    ensures var r := Step(t, e); r.finished ==> !r.queued && (Exhausted(r) || OverLimit(r))
  {
    StepKeeps(t, e);
  }

  /** A task that was neither killed nor cut off at a limit has sent an announce to every node that answered it. */
  lemma FinishedAnnouncedToAll(kns: seq<Entry>, queued: bool, es: seq<Event>, k: nat) returns (i: nat)
    requires Legal(Start(NEW, kns, queued), es) && NeverKilled(es)
    requires var r := Run(Start(NEW, kns, queued), es); r.finished && !OverLimit(r) && k < |r.replies|
    ensures var r := Run(Start(NEW, kns, queued), es);
            i < |r.announced| && r.announced[i].0.id == r.replies[k].0.id
  {
    FinishReason(kns, queued, es);
    RunKeeps(kns, queued, es);
    i := AnnouncedToAnswering(Run(Start(NEW, kns, queued), es), k);
  }

  lemma AnnouncedToAnswering(t: Task, k: nat) returns (i: nat)
    requires Inv(t) && t.answered == [] && k < |t.replies|
    ensures i < |t.announced| && t.announced[i].0.id == t.replies[k].0.id
  {
    hide FirstReply;
    assert KeySet(t.answered) == {};
    i := AnnouncedTo(t, IdNo(t.replies[k].0));
    ValInjective(t.announced[i].0.id, t.replies[k].0.id);
  }

  function AnnouncedIds(s: seq<(Entry, Key)>): set<nat> {
    set i | 0 <= i < |s| :: IdNo(s[i].0)
  }

  /** The nodes marked as announced to are those to which an announce was sent. */
  lemma AnnouncedTo(t: Task, id: nat) returns (i: nat)
    requires Shape(t) && id in t.answeredVisited
    ensures i < |t.announced| && IdNo(t.announced[i].0) == id
  {
    hide Filed, IdNo;
    AnnouncedCount(t.announced);
    assert AnnouncedIds(t.announced) <= t.answeredVisited;
    SubsetSize(AnnouncedIds(t.announced), t.answeredVisited);
    assert id in AnnouncedIds(t.announced);
    i :| 0 <= i < |t.announced| && IdNo(t.announced[i].0) == id;
  }

  lemma {:induction false} AnnouncedCount(s: seq<(Entry, Key)>)
    requires forall i, j :: 0 <= i < j < |s| ==> s[i].0.id != s[j].0.id
    ensures |AnnouncedIds(s)| == |s|
  {
    hide IdNo;
    if s == [] {
      assert AnnouncedIds(s) == {};
    } else {
      var n := |s| - 1;
      AnnouncedCount(s[..n]);
      assert AnnouncedIds(s) == AnnouncedIds(s[..n]) + {IdNo(s[n].0)} by {
        assert forall i :: 0 <= i < n ==> s[i] == s[..n][i];
      }
      forall i | 0 <= i < n
        ensures IdNo(s[i].0) != IdNo(s[n].0)
      {
        SameNo(s[i].0, s[n].0);
      }
    }
  }

  lemma SameNo(a: Entry, b: Entry)
    ensures IdNo(a) == IdNo(b) ==> a.id == b.id
  {
    if IdNo(a) == IdNo(b) {
      ValInjective(a.id, b.id);
    }
  }

  /** Neither a get_peers nor an announce_peer was sent between the two. */
  predicate Silent(t: Task, r: Task) {
    r.asked == t.asked && r.announced == t.announced
  }

  /** A finished task sends nothing more, whatever happens, exactly if it is not waiting to be started or has nobody on
      its worklist: being killed does not take it out of the queue. */
  lemma FinishedSilentExact(t: Task)
    requires Inv(t) && t.finished
    ensures (forall es: seq<Event> :: Silent(t, Run(t, es))) <==> !t.queued || t.todo == []
  {
    hide Run, Inv;
    if t.queued && t.todo != [] {
      ResumedRun(t);
      assert !Silent(t, Run(t, [Resumed]));
    } else {
      NotYetAnswered(t);
      forall es: seq<Event>
        ensures Silent(t, Run(t, es))
      {
        FinishedIsSilent(t, es);
      }
    }
  }

  lemma NotYetAnswered(t: Task)
    requires Inv(t)
    ensures t.queued ==> t.answered == []
  {
  }

  lemma ResumedRun(t: Task)
    requires Inv(t) && t.queued && t.todo != []
    ensures Run(t, [Resumed]).asked != t.asked
  {
    hide Inv, Step;
    assert Run(t, [Resumed][..0]) == t;
    ResumedAsks(t);
    assert t.asked == [] by { NothingAskedYet(t); }
  }

  lemma NothingAskedYet(t: Task)
    requires Inv(t) && t.queued
    ensures t.asked == []
  {
  }

  /** A finished task that has nothing to start with, or has been started. */
  predicate Done(t: Task) {
    t.finished && (t.queued ==> t.todo == [] && t.answered == [])
  }

  lemma {:induction false} FinishedIsSilent(t: Task, es: seq<Event>)
    requires Done(t)
    ensures Done(Run(t, es)) && Silent(t, Run(t, es))
  {
    hide Step, Done;
    if es != [] {
      FinishedIsSilent(t, es[..|es| - 1]);
      DoneStays(Run(t, es[..|es| - 1]), es[|es| - 1]);
    }
  }

  lemma DoneStays(t: Task, e: Event)
    requires Done(t)
    ensures Done(Step(t, e)) && Silent(t, Step(t, e))
  {
    hide Heed;
  }

  /** Starting a task with somebody on its worklist sends a get_peers. */
  lemma ResumedAsks(t: Task)
    requires Inv(t) && t.queued && t.todo != []
    ensures Step(t, Resumed).asked != []
  {
    hide TokensHonest, Filed;
    var u := t.(queued := false);
    assert DrainAnswered(u) == u;
    UncoverShape(t);
    DrainTodoKeeps(u);
    DrainForgetsNothing(u);
    assert t.todo[0].0 in KeySet(t.todo);
  }

  lemma UncoverShape(t: Task)
    requires Shape(t)
    ensures Shape(t.(queued := false))
  {
  }

  lemma {:induction false} DrainForgetsNothing(t: Task)
    requires Shape(t)
    ensures KeySet(t.todo) + t.visited <= KeySet(DrainTodo(t).todo) + DrainTodo(t).visited
    decreases |t.todo|
  {
    if t.todo != [] && t.outstanding < MAX_CONCURRENT_REQS {
      AskFirstKeeps(t);
      DropFirst(t.todo);
      DrainForgetsNothing(AskFirst(t));
    }
  }

  /** An announce task that is killed while it waits in the queue, as when its torrent is stopped: once it is resumed
      it sends get_peers requests, unless there was nobody to start with. After that it is silent. */
  lemma KilledBeforeStart(kns: seq<Entry>, es: seq<Event>)
    ensures var r := Step(Step(Start(NEW, kns, true), Killed), Resumed);
            && r.finished && r.announced == []
            && (r.asked == [] <==> kns == [])
            && Silent(r, Run(r, es))
  {
    var k := Step(Start(NEW, kns, true), Killed);
    StartKeeps(kns, true);
    StepKeeps(Start(NEW, kns, true), Killed);
    StepKeeps(k, Resumed);
    FillTodoKeeps(NEW, kns);
    ListedIfFound(kns);
    if kns != [] {
      ResumedAsks(k);
    }
    ResumedOnly(k);
    FinishedIsSilent(Step(k, Resumed), es);
  }

  lemma ResumedOnly(k: Task)
    requires Inv(k) && k.queued
    ensures var r := Step(k, Resumed);
            !r.queued && r.announced == [] && (k.todo == [] ==> r.asked == []) && (k.finished ==> r.finished)
  {
    hide TokensHonest, Filed, DrainAnswered;
    var u := k.(queued := false);
    assert DrainAnswered(u) == u by { NothingAnswered(u); }
    UncoverShape(k);
    DrainTodoKeeps(u);
  }

  lemma NothingAnswered(t: Task)
    requires t.answered == []
    ensures DrainAnswered(t) == t
  {
  }

  lemma ListedIfFound(kns: seq<Entry>)
    ensures FillTodo(NEW, kns).todo == [] <==> kns == []
  {
    if kns != [] {
      var before, e := FillTodo(NEW, kns[..|kns| - 1]), kns[|kns| - 1];
      FillTodoKeeps(NEW, kns[..|kns| - 1]);
      InsertInto(before.todo, IdNo(e), e);
    }
  }
}

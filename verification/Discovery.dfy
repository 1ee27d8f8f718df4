/** Whom the tasks ask: every node they hear of that they do not turn away, and nobody else (announcetask.cpp,
    nodelookup.cpp). */
module Discovery {
  import opened Bytes
  import opened Keys
  import opened Entries
  import opened StdMap
  import opened Worklist
  import opened Announce
  import Lookup

  /** The event names these nodes to a task in this state: they are in a get_peers answer that is heeded. */
  function NamedBy(t: Task, e: Event): seq<Entry> {
    if e.GotPeers? && e.payload.Nodes? && !t.finished then e.payload.es else []
  }

  /** All nodes named to a task: those it starts with, and those in the answers it heeds. */
  function Named(kns: seq<Entry>, queued: bool, es: seq<Event>): seq<Entry> {
    if es == [] then kns
    else
      var front := es[..|es| - 1];
      Named(kns, queued, front) + NamedBy(Run(Start(NEW, kns, queued), front), es[|es| - 1])
  }

  /** A node with this id was named in the n-th event when the worklist was at its limit. */
  ghost predicate TurnedAwayAt(kns: seq<Entry>, queued: bool, es: seq<Event>, id: nat, n: nat)
    requires n < |es|
  {
    var t := Run(Start(NEW, kns, queued), es[..n]);
    var ns := NamedBy(t, es[n]);
    exists i :: 0 <= i < |ns| && IdNo(ns[i]) == id && FullAfter(t, ns, i)
  }

  ghost predicate FullAfter(t: Task, ns: seq<Entry>, i: nat)
    requires i <= |ns|
  {
    |LearnAll(OneLess(t), ns[..i]).todo| >= TODO_LIMIT
  }

  ghost predicate TurnedAway(kns: seq<Entry>, queued: bool, es: seq<Event>, id: nat) {
    exists n :: 0 <= n < |es| && TurnedAwayAt(kns, queued, es, id, n)
  }

  /** Asked already, or still on the list. */
  function Known(t: Task): set<nat> {
    t.visited + KeySet(t.todo)
  }

  lemma {:induction false} LearnKnows(t: Task, ns: seq<Entry>, k: nat)
    requires Shape(t) && k < |ns|
    ensures Known(t) <= Known(LearnAll(t, ns))
    ensures IdNo(ns[k]) in Known(LearnAll(t, ns)) || |LearnAll(t, ns[..k]).todo| >= TODO_LIMIT
    decreases |ns|
  {
    hide Shape;
    var n := |ns| - 1;
    var m := LearnAll(t, ns[..n]);
    LearnAllKeeps(t, ns[..n]);
    OneKnown(m, ns[n]);
    if n > 0 {
      LearnKnows(t, ns[..n], if k < n then k else 0);
    }
    if k < n {
      assert ns[..n][..k] == ns[..k] && ns[..n][k] == ns[k];
    }
  }

  lemma OneKnown(t: Task, e: Entry)
    requires Shape(t)
    ensures Known(t) <= Known(Learn(t, e)) && (IdNo(e) in Known(Learn(t, e)) || |t.todo| >= TODO_LIMIT)
  {
    InsertKeys(t.todo, IdNo(e), e);
  }

  lemma {:induction false} AnnouncingLeaves(t: Task)
    ensures var r := DrainAnswered(t); r.todo == t.todo && r.visited == t.visited && r.asked == t.asked
    decreases |t.answered|
  {
    if t.answered != [] && t.outstanding < MAX_CONCURRENT_REQS {
      AnnouncingLeaves(AnnounceFirst(t));
    }
  }

  lemma UpdateKnows(t: Task)
    requires Shape(t) && TokensHonest(t)
    ensures Known(t) <= Known(Update(t))
  {
    hide Shape, TokensHonest, DrainTodo, DrainAnswered;
    var a := DrainAnswered(t);
    DrainAnsweredKeeps(t);
    AnnouncingLeaves(t);
    DrainForgetsNothing(a);
  }

  /** No event makes a task forget a node, and a node that is named is known from then on, unless it is turned away. */
  lemma StepKnows(t: Task, e: Event)
    requires Inv(t)
    ensures Known(t) <= Known(Step(t, e))
    ensures var ns := NamedBy(t, e);
            forall k :: 0 <= k < |ns| ==> IdNo(ns[k]) in Known(Step(t, e)) || FullAfter(t, ns, k)
  {
    hide Known, Update, TokensHonest, Once, Filed, LearnAll, Remember, OneLess;
    match e
    case GotPeers(from, token, p) =>
      if !t.finished {
        HeedKnows(t, from, token, p);
      } else {
        SameKnown(t);
      }
    case OtherAnswer => ContinueKnows(t, OneLess(t));
    case NoAnswer => ContinueKnows(t, OneLess(t));
    case Resumed =>
      if t.queued {
        ContinueKnows(t, t.(queued := false));
        StartedKnows(t);
      }
    case Killed => KnownBy(t, t.(finished := true));
    case TakeItem => KnownBy(t, Step(t, e));
  }

  lemma KnownBy(t: Task, r: Task)
    requires r.todo == t.todo && r.visited == t.visited
    ensures Known(r) == Known(t)
  {
  }

  lemma SameKnown(t: Task)
    ensures Known(OneLess(t)) == Known(t) && OneLess(t).finished == t.finished
  {
  }

  lemma ShapeKept(t: Task, r: Task)
    requires Inv(t) && (r == OneLess(t) || r == t.(queued := false))
    ensures Shape(r) && TokensHonest(r) && ItemsInOrder(r) && Known(r) == Known(t)
  {
    hide TokensHonest;
    SameTokens(t, r);
  }

  lemma ContinueKnows(t: Task, r: Task)
    requires Inv(t) && (r == OneLess(t) || r == t.(queued := false))
    ensures Known(t) <= Known(Continue(r))
  {
    hide Known, Update, Inv, Shape, TokensHonest;
    ShapeKept(t, r);
    UpdateKnows(r);
  }

  lemma StartedKnows(t: Task)
    requires Inv(t) && t.queued
    ensures Known(t) <= Known(Step(t, Resumed))
  {
    hide Known, Update, Inv, Shape, TokensHonest;
    ShapeKept(t, t.(queued := false));
    UpdateKnows(t.(queued := false));
  }

  lemma RememberLeaves(t: Task, r: (Entry, Key))
    ensures Remember(t, r).todo == t.todo && Remember(t, r).visited == t.visited
  {
  }

  lemma HeedKnows(t: Task, from: Entry, token: Key, p: Payload)
    requires Inv(t) && !t.finished
    ensures var r, ns := Step(t, GotPeers(from, token, p)), NamedBy(t, GotPeers(from, token, p));
            && Known(t) <= Known(r)
            && forall k :: 0 <= k < |ns| ==> IdNo(ns[k]) in Known(r) || FullAfter(t, ns, k)
  {
    hide Update, Inv, Shape, TokensHonest, LearnAll, Remember, OneLess;
    var t1 := OneLess(t);
    SameKnown(t);
    ShapeKept(t, t1);
    var h := Heed(t1, (from, token), p);
    HeedKeeps(t1, (from, token), p);
    UpdateKnows(h);
    assert Known(h) <= Known(Continue(h));
    var ns := NamedBy(t, GotPeers(from, token, p));
    if p.Nodes? {
      RememberLeaves(LearnAll(t1, ns), (from, token));
      KnownBy(LearnAll(t1, ns), h);
      forall k | 0 <= k < |ns|
        ensures IdNo(ns[k]) in Known(h) || FullAfter(t, ns, k)
      {
        LearnKnows(t1, ns, k);
      }
      if ns == [] {
        NothingNew(t1);
      } else {
        LearnKnows(t1, ns, 0);
      }
    } else {
      RememberLeaves(t1.(stored := t1.stored + p.items, returned := t1.returned + p.items), (from, token));
      KnownBy(t1, h);
    }
  }

  lemma NothingNew(t: Task)
    ensures LearnAll(t, []) == t
  {
  }

  lemma {:induction false} FilledKnows(kns: seq<Entry>, k: nat)
    requires k < |kns|
    ensures IdNo(kns[k]) in KeySet(FillTodo(NEW, kns).todo)
    decreases |kns|
  {
    var n := |kns| - 1;
    FillTodoKeeps(NEW, kns[..n]);
    InsertKeys(FillTodo(NEW, kns[..n]).todo, IdNo(kns[n]), kns[n]);
    if k < n {
      FilledKnows(kns[..n], k);
    }
  }

  lemma StartKnows(kns: seq<Entry>, queued: bool, k: nat)
    requires k < |kns|
    ensures IdNo(kns[k]) in Known(Start(NEW, kns, queued))
  {
    hide Update, FillTodo, Shape, TokensHonest;
    var t := FillTodo(NEW, kns).(queued := queued);
    FilledKnows(kns, k);
    NewIsHonest();
    FillTodoKeeps(NEW, kns);
    SameTokens(NEW, t);
    if !queued {
      assert t == FillTodo(NEW, kns) by { NotQueuedYet(kns); }
      UpdateKnows(t);
    }
  }

  lemma NotQueuedYet(kns: seq<Entry>)
    ensures !FillTodo(NEW, kns).queued
  {
  }

  /** Over every run: a node named to the task has been asked, is on the list, or was turned away. */
  lemma {:induction false} NamedKnown(kns: seq<Entry>, queued: bool, es: seq<Event>, k: nat)
    requires Legal(Start(NEW, kns, queued), es) && k < |Named(kns, queued, es)|
    ensures var id := IdNo(Named(kns, queued, es)[k]);
            id in Known(Run(Start(NEW, kns, queued), es)) || TurnedAway(kns, queued, es, id)
    decreases |es|
  {
    hide Known, Step, TurnedAwayAt, NamedBy;
    if es == [] {
      StartKnows(kns, queued, k);
    } else {
      var n := |es| - 1;
      var front, t := es[..n], Run(Start(NEW, kns, queued), es[..n]);
      RunKeeps(kns, queued, front);
      StepKnows(t, es[n]);
      var before := Named(kns, queued, front);
      var id := IdNo(Named(kns, queued, es)[k]);
      if k < |before| {
        NamedKnown(kns, queued, front, k);
        if TurnedAway(kns, queued, front, id) {
          StillTurnedAway(kns, queued, es, id);
        }
      } else if id !in Known(Run(Start(NEW, kns, queued), es)) {
        assert NamedBy(t, es[n])[k - |before|] == Named(kns, queued, es)[k];
        TurnedAwayNow(kns, queued, es, k - |before|);
      }
    }
  }

  lemma TurnedAwayNow(kns: seq<Entry>, queued: bool, es: seq<Event>, i: nat)
    requires es != []
    requires var t := Run(Start(NEW, kns, queued), es[..|es| - 1]);
             i < |NamedBy(t, es[|es| - 1])| && FullAfter(t, NamedBy(t, es[|es| - 1]), i)
    ensures var t := Run(Start(NEW, kns, queued), es[..|es| - 1]);
            TurnedAway(kns, queued, es, IdNo(NamedBy(t, es[|es| - 1])[i]))
  {
    hide Run, NamedBy, FullAfter;
    var t := Run(Start(NEW, kns, queued), es[..|es| - 1]);
    assert TurnedAwayAt(kns, queued, es, IdNo(NamedBy(t, es[|es| - 1])[i]), |es| - 1);
  }

  lemma StillTurnedAway(kns: seq<Entry>, queued: bool, es: seq<Event>, id: nat)
    requires es != [] && TurnedAway(kns, queued, es[..|es| - 1], id)
    ensures TurnedAway(kns, queued, es, id)
  {
    hide Run, NamedBy, FullAfter;
    var front := es[..|es| - 1];
    var n :| 0 <= n < |front| && TurnedAwayAt(kns, queued, front, id, n);
    assert front[..n] == es[..n] && front[n] == es[n];
    assert TurnedAwayAt(kns, queued, es, id, n);
  }

  function AskedIds(s: seq<Entry>): set<nat> {
    set i | 0 <= i < |s| :: IdNo(s[i])
  }

  lemma AskedOneMore(s: seq<Entry>)
    requires s != []
    ensures AskedIds(s) == AskedIds(s[..|s| - 1]) + {IdNo(s[|s| - 1])}
  {
    hide IdNo;
    var n := |s| - 1;
    forall id | id in AskedIds(s)
      ensures id in AskedIds(s[..n]) || id == IdNo(s[n])
    {
      var i :| 0 <= i < |s| && IdNo(s[i]) == id;
      assert i < n ==> s[..n][i] == s[i];
    }
    forall id | id in AskedIds(s[..n])
      ensures id in AskedIds(s)
    {
      var i :| 0 <= i < n && IdNo(s[..n][i]) == id;
      assert s[..n][i] == s[i];
    }
  }

  lemma {:induction false} AskedCount(s: seq<Entry>)
    requires forall i, j :: 0 <= i < j < |s| ==> s[i].id != s[j].id
    ensures |AskedIds(s)| == |s|
  {
    hide IdNo, AskedIds;
    if s == [] {
      NobodyAsked();
    } else {
      var n := |s| - 1;
      AskedCount(s[..n]);
      AskedOneMore(s);
      LastIsNew(s);
    }
  }

  lemma NobodyAsked()
    ensures AskedIds([]) == {}
  {
  }

  lemma LastIsNew(s: seq<Entry>)
    requires s != [] && forall i, j :: 0 <= i < j < |s| ==> s[i].id != s[j].id
    ensures IdNo(s[|s| - 1]) !in AskedIds(s[..|s| - 1])
  {
    hide IdNo;
    var n := |s| - 1;
    if IdNo(s[n]) in AskedIds(s[..n]) {
      var i :| 0 <= i < n && IdNo(s[..n][i]) == IdNo(s[n]);
      SameNo(s[i], s[n]);
      assert false;
    }
  }

  /** The nodes marked as visited are those that were sent a get_peers. */
  lemma AskedTo(t: Task, id: nat) returns (i: nat)
    requires Shape(t) && id in t.visited
    ensures i < |t.asked| && IdNo(t.asked[i]) == id
  {
    hide Filed, IdNo;
    AskedCount(t.asked);
    assert AskedIds(t.asked) <= t.visited;
    SubsetSize(AskedIds(t.asked), t.visited);
    assert id in AskedIds(t.asked);
    i :| 0 <= i < |t.asked| && IdNo(t.asked[i]) == id;
  }

  /** A task that was neither killed nor cut off at a limit has asked every node named to it that it did not turn
      away. */
  lemma FinishedAskedAll(kns: seq<Entry>, queued: bool, es: seq<Event>, k: nat) returns (i: nat)
    requires Legal(Start(NEW, kns, queued), es) && NeverKilled(es) && k < |Named(kns, queued, es)|
    requires var r := Run(Start(NEW, kns, queued), es); r.finished && !OverLimit(r)
    requires !TurnedAway(kns, queued, es, IdNo(Named(kns, queued, es)[k]))
    ensures var r := Run(Start(NEW, kns, queued), es);
            i < |r.asked| && r.asked[i].id == Named(kns, queued, es)[k].id
  {
    hide Run, Named, TurnedAway, OverLimit;
    FinishReason(kns, queued, es);
    RunKeeps(kns, queued, es);
    NamedKnown(kns, queued, es, k);
    var r := Run(Start(NEW, kns, queued), es);
    assert KeySet(r.todo) == {};
    i := AskedTo(r, IdNo(Named(kns, queued, es)[k]));
    SameNo(r.asked[i], Named(kns, queued, es)[k]);
  }

  /** Who is on the list or was asked is among these, with the address given there. */
  ghost predicate Among(t: Task, named: seq<Entry>) {
    && (forall i :: 0 <= i < |t.todo| ==> t.todo[i].1 in named)
    && (forall i :: 0 <= i < |t.asked| ==> t.asked[i] in named)
  }

  lemma {:induction false} DrainAmong(t: Task, named: seq<Entry>)
    requires Among(t, named)
    ensures Among(DrainTodo(t), named)
    decreases |t.todo|
  {
    if t.todo != [] && t.outstanding < MAX_CONCURRENT_REQS {
      assert t.todo[0].1 in named;
      DrainAmong(AskFirst(t), named);
    }
  }

  lemma UpdateAmong(t: Task, named: seq<Entry>)
    requires Among(t, named)
    ensures Among(Update(t), named)
  {
    hide DrainTodo, DrainAnswered;
    AnnouncingLeaves(t);
    DrainAmong(DrainAnswered(t), named);
  }

  lemma {:induction false} LearnAmong(t: Task, ns: seq<Entry>, named: seq<Entry>)
    requires Among(t, named) && forall k :: 0 <= k < |ns| ==> ns[k] in named
    ensures Among(LearnAll(t, ns), named)
  {
    if ns != [] {
      var n := |ns| - 1;
      LearnAmong(t, ns[..n], named);
      PutAmong(LearnAll(t, ns[..n]), ns[n], named);
    }
  }

  lemma {:induction false} InsertedFrom(m: seq<(nat, Entry)>, k: nat, e: Entry, p: (nat, Entry))
    requires p in Insert(m, k, e)
    ensures p in m || p == (k, e)
  {
    if m != [] && m[0].0 < k && p != m[0] {
      InsertedFrom(m[1..], k, e, p);
    }
  }

  lemma PutAmong(t: Task, e: Entry, named: seq<Entry>)
    requires Among(t, named) && e in named
    ensures Among(t.(todo := Insert(t.todo, IdNo(e), e)), named)
  {
    var r := Insert(t.todo, IdNo(e), e);
    forall i | 0 <= i < |r|
      ensures r[i].1 in named
    {
      InsertedFrom(t.todo, IdNo(e), e, r[i]);
    }
  }

  lemma StepAmong(t: Task, e: Event, named: seq<Entry>)
    requires Among(t, named)
    ensures Among(Step(t, e), named + NamedBy(t, e))
  {
    hide Update, LearnAll, Remember;
    var more := named + NamedBy(t, e);
    assert Among(t, more);
    var t1 := OneLess(t);
    match e
    case GotPeers(from, token, p) =>
      if !t.finished {
        if p.Nodes? {
          LearnAmong(t1, p.es, more);
          RememberAmong(LearnAll(t1, p.es), (from, token), more);
        } else {
          RememberAmong(t1.(stored := t1.stored + p.items, returned := t1.returned + p.items), (from, token), more);
        }
        UpdateAmong(Heed(t1, (from, token), p), more);
      }
    case OtherAnswer => UpdateAmong(t1, more);
    case NoAnswer => UpdateAmong(t1, more);
    case Resumed => UpdateAmong(t.(queued := false), more);
    case Killed =>
    case TakeItem =>
  }

  lemma RememberAmong(t: Task, r: (Entry, Key), named: seq<Entry>)
    requires Among(t, named)
    ensures Among(Remember(t, r), named)
  {
  }

  lemma {:induction false} FillAmong(kns: seq<Entry>, n: nat)
    requires n <= |kns|
    ensures Among(FillTodo(NEW, kns[..n]), kns)
  {
    hide Among;
    if n == 0 {
      assert FillTodo(NEW, kns[..0]) == NEW;
      NobodyYet(kns);
    } else {
      FillAmong(kns, n - 1);
      assert kns[..n][..n - 1] == kns[..n - 1];
      PutAmong(FillTodo(NEW, kns[..n - 1]), kns[n - 1], kns);
    }
  }

  lemma NobodyYet(kns: seq<Entry>)
    ensures Among(NEW, kns)
  {
  }

  /** Over every run only nodes named to the task are asked, each under an address under which it was named. */
  lemma {:induction false} AskedWereNamed(kns: seq<Entry>, queued: bool, es: seq<Event>)
    ensures var r, named := Run(Start(NEW, kns, queued), es), Named(kns, queued, es);
            Among(r, named) && forall i :: 0 <= i < |r.asked| ==> r.asked[i] in named
    decreases |es|
  {
    hide Step, NamedBy;
    if es == [] {
      assert kns[..|kns|] == kns;
      FillAmong(kns, |kns|);
      UpdateAmong(FillTodo(NEW, kns).(queued := queued), kns);
    } else {
      AskedWereNamed(kns, queued, es[..|es| - 1]);
      StepAmong(Run(Start(NEW, kns, queued), es[..|es| - 1]), es[|es| - 1], Named(kns, queued, es[..|es| - 1]));
    }
  }

  /** The nodes named to a lookup: those it starts with, and those in the find_node answers it heeds, without
      ourselves. */
  ghost function LookupNamed(kns: seq<Entry>, queued: bool, ourId: Key, es: seq<Lookup.Event>): set<Entry> {
    if es == [] then set e | e in kns
    else
      var front, e := es[..|es| - 1], es[|es| - 1];
      var before := LookupNamed(kns, queued, ourId, front);
      if e.Answer? && e.findNodeRsp && !Lookup.Run(Lookup.Start(Lookup.NEW, kns, queued), ourId, front).finished
      then before + (set x | x in e.es && x.id != ourId) else before
  }

  ghost predicate LookupAmong(t: Lookup.Task, named: set<Entry>) {
    && (forall i :: 0 <= i < |t.todo| ==> t.todo[i].1 in named)
    && (forall i :: 0 <= i < |t.sent| ==> t.sent[i] in named)
  }

  lemma {:induction false} LookupDrains(t: Lookup.Task, named: set<Entry>)
    requires LookupAmong(t, named)
    ensures LookupAmong(Lookup.Drain(t), named)
    decreases |t.todo|
  {
    if t.todo != [] && t.outstanding < MAX_CONCURRENT_REQS {
      assert t.todo[0].1 in named;
      LookupDrains(Lookup.Ask(t), named);
    }
  }

  lemma LookupUpdates(t: Lookup.Task, named: set<Entry>)
    requires LookupAmong(t, named)
    ensures LookupAmong(Lookup.Update(t), named)
  {
    hide Lookup.Drain;
    LookupDrains(t, named);
  }

  lemma LookupPuts(t: Lookup.Task, e: Entry, named: set<Entry>)
    requires LookupAmong(t, named) && e in named
    ensures LookupAmong(t.(todo := Insert(t.todo, IdNo(e), e)), named)
  {
    var r := Insert(t.todo, IdNo(e), e);
    forall i | 0 <= i < |r|
      ensures r[i].1 in named
    {
      InsertedFrom(t.todo, IdNo(e), e, r[i]);
    }
  }

  lemma {:induction false} LookupLearns(t: Lookup.Task, ourId: Key, ns: seq<Entry>, named: set<Entry>)
    requires LookupAmong(t, named) && forall k :: 0 <= k < |ns| && ns[k].id != ourId ==> ns[k] in named
    ensures LookupAmong(Lookup.LearnAll(t, ourId, ns), named)
  {
    hide LookupAmong;
    if ns != [] {
      var n := |ns| - 1;
      LookupLearns(t, ourId, ns[..n], named);
      if ns[n].id != ourId {
        LookupPuts(Lookup.LearnAll(t, ourId, ns[..n]), ns[n], named);
      }
    }
  }

  lemma {:induction false} LookupFills(kns: seq<Entry>, n: nat, named: set<Entry>)
    requires n <= |kns| && forall k :: 0 <= k < |kns| ==> kns[k] in named
    ensures LookupAmong(Lookup.FillTodo(Lookup.NEW, kns[..n]), named)
  {
    if n > 0 {
      LookupFills(kns, n - 1, named);
      assert kns[..n][..n - 1] == kns[..n - 1];
      LookupPuts(Lookup.FillTodo(Lookup.NEW, kns[..n - 1]), kns[n - 1], named);
    }
  }

  lemma LookupSteps(t: Lookup.Task, ourId: Key, e: Lookup.Event, named: set<Entry>, more: set<Entry>)
    requires LookupAmong(t, named) && named <= more
    requires e.Answer? && e.findNodeRsp && !t.finished ==>
               forall k :: 0 <= k < |e.es| && e.es[k].id != ourId ==> e.es[k] in more
    ensures LookupAmong(Lookup.Step(t, ourId, e), more)
  {
    hide Lookup.Update, Lookup.LearnAll;
    assert LookupAmong(t, more);
    var t1 := Lookup.OneLess(t);
    match e
    case Answer(ok, es) =>
      if !t.finished {
        if ok {
          LookupLearns(t1, ourId, es, more);
        }
        LookupUpdates(if ok then Lookup.LearnAll(t1, ourId, es) else t1, more);
      }
    case NoAnswer => LookupUpdates(t1, more);
    case Resumed => LookupUpdates(t.(queued := false), more);
    case Killed =>
  }

  lemma {:induction false} LookupAskedNamed(kns: seq<Entry>, queued: bool, ourId: Key, es: seq<Lookup.Event>)
    ensures LookupAmong(Lookup.Run(Lookup.Start(Lookup.NEW, kns, queued), ourId, es),
                        LookupNamed(kns, queued, ourId, es))
    decreases |es|
  {
    hide Lookup.Step, LookupAmong;
    var named := LookupNamed(kns, queued, ourId, es);
    if es == [] {
      assert kns[..|kns|] == kns;
      LookupFills(kns, |kns|, named);
      LookupStarts(kns, queued, named);
    } else {
      var front := es[..|es| - 1];
      LookupAskedNamed(kns, queued, ourId, front);
      LookupSteps(Lookup.Run(Lookup.Start(Lookup.NEW, kns, queued), ourId, front), ourId, es[|es| - 1],
                  LookupNamed(kns, queued, ourId, front), named);
    }
  }

  lemma LookupStarts(kns: seq<Entry>, queued: bool, named: set<Entry>)
    requires LookupAmong(Lookup.FillTodo(Lookup.NEW, kns), named)
    ensures LookupAmong(Lookup.Start(Lookup.NEW, kns, queued), named)
  {
    hide Lookup.Update, Lookup.FillTodo;
    LookupUpdates(Lookup.FillTodo(Lookup.NEW, kns).(queued := queued), named);
  }

  lemma {:induction false} NamedNotUs(kns: seq<Entry>, queued: bool, ourId: Key, es: seq<Lookup.Event>)
    requires forall k :: 0 <= k < |kns| ==> kns[k].id != ourId
    ensures forall e :: e in LookupNamed(kns, queued, ourId, es) ==> e.id != ourId
  {
    if es != [] {
      NamedNotUs(kns, queued, ourId, es[..|es| - 1]);
    }
  }

  /** Over every run a lookup asks only nodes that were named to it, each under an address under which it was named, and
      never ourselves; the nodes it starts with come from the table, which does not hold our own id. */
  lemma NeverAsksOurselves(kns: seq<Entry>, queued: bool, ourId: Key, es: seq<Lookup.Event>, i: nat)
    requires forall k :: 0 <= k < |kns| ==> kns[k].id != ourId
    requires i < |Lookup.Run(Lookup.Start(Lookup.NEW, kns, queued), ourId, es).sent|
    ensures var x := Lookup.Run(Lookup.Start(Lookup.NEW, kns, queued), ourId, es).sent[i];
            x in LookupNamed(kns, queued, ourId, es) && x.id != ourId
  {
    hide Lookup.Run;
    LookupAskedNamed(kns, queued, ourId, es);
    NamedNotUs(kns, queued, ourId, es);
  }
}

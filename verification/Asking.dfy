/** In which order the tasks ask: the least ids on the list first, announces before anything else, and as many at once
    as the limit allows (nodelookup.cpp, announcetask.cpp). */
module Asking {
  import opened Bytes
  import opened Keys
  import opened Entries
  import opened StdMap
  import opened Worklist
  import L = Lookup
  import A = Announce

  /** Going on from one log to another, the nodes added come by rising ids, and all ids on a list are greater. */
  ghost predicate Rising(before: seq<Entry>, after: seq<Entry>, left: seq<nat>) {
    && before <= after
    && (forall i, j :: |before| <= i < j < |after| ==> IdNo(after[i]) < IdNo(after[j]))
    && forall i, j :: |before| <= i < |after| && 0 <= j < |left| ==> IdNo(after[i]) < left[j]
  }

  function Ids<V>(m: seq<(nat, V)>): (r: seq<nat>)
    ensures |r| == |m| && forall i :: 0 <= i < |m| ==> r[i] == m[i].0
  {
    seq(|m|, i requires 0 <= i < |m| => m[i].0)
  }

  ghost predicate Suffix<V>(m: seq<(nat, V)>, r: seq<(nat, V)>) {
    |r| <= |m| && r == m[|m| - |r|..]
  }

  /** The first on the list, if it is asked, and then the others. */
  lemma FirstThenRest(sent: seq<Entry>, e: Entry, asked: bool, after: seq<Entry>, rest: seq<nat>, left: seq<nat>)
    requires Rising(if asked then sent + [e] else sent, after, left)
    requires forall j :: 0 <= j < |rest| ==> IdNo(e) < rest[j]
    requires forall j :: 0 <= j < |left| ==> left[j] in rest
    requires forall i :: |sent| + (if asked then 1 else 0) <= i < |after| ==> IdNo(after[i]) in rest
    ensures Rising(sent, after, left)
  {
    hide IdNo;
    if asked {
      assert after[|sent|] == e;
    }
  }

  lemma {:induction false} DrainRises(t: L.Task)
    requires TodoFiled(t.todo)
    ensures var d := L.Drain(t);
            && Rising(t.sent, d.sent, Ids(d.todo)) && Suffix(t.todo, d.todo)
            && (d.todo == [] || d.outstanding >= 16)
            && forall i :: |t.sent| <= i < |d.sent| ==> IdNo(d.sent[i]) in Ids(t.todo)
    decreases |t.todo|
  {
    hide Rising, IdNo;
    if t.todo == [] || t.outstanding >= MAX_CONCURRENT_REQS {
      NobodyAdded(t.sent, Ids(t.todo));
    } else {
      var (id, e) := t.todo[0];
      var u, d := L.Ask(t), L.Drain(t);
      DrainRises(u);
      Ahead(t.todo, d.todo);
      FirstThenRest(t.sent, e, id !in t.visited, d.sent, Ids(u.todo), Ids(d.todo));
      assert forall k :: k in Ids(u.todo) ==> k in Ids(t.todo) by { TailIds(t.todo); }
      assert IdNo(e) == Ids(t.todo)[0];
      Sooner(t.sent, u.sent, d.sent, e, Ids(t.todo), Ids(d.todo));
    }
  }

  lemma NobodyAdded(sent: seq<Entry>, left: seq<nat>)
    ensures Rising(sent, sent, left)
  {
  }

  lemma Sooner(sent: seq<Entry>, next: seq<Entry>, after: seq<Entry>, e: Entry, ids: seq<nat>, left: seq<nat>)
    requires (next == sent || next == sent + [e]) && IdNo(e) in ids && Rising(next, after, left)
    requires forall i :: |next| <= i < |after| ==> IdNo(after[i]) in ids
    ensures forall i :: |sent| <= i < |after| ==> IdNo(after[i]) in ids
  {
    hide IdNo;
    if next == sent + [e] {
      assert after[|sent|] == e;
    }
  }

  lemma TailIds<V>(m: seq<(nat, V)>)
    requires m != []
    ensures forall k :: k in Ids(m[1..]) ==> k in Ids(m)
  {
    forall k | k in Ids(m[1..])
      ensures k in Ids(m)
    {
      var i :| 0 <= i < |m| - 1 && Ids(m[1..])[i] == k;
      assert Ids(m)[i + 1] == k;
    }
  }

  /** Behind the first of a list in order are greater ids, and a suffix of the tail holds no others. */
  lemma Ahead<V>(m: seq<(nat, V)>, r: seq<(nat, V)>)
    requires m != [] && Sorted(m) && Suffix(m[1..], r)
    ensures Suffix(m, r)
    ensures forall j :: 0 <= j < |m| - 1 ==> m[0].0 < Ids(m[1..])[j]
    ensures forall j :: 0 <= j < |r| ==> Ids(r)[j] in Ids(m[1..])
  {
    forall j | 0 <= j < |r|
      ensures Ids(r)[j] in Ids(m[1..])
    {
      assert r[j] == m[1..][|m| - 1 - |r| + j];
      assert Ids(m[1..])[|m| - 1 - |r| + j] == r[j].0;
    }
  }

  /** Whatever happens to a lookup: the nodes it then asks come by rising ids, before all that stay on the list; and
      unless 16 requests are outstanding nobody stays there, if it asks anybody. */
  lemma LookupAsksLeast(t: L.Task, ourId: Key, e: L.Event)
    requires TodoFiled(t.todo)
    ensures var r := L.Step(t, ourId, e);
            && Rising(t.sent, r.sent, Ids(r.todo)) && TodoFiled(r.todo)
            && (|r.sent| > |t.sent| ==> r.todo == [] || r.outstanding >= 16)
  {
    hide Rising, L.Drain, TodoFiled, IdNo, L.LearnAll;
    NobodyAdded(t.sent, Ids(L.Step(t, ourId, e).todo));
    match e
    case Answer(ok, es) =>
      var t1 := L.OneLess(t);
      LearnFiled(t1, ourId, es);
      UpdateAsks(if ok then L.LearnAll(t1, ourId, es) else t1);
    case NoAnswer => UpdateAsks(L.OneLess(t));
    case Killed =>
    case Resumed => UpdateAsks(t.(queued := false));
  }

  lemma UpdateAsks(t: L.Task)
    requires TodoFiled(t.todo)
    ensures var r := L.Update(t);
            Rising(t.sent, r.sent, Ids(r.todo)) && TodoFiled(r.todo) && (r.todo == [] || r.outstanding >= 16)
  {
    hide Rising, L.Drain;
    DrainRises(t);
  }

  lemma {:induction false} LearnFiled(t: L.Task, ourId: Key, es: seq<Entry>)
    requires TodoFiled(t.todo)
    ensures var r := L.LearnAll(t, ourId, es); TodoFiled(r.todo) && r.sent == t.sent
  {
    hide TodoFiled;
    if es != [] {
      LearnFiled(t, ourId, es[..|es| - 1]);
      InsertFiled(L.LearnAll(t, ourId, es[..|es| - 1]).todo, es[|es| - 1]);
    }
  }

  /** Its first batch too. */
  lemma LookupStartsLeast(kns: seq<Entry>, queued: bool)
    ensures var r := L.Start(L.NEW, kns, queued);
            && TodoFiled(r.todo) && Rising([], r.sent, Ids(r.todo))
            && (if queued then r.sent == [] else r.todo == [] || r.outstanding >= 16)
  {
    hide Rising, L.Update, TodoFiled, Fill;
    assert TodoFiled([]) by { EmptyFiled(); }
    FillFiled([], kns);
    NobodyAdded([], Ids(L.Start(L.NEW, kns, queued).todo));
    if !queued {
      UpdateAsks(L.FillTodo(L.NEW, kns).(queued := queued));
    }
  }

  lemma EmptyFiled()
    ensures TodoFiled([])
  {
  }

  /** The nodes announced to, without their tokens. */
  function Nodes(rs: seq<(Entry, Key)>): (r: seq<Entry>)
    ensures |r| == |rs| && forall i :: 0 <= i < |r| ==> r[i] == rs[i].0
  {
    seq(|rs|, i requires 0 <= i < |rs| => rs[i].0)
  }

  ghost predicate AnsweredFiled(m: seq<(nat, (Entry, Key))>) {
    Sorted(m) && forall i :: 0 <= i < |m| ==> m[i].0 == IdNo(m[i].1.0)
  }

  lemma {:induction false} AnnouncingRises(t: A.Task)
    requires AnsweredFiled(t.answered)
    ensures var d := A.DrainAnswered(t);
            && Rising(Nodes(t.announced), Nodes(d.announced), Ids(d.answered)) && Suffix(t.answered, d.answered)
            && (d.answered == [] || d.outstanding >= 16)
            && (forall i :: |t.announced| <= i < |d.announced| ==> IdNo(Nodes(d.announced)[i]) in Ids(t.answered))
            && d.todo == t.todo && d.asked == t.asked && d.visited == t.visited
    decreases |t.answered|
  {
    hide Rising, IdNo;
    if t.answered == [] || t.outstanding >= MAX_CONCURRENT_REQS {
      NobodyAdded(Nodes(t.announced), Ids(t.answered));
    } else {
      var (id, r) := t.answered[0];
      var u, d := A.AnnounceFirst(t), A.DrainAnswered(t);
      AnnouncingRises(u);
      Ahead(t.answered, d.answered);
      assert Nodes(t.announced + [r]) == Nodes(t.announced) + [r.0];
      FirstThenRest(Nodes(t.announced), r.0, id !in t.answeredVisited, Nodes(d.announced), Ids(u.answered),
                    Ids(d.answered));
      assert forall k :: k in Ids(u.answered) ==> k in Ids(t.answered) by { TailIds(t.answered); }
      assert IdNo(r.0) == Ids(t.answered)[0];
      Sooner(Nodes(t.announced), Nodes(u.announced), Nodes(d.announced), r.0, Ids(t.answered), Ids(d.answered));
    }
  }

  lemma {:induction false} AskingRises(t: A.Task)
    requires TodoFiled(t.todo)
    ensures var d := A.DrainTodo(t);
            && Rising(t.asked, d.asked, Ids(d.todo)) && Suffix(t.todo, d.todo)
            && (d.todo == [] || d.outstanding >= 16)
            && (forall i :: |t.asked| <= i < |d.asked| ==> IdNo(d.asked[i]) in Ids(t.todo))
            && d.answered == t.answered && d.announced == t.announced
            && (t.outstanding >= 16 ==> d == t)
    decreases |t.todo|
  {
    hide Rising, IdNo;
    if t.todo == [] || t.outstanding >= MAX_CONCURRENT_REQS {
      NobodyAdded(t.asked, Ids(t.todo));
    } else {
      var (id, e) := t.todo[0];
      var u, d := A.AskFirst(t), A.DrainTodo(t);
      AskingRises(u);
      Ahead(t.todo, d.todo);
      FirstThenRest(t.asked, e, id !in t.visited, d.asked, Ids(u.todo), Ids(d.todo));
      assert forall k :: k in Ids(u.todo) ==> k in Ids(t.todo) by { TailIds(t.todo); }
      assert IdNo(e) == Ids(t.todo)[0];
      Sooner(t.asked, u.asked, d.asked, e, Ids(t.todo), Ids(d.todo));
    }
  }

  /** What a task asks on its way from one state to another: both kinds of requests go to the least ids first, and
      get_peers only to fill up what the announces leave of the 16 requests. */
  ghost predicate AsksLeast(t: A.Task, r: A.Task) {
    && Rising(t.asked, r.asked, Ids(r.todo))
    && Rising(Nodes(t.announced), Nodes(r.announced), Ids(r.answered))
    && (|r.asked| > |t.asked| ==> r.answered == [] && (r.todo == [] || r.outstanding >= 16))
    && (|r.announced| > |t.announced| ==> r.answered == [] || r.outstanding >= 16)
  }

  /** Whatever happens to an announce task. */
  lemma AnnounceAsksLeast(t: A.Task, e: A.Event)
    requires TodoFiled(t.todo) && AnsweredFiled(t.answered)
    ensures AsksLeast(t, A.Step(t, e))
    ensures TodoFiled(A.Step(t, e).todo) && AnsweredFiled(A.Step(t, e).answered)
  {
    hide AsksLeast, TodoFiled, AnsweredFiled, IdNo, A.Heed, A.Update;
    NothingAsked(t, A.Step(t, e));
    match e
    case GotPeers(from, token, p) =>
      var t1 := A.OneLess(t);
      HeedFiled(t1, (from, token), p);
      var u := A.Heed(t1, (from, token), p);
      ContinueAsks(u);
      Onwards(t, u, A.Continue(u));
    case OtherAnswer | NoAnswer =>
      var u := A.OneLess(t);
      ContinueAsks(u);
      Onwards(t, u, A.Continue(u));
    case Killed =>
    case Resumed =>
      UpdateAsksLeast(t.(queued := false));
      Onwards(t, t.(queued := false), A.Update(t.(queued := false)));
    case TakeItem =>
  }

  /** Only what was asked before counts. */
  lemma Onwards(t: A.Task, u: A.Task, r: A.Task)
    requires u.asked == t.asked && u.announced == t.announced && AsksLeast(u, r)
    ensures AsksLeast(t, r)
  {
    hide Rising;
  }

  lemma NothingAsked(t: A.Task, r: A.Task)
    requires TodoFiled(t.todo)
    ensures r.asked == t.asked && r.announced == t.announced ==> AsksLeast(t, r)
  {
    hide Rising, TodoFiled;
    NobodyAdded(t.asked, Ids(r.todo));
    NobodyAdded(Nodes(t.announced), Ids(r.answered));
  }

  lemma ContinueAsks(t: A.Task)
    requires TodoFiled(t.todo) && AnsweredFiled(t.answered)
    ensures var r := A.Continue(t); AsksLeast(t, r) && TodoFiled(r.todo) && AnsweredFiled(r.answered)
  {
    hide AsksLeast, TodoFiled, AnsweredFiled, A.Update;
    NothingAsked(t, A.Continue(t));
    UpdateAsksLeast(t);
  }

  lemma UpdateAsksLeast(t: A.Task)
    requires TodoFiled(t.todo) && AnsweredFiled(t.answered)
    ensures var r := A.Update(t);
            && AsksLeast(t, r) && TodoFiled(r.todo) && AnsweredFiled(r.answered)
            && ((r.answered == [] && r.todo == []) || r.outstanding >= 16)
  {
    hide Rising, A.DrainAnswered, A.DrainTodo, TodoFiled, AnsweredFiled, Suffix, IdNo, Ids, Nodes;
    AnnouncingRises(t);
    var u := A.DrainAnswered(t);
    AskingRises(u);
    StaysFiled(t, u, A.DrainTodo(u));
  }

  lemma StaysFiled(t: A.Task, u: A.Task, d: A.Task)
    requires TodoFiled(t.todo) && AnsweredFiled(t.answered)
    requires Suffix(t.answered, u.answered) && u.todo == t.todo && Suffix(u.todo, d.todo) && d.answered == u.answered
    ensures TodoFiled(d.todo) && AnsweredFiled(d.answered)
  {
    hide IdNo;
  }

  lemma HeedFiled(t: A.Task, r: (Entry, Key), p: A.Payload)
    requires TodoFiled(t.todo) && AnsweredFiled(t.answered)
    ensures var u := A.Heed(t, r, p);
            && TodoFiled(u.todo) && AnsweredFiled(u.answered)
            && u.asked == t.asked && u.announced == t.announced
  {
    hide TodoFiled, AnsweredFiled, IdNo, A.LearnAll;
    RememberFiled(t.answered, r);
    if p.Nodes? {
      NamedFiled(t, p.es);
    }
  }

  lemma RememberFiled(m: seq<(nat, (Entry, Key))>, r: (Entry, Key))
    requires AnsweredFiled(m)
    ensures AnsweredFiled(Insert(m, IdNo(r.0), r))
  {
    hide IdNo;
    InsertSorted(m, IdNo(r.0), r);
    var q := Insert(m, IdNo(r.0), r);
    forall i | 0 <= i < |q|
      ensures q[i].0 == IdNo(q[i].1.0)
    {
      InsertMembers(m, IdNo(r.0), r, q[i]);
    }
  }

  lemma {:induction false} NamedFiled(t: A.Task, es: seq<Entry>)
    requires TodoFiled(t.todo)
    ensures var u := A.LearnAll(t, es);
            && TodoFiled(u.todo) && u.asked == t.asked && u.announced == t.announced && u.answered == t.answered
  {
    hide TodoFiled;
    if es != [] {
      NamedFiled(t, es[..|es| - 1]);
      InsertFiled(A.LearnAll(t, es[..|es| - 1]).todo, es[|es| - 1]);
    }
  }

  lemma AnnounceStartsLeast(kns: seq<Entry>, queued: bool)
    ensures var r := A.Start(A.NEW, kns, queued);
            AsksLeast(A.NEW, r) && TodoFiled(r.todo) && AnsweredFiled(r.answered)
  {
    hide AsksLeast, A.Update, TodoFiled, Fill;
    assert TodoFiled([]) by { EmptyFiled(); }
    FillFiled([], kns);
    NothingAsked(A.NEW, A.Start(A.NEW, kns, queued));
    if !queued {
      var t := A.FillTodo(A.NEW, kns).(queued := queued);
      UpdateAsksLeast(t);
      Onwards(A.NEW, t, A.Update(t));
    }
  }

  /** Over every run of an announce task: from its start on, every event makes it ask the least ids first. */
  lemma {:induction false} RunAsksLeast(kns: seq<Entry>, queued: bool, es: seq<A.Event>)
    ensures var start := A.Start(A.NEW, kns, queued);
            var r := A.Run(start, es);
            && TodoFiled(r.todo) && AnsweredFiled(r.answered)
            && AsksLeast(if es == [] then A.NEW else A.Run(start, es[..|es| - 1]), r)
    decreases |es|
  {
    hide AsksLeast, TodoFiled, AnsweredFiled, A.Step, A.Start;
    var start := A.Start(A.NEW, kns, queued);
    if es == [] {
      AnnounceStartsLeast(kns, queued);
    } else {
      RunAsksLeast(kns, queued, es[..|es| - 1]);
      AnnounceAsksLeast(A.Run(start, es[..|es| - 1]), es[|es| - 1]);
    }
  }

  /** And of a lookup. */
  lemma {:induction false} LookupRunAsksLeast(kns: seq<Entry>, queued: bool, ourId: Key, es: seq<L.Event>)
    ensures var start := L.Start(L.NEW, kns, queued);
            var t := if es == [] then L.NEW else L.Run(start, ourId, es[..|es| - 1]);
            var r := L.Run(start, ourId, es);
            && TodoFiled(r.todo) && Rising(t.sent, r.sent, Ids(r.todo))
            && (|r.sent| > |t.sent| ==> r.todo == [] || r.outstanding >= 16)
    decreases |es|
  {
    hide Rising, TodoFiled, L.Step, L.Start, Ids;
    var start := L.Start(L.NEW, kns, queued);
    if es == [] {
      LookupStartsLeast(kns, queued);
    } else {
      LookupRunAsksLeast(kns, queued, ourId, es[..|es| - 1]);
      LookupAsksLeast(L.Run(start, ourId, es[..|es| - 1]), ourId, es[|es| - 1]);
    }
  }
}

/** Which methods the calls of a node have: every call is tied to what its maker sends, and so to how the answer to it
    is typed (announcetask.cpp, nodelookup.cpp, kbucket.cpp, rpcserver.cpp, rpcmsg.cpp). */
module Methods {
  import opened Bytes
  import opened Keys
  import opened Entries
  import S = Scheduler
  import opened Whole
  import R = Routing
  import Announce
  import Lookup
  import Rpc

  /** The methods of all calls submitted to a server, in the order of submission. */
  function Submitted(rpc: Rpc.State): seq<Rpc.Method> {
    seq(|rpc.sent|, i requires 0 <= i < |rpc.sent| => rpc.sent[i].1.meth)
    + seq(|rpc.queue|, i requires 0 <= i < |rpc.queue| => rpc.queue[i].meth)
  }

  lemma SubmitAppends(rpc: Rpc.State, meth: Rpc.Method)
    requires Rpc.Inv(rpc)
    ensures Submitted(Rpc.Submit(rpc, meth)) == Submitted(rpc) + [meth]
  {
    hide Rpc.Submit;
    Rpc.SubmitKeeps(rpc, meth);
    Rpc.Counts(rpc);
    Rpc.NoMoreThan256(rpc);
    SubmitQueue(rpc, meth);
  }

  lemma SubmitQueue(rpc: Rpc.State, meth: Rpc.Method)
    requires Rpc.Inv(rpc)
    ensures var r := Rpc.Submit(rpc, meth);
            |rpc.active| == 256 || (rpc.queue == [] && r.queue == [])
  {
    Rpc.NoMoreThan256(rpc);
  }

  lemma {:induction false} SubmitAllAppends(rpc: Rpc.State, meths: seq<Rpc.Method>)
    requires Rpc.Inv(rpc)
    ensures Submitted(Rpc.SubmitAll(rpc, meths)) == Submitted(rpc) + meths
  {
    hide Rpc.Inv, Submitted, Rpc.Submit;
    if meths == [] {
      assert Submitted(rpc) + [] == Submitted(rpc);
    } else {
      var n := |meths| - 1;
      SubmitAllAppends(rpc, meths[..n]);
      Rpc.SubmitAllKeeps(rpc, meths[..n]);
      SubmitAppends(Rpc.SubmitAll(rpc, meths[..n]), meths[n]);
      assert Submitted(rpc) + meths == Submitted(rpc) + meths[..n] + [meths[n]];
    }
  }

  /** The end of a call submits what its listener submits, and nothing is lost or changes its place. */
  lemma CompleteAppends(rpc: Rpc.State, id: byte, inner: seq<Rpc.Method>)
    requires Rpc.Inv(rpc) && id in rpc.active
    ensures Submitted(Rpc.Complete(rpc, id, inner)) == Submitted(rpc) + inner
  {
    hide Rpc.Inv, Rpc.InOrder, Rpc.Accounted, Rpc.Latest, Rpc.Drain, Rpc.SubmitAll, Submitted;
    var u := Rpc.SubmitAll(rpc, inner);
    SubmitAllAppends(rpc, inner);
    Rpc.CompleteGap(rpc, id, inner);
    Rpc.CompleteIsSettle(rpc, id, inner);
    var v := Rpc.Settle(u, id);
    SameSubmitted(u, v);
    GapOf(u, id);
    Rpc.DrainFillsGap(v);
    FirstGoesOut(v, Rpc.Drain(v));
  }

  lemma GapOf(u: Rpc.State, id: byte)
    requires Rpc.Inv(u) && id in u.active
    ensures var v := Rpc.Settle(u, id);
            Rpc.InOrder(v) && Rpc.Accounted(v) && Rpc.Latest(v) && (v.queue != [] ==> |v.active| == 255)
  {
    Rpc.SettleKeeps(u, id);
  }

  lemma SameSubmitted(a: Rpc.State, b: Rpc.State)
    requires a.sent == b.sent && a.queue == b.queue
    ensures Submitted(a) == Submitted(b)
  {
  }

  lemma FirstGoesOut(a: Rpc.State, b: Rpc.State)
    requires a.queue == [] ==> b == a
    requires a.queue != [] ==> b.queue == a.queue[1..] && |b.sent| == |a.sent| + 1 && a.sent <= b.sent
                               && b.sent[|a.sent|].1 == a.queue[0]
    ensures Submitted(b) == Submitted(a)
  {
  }

  lemma SubmittedLength(rpc: Rpc.State)
    requires Rpc.Inv(rpc)
    ensures |Submitted(rpc)| == rpc.issued
    ensures forall id :: id in rpc.active ==>
              rpc.active[id].no < rpc.issued && Submitted(rpc)[rpc.active[id].no] == rpc.active[id].meth
  {
  }

  /** How many requests of one method a task has sent. */
  function SentBy(j: S.Job, meth: Rpc.Method): nat {
    match j
    case Find(l) => if meth == Rpc.FIND_NODE then |l.sent| else 0
    case Publish(a) =>
      if meth == Rpc.GET_PEERS then |a.asked| else if meth == Rpc.ANNOUNCE_PEER then |a.announced| else 0
  }

  /** How many calls of one method a task has made. */
  ghost function MadeBy(made: map<nat, Owner>, sub: seq<Rpc.Method>, no: nat, meth: Rpc.Method): nat {
    |CallsMade(made, sub, no, meth)|
  }

  ghost function CallsMade(made: map<nat, Owner>, sub: seq<Rpc.Method>, no: nat, meth: Rpc.Method): set<nat> {
    set k | k in made && k < |sub| && made[k] == ByTask(no) && sub[k] == meth
  }

  ghost predicate Matches(made: map<nat, Owner>, sub: seq<Rpc.Method>, t: S.Slot) {
    forall meth :: MadeBy(made, sub, t.no, meth) == SentBy(t.job, meth)
  }

  ghost predicate Present(s: S.State, t: S.Slot) {
    (exists id :: id in s.tasks && s.tasks[id] == t) || (exists i :: 0 <= i < |s.queued| && s.queued[i] == t)
  }

  /** Pings are calls of buckets, and every task, running or waiting, has made just the calls that it has sent. */
  ghost predicate CallsMatch(s: S.State, made: map<nat, Owner>, sub: seq<Rpc.Method>) {
    && (forall k :: k in made ==> k < |sub|)
    && (forall k :: k in made && made[k].ByBucket? ==> sub[k] == Rpc.PING)
    && (forall k :: k in made && made[k].ByTask? ==> made[k].no < s.added)
    && (forall t {:trigger Present(s, t)} :: Present(s, t) ==> Matches(made, sub, t))
  }

  ghost predicate Typed(n: Node) {
    && OwnersMade(n.owner, n.made)
    && CallsMatch(n.tasks, n.made, Submitted(n.tasks.rpc))
  }

  lemma {:induction false} RepeatCount(m: Rpc.Method, n: nat, x: Rpc.Method)
    ensures multiset(S.Repeat(m, n))[x] == if x == m then n else 0
  {
    if n > 0 {
      RepeatCount(m, n - 1, x);
      assert S.Repeat(m, n) == S.Repeat(m, n - 1) + [m];
    } else {
      assert S.Repeat(m, 0) == [];
    }
  }

  /** The calls a task makes on its way are those by which it has sent more. */
  lemma CallsCount(a: S.Job, b: S.Job, x: Rpc.Method)
    requires a.Find? == b.Find? && forall m :: SentBy(a, m) <= SentBy(b, m)
    ensures multiset(S.Calls(a, b))[x] == SentBy(b, x) - SentBy(a, x)
  {
    hide S.Repeat;
    match (a, b)
    case (Find(l), Find(k)) =>
      assert SentBy(a, Rpc.FIND_NODE) <= SentBy(b, Rpc.FIND_NODE);
      RepeatCount(Rpc.FIND_NODE, S.More(|l.sent|, |k.sent|), x);
    case (Publish(l), Publish(k)) =>
      assert SentBy(a, Rpc.GET_PEERS) <= SentBy(b, Rpc.GET_PEERS);
      assert SentBy(a, Rpc.ANNOUNCE_PEER) <= SentBy(b, Rpc.ANNOUNCE_PEER);
      RepeatCount(Rpc.ANNOUNCE_PEER, S.More(|l.announced|, |k.announced|), x);
      RepeatCount(Rpc.GET_PEERS, S.More(|l.asked|, |k.asked|), x);
    case _ =>
  }

  /** An update announces before it asks. */
  lemma AnnouncesFirst(a: S.Job, b: S.Job, i: nat, j: nat)
    requires i < j < |S.Calls(a, b)| && S.Calls(a, b)[i] == Rpc.GET_PEERS
    ensures S.Calls(a, b)[j] == Rpc.GET_PEERS
  {
  }

  /** One more call of a task. */
  lemma OneMore(made: map<nat, Owner>, sub: seq<Rpc.Method>, no: nat, m: Rpc.Method, other: nat, x: Rpc.Method)
    requires forall k :: k in made ==> k < |sub|
    ensures MadeBy(made[|sub| := ByTask(no)], sub + [m], other, x)
            == MadeBy(made, sub, other, x) + (if other == no && x == m then 1 else 0)
  {
    hide CallsMade;
    OneMoreMade(made, sub, no, m, other, x);
    NotYetMade(made, sub, other, x);
  }

  lemma NotYetMade(made: map<nat, Owner>, sub: seq<Rpc.Method>, no: nat, x: Rpc.Method)
    ensures |sub| !in CallsMade(made, sub, no, x)
  {
  }

  lemma OneMoreMade(made: map<nat, Owner>, sub: seq<Rpc.Method>, no: nat, m: Rpc.Method, other: nat, x: Rpc.Method)
    requires forall k :: k in made ==> k < |sub|
    ensures CallsMade(made[|sub| := ByTask(no)], sub + [m], other, x)
            == CallsMade(made, sub, other, x) + (if other == no && x == m then {|sub|} else {})
  {
    var made', sub', n := made[|sub| := ByTask(no)], sub + [m], |sub|;
    forall k: nat
      ensures k in CallsMade(made', sub', other, x)
              <==> k in CallsMade(made, sub, other, x) || (k == n && other == no && x == m)
    {
      if k < n {
        assert sub'[k] == sub[k];
        assert k in made' <==> k in made;
      } else if k == n {
        assert sub'[k] == m;
      }
    }
  }

  /** A batch of calls of a task. */
  lemma {:induction false} ManyMore(made: map<nat, Owner>, sub: seq<Rpc.Method>, no: nat, meths: seq<Rpc.Method>,
                                    other: nat, x: Rpc.Method)
    requires forall k :: k in made ==> k < |sub|
    ensures var made' := Assign(made, |sub|, |sub| + |meths|, ByTask(no));
            MadeBy(made', sub + meths, other, x)
            == MadeBy(made, sub, other, x) + (if other == no then multiset(meths)[x] else 0)
    decreases |meths|
  {
    hide MadeBy, Assign;
    if meths == [] {
      AssignNothing(made, |sub|, ByTask(no));
      assert sub + meths == sub;
    } else {
      var n := |meths| - 1;
      var front, before := meths[..n], Assign(made, |sub|, |sub| + n, ByTask(no));
      ManyMore(made, sub, no, front, other, x);
      AssignOneMore(made, |sub|, n, no);
      OneMore(before, sub + front, no, meths[n], other, x);
      assert sub + meths == sub + front + [meths[n]];
      CountSnoc(front, meths[n], x);
      assert meths == front + [meths[n]];
    }
  }

  lemma CountSnoc(front: seq<Rpc.Method>, m: Rpc.Method, x: Rpc.Method)
    ensures multiset(front + [m])[x] == multiset(front)[x] + (if x == m then 1 else 0)
  {
  }

  lemma AssignAt(made: map<nat, Owner>, from: nat, end: nat, o: Owner, k: nat)
    ensures var r := Assign(made, from, end, o);
            && (k in r <==> k in made || from <= k < end)
            && (k in r ==> r[k] == if from <= k < end then o else made[k])
  {
  }

  lemma AssignOneMore(made: map<nat, Owner>, from: nat, n: nat, no: nat)
    requires forall k :: k in made ==> k < from
    ensures var before := Assign(made, from, from + n, ByTask(no));
            && Assign(made, from, from + n + 1, ByTask(no)) == before[from + n := ByTask(no)]
            && forall k :: k in before ==> k < from + n
  {
    hide Assign;
    var o := ByTask(no);
    var before, after := Assign(made, from, from + n, o), Assign(made, from, from + n + 1, o);
    var put := before[from + n := o];
    forall k: nat
      ensures k in before ==> k < from + n
      ensures (k in after <==> k in put) && (k in after ==> after[k] == put[k])
    {
      AssignAt(made, from, from + n, o, k);
      AssignAt(made, from, from + n + 1, o, k);
    }
  }

  /** A ping changes no count. */
  lemma PingMore(made: map<nat, Owner>, sub: seq<Rpc.Method>, i: nat, no: nat, x: Rpc.Method)
    requires forall k :: k in made ==> k < |sub|
    ensures MadeBy(made[|sub| := ByBucket(i)], sub + [Rpc.PING], no, x) == MadeBy(made, sub, no, x)
  {
    assert CallsMade(made[|sub| := ByBucket(i)], sub + [Rpc.PING], no, x) == CallsMade(made, sub, no, x);
  }

  /** Nor does a call that nobody here made. */
  lemma OthersMore(made: map<nat, Owner>, sub: seq<Rpc.Method>, more: seq<Rpc.Method>, no: nat, x: Rpc.Method)
    requires forall k :: k in made ==> k < |sub|
    ensures MadeBy(made, sub + more, no, x) == MadeBy(made, sub, no, x)
  {
    assert CallsMade(made, sub + more, no, x) == CallsMade(made, sub, no, x);
  }

  lemma PingMatch(s: S.State, r: S.State, made: map<nat, Owner>, sub: seq<Rpc.Method>, i: nat)
    requires CallsMatch(s, made, sub) && r.tasks == s.tasks && r.queued == s.queued && r.added == s.added
    ensures CallsMatch(r, made, sub) && CallsMatch(r, made[|sub| := ByBucket(i)], sub + [Rpc.PING])
  {
    hide MadeBy, SentBy;
    forall t | Present(r, t)
      ensures Matches(made, sub, t) && Matches(made[|sub| := ByBucket(i)], sub + [Rpc.PING], t)
    {
      assert Present(s, t);
      forall x
        ensures MadeBy(made[|sub| := ByBucket(i)], sub + [Rpc.PING], t.no, x) == MadeBy(made, sub, t.no, x)
      {
        PingMore(made, sub, i, t.no, x);
      }
    }
  }

  /** Somebody else makes calls, and tasks may go. */
  lemma OtherMatch(s: S.State, r: S.State, made: map<nat, Owner>, sub: seq<Rpc.Method>, more: seq<Rpc.Method>)
    requires CallsMatch(s, made, sub) && s.added <= r.added
    requires forall t :: Present(r, t) ==> exists u :: Present(s, u) && SameCalls(t, u)
    ensures CallsMatch(r, made, sub + more)
  {
    hide MadeBy, SentBy;
    forall t | Present(r, t)
      ensures Matches(made, sub + more, t)
    {
      var u :| Present(s, u) && SameCalls(t, u);
      assert Matches(made, sub, u);
      forall x
        ensures MadeBy(made, sub + more, t.no, x) == SentBy(t.job, x)
      {
        OthersMore(made, sub, more, t.no, x);
        assert MadeBy(made, sub, u.no, x) == SentBy(u.job, x);
      }
    }
  }

  ghost predicate SameCalls(t: S.Slot, u: S.Slot) {
    t.no == u.no && forall m :: SentBy(t.job, m) == SentBy(u.job, m)
  }

  /** One task goes on, or is new, and makes its calls. */
  lemma TaskMatch(s: S.State, r: S.State, made: map<nat, Owner>, sub: seq<Rpc.Method>, no: nat, a: S.Job, b: S.Job)
    requires CallsMatch(s, made, sub) && s.added <= r.added && no < r.added
    requires a.Find? == b.Find? && forall m :: SentBy(a, m) <= SentBy(b, m)
    requires Matches(made, sub, S.Slot(no, a))
    requires forall t :: Present(r, t) ==> t == S.Slot(no, b) || (t.no != no && Present(s, t))
    ensures var calls := S.Calls(a, b);
            CallsMatch(r, Assign(made, |sub|, |sub| + |calls|, ByTask(no)), sub + calls)
  {
    hide MadeBy, SentBy, S.Calls, Present, Assign, Matches;
    var calls := S.Calls(a, b);
    var made' := Assign(made, |sub|, |sub| + |calls|, ByTask(no));
    AssignedTo(made, sub, calls, no);
    forall t | Present(r, t)
      ensures Matches(made', sub + calls, t)
    {
      if t.no == no {
        MovedMatches(made, sub, no, a, b);
      } else {
        OthersMatch(made, sub, no, calls, t);
      }
    }
  }

  lemma MovedMatches(made: map<nat, Owner>, sub: seq<Rpc.Method>, no: nat, a: S.Job, b: S.Job)
    requires Matches(made, sub, S.Slot(no, a)) && forall k :: k in made ==> k < |sub|
    requires a.Find? == b.Find? && forall m :: SentBy(a, m) <= SentBy(b, m)
    ensures var calls := S.Calls(a, b);
            Matches(Assign(made, |sub|, |sub| + |calls|, ByTask(no)), sub + calls, S.Slot(no, b))
  {
    hide MadeBy, SentBy, S.Calls, Assign;
    var calls := S.Calls(a, b);
    forall x
      ensures MadeBy(Assign(made, |sub|, |sub| + |calls|, ByTask(no)), sub + calls, no, x) == SentBy(b, x)
    {
      ManyMore(made, sub, no, calls, no, x);
      CallsCount(a, b, x);
      assert MadeBy(made, sub, no, x) == SentBy(a, x);
    }
  }

  lemma OthersMatch(made: map<nat, Owner>, sub: seq<Rpc.Method>, no: nat, calls: seq<Rpc.Method>, t: S.Slot)
    requires Matches(made, sub, t) && t.no != no && forall k :: k in made ==> k < |sub|
    ensures Matches(Assign(made, |sub|, |sub| + |calls|, ByTask(no)), sub + calls, t)
  {
    hide MadeBy, SentBy, Assign;
    forall x
      ensures MadeBy(Assign(made, |sub|, |sub| + |calls|, ByTask(no)), sub + calls, t.no, x)
              == MadeBy(made, sub, t.no, x)
    {
      ManyMore(made, sub, no, calls, t.no, x);
    }
  }

  lemma AssignedTo(made: map<nat, Owner>, sub: seq<Rpc.Method>, calls: seq<Rpc.Method>, no: nat)
    requires forall k :: k in made ==> k < |sub|
    ensures var made', sub' := Assign(made, |sub|, |sub| + |calls|, ByTask(no)), sub + calls;
            && (forall k :: k in made' ==> k < |sub'|)
            && (forall k :: k in made' ==> if k in made then made'[k] == made[k] && sub'[k] == sub[k]
                                           else made'[k] == ByTask(no))
  {
  }

  /** Whoever still waits for a call made it. */
  ghost predicate OwnersMade(owner: map<nat, Owner>, made: map<nat, Owner>) {
    forall k :: k in owner ==> k in made && made[k] == owner[k]
  }

  lemma AssignBoth(owner: map<nat, Owner>, made: map<nat, Owner>, from: nat, end: nat, o: Owner)
    requires OwnersMade(owner, made)
    ensures OwnersMade(Assign(owner, from, end, o), Assign(made, from, end, o))
  {
    hide Assign;
    forall k | k in Assign(owner, from, end, o)
      ensures k in Assign(made, from, end, o) && Assign(made, from, end, o)[k] == Assign(owner, from, end, o)[k]
    {
      AssignAt(owner, from, end, o, k);
      AssignAt(made, from, end, o, k);
    }
  }

  /** What a task does next it adds to what it has sent. */
  lemma ProceedSends(j: S.Job, c: S.Completion)
    requires j.Inv() && S.Fits(j, c) && j.Outstanding() > 0
    ensures var r := S.Proceed(j, c); r.Find? == j.Find? && forall m :: SentBy(j, m) <= SentBy(r, m)
  {
    hide Lookup.Step, Announce.Step;
    match j
    case Find(l) => Lookup.StepKeeps(l, c.ourId, c.ev);
    case Publish(a) => Announce.StepKeeps(a, c.e);
  }

  lemma ResumeSends(j: S.Job)
    requires j.Inv() && j.Queued()
    ensures var r := j.Resume(); r.Find? == j.Find? && forall m :: SentBy(j, m) <= SentBy(r, m)
  {
    match j
    case Find(l) => Lookup.UpdateKeeps(l.(queued := false));
    case Publish(a) =>
      hide Announce.Update;
      Announce.StepKeeps(a, Announce.Resumed);
  }

  lemma PingTyped(n: Node, r: Node, owner: map<nat, Owner>, pinged: bool, i: nat)
    requires Rpc.Inv(n.tasks.rpc) && Typed(n) && (forall k :: k in owner ==> k in n.owner && owner[k] == n.owner[k])
    requires r.tasks.tasks == n.tasks.tasks && r.tasks.queued == n.tasks.queued && r.tasks.added == n.tasks.added
    requires Submitted(r.tasks.rpc) == Submitted(n.tasks.rpc) + (if pinged then [Rpc.PING] else [])
    requires r.owner == OwnerAfterPing(owner, pinged, n.tasks.rpc.issued, i)
    requires r.made == OwnerAfterPing(n.made, pinged, n.tasks.rpc.issued, i)
    ensures Typed(r)
  {
    hide CallsMatch, Submitted, Rpc.Inv;
    SubmittedLength(n.tasks.rpc);
    PingMatch(n.tasks, r.tasks, n.made, Submitted(n.tasks.rpc), i);
    assert Submitted(n.tasks.rpc) + [] == Submitted(n.tasks.rpc);
  }

  lemma HeardTyped(n: Node, ourId: Key, addr: Address, id: Key, now: Time)
    requires Inv(n, ourId) && Typed(n)
    ensures Typed(Hear(n, ourId, addr, id, now))
  {
    hide Typed, R.Received, R.Pinged, R.Index, Rpc.Submit, Rpc.Inv, OwnerAfterPing, R.Inv, S.Inv, CallsOwned, Submitted;
    hide PingsOwned, OwnersOpen;
    RpcOf(n.tasks);
    var rpc, i := n.tasks.rpc, R.Index(id, ourId);
    var r := Hear(n, ourId, addr, id, now);
    SubmitAppends(rpc, Rpc.PING);
    PingTyped(n, r, n.owner, R.Pinged(r.table.buckets, i, rpc.issued), i);
  }

  lemma EndPingTyped(n: Node, ourId: Key, call: byte, answered: bool, now: Time)
    requires Inv(n, ourId) && Legal(n, PingOver(call, answered)) && Typed(n)
    ensures Typed(EndPing(n, call, answered, now))
  {
    hide Typed, R.Probed, R.Pinged, Rpc.Complete, Rpc.Inv, OwnerAfterPing, R.Inv, S.Inv, CallsOwned, Submitted;
    hide PingsOwned, OwnersOpen;
    RpcOf(n.tasks);
    var rpc, no := n.tasks.rpc, Called(n, call);
    var i := n.owner[no].i;
    var r := EndPing(n, call, answered, now);
    var pinged := R.Pinged(r.table.buckets, i, rpc.issued);
    CompleteAppends(rpc, call, if pinged then [Rpc.PING] else []);
    PingTyped(n, r, n.owner - {no}, pinged, i);
  }

  lemma NewTaskTyped(n: Node, ourId: Key, publish: bool, kns: seq<Entry>)
    requires Inv(n, ourId) && Typed(n) && S.IdFree(n.tasks, S.Id(n.tasks.added))
    ensures Typed(StartTask(n, publish, kns))
  {
    hide R.Inv, S.Inv, PingsOwned, OwnersOpen, CallsOwned, Assign, CallsMatch, Submitted, OwnersMade;
    var s := n.tasks;
    if kns == [] {
      AssignNothing(n.made, s.rpc.issued, ByTask(s.added));
      AssignNothing(n.owner, s.rpc.issued, ByTask(s.added));
    } else {
      LaunchMatches(s, n.made, publish, kns);
      AssignBoth(n.owner, n.made, s.rpc.issued, S.Launch(s, publish, kns).rpc.issued, ByTask(s.added));
    }
  }

  lemma LaunchMatches(s: S.State, made: map<nat, Owner>, publish: bool, kns: seq<Entry>)
    requires S.Inv(s) && CallsMatch(s, made, Submitted(s.rpc)) && kns != []
    ensures var r := S.Launch(s, publish, kns);
            CallsMatch(r, Assign(made, s.rpc.issued, r.rpc.issued, ByTask(s.added)), Submitted(r.rpc))
  {
    hide S.Inv, Rpc.Inv, S.Begin, S.Calls, Assign, S.Id, CallsMatch, Submitted, Matches, Present, SentBy, Rpc.SubmitAll;
    var j := S.Begin(publish, kns, !S.MayStart(s));
    var calls := S.Calls(S.Blank(publish), j);
    RpcOf(s);
    SubmittedLength(s.rpc);
    BlankMatches(s, made, Submitted(s.rpc), publish);
    BeginsSame(publish, kns, !S.MayStart(s));
    SubmitAllAppends(s.rpc, calls);
    Rpc.SubmitAllKeeps(s.rpc, calls);
    OnlyNewSlot(s, j, Rpc.SubmitAll(s.rpc, calls));
    TaskMatch(s, S.Launch(s, publish, kns), made, Submitted(s.rpc), s.added, S.Blank(publish), j);
  }

  lemma BeginsSame(publish: bool, kns: seq<Entry>, queued: bool)
    ensures var a, b := S.Blank(publish), S.Begin(publish, kns, queued);
            a.Find? == b.Find? && forall m :: SentBy(a, m) == 0 <= SentBy(b, m)
  {
    hide Announce.Start, Lookup.Start;
  }

  lemma BlankMatches(s: S.State, made: map<nat, Owner>, sub: seq<Rpc.Method>, publish: bool)
    requires CallsMatch(s, made, sub)
    ensures Matches(made, sub, S.Slot(s.added, S.Blank(publish)))
  {
    forall m
      ensures CallsMade(made, sub, s.added, m) == {}
    {
    }
    BeginsSame(publish, [], true);
  }

  lemma OnlyNewSlot(s: S.State, j: S.Job, rpc: Rpc.State)
    requires S.Inv(s)
    ensures var r := S.AddTask(s.(rpc := rpc), j);
            forall t :: Present(r, t) ==> t == S.Slot(s.added, j) || (t.no != s.added && Present(s, t))
  {
    hide Rpc.Inv, S.JobsInv, S.FirstComeFirstServed, S.Id;
    NumbersPlaced(s);
    var r := S.AddTask(s.(rpc := rpc), j);
    forall t | Present(r, t) && t != S.Slot(s.added, j)
      ensures t.no != s.added && Present(s, t)
    {
      if i :| 0 <= i < |r.queued| && r.queued[i] == t {
        assert s.queued[i] == t;
      }
    }
  }

  lemma TaskCallTyped(n: Node, ourId: Key, id: nat, call: byte, c: S.Completion, now: Time)
    requires Inv(n, ourId) && Legal(n, TaskCallOver(id, call, c)) && Typed(n)
    ensures Typed(Step(n, ourId, TaskCallOver(id, call, c), now))
  {
    hide R.Inv, Rpc.Inv, Rpc.Complete, PingsOwned, OwnersOpen, S.Calls, Assign, S.Id, CallsMatch, Submitted, S.Proceed;
    hide S.JobsInv, S.FirstComeFirstServed, S.Placed, CallsOwned, Matches, Present, SentBy, OwnersMade;
    var s := n.tasks;
    var t := s.tasks[id];
    var j := S.Proceed(t.job, c);
    var calls := S.Calls(t.job, j);
    RpcOf(s);
    SubmittedLength(s.rpc);
    HasCall(s, n.owner, id, Called(n, call));
    ProceedSends(t.job, c);
    CompleteAppends(s.rpc, call, calls);
    Rpc.CompleteKeeps(s.rpc, call, calls);
    var r := Step(n, ourId, TaskCallOver(id, call, c), now);
    OnlyThisSlot(s, r.tasks, id, j);
    MatchesNow(s, n.made, Submitted(s.rpc), id);
    TaskMatch(s, r.tasks, n.made, Submitted(s.rpc), t.no, t.job, j);
    OwnersFewer(n.owner, Called(n, call), n.made);
    AssignBoth(n.owner - {Called(n, call)}, n.made, s.rpc.issued, s.rpc.issued + |calls|, ByTask(t.no));
  }

  lemma OwnersFewer(owner: map<nat, Owner>, k: nat, made: map<nat, Owner>)
    requires OwnersMade(owner, made)
    ensures OwnersMade(owner - {k}, made)
  {
  }

  lemma MatchesNow(s: S.State, made: map<nat, Owner>, sub: seq<Rpc.Method>, id: nat)
    requires S.Inv(s) && CallsMatch(s, made, sub) && id in s.tasks
    ensures Matches(made, sub, S.Slot(s.tasks[id].no, s.tasks[id].job)) && s.tasks[id].no < s.added
  {
    hide Matches, S.Inv;
    assert Present(s, s.tasks[id]);
    NumbersPlaced(s);
  }

  lemma OnlyThisSlot(s: S.State, r: S.State, id: nat, j: S.Job)
    requires S.Inv(s) && id in s.tasks && r.queued == s.queued
    requires r.tasks == s.tasks[id := S.Slot(s.tasks[id].no, j)]
    ensures var no := s.tasks[id].no;
            forall t :: Present(r, t) ==> t == S.Slot(no, j) || (t.no != no && Present(s, t))
  {
    hide S.Inv;
    RunningDiffer(s, id);
  }

  lemma SweptPresent(s: S.State)
    ensures forall t :: Present(S.Sweep(s), t) ==> Present(s, t)
  {
    hide S.Finished;
    var r := S.Sweep(s);
    forall t | Present(r, t)
      ensures Present(s, t)
    {
      if i :| 0 <= i < |r.queued| && r.queued[i] == t {
        assert s.queued[i] == t;
      }
    }
  }

  lemma ResumedPresent(s: S.State)
    requires S.Inv(s) && s.queued != []
    ensures var no, r := s.queued[0].no, S.ResumeFirst(s);
            forall t :: Present(r, t) ==> t == S.Slot(no, s.queued[0].job.Resume()) || (t.no != no && Present(s, t))
  {
    hide S.Inv, S.Id, S.Job.Resume, S.Calls, Rpc.SubmitAll;
    OthersDiffer(s);
    var no, r := s.queued[0].no, S.ResumeFirst(s);
    forall t | Present(r, t) && t != S.Slot(no, s.queued[0].job.Resume())
      ensures t.no != no && Present(s, t)
    {
      if i :| 0 <= i < |r.queued| && r.queued[i] == t {
        assert s.queued[i + 1] == t;
      }
    }
  }

  lemma ResumeFirstMatches(s: S.State, made: map<nat, Owner>)
    requires S.Inv(s) && s.queued != [] && CallsMatch(s, made, Submitted(s.rpc))
    ensures var r := S.ResumeFirst(s);
            var made' := Assign(made, s.rpc.issued, r.rpc.issued, ByTask(s.queued[0].no));
            CallsMatch(r, made', Submitted(r.rpc))
  {
    hide S.Inv, S.Id, S.Job.Resume, S.Calls, Rpc.Inv, Rpc.SubmitAll, CallsMatch, Submitted, Assign, Matches;
    var t := s.queued[0];
    var j := t.job.Resume();
    RpcOf(s);
    SubmittedLength(s.rpc);
    FirstQueued(s);
    ResumeSends(t.job);
    SubmitAllAppends(s.rpc, S.Calls(t.job, j));
    Rpc.SubmitAllKeeps(s.rpc, S.Calls(t.job, j));
    ResumedPresent(s);
    FirstMatches(s, made, Submitted(s.rpc));
    TaskMatch(s, S.ResumeFirst(s), made, Submitted(s.rpc), t.no, t.job, j);
  }

  lemma FirstMatches(s: S.State, made: map<nat, Owner>, sub: seq<Rpc.Method>)
    requires S.Inv(s) && s.queued != [] && CallsMatch(s, made, sub)
    ensures Matches(made, sub, S.Slot(s.queued[0].no, s.queued[0].job)) && s.queued[0].no < s.added
  {
    hide Matches, S.Inv;
    assert Present(s, s.queued[0]);
    NumbersPlaced(s);
  }

  lemma {:induction false} ResumeMatches(s: S.State, owner: map<nat, Owner>, made: map<nat, Owner>)
    requires S.Inv(s) && OwnersMade(owner, made) && CallsMatch(s, made, Submitted(s.rpc))
    ensures var r := S.ResumeSome(s);
            && OwnersMade(ResumeOwners(s, owner), ResumeOwners(s, made))
            && CallsMatch(r, ResumeOwners(s, made), Submitted(r.rpc))
    decreases |s.queued|
  {
    hide S.Inv, CallsMatch, Submitted, Assign, OwnersMade, S.MayStart;
    if S.MayStart(s) && s.queued != [] {
      var r, o := S.ResumeFirst(s), ByTask(s.queued[0].no);
      ResumeFirstMatches(s, made);
      AssignBoth(owner, made, s.rpc.issued, r.rpc.issued, o);
      S.ResumeFirstKeeps(s);
      ResumeMatches(r, Assign(owner, s.rpc.issued, r.rpc.issued, o), Assign(made, s.rpc.issued, r.rpc.issued, o));
    }
  }

  lemma UpdateTyped(n: Node, ourId: Key)
    requires Inv(n, ourId) && Typed(n)
    ensures Typed(SweepAndResume(n))
  {
    hide R.Inv, S.Inv, PingsOwned, OwnersOpen, CallsOwned, CallsMatch, Submitted, ResumeOwners, S.ResumeSome, Present;
    S.SweepKeeps(n.tasks);
    SweptPresent(n.tasks);
    var sub := Submitted(n.tasks.rpc);
    OtherMatch(n.tasks, S.Sweep(n.tasks), n.made, sub, []);
    assert sub + [] == sub;
    ResumeMatches(S.Sweep(n.tasks), n.owner, n.made);
  }

  lemma KillTyped(n: Node, ourId: Key, ev: Event, now: Time)
    requires Legal(n, ev) && (ev.KillRunning? || ev.KillQueued?) && Typed(n)
    ensures Typed(Step(n, ourId, ev, now))
  {
    hide CallsMatch, Submitted;
    var s, r := n.tasks, Step(n, ourId, ev, now).tasks;
    forall t | Present(r, t)
      ensures exists u :: Present(s, u) && SameCalls(t, u)
    {
      if id :| id in r.tasks && r.tasks[id] == t {
        assert Present(s, s.tasks[id]) && SameCalls(t, s.tasks[id]);
      } else {
        var i :| 0 <= i < |r.queued| && r.queued[i] == t;
        assert Present(s, s.queued[i]) && SameCalls(t, s.queued[i]);
      }
    }
    OtherMatch(s, r, n.made, Submitted(s.rpc), []);
    assert Submitted(s.rpc) + [] == Submitted(s.rpc);
  }

  lemma OtherTyped(n: Node, ourId: Key, ev: Event, now: Time)
    requires Inv(n, ourId) && Legal(n, ev) && Typed(n) && (ev.OtherCall? || ev.OtherOver? || ev.QueryFailed?)
    ensures Typed(Step(n, ourId, ev, now))
  {
    hide R.Inv, S.Inv, PingsOwned, OwnersOpen, CallsOwned, CallsMatch, Submitted, Rpc.Submit, Rpc.Complete, Rpc.Inv;
    hide R.QueryFailed;
    var s, r := n.tasks, Step(n, ourId, ev, now).tasks;
    var sub := Submitted(s.rpc);
    RpcOf(s);
    SamePresent(s, r);
    assert sub + [] == sub;
    match ev
    case OtherCall(meth) =>
      SubmitAppends(s.rpc, meth);
      OtherMatch(s, r, n.made, sub, [meth]);
    case OtherOver(call) =>
      CompleteAppends(s.rpc, call, []);
      OtherMatch(s, r, n.made, sub, []);
    case _ =>
  }

  lemma SamePresent(s: S.State, r: S.State)
    ensures r.tasks == s.tasks && r.queued == s.queued ==>
              forall t :: Present(r, t) ==> exists u :: Present(s, u) && SameCalls(t, u)
  {
    if r.tasks == s.tasks && r.queued == s.queued {
      forall t | Present(r, t)
        ensures exists u :: Present(s, u) && SameCalls(t, u)
      {
        assert Present(s, t) && SameCalls(t, t);
      }
    }
  }

  lemma StepTyped(n: Node, ourId: Key, ev: Event, now: Time)
    requires Inv(n, ourId) && Legal(n, ev) && Typed(n) && n.tasks.added < UINT32
    ensures Typed(Step(n, ourId, ev, now))
  {
    hide Inv, Legal, Typed, Hear, EndPing, SweepAndResume, StartTask;
    match ev
    case Heard(addr, id) => HeardTyped(n, ourId, addr, id, now);
    case PingOver(call, answered) => EndPingTyped(n, ourId, call, answered, now);
    case QueryFailed(_) => OtherTyped(n, ourId, ev, now);
    case NewTask(publish, kns) =>
      NextIdFree(n, ourId);
      NewTaskTyped(n, ourId, publish, kns);
    case TaskCallOver(id, call, c) => TaskCallTyped(n, ourId, id, call, c, now);
    case KillRunning(_) => KillTyped(n, ourId, ev, now);
    case KillQueued(_) => KillTyped(n, ourId, ev, now);
    case Update => UpdateTyped(n, ourId);
    case OtherCall(_) => OtherTyped(n, ourId, ev, now);
    case OtherOver(_) => OtherTyped(n, ourId, ev, now);
  }

  /** Over every run from the start, until 2^32 tasks have been added. */
  lemma {:induction false} RunTyped(nodes: seq<Node>, ourId: Key, evs: seq<(Event, Time)>)
    requires Reaches(nodes, ourId, evs)
    requires forall i :: 0 <= i < |evs| ==> nodes[i].tasks.added < UINT32
    ensures Inv(nodes[|evs|], ourId) && Typed(nodes[|evs|])
    decreases |evs|
  {
    hide Inv, Step, Legal, Typed;
    var n := |evs|;
    RunKeeps(nodes, ourId, evs);
    if n == 0 {
      FreshTyped(nodes[0]);
    } else {
      RunTyped(nodes[..n], ourId, evs[..n - 1]);
      assert Leads(nodes[n - 1], ourId, evs[n - 1].0, evs[n - 1].1, nodes[n]);
      assert nodes[..n][n - 1] == nodes[n - 1];
      StepTyped(nodes[n - 1], ourId, evs[n - 1].0, evs[n - 1].1);
    }
  }

  lemma FreshTyped(n: Node)
    requires IsFresh(n)
    ensures Typed(n)
  {
  }

  /** What the node's record says of the calls of one task: of get_peers and announce_peer, or of find_node, there are
      just as many as the task has sent, and there are no others. */
  lemma CallsCounted(n: Node, t: S.Slot, meth: Rpc.Method)
    requires Typed(n) && Present(n.tasks, t)
    ensures MadeBy(n.made, Submitted(n.tasks.rpc), t.no, meth) ==
              match t.job
              case Find(l) => if meth == Rpc.FIND_NODE then |l.sent| else 0
              case Publish(a) =>
                if meth == Rpc.GET_PEERS then |a.asked| else if meth == Rpc.ANNOUNCE_PEER then |a.announced| else 0
  {
    hide MadeBy;
    assert Matches(n.made, Submitted(n.tasks.rpc), t);
  }

  /** An active call has the method that its maker gave it: the answer to it will be typed by this. */
  lemma ActiveTyped(n: Node, ourId: Key, call: byte)
    requires Inv(n, ourId) && Typed(n) && call in n.tasks.rpc.active && Called(n, call) in n.owner
    ensures var meth := Rpc.FindMethod(n.tasks.rpc, call);
            match n.owner[Called(n, call)]
            case ByBucket(_) => meth == Rpc.PING
            case ByTask(no) =>
              forall t :: Present(n.tasks, t) && t.no == no ==>
                if t.job.Find? then meth == Rpc.FIND_NODE else meth == Rpc.GET_PEERS || meth == Rpc.ANNOUNCE_PEER
  {
    hide R.Inv, S.Inv, PingsOwned, OwnersOpen, CallsOwned, Submitted, Rpc.Inv;
    var rpc, k := n.tasks.rpc, Called(n, call);
    RpcOf(n.tasks);
    SubmittedLength(rpc);
    var sub := Submitted(rpc);
    if n.owner[k].ByTask? {
      forall t | Present(n.tasks, t) && t.no == n.owner[k].no
        ensures SentBy(t.job, sub[k]) > 0
      {
        assert Matches(n.made, sub, t);
        assert k in CallsMade(n.made, sub, t.no, sub[k]);
        assert MadeBy(n.made, sub, t.no, sub[k]) == SentBy(t.job, sub[k]);
      }
    }
  }
}

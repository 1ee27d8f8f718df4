/** In which order the transaction ids are used: the wrapping cursor of the RPC server (rpcserver.cpp). */
module Cursor {
  import opened Bytes
  import opened Rpc

  /** The ids less than d ahead of this one. */
  ghost predicate AllAhead(keys: set<byte>, id: byte, d: nat) {
    forall j: nat :: 0 < j < d ==> AddMod(id, j) in keys
  }

  /** From the id of the message before, the k-th message went d ids on, and all ids in between were in use. */
  ghost predicate WentOn(s: State, k: nat, d: nat)
    requires 0 < k < |s.sent| && |s.held| == |s.sent|
  {
    s.sent[k].0 == AddMod(s.sent[k - 1].0, d) && AllAhead(s.held[k], s.sent[k - 1].0, d)
  }

  ghost predicate Follows(s: State, k: nat)
    requires 0 < k < |s.sent| && |s.held| == |s.sent|
  {
    exists d: nat :: 1 <= d <= 256 && WentOn(s, k, d)
  }

  /** Where the cursor stands. */
  ghost predicate AtCursor(s: State) {
    s.next == if s.sent == [] then 0 else Succ(s.sent[|s.sent| - 1].0)
  }

  /** The first id is 0, each later one is the next that was free, and none was in use when it was taken. */
  ghost predicate InTurn(s: State) {
    && |s.held| == |s.sent|
    && (s.sent != [] ==> s.sent[0].0 == 0)
    && (forall k :: 0 <= k < |s.sent| ==> s.sent[k].0 !in s.held[k])
    && (forall k {:trigger Follows(s, k)} :: 0 < k < |s.sent| ==> Follows(s, k))
  }

  /** An id that was in use when a message went out had been given to a message before, and the id of every call that
      has not been notified was in use. */
  ghost predicate InUse(s: State) {
    && |s.held| == |s.sent|
    && (forall k, id :: 0 <= k < |s.sent| && id in s.held[k] ==> exists j :: 0 <= j < k && s.sent[j].0 == id)
    && (forall j, k :: 0 <= j < k < |s.sent| && s.sent[j].1.no !in s.notified ==> s.sent[j].0 in s.held[k])
  }

  ghost predicate Turns(s: State) {
    AtCursor(s) && InTurn(s) && InUse(s)
  }

  /** How far the scan goes: to the first id that is free. */
  lemma FreeFrom(s: State) returns (j: nat)
    requires |s.active| < 256
    ensures j < 256 && Free(s) == AddMod(s.next, j) && Free(s) !in s.active
    ensures forall i: nat :: i < j ==> AddMod(s.next, i) in s.active
  {
    FreeIsFree(s);
    var k := CursorReaches(s.next, Free(s));
    j := FirstStep(s.active.Keys, s.next, k);
    FirstFreeIsFirst(s.active.Keys, s.next, 256, j);
  }

  lemma LaunchFollows(s: State, t: Ticket)
    requires AtCursor(s) && InTurn(s) && |s.active| < 256 && (s.sent == [] ==> s.active == map[])
    ensures var r := Launch(s, t); AtCursor(r) && InTurn(r)
  {
    var r, n := Launch(s, t), |s.sent|;
    var j := FreeFrom(s);
    if n > 0 {
      var prev := s.sent[n - 1].0;
      forall i: nat
        ensures AddMod(s.next, i) == AddMod(prev, i + 1)
      {
        StepAhead(prev, i);
      }
      Between(s.active.Keys, prev, j);
      assert WentOn(r, n, j + 1);
      assert Follows(r, n);
    }
    forall k | 0 < k < n
      ensures Follows(r, k)
    {
      assert Follows(s, k);
      var d: nat :| 1 <= d <= 256 && WentOn(s, k, d);
      assert WentOn(r, k, d);
    }
  }

  lemma Between(keys: set<byte>, prev: byte, j: nat)
    requires forall i: nat :: i < j ==> AddMod(Succ(prev), i) in keys
    ensures AllAhead(keys, prev, j + 1)
  {
    forall i: nat | 0 < i < j + 1
      ensures AddMod(prev, i) in keys
    {
      StepAhead(prev, i - 1);
    }
  }

  lemma LaunchInUse(s: State, t: Ticket)
    requires Accounted(s) && InUse(s) && t.no == |s.sent|
    requires forall k :: 0 <= k < |s.sent| ==> s.sent[k].1.no == k
    ensures InUse(Launch(s, t))
  {
    hide Free;
    var r, n := Launch(s, t), |s.sent|;
    forall k, id | 0 <= k <= n && id in r.held[k]
      ensures exists j :: 0 <= j < k && r.sent[j].0 == id
    {
      if k == n {
        assert s.sent[s.active[id].no] == (id, s.active[id]);
        assert r.sent[s.active[id].no].0 == id;
      } else {
        var j :| 0 <= j < k && s.sent[j].0 == id;
        assert r.sent[j].0 == id;
      }
    }
    forall j | 0 <= j < n && s.sent[j].1.no !in s.notified
      ensures s.sent[j].0 in s.active
    {
      assert Placed(s, j);
    }
  }

  lemma LaunchTurns(s: State, t: Ticket)
    requires Accounted(s) && |s.active| < 256 && t.no == |s.sent| && Turns(s)
    requires forall k :: 0 <= k < |s.sent| ==> s.sent[k].1.no == k
    ensures Turns(Launch(s, t))
  {
    hide InTurn, InUse, AtCursor, Launch;
    if s.sent == [] {
      NobodyYet(s);
    }
    LaunchFollows(s, t);
    LaunchInUse(s, t);
  }

  lemma NobodyYet(s: State)
    requires Accounted(s) && s.sent == []
    ensures s.active == map[]
  {
  }

  /** Nothing was sent, and nobody who was notified is forgotten. */
  lemma SameTurns(s: State, r: State)
    requires Turns(s) && r.sent == s.sent && r.held == s.held && r.next == s.next
    requires forall no :: no in s.notified ==> no in r.notified
    ensures Turns(r)
  {
    forall k | 0 < k < |r.sent|
      ensures Follows(r, k)
    {
      assert Follows(s, k);
      var d: nat :| 1 <= d <= 256 && WentOn(s, k, d);
      assert WentOn(r, k, d);
    }
  }

  lemma SubmitTurns(s: State, meth: Method)
    requires Inv(s) && Turns(s)
    ensures Turns(Submit(s, meth))
  {
    hide Turns, Launch, Accounted, Latest;
    var s1 := s.(issued := s.issued + 1);
    NoMoreThan256(s);
    if |s.active| == 256 {
      SameTurns(s, Submit(s, meth));
    } else {
      SameTurns(s, s1);
      SameAccount(s, s1);
      LaunchTurns(s1, Ticket(s.issued, meth));
    }
  }

  lemma {:induction false} SubmitAllTurns(s: State, meths: seq<Method>)
    requires Inv(s) && Turns(s)
    ensures Turns(SubmitAll(s, meths))
  {
    hide Inv, Turns, Submit;
    if meths != [] {
      var front := meths[..|meths| - 1];
      SubmitAllTurns(s, front);
      SubmitAllKeeps(s, front);
      SubmitTurns(SubmitAll(s, front), meths[|meths| - 1]);
    }
  }

  lemma CompleteTurns(s: State, id: byte, inner: seq<Method>)
    requires Inv(s) && Turns(s) && id in s.active
    ensures Turns(Complete(s, id, inner))
  {
    hide Turns, Inv, InOrder, Accounted, Latest, Drain, SubmitAll;
    var u := SubmitAll(s, inner);
    SubmitAllTurns(s, inner);
    CompleteGap(s, id, inner);
    CompleteIsSettle(s, id, inner);
    SettleOf(u, id);
    SameTurns(u, Settle(u, id));
    DrainTurns(Settle(u, id));
  }

  lemma SettleOf(u: State, id: byte)
    requires Inv(u) && id in u.active
    ensures var r := Settle(u, id);
            InOrder(r) && Accounted(r) && Latest(r) && (r.queue != [] ==> |r.active| == 255)
  {
    SettleKeeps(u, id);
  }

  lemma DrainTurns(u: State)
    requires Turns(u) && InOrder(u) && Accounted(u) && Latest(u) && (u.queue != [] ==> |u.active| == 255)
    ensures Turns(Drain(u))
  {
    hide Turns, Accounted, Latest, Launch;
    if u.queue != [] {
      var u1 := u.(queue := u.queue[1..]);
      FirstFillsGap(u);
      DrainLaunchesOne(u);
      SameTurns(u, u1);
      SameAccount(u, u1);
      LaunchTurns(u1, u.queue[0]);
    }
  }

  lemma StepTurns(s: State, e: Event)
    requires Inv(s) && Turns(s)
    ensures Turns(Step(s, e))
  {
    hide Inv, Turns, Submit, Complete;
    match e
    case Call(m) => SubmitTurns(s, m);
    case Response(id, inner) => if id in s.active { CompleteTurns(s, id, inner); } else { NobodyEnds(s, id, inner); }
    case Timeout(id, inner) => if id in s.active { CompleteTurns(s, id, inner); } else { NobodyEnds(s, id, inner); }
  }

  lemma NobodyEnds(s: State, id: byte, inner: seq<Method>)
    requires id !in s.active
    ensures Complete(s, id, inner) == s
  {
  }

  lemma {:induction false} RunTurns(es: seq<Event>)
    ensures Turns(Run(EMPTY, es))
  {
    hide Step, Inv;
    if es != [] {
      RunTurns(es[..|es| - 1]);
      RunKeeps(es[..|es| - 1]);
      StepTurns(Run(EMPTY, es[..|es| - 1]), es[|es| - 1]);
    }
  }

  /** Over every run: each message takes the next id after that of the message before that is not in use at that
      moment, going round at most once. */
  lemma NextInTurn(es: seq<Event>, k: nat)
    requires k < |Run(EMPTY, es).sent|
    ensures var s := Run(EMPTY, es);
            && |s.held| == |s.sent| && s.sent[k].0 !in s.held[k]
            && if k == 0 then s.sent[0].0 == 0
               else exists d: nat :: 1 <= d <= 256 && WentOn(s, k, d)
  {
    hide Run, AllAhead;
    RunTurns(es);
    var s := Run(EMPTY, es);
    if k > 0 {
      assert Follows(s, k);
      var d: nat :| 1 <= d <= 256 && WentOn(s, k, d);
    }
  }

  /** What the record of ids in use means: whoever is in it had been given to an earlier message, and every earlier call
      that has not been notified is in it. */
  lemma HeldMeans(es: seq<Event>, k: nat, id: byte)
    requires k < |Run(EMPTY, es).sent|
    ensures var s := Run(EMPTY, es);
            && |s.held| == |s.sent|
            && (id in s.held[k] ==> exists j :: 0 <= j < k && s.sent[j].0 == id)
            && (id !in s.held[k] ==> forall j :: 0 <= j < k && s.sent[j].0 == id ==> s.sent[j].1.no in s.notified)
  {
    hide Run;
    RunTurns(es);
  }

  lemma {:induction false} AddModTwice(id: byte, a: nat, b: nat)
    ensures AddMod(AddMod(id, a), b) == AddMod(id, a + b)
  {
    if b > 0 {
      AddModTwice(id, a, b - 1);
    }
  }

  /** After the i-th message and up to the m-th the id was given to a message or was in use when one went out. */
  ghost predicate Met(s: State, i: nat, m: nat, id: byte)
    requires m < |s.sent| == |s.held|
  {
    exists j :: i < j <= m && (s.sent[j].0 == id || id in s.held[j])
  }

  ghost predicate MetAll(s: State, i: nat, m: nat, dist: nat)
    requires i <= m < |s.sent| == |s.held|
  {
    s.sent[m].0 == AddMod(s.sent[i].0, dist) && forall x: nat :: 0 < x <= dist ==> Met(s, i, m, AddMod(s.sent[i].0, x))
  }

  /** The way from one message to a later one leads over ids that were met. */
  lemma {:induction false} Travel(s: State, i: nat, m: nat) returns (dist: nat)
    requires InTurn(s) && i <= m < |s.sent|
    ensures dist >= m - i && MetAll(s, i, m, dist)
    decreases m
  {
    hide InTurn, AllAhead;
    if i == m {
      dist := 0;
    } else {
      var before := Travel(s, i, m - 1);
      var d := OneOn(s, m);
      dist := before + d;
      FarAlong(s, i, m, before, d);
    }
  }

  lemma OneOn(s: State, k: nat) returns (d: nat)
    requires InTurn(s) && 0 < k < |s.sent|
    ensures 1 <= d <= 256 && |s.held| == |s.sent| && WentOn(s, k, d)
  {
    hide WentOn;
    assert Follows(s, k);
    d :| 1 <= d <= 256 && WentOn(s, k, d);
  }

  lemma FarAlong(s: State, i: nat, m: nat, before: nat, d: nat)
    requires i < m < |s.sent| == |s.held| && MetAll(s, i, m - 1, before) && WentOn(s, m, d) && d >= 1
    ensures MetAll(s, i, m, before + d)
  {
    var a := s.sent[i].0;
    AddModTwice(a, before, d);
    forall x: nat | 0 < x <= before + d
      ensures Met(s, i, m, AddMod(a, x))
    {
      if x <= before {
        assert Met(s, i, m - 1, AddMod(a, x));
      } else {
        AddModTwice(a, before, x - before);
        assert x < before + d ==> AddMod(s.sent[m - 1].0, x - before) in s.held[m];
      }
    }
  }

  /** Between two messages under one id every other id was given to a message or was in use: no id is used again before
      its turn. */
  lemma WholeRound(es: seq<Event>, i: nat, k: nat, id: byte)
    requires i < k < |Run(EMPTY, es).sent| && Run(EMPTY, es).sent[i].0 == Run(EMPTY, es).sent[k].0 != id
    ensures var s := Run(EMPTY, es);
            && |s.held| == |s.sent|
            && exists j :: i < j <= k && (s.sent[j].0 == id || id in s.held[j])
  {
    hide Run;
    var s := Run(EMPTY, es);
    RunTurns(es);
    var dist := Travel(s, i, k);
    var a := s.sent[i].0;
    AddModVal(a, dist);
    WholeTurns(a as nat, dist);
    var x := CursorReaches(a, id);
    assert Met(s, i, k, AddMod(a, x));
  }

  lemma WholeTurns(a: nat, dist: nat)
    requires a < 256 && dist > 0 && (a + dist) % 256 == a
    ensures dist >= 256
  {
  }
}

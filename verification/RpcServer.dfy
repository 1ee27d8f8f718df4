/** The objects of the RPC engine, with the fields and loops of rpcserver.cpp and rpccall.cpp. */
module RpcServers {
  import opened Bytes
  import opened Rpc

  /** RPCCall: a message and a timer. A call that waits has no timer running. */
  class RpcCall {
    const no: nat
    const meth: Method
    var mtid: byte
    var queued: bool
    var timerOn: bool

    constructor (no: nat, meth: Method, mtid: byte, queued: bool)
      ensures this.no == no && this.meth == meth && this.mtid == mtid
      ensures this.queued == queued && timerOn == !queued
    {
      this.no, this.meth, this.mtid := no, meth, mtid;
      this.queued, timerOn := queued, !queued;
    }

    method Start()
      modifies this`queued, this`timerOn
      ensures !queued && timerOn
    {
      queued := false;
      timerOn := true;
    }
  }

  function Name(c: RpcCall): Ticket {
    Ticket(c.no, c.meth)
  }

  ghost function Tickets(q: seq<RpcCall>): seq<Ticket> {
    seq(|q|, i requires 0 <= i < |q| => Name(q[i]))
  }

  ghost function Names(m: map<byte, RpcCall>): map<byte, Ticket> {
    map id | id in m :: Name(m[id])
  }

  lemma NamesInsert(m: map<byte, RpcCall>, id: byte, c: RpcCall)
    ensures Names(m[id := c]) == Names(m)[id := Name(c)]
  {
  }

  lemma NamesRemove(m: map<byte, RpcCall>, id: byte)
    ensures Names(m - {id}) == Names(m) - {id}
  {
  }

  lemma NamesSize(m: map<byte, RpcCall>)
    ensures Names(m).Keys == m.Keys && |Names(m)| == |m|
  {
    assert Names(m).Keys == m.Keys;
    assert |Names(m)| == |Names(m).Keys| && |m| == |m.Keys|;
  }

  lemma TicketsSnoc(q: seq<RpcCall>, c: RpcCall)
    ensures Tickets(q + [c]) == Tickets(q) + [Name(c)]
  {
  }

  lemma TicketsTail(q: seq<RpcCall>)
    requires q != []
    ensures Tickets(q) != [] && Tickets(q)[0] == Name(q[0]) && Tickets(q[1..]) == Tickets(q)[1..]
  {
  }

  class RpcServer {
    var calls: map<byte, RpcCall>
    var callQueue: seq<RpcCall>
    var nextMtid: byte
    var sent: seq<(byte, Ticket)>
    var issued: nat
    ghost var notified: seq<nat>
    ghost var held: seq<set<byte>>

    ghost function Abs(): State
      reads this
    {
      State(Names(calls), Tickets(callQueue), nextMtid, sent, notified, issued, held)
    }

    ghost function Waiting(): set<RpcCall>
      reads this
    {
      set c | c in callQueue
    }

    /** Each active call stores the id it is filed under and has its timer running; each waiting call has not. */
    ghost predicate Valid()
      reads this, calls.Values, callQueue
    {
      && (forall id :: id in calls ==> calls[id].mtid == id && !calls[id].queued && calls[id].timerOn)
      && (forall k :: 0 <= k < |callQueue| ==> callQueue[k].queued && !callQueue[k].timerOn)
      && (forall i, j :: 0 <= i < j < |callQueue| ==> callQueue[i] != callQueue[j])
    }

    constructor ()
      ensures Valid() && Abs() == EMPTY
    {
      calls, callQueue, nextMtid, sent, notified, issued, held := map[], [], 0, [], [], 0, [];
      new;
      assert Abs() == EMPTY;
    }

    /** The scan of doCall: on to the first free id, or once round if there is none. */
    method ScanOnce() returns (found: bool)
      modifies this`nextMtid
      ensures |calls| <= 256 && (found <==> |calls| < 256)
      ensures nextMtid == if found then FirstFree(calls.Keys, old(nextMtid), 256) else old(nextMtid)
    {
      var start := nextMtid;
      ghost var k: nat := 0;
      FullMeansAll(calls.Keys);
      while nextMtid in calls
        invariant k < 256 && nextMtid == AddMod(start, k)
        invariant forall j: nat :: j < k ==> AddMod(start, j) in calls.Keys
        decreases 256 - k
      {
        nextMtid := Succ(nextMtid);
        k := k + 1;
        if k == 256 {
          OnceRound(start);
        }
        if nextMtid == start {
          AllSeen(start, k, calls.Keys);
          return false;
        }
      }
      FirstFreeIsFirst(calls.Keys, start, 256, k);
      return true;
    }

    /** Setting the id of a message, sending it and filing its call, once the cursor is at a free id. */
    method Activate(c: RpcCall)
      requires nextMtid !in calls
      modifies this`calls, this`nextMtid, this`sent, this`held, c`mtid
      ensures Abs() == Launch(old(Abs()), Name(c))
      ensures c.mtid == old(nextMtid) && calls == old(calls)[c.mtid := c]
    {
      ghost var s := Abs();
      assert Free(s) == nextMtid;
      NamesSize(calls);
      held := held + [calls.Keys];
      c.mtid := nextMtid;
      nextMtid := Succ(nextMtid);
      sent := sent + [(c.mtid, Name(c))];
      NamesInsert(calls, c.mtid, c);
      calls := calls[c.mtid := c];
    }

    /** The call that finds no free id. */
    method Postpone(meth: Method) returns (c: RpcCall)
      modifies this`callQueue, this`issued
      ensures Abs() == old(Abs()).(issued := old(issued) + 1, queue := old(Abs()).queue + [Ticket(old(issued), meth)])
      ensures fresh(c) && c.queued && !c.timerOn && Name(c) == Ticket(old(issued), meth)
      ensures callQueue == old(callQueue) + [c]
    {
      c := new RpcCall(issued, meth, 0xFF, true);
      TicketsSnoc(callQueue, c);
      callQueue := callQueue + [c];
      issued := issued + 1;
    }

    /** The call that finds a free id under the cursor. */
    method StartNew(meth: Method) returns (c: RpcCall)
      requires Valid() && nextMtid !in calls
      modifies this
      ensures Valid() && Abs() == Launch(old(Abs()).(issued := old(issued) + 1), Ticket(old(issued), meth))
      ensures fresh(c) && !c.queued && Name(c) == Ticket(old(issued), meth) && c.mtid !in old(calls)
      ensures callQueue == old(callQueue) && calls == old(calls)[c.mtid := c]
    {
      hide Launch;
      c := new RpcCall(issued, meth, 0xFF, false);
      issued := issued + 1;
      Activate(c);
    }

    method DoCall(meth: Method) returns (c: RpcCall)
      requires Valid()
      modifies this
      ensures Valid() && Abs() == Submit(old(Abs()), meth)
      ensures fresh(c) && (c.queued <==> old(|calls|) == 256)
      ensures Name(c) == Ticket(old(issued), meth)
      ensures callQueue == if c.queued then old(callQueue) + [c] else old(callQueue)
      ensures calls == if c.queued then old(calls) else old(calls)[c.mtid := c]
      ensures !c.queued ==> c.mtid !in old(calls)
    {
      hide FirstFree, AllInUse, InOrder, Accounted, Launch;
      NamesSize(calls);
      var found := ScanOnce();
      if !found {
        c := Postpone(meth);
      } else {
        ScanIsIdempotent(old(Abs()), meth);
        c := StartNew(meth);
      }
    }

    /** What a listener does while it is being told about its call. */
    method DoCalls(meths: seq<Method>)
      requires Valid()
      modifies this
      ensures Valid() && Abs() == SubmitAll(old(Abs()), meths)
      ensures forall id :: id in old(calls) ==> id in calls && calls[id] == old(calls)[id]
      ensures forall c :: c in calls.Values ==> c in old(calls).Values || fresh(c)
      ensures forall c :: c in callQueue ==> c in old(callQueue) || fresh(c)
    {
      for i := 0 to |meths|
        invariant Valid() && Abs() == SubmitAll(old(Abs()), meths[..i])
        invariant forall id :: id in old(calls) ==> id in calls && calls[id] == old(calls)[id]
        invariant forall c :: c in calls.Values ==> c in old(calls).Values || fresh(c)
        invariant forall c :: c in callQueue ==> c in old(callQueue) || fresh(c)
      {
        assert meths[..i + 1][..i] == meths[..i];
        FullMeansAll(calls.Keys);
        assert |calls| == |calls.Keys|;
        var c := DoCall(meths[i]);
      }
      assert meths[..|meths|] == meths;
    }

    /** One round of doQueuedCalls: the call that waited longest gets the next free id and its timer. */
    method StartFirst()
      requires Valid() && callQueue != [] && |calls| < 256
      modifies this, callQueue[0]
      ensures Valid() && callQueue == old(callQueue)[1..]
      ensures Abs() == Launch(old(Abs()).(queue := old(Abs()).queue[1..]), old(Abs()).queue[0])
    {
      NamesSize(calls);
      TicketsTail(callQueue);
      var c := callQueue[0];
      callQueue := callQueue[1..];
      var found := ScanOnce();
      ScanThenLaunch(old(Abs()));
      Activate(c);
      c.Start();
    }

    method DoQueuedCalls()
      requires Valid()
      modifies this, Waiting()
      ensures Valid() && Abs() == Drain(old(Abs()))
      ensures Waiting() <= old(Waiting())
    {
      while |callQueue| > 0 && |calls| < 256
        invariant Valid() && Drain(Abs()) == Drain(old(Abs()))
        invariant Waiting() <= old(Waiting())
        decreases |callQueue|
      {
        NamesSize(calls);
        TicketsTail(callQueue);
        assert callQueue[0] in Waiting();
        StartFirst();
      }
      NamesSize(calls);
    }

    /** Forgetting a call that has been told about its outcome. */
    method Release(id: byte)
      requires Valid() && id in calls
      modifies this`calls, this`notified
      ensures Valid() && Abs() == Settle(old(Abs()), id) && calls == old(calls) - {id}
    {
      NamesRemove(calls, id);
      notified := notified + [calls[id].no];
      calls := calls - {id};
    }

    /** handlePackets on a response: notify the call, then release its id, then look at the waiting calls. The
        record of the notification is a ghost variable and is written when the id is released. */
    method OnResponse(id: byte, inner: seq<Method>)
      requires Valid()
      modifies this, Waiting()
      ensures Valid() && Abs() == Complete(old(Abs()), id, inner)
      ensures forall c :: c in Waiting() ==> c in old(Waiting()) || fresh(c)
    {
      hide Valid, Settle, Drain, SubmitAll;
      if id in calls {
        DoCalls(inner);
        CompleteIsSettle(old(Abs()), id, inner);
        Release(id);
        assert forall c :: c in Waiting() ==> c in old(Waiting()) || fresh(c);
        DoQueuedCalls();
      }
    }

    /** timedOut. */
    method TimedOut(mtid: byte)
      requires Valid()
      modifies this, Waiting()
      ensures Valid()
      ensures Abs() == Drain(if mtid in old(calls) then Settle(old(Abs()), mtid) else old(Abs()))
    {
      if mtid in calls {
        Release(mtid);
      }
      DoQueuedCalls();
    }

    /** RPCCall::onTimeout: only the timer of an active call can fire. */
    method OnTimeout(c: RpcCall, inner: seq<Method>)
      requires Valid() && c in calls.Values
      modifies this, Waiting()
      ensures Valid() && Abs() == Complete(old(Abs()), old(c.mtid), inner)
    {
      DoCalls(inner);
      CompleteIsSettle(old(Abs()), c.mtid, inner);
      assert forall c :: c in Waiting() ==> c in old(Waiting()) || fresh(c);
      TimedOut(c.mtid);
    }

    method HandlePackets(ps: seq<Packet>)
      requires Valid()
      modifies this, Waiting()
      ensures Valid() && Abs() == HandleAll(old(Abs()), ps)
    {
      for i := 0 to |ps|
        invariant Valid() && Abs() == HandleAll(old(Abs()), ps[..i])
        invariant forall c :: c in Waiting() ==> c in old(Waiting()) || fresh(c)
      {
        assert ps[..i + 1][..i] == ps[..i];
        DoCalls(ps[i].applied);
        assert forall c :: c in Waiting() ==> c in old(Waiting()) || fresh(c);
        if ps[i].isRsp {
          OnResponse(ps[i].mtid, ps[i].inner);
        }
      }
      assert ps[..|ps|] == ps;
    }
  }

  lemma ScanThenLaunch(s: State)
    requires s.queue != [] && |s.active| < 256
    ensures var s1 := s.(queue := s.queue[1..]);
            Launch(s1, s.queue[0]) == Launch(s1.(next := Free(s)), s.queue[0])
    ensures Free(s) !in s.active
  {
    FreeIsFree(s);
  }

  /** Once the cursor has been moved to the first free id, scanning again stays there. */
  lemma ScanIsIdempotent(s: State, meth: Method)
    requires |s.active| < 256
    ensures Submit(s, meth) == Launch(s.(next := Free(s), issued := s.issued + 1), Ticket(s.issued, meth))
    ensures Free(s) !in s.active
  {
    FreeIsFree(s);
  }

  /** Coming back to the start means that every id was seen. */
  lemma AllSeen(start: byte, k: nat, keys: set<byte>)
    requires 0 < k <= 256 && AddMod(start, k) == start
    requires forall j: nat :: j < k ==> AddMod(start, j) in keys
    ensures |keys| == 256
  {
    AddModVal(start, k);
    assert k == 256;
    forall id: byte
      ensures id in keys
    {
      var j := CursorReaches(start, id);
    }
    FullMeansAll(keys);
  }
}

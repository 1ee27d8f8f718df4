/** The AnnounceTask object: the fields and loops of task.cpp and announcetask.cpp. */
module AnnounceTasks {
  import opened Bytes
  import opened Keys
  import opened Entries
  import opened StdMap
  import opened Pack
  import opened Worklist
  import opened Announce
  import D = Database

  /** A response: whether it is a get_peers response to a get_peers call, and if so what it carries. */
  datatype Response = Response(getPeers: bool, from: Entry, token: Key, nodes: Container, items: seq<Item>)

  function PayloadOf(rsp: Response, now: Time): Payload {
    if rsp.nodes.nodes != [] || rsp.nodes.nodes2 != [] then Nodes(UnpackAll(rsp.nodes, now)) else Values(rsp.items)
  }

  function EventOf(rsp: Response, now: Time): Event {
    if rsp.getPeers then GotPeers(rsp.from, rsp.token, PayloadOf(rsp, now)) else OtherAnswer
  }

  /** The peers that handling a response puts into the database. */
  function FoundIn(rsp: Response, now: Time): seq<Item> {
    if rsp.getPeers && PayloadOf(rsp, now).Values? then rsp.items else []
  }

  class AnnounceTask {
    const db: D.Database
    const infoHash: Key
    var todo: seq<(nat, Entry)>
    var visited: set<nat>
    var answered: seq<(nat, (Entry, Key))>
    var answeredVisited: set<nat>
    var outstandingReqs: nat
    var taskFinished: bool
    var queued: bool
    var returnedItems: seq<Item>
    var asked: seq<Entry>
    var announced: seq<(Entry, Key)>
    ghost var stored: seq<Item>
    ghost var replies: seq<(Entry, Key)>
    ghost var taken: seq<Item>

    ghost function Abs(): Task
      reads this
    {
      Task(todo, visited, answered, answeredVisited, outstandingReqs, taskFinished, queued, asked, announced,
           replies, stored, returnedItems, taken)
    }

    constructor (db: D.Database, infoHash: Key)
      ensures Abs() == NEW && this.db == db && this.infoHash == infoHash
    {
      this.db, this.infoHash := db, infoHash;
      todo, visited, answered, answeredVisited, outstandingReqs := [], {}, [], {}, 0;
      taskFinished, queued, returnedItems, stored := false, false, [], [];
      asked, announced, replies, taken := [], [], [], [];
    }

    predicate CanDoRequest()
      reads this
    {
      outstandingReqs < MAX_CONCURRENT_REQS
    }

    method SendAnnounce(r: (Entry, Key))
      modifies this`outstandingReqs, this`announced
      ensures if old(CanDoRequest())
              then outstandingReqs == old(outstandingReqs) + 1 && announced == old(announced) + [r]
              else outstandingReqs == old(outstandingReqs) && announced == old(announced)
    {
      if CanDoRequest() {
        announced := announced + [r];
        outstandingReqs := outstandingReqs + 1;
      }
    }

    method SendGetPeers(e: Entry)
      modifies this`outstandingReqs, this`asked
      ensures if old(CanDoRequest())
              then outstandingReqs == old(outstandingReqs) + 1 && asked == old(asked) + [e]
              else outstandingReqs == old(outstandingReqs) && asked == old(asked)
    {
      if CanDoRequest() {
        asked := asked + [e];
        outstandingReqs := outstandingReqs + 1;
      }
    }

    /** The first loop of update: announce to the nodes that answered. */
    method AnnounceLoop()
      modifies this
      ensures Abs() == DrainAnswered(old(Abs()))
    {
      while answered != [] && CanDoRequest()
        invariant DrainAnswered(Abs()) == DrainAnswered(old(Abs()))
        decreases |answered|
      {
        ghost var t := Abs();
        var (id, r) := answered[0];
        if id !in answeredVisited {
          SendAnnounce(r);
          answeredVisited := answeredVisited + {id};
        }
        answered := answered[1..];
        assert Abs() == AnnounceFirst(t);
      }
    }

    /** The second loop: get_peers to the nodes not asked yet. */
    method GetPeersLoop()
      modifies this
      ensures Abs() == DrainTodo(old(Abs()))
    {
      while todo != [] && CanDoRequest()
        invariant DrainTodo(Abs()) == DrainTodo(old(Abs()))
        decreases |todo|
      {
        ghost var t := Abs();
        var (id, e) := todo[0];
        if id !in visited {
          SendGetPeers(e);
          visited := visited + {id};
        }
        todo := todo[1..];
        assert Abs() == AskFirst(t);
      }
    }

    method Update()
      modifies this
      ensures Abs() == Announce.Update(old(Abs()))
    {
      AnnounceLoop();
      GetPeersLoop();
      if todo == [] && answered == [] && outstandingReqs == 0 && !taskFinished {
        taskFinished := true;
      } else if |answeredVisited| > ANNOUNCE_LIMIT || |visited| > VISIT_LIMIT {
        taskFinished := true;
      }
    }

    method StartWith(kns: seq<Entry>, isQueued: bool)
      modifies this
      ensures Abs() == Start(old(Abs()), kns, isQueued)
    {
      for i := 0 to |kns|
        invariant Abs() == FillTodo(old(Abs()), kns[..i])
      {
        assert kns[..i + 1][..i] == kns[..i];
        todo := Insert(todo, IdNo(kns[i]), kns[i]);
      }
      assert kns[..|kns|] == kns;
      queued := isQueued;
      if !queued {
        Update();
      }
    }

    method Resume()
      modifies this
      ensures Abs() == Step(old(Abs()), Resumed)
    {
      if queued {
        queued := false;
        Update();
      }
    }

    method Kill()
      modifies this`taskFinished
      ensures Abs() == Step(old(Abs()), Killed)
    {
      taskFinished := true;
    }

    method Consider(e: Entry)
      modifies this`todo
      ensures Abs() == Learn(old(Abs()), e)
    {
      if IdNo(e) !in visited && |todo| < TODO_LIMIT {
        todo := Insert(todo, IdNo(e), e);
      }
    }

    method LearnNodes(nodes: bytes, now: Time)
      modifies this`todo
      ensures Abs() == LearnAll(old(Abs()), UnpackNodes(nodes, now))
    {
      hide Unpack, UnpackNodes, LearnAll, Learn;
      NothingLearned(Abs());
      assert UnpackNodes(nodes, now)[..0] == [];
      var nval := |nodes| / 26;
      ghost var all := UnpackNodes(nodes, now);
      UnpackNodesSize(nodes, now);
      for i := 0 to nval
        invariant Abs() == LearnAll(old(Abs()), all[..i])
      {
        UnpackNodesAt(nodes, i, now);
        var e := Unpack(nodes, i * 26, 4, now);
        LearnSnoc(old(Abs()), all[..i], e.value);
        assert all[..i + 1] == all[..i] + [e.value];
        Consider(e.value);
      }
      assert all[..nval] == all;
    }

    method LearnNodes2(items: seq<bytes>, now: Time)
      modifies this`todo
      ensures Abs() == LearnAll(old(Abs()), UnpackNodes2(items, now))
    {
      for i := 0 to |items|
        invariant Abs() == LearnAll(old(Abs()), UnpackNodes2(items[..i], now))
      {
        UnpackNodes2Snoc(items[..i], items[i], now);
        assert items[..i + 1] == items[..i] + [items[i]];
        var e := Unpack(items[i], 0, 6, now);
        if e.Some? {
          LearnSnoc(old(Abs()), UnpackNodes2(items[..i], now), e.value);
          Consider(e.value);
        } else {
          assert UnpackNodes2(items[..i], now) + [] == UnpackNodes2(items[..i], now);
        }
      }
      assert items[..|items|] == items;
    }

    /** The items go into the database that the tasks and the handlers share, and on the list to be handed out. */
    method StoreItems(items: seq<Item>)
      modifies this`stored, this`returnedItems, db`items
      ensures stored == old(stored) + items && returnedItems == old(returnedItems) + items
      ensures db.Abs() == D.StoreAll(old(db.Abs()), infoHash, items)
    {
      for i := 0 to |items|
        invariant stored == old(stored) + items[..i] && returnedItems == old(returnedItems) + items[..i]
        invariant db.Abs() == D.StoreAll(old(db.Abs()), infoHash, items[..i])
      {
        assert items[..i + 1] == items[..i] + [items[i]] && items[..i + 1][..i] == items[..i];
        db.StoreItem(infoHash, items[i]);
        stored := stored + [items[i]];
        returnedItems := returnedItems + [items[i]];
      }
      assert items[..|items|] == items;
    }

    method CallFinished(rsp: Response, now: Time)
      modifies this, db`items
      ensures Abs() == if rsp.getPeers then Heed(old(Abs()), (rsp.from, rsp.token), PayloadOf(rsp, now))
                       else old(Abs())
      ensures db.Abs() == D.StoreAll(old(db.Abs()), infoHash, FoundIn(rsp, now))
    {
      hide D.Store, LearnAll, UnpackAll, Remember;
      if !rsp.getPeers {
        return;
      }
      if rsp.nodes.nodes != [] || rsp.nodes.nodes2 != [] {
        LearnContainer(rsp.nodes, now);
      } else {
        StoreItems(rsp.items);
      }
      KeepToken(rsp.from, rsp.token);
    }

    method LearnContainer(c: Container, now: Time)
      modifies this`todo
      ensures Abs() == LearnAll(old(Abs()), UnpackAll(c, now))
    {
      LearnNodes(c.nodes, now);
      LearnNodes2(c.nodes2, now);
      LearnInTwo(old(Abs()), UnpackNodes(c.nodes, now), UnpackNodes2(c.nodes2, now));
    }

    /** The node that answered goes on the list for an announce, with the token it gave. */
    method KeepToken(from: Entry, token: Key)
      modifies this`replies, this`answered
      ensures Abs() == Remember(old(Abs()), (from, token))
    {
      replies := replies + [(from, token)];
      if IdNo(from) !in answeredVisited {
        answered := Insert(answered, IdNo(from), (from, token));
      }
    }

    /** The last step of onResponse and onTimeout. */
    method Proceed()
      modifies this
      ensures Abs() == Continue(old(Abs()))
    {
      if CanDoRequest() && !taskFinished {
        Update();
      }
    }

    method OnResponse(rsp: Response, now: Time)
      modifies this, db`items
      ensures Abs() == Step(old(Abs()), EventOf(rsp, now))
      ensures db.Abs() == if old(taskFinished) then old(db.Abs())
                          else D.Step(old(db.Abs()), db.hash, D.PeersFound(infoHash, FoundIn(rsp, now)), now)
    {
      hide D.StoreAll, Announce.Update, Heed, LearnAll, UnpackAll, Remember;
      if outstandingReqs > 0 {
        outstandingReqs := outstandingReqs - 1;
      }
      if !taskFinished {
        CallFinished(rsp, now);
        Proceed();
      }
    }

    method OnTimeout()
      modifies this
      ensures Abs() == Step(old(Abs()), NoAnswer)
    {
      if outstandingReqs > 0 {
        outstandingReqs := outstandingReqs - 1;
      }
      if !taskFinished {
        Proceed();
      }
    }

    method Take() returns (item: Option<Item>)
      modifies this
      ensures Abs() == Step(old(Abs()), TakeItem)
      ensures item == if old(returnedItems) == [] then None else Some(old(returnedItems)[0])
    {
      if returnedItems == [] {
        return None;
      }
      item := Some(returnedItems[0]);
      taken := taken + [returnedItems[0]];
      returnedItems := returnedItems[1..];
    }
  }

  lemma NothingLearned(t: Task)
    ensures LearnAll(t, []) == t
  {
  }

  lemma LearnSnoc(t: Task, es: seq<Entry>, e: Entry)
    ensures LearnAll(t, es + [e]) == Learn(LearnAll(t, es), e)
  {
    assert (es + [e])[..|es|] == es;
  }

  lemma {:induction false} LearnInTwo(t: Task, a: seq<Entry>, b: seq<Entry>)
    ensures LearnAll(LearnAll(t, a), b) == LearnAll(t, a + b)
  {
    if b == [] {
      assert a + b == a;
    } else {
      LearnInTwo(t, a, b[..|b| - 1]);
      assert (a + b)[..|a + b| - 1] == a + b[..|b| - 1];
    }
  }
}

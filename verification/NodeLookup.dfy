/** The NodeLookup object: the fields and loops of task.cpp and nodelookup.cpp. */
module NodeLookups {
  import opened Bytes
  import opened Keys
  import opened Entries
  import opened StdMap
  import opened Pack
  import opened Worklist
  import opened Lookup

  class NodeLookup {
    const ourId: Key
    var todo: seq<(nat, Entry)>
    var visited: set<nat>
    var outstandingReqs: nat
    var taskFinished: bool
    var queued: bool
    var numNodesRsp: nat
    var sent: seq<Entry>

    function Abs(): Task
      reads this
    {
      Task(todo, visited, outstandingReqs, taskFinished, queued, sent)
    }

    constructor (ourId: Key)
      ensures this.ourId == ourId && Abs() == NEW
    {
      this.ourId := ourId;
      todo, visited, outstandingReqs, taskFinished, queued, numNodesRsp, sent := [], {}, 0, false, false, 0, [];
    }

    predicate CanDoRequest()
      reads this
    {
      outstandingReqs < MAX_CONCURRENT_REQS
    }

    /** Task::rpcCall with a find_node request for this entry. */
    method RpcCall(e: Entry) returns (ok: bool)
      modifies this`outstandingReqs, this`sent
      ensures ok <==> old(CanDoRequest())
      ensures sent == if ok then old(sent) + [e] else old(sent)
      ensures outstandingReqs == if ok then old(outstandingReqs) + 1 else old(outstandingReqs)
    {
      if !CanDoRequest() {
        return false;
      }
      sent := sent + [e];
      outstandingReqs := outstandingReqs + 1;
      return true;
    }

    method Done()
      modifies this`taskFinished
      ensures taskFinished
    {
      taskFinished := true;
    }

    method Update()
      modifies this
      ensures Abs() == Lookup.Update(old(Abs())) && numNodesRsp == old(numNodesRsp)
    {
      while todo != [] && CanDoRequest()
        invariant Drain(Abs()) == Drain(old(Abs())) && numNodesRsp == old(numNodesRsp)
        decreases |todo|
      {
        ghost var t := Abs();
        var (id, e) := todo[0];
        if id !in visited {
          var ok := RpcCall(e);
          visited := visited + {id};
        }
        todo := todo[1..];
        assert Abs() == Ask(t);
      }
      if todo == [] && outstandingReqs == 0 && !taskFinished {
        Done();
      } else if |visited| > VISIT_LIMIT {
        Done();
      }
    }

    method StartWith(kns: seq<Entry>, isQueued: bool)
      modifies this
      ensures Abs() == Start(old(Abs()), kns, isQueued)
    {
      for i := 0 to |kns|
        invariant Abs() == FillTodo(old(Abs()), kns[..i])
      {
        assert kns[..i + 1][..i] == kns[..i];
        todo := Insert(todo, IdNo(kns[i]), kns[i]);
      }
      assert kns[..|kns|] == kns;
      queued := isQueued;
      if !queued {
        Update();
      }
    }

    method Resume()
      modifies this
      ensures Abs() == Lookup.Resume(old(Abs()))
    {
      if queued {
        queued := false;
        Update();
      }
    }

    method Kill()
      modifies this`taskFinished
      ensures Abs() == Lookup.Kill(old(Abs()))
    {
      taskFinished := true;
    }

    method Consider(e: Entry)
      modifies this`todo
      ensures Abs() == Learn(old(Abs()), ourId, e)
    {
      if e.id != ourId && !Has(todo, IdNo(e)) && IdNo(e) !in visited {
        todo := Insert(todo, IdNo(e), e);
      }
    }

    /** The nodes of a response, in steps of 26 bytes. */
    method LearnNodes(nodes: bytes, now: Time)
      modifies this`todo
      ensures Abs() == LearnAll(old(Abs()), ourId, UnpackNodes(nodes, now))
    {
      hide Unpack, UnpackNodes, LearnAll, Learn;
      NothingLearned(Abs(), ourId);
      assert UnpackNodes(nodes, now)[..0] == [];
      var nnodes := |nodes| / 26;
      ghost var all := UnpackNodes(nodes, now);
      UnpackNodesSize(nodes, now);
      for j := 0 to nnodes
        invariant Abs() == LearnAll(old(Abs()), ourId, all[..j])
      {
        UnpackNodesAt(nodes, j, now);
        var e := Unpack(nodes, j * 26, 4, now);
        LearnSnoc(old(Abs()), ourId, all[..j], e.value);
        assert all[..j + 1] == all[..j] + [e.value];
        Consider(e.value);
      }
      assert all[..nnodes] == all;
    }

    /** The items of a nodes2 list; one that is too short to unpack is ignored. */
    method LearnNodes2(items: seq<bytes>, now: Time)
      modifies this`todo
      ensures Abs() == LearnAll(old(Abs()), ourId, UnpackNodes2(items, now))
    {
      for i := 0 to |items|
        invariant Abs() == LearnAll(old(Abs()), ourId, UnpackNodes2(items[..i], now))
      {
        UnpackNodes2Snoc(items[..i], items[i], now);
        assert items[..i + 1] == items[..i] + [items[i]];
        var e := Unpack(items[i], 0, 6, now);
        if e.Some? {
          LearnSnoc(old(Abs()), ourId, UnpackNodes2(items[..i], now), e.value);
          Consider(e.value);
        } else {
          assert UnpackNodes2(items[..i], now) + [] == UnpackNodes2(items[..i], now);
        }
      }
      assert items[..|items|] == items;
    }

    /** callFinished: learn the nodes of a find_node response. */
    method CallFinished(findNodeRsp: bool, c: Container, now: Time)
      modifies this
      ensures Abs() == if findNodeRsp && !old(taskFinished) then LearnAll(old(Abs()), ourId, UnpackAll(c, now))
                       else old(Abs())
    {
      if taskFinished {
        return;
      }
      if findNodeRsp {
        LearnNodes(c.nodes, now);
        LearnNodes2(c.nodes2, now);
        LearnInTwo(old(Abs()), ourId, UnpackNodes(c.nodes, now), UnpackNodes2(c.nodes2, now));
        numNodesRsp := numNodesRsp + 1;
      }
    }

    method OnResponse(findNodeRsp: bool, c: Container, now: Time)
      modifies this
      ensures Abs() == Reply(old(Abs()), ourId, findNodeRsp, UnpackAll(c, now))
    {
      if outstandingReqs > 0 {
        outstandingReqs := outstandingReqs - 1;
      }
      if !taskFinished {
        LearnAllFrame(OneLess(old(Abs())), ourId, UnpackAll(c, now));
        CallFinished(findNodeRsp, c, now);
        if CanDoRequest() && !taskFinished {
          Update();
        }
      }
    }

    method OnTimeout()
      modifies this
      ensures Abs() == Expire(old(Abs()))
    {
      if outstandingReqs > 0 {
        outstandingReqs := outstandingReqs - 1;
      }
      if !taskFinished {
        if CanDoRequest() && !taskFinished {
          Update();
        }
      }
    }
  }

  lemma NothingLearned(t: Task, ourId: Key)
    ensures LearnAll(t, ourId, []) == t
  {
  }

  lemma LearnSnoc(t: Task, ourId: Key, es: seq<Entry>, e: Entry)
    ensures LearnAll(t, ourId, es + [e]) == Learn(LearnAll(t, ourId, es), ourId, e)
  {
    assert (es + [e])[..|es|] == es;
  }

  lemma {:induction false} LearnAllFrame(t: Task, ourId: Key, es: seq<Entry>)
    ensures var r := LearnAll(t, ourId, es); r == t.(todo := r.todo)
  {
    if es != [] {
      LearnAllFrame(t, ourId, es[..|es| - 1]);
    }
  }

  lemma {:induction false} LearnInTwo(t: Task, ourId: Key, a: seq<Entry>, b: seq<Entry>)
    ensures LearnAll(LearnAll(t, ourId, a), ourId, b) == LearnAll(t, ourId, a + b)
  {
    if b == [] {
      assert a + b == a;
    } else {
      LearnInTwo(t, ourId, a, b[..|b| - 1]);
      assert (a + b)[..|a + b| - 1] == a + b[..|b| - 1];
    }
  }
}

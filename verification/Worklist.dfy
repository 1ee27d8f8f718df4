/** What the two kinds of tasks share: their limits, and the list of nodes to ask, ordered by id (task.h, task.cpp). */
module Worklist {
  import opened Bytes
  import opened Entries
  import opened StdMap

  const MAX_CONCURRENT_REQS: nat := 16
  const VISIT_LIMIT: nat := 200

  function IdNo(e: Entry): nat {
    Val(e.id)
  }

  /** Each node is filed under its own id. */
  ghost predicate TodoFiled(todo: seq<(nat, Entry)>) {
    Sorted(todo) && forall i :: 0 <= i < |todo| ==> todo[i].0 == IdNo(todo[i].1)
  }

  /** The result of a search for the closest nodes put on the list. */
  function Fill(todo: seq<(nat, Entry)>, kns: seq<Entry>): seq<(nat, Entry)> {
    if kns == [] then todo
    else
      var e := kns[|kns| - 1];
      Insert(Fill(todo, kns[..|kns| - 1]), IdNo(e), e)
  }

  lemma InsertFiled(todo: seq<(nat, Entry)>, e: Entry)
    requires TodoFiled(todo)
    ensures TodoFiled(Insert(todo, IdNo(e), e))
  {
    var r := Insert(todo, IdNo(e), e);
    InsertSorted(todo, IdNo(e), e);
    forall i | 0 <= i < |r|
      ensures r[i].0 == IdNo(r[i].1)
    {
      InsertMembers(todo, IdNo(e), e, r[i]);
    }
  }

  lemma {:induction false} FillFiled(todo: seq<(nat, Entry)>, kns: seq<Entry>)
    requires TodoFiled(todo)
    ensures TodoFiled(Fill(todo, kns))
  {
    hide TodoFiled;
    if kns != [] {
      FillFiled(todo, kns[..|kns| - 1]);
      InsertFiled(Fill(todo, kns[..|kns| - 1]), kns[|kns| - 1]);
    }
  }
}

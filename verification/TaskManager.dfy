/** The TaskManager object, with the loops of taskmanager.cpp. */
module TaskManagers {
  import opened Scheduler
  import S = Scheduler
  import Rpc

  class TaskManager {
    var tasks: map<nat, Slot>
    var queued: seq<Slot>
    var added: nat
    ghost var removed: set<nat>
    ghost var resumed: seq<nat>

    /** The manager together with the RPC server. */
    ghost function Abs(rpc: Rpc.State): State
      reads this
    {
      State(tasks, queued, added, removed, resumed, rpc)
    }

    constructor ()
      ensures Abs(Rpc.EMPTY) == EMPTY
    {
      tasks, queued, added, removed, resumed := map[], [], 0, {}, [];
    }

    /** next_id is the number of tasks added, as far as 32 bits go. */
    method AddTask(task: Job, ghost rpc: Rpc.State)
      modifies this
      ensures Abs(rpc) == S.AddTask(old(Abs(rpc)), task)
    {
      var no := added;
      added := added + 1;
      if task.Queued() {
        queued := queued + [Slot(no, task)];
      } else {
        tasks := tasks[Id(no) := Slot(no, task)];
      }
    }

    /** DHT::canStartTask */
    predicate CanStartTask(rpc: Rpc.State)
      reads this
    {
      if |tasks| >= 7 then false
      else if 256 - |rpc.active| <= 16 then false
      else true
    }

    /** The server is passed in and out: a task that is started sends its first requests. */
    method RemoveFinishedTasks(rpc: Rpc.State) returns (rpc': Rpc.State)
      modifies this
      ensures Abs(rpc') == S.RemoveFinishedTasks(old(Abs(rpc)))
    {
      hide ResumeFirst, Job.Resume, Numbers;
      ghost var s := Abs(rpc);
      var rm := FindFinished();
      removed := removed + Numbers(s, rm);
      while rm != {}
        invariant rm <= tasks.Keys && tasks - rm == old(tasks) - S.Finished(s)
        invariant Abs(rpc) == s.(tasks := tasks, removed := s.removed + Numbers(s, S.Finished(s)))
        decreases rm
      {
        var id :| id in rm;
        tasks := tasks - {id};
        rm := rm - {id};
      }
      assert tasks - {} == tasks;
      assert Abs(rpc) == Sweep(s);
      rpc' := rpc;
      while CanStartTask(rpc') && |queued| > 0
        invariant ResumeSome(Abs(rpc')) == S.RemoveFinishedTasks(s)
        decreases |queued|
      {
        ghost var before := Abs(rpc');
        rpc' := ResumeNext(rpc');
        assert ResumeSome(before) == ResumeSome(ResumeFirst(before));
      }
    }

    method FindFinished() returns (rm: set<nat>)
      ensures forall s: State :: s.tasks == tasks ==> rm == S.Finished(s)
    {
      rm := {};
      var left := tasks.Keys;
      while left != {}
        invariant left <= tasks.Keys && rm <= tasks.Keys
        invariant forall id :: id in rm <==> id in tasks && id !in left && tasks[id].job.Finished()
        decreases left
      {
        var id :| id in left;
        left := left - {id};
        if tasks[id].job.Finished() {
          rm := rm + {id};
        }
      }
    }

    method ResumeNext(rpc: Rpc.State) returns (rpc': Rpc.State)
      requires queued != []
      modifies this
      ensures Abs(rpc') == ResumeFirst(old(Abs(rpc))) && |queued| == |old(queued)| - 1
    {
      var t := queued[0];
      queued := queued[1..];
      var job := t.job.Resume();
      rpc' := Rpc.SubmitAll(rpc, Calls(t.job, job));
      tasks := tasks[Id(t.no) := Slot(t.no, job)];
      resumed := resumed + [t.no];
    }
  }
}

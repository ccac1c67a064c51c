/**
 * The module-level state of the background-task service as one object:
 * `task_statuses`, the asyncio `task_queue` (its items' ids and its count of
 * unfinished items), where the single worker loop is, and `users_db`. Every
 * method changes the fields as the handler or the worker does, and is
 * proved against the state functions of `TaskQueue`, whose properties are
 * proved there.
 */
module TaskRuntime {
  import opened Wrappers
  import opened TaskQueue

  class Runtime {
    var statuses: map<string, TaskStatus>
    var queue: seq<string>
    var unfinished: int
    var worker: Worker
    var usersDb: seq<RegisteredUser>

    /** The registry, queue and worker as a value. */
    function Abstract(): State
      reads this
    {
      State(statuses, queue, unfinished, worker)
    }

    /** Process start-up: no records, an empty queue, the worker started and waiting, no users. */
    constructor ()
      ensures Abstract() == Initial && usersDb == []
      ensures WellFormed(Abstract())
    {
      statuses := map[];
      queue := [];
      unfinished := 0;
      worker := Waiting;
      usersDb := [];
      new;
      InitialWellFormed();
    }

    /**
     * `add_task`: the record is stored by plain assignment under the id
     * built from the name and the clock's whole seconds (a record already
     * there is replaced), and the id is put at the tail of the queue.
     */
    method AddTask(name: string, secs: nat, now: int) returns (resp: AddTaskResponse)
      modifies this
      ensures (Abstract(), resp) == TaskQueue.AddTask(old(Abstract()), name, secs, now)
      ensures usersDb == old(usersDb)
      ensures WellFormed(old(Abstract())) && !Pending(old(Abstract()), TaskId(name, secs)) ==> WellFormed(Abstract())
    {
      ghost var before := Abstract();
      var id := TaskId(name, secs);
      statuses := statuses[id := TaskStatus(id, Queued, now, None, None)];
      queue := queue + [id];
      unfinished := unfinished + 1;
      resp := AddTaskResponse("Task '" + name + "' has been added to queue", id, StatusName(Queued));
      if WellFormed(before) && !Pending(before, id) {
        AddTaskPreserves(before, name, secs, now);
      }
    }

    /**
     * The first half of a turn of the worker: `await task_queue.get()`
     * returns the head, and its record, if there is one, is marked
     * processing. With an empty queue the `get` would block, and a worker
     * that is not waiting on the queue takes nothing: nothing changes.
     */
    method Begin()
      modifies this
      ensures Abstract() == TaskQueue.Begin(old(Abstract()))
      ensures usersDb == old(usersDb)
      ensures WellFormed(old(Abstract())) ==> WellFormed(Abstract())
    {
      ghost var before := Abstract();
      if worker.Waiting? && |queue| > 0 {
        var id := queue[0];
        queue := queue[1..];
        if id in statuses {
          statuses := statuses[id := statuses[id].(status := Processing)];
        }
        worker := Executing(id);
      }
      if WellFormed(before) {
        BeginPreserves(before);
      }
    }

    /**
     * The second half: the awaited unit of work ended at `now`. The record
     * is marked completed, or failed with the error text, and stamped; the
     * failure goes no further; `task_done` is called in the `finally`.
     */
    method Finish(outcome: Outcome, now: int)
      modifies this
      ensures Abstract() == TaskQueue.Finish(old(Abstract()), Execution(outcome, now))
      ensures usersDb == old(usersDb)
      ensures WellFormed(old(Abstract())) ==> WellFormed(Abstract())
    {
      ghost var before := Abstract();
      if worker.Executing? {
        var id := worker.id;
        if id in statuses {
          var t := statuses[id];
          match outcome {
            case Success =>
              t := t.(status := Completed);
              t := t.(completedAt := Some(now));
            case Failure(message) =>
              t := t.(status := Failed);
              t := t.(error := Some(message));
              t := t.(completedAt := Some(now));
          }
          statuses := statuses[id := t];
        }
        unfinished := unfinished - 1;
        worker := Waiting;
      }
      if WellFormed(before) {
        FinishPreserves(before, Execution(outcome, now));
      }
    }

    /** One turn of the `while True` loop of `process_task_queue`, the unit of work ending with `outcome` at `now`. */
    method Step(outcome: Outcome, now: int)
      modifies this
      ensures Abstract() == TaskQueue.Step(old(Abstract()), Execution(outcome, now))
      ensures usersDb == old(usersDb)
      ensures WellFormed(old(Abstract())) ==> WellFormed(Abstract())
    {
      Begin();
      Finish(outcome, now);
    }

    /**
     * `process_task_queue` over a run of turns, one per execution, in
     * order. The queued ids are finished in enqueue order, each by the
     * execution of its turn, and no other record changes.
     */
    method ProcessQueue(execs: seq<Execution>)
      modifies this
      ensures Abstract() == Run(old(Abstract()), execs)
      ensures usersDb == old(usersDb)
      ensures WellFormed(old(Abstract())) ==> WellFormed(Abstract())
      ensures old(worker).Waiting? && |execs| <= |old(queue)| && UniqueRecorded(old(Abstract())) ==>
        FinishedInOrder(old(statuses), old(queue), execs, statuses)
    {
      ghost var start := Abstract();
      var i := 0;
      while i < |execs|
        invariant 0 <= i <= |execs|
        invariant Abstract() == Run(start, execs[..i])
        invariant usersDb == old(usersDb)
      {
        assert execs[..i + 1][..i] == execs[..i];
        Step(execs[i].outcome, execs[i].finishedAt);
        i := i + 1;
      }
      assert execs[..i] == execs;
      if WellFormed(start) {
        RunPreserves(start, execs);
      }
      if start.worker.Waiting? && |execs| <= |start.queue| && UniqueRecorded(start) {
        RunFifo(start, execs);
      }
    }

    /**
     * Cancelling the worker task: it stops for good; if it was awaiting a
     * unit of work, the `finally` still calls `task_done` and the record
     * stays processing.
     */
    method Cancel()
      modifies this
      ensures Abstract() == TaskQueue.Cancel(old(Abstract()))
      ensures usersDb == old(usersDb)
      ensures WellFormed(old(Abstract())) ==> WellFormed(Abstract())
    {
      if worker.Executing? {
        unfinished := unfinished - 1;
      }
      worker := Cancelled;
    }

    /**
     * The `users_db` check of `user_registration`: a known email is refused
     * with 400 and the list is left as it is; otherwise the user is
     * appended at the end. The task registry is not touched.
     */
    method UserRegistration(user: RegisteredUser) returns (r: Result<RegisteredUser, HttpError>)
      modifies this
      ensures (usersDb, r) == TaskQueue.UserRegistration(old(usersDb), user)
      ensures Abstract() == old(Abstract())
      ensures UniqueEmails(old(usersDb)) ==> UniqueEmails(usersDb)
    {
      if user.email in Emails(usersDb) {
        r := Err(UserExists);
      } else {
        usersDb := usersDb + [user];
        r := Ok(user);
      }
      if UniqueEmails(old(usersDb)) {
        RegistrationKeepsEmailsUnique(old(usersDb), user);
      }
    }
  }
}

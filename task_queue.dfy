/**
 * The task registry and its single FIFO worker, as values: `statuses` is
 * the map from task id to its record, `queue` the ids waiting in the
 * asyncio queue (oldest first), `unfinished` the queue's count of items put
 * and not yet marked done, and `worker` where the one worker loop is.
 *
 * One turn of the worker is split at its only suspension point inside a
 * turn: `Begin` (take the head, mark it processing) and `Finish` (record
 * the outcome, mark the item done). `Step` is the two together. Clock
 * readings are parameters; the outcome of a unit of work is an input.
 */
module TaskQueue {
  import opened Wrappers
  import opened Text

  datatype Status = Queued | Processing | Completed | Failed

  /** The status strings the API reports. */
  function StatusName(st: Status): string {
    match st
    case Queued => "queued"
    case Processing => "processing"
    case Completed => "completed"
    case Failed => "failed"
  }

  datatype TaskStatus = TaskStatus(
    taskId: string,
    status: Status,
    createdAt: int,
    completedAt: Option<int>,
    error: Option<string>)

  /** The result of awaiting one unit of work: it returned, or raised with this message. */
  datatype Outcome = Success | Failure(message: string)

  /** One unit of work run by the worker: how it ended and the clock when it did. */
  datatype Execution = Execution(outcome: Outcome, finishedAt: int)

  /** Waiting on the queue, awaiting the unit of work of this id, or stopped by cancellation. */
  datatype Worker = Waiting | Executing(id: string) | Cancelled

  datatype State = State(
    statuses: map<string, TaskStatus>,
    queue: seq<string>,
    unfinished: int,
    worker: Worker)

  /** At start-up: no records, an empty queue, the worker waiting. */
  const Initial := State(map[], [], 0, Waiting)

  /** `f"task_{name}_{int(time.time())}"`, with the whole seconds as `secs`. */
  function TaskId(name: string, secs: nat): (id: string)
    ensures |id| > |name| + 6
    ensures id[..5] == "task_" && id[5..5 + |name|] == name && id[5 + |name|] == '_'
    ensures id[|name| + 6..] == Decimal(secs)
  {
    "task_" + name + "_" + Decimal(secs)
  }

  /** The parts of an id: the name after "task_", then '_', then the seconds' digits to the end. */
  lemma TaskIdParts(name: string, secs: nat)
    ensures var id, d := TaskId(name, secs), Decimal(secs);
      && |id| == |name| + 6 + |d|
      && id[5..|name| + 5] == name && id[|name| + 5] == '_' && id[|name| + 6..] == d
      && forall j :: |name| + 5 < j < |id| ==> IsDigit(id[j])
  {
    var id, d := TaskId(name, secs), Decimal(secs);
    assert id == "task_" + name + "_" + d;
    assert forall j :: |name| + 5 < j < |id| ==> id[j] == d[j - |name| - 6];
  }

  /**
   * Different names, or the same name in different seconds, give different
   * ids: the digits after the last '_' hold the seconds. Two `add_task`
   * calls collide exactly when they carry the same name and read the same
   * whole second from the clock.
   */
  lemma TaskIdInjective(name1: string, secs1: nat, name2: string, secs2: nat)
    requires TaskId(name1, secs1) == TaskId(name2, secs2)
    ensures name1 == name2 && secs1 == secs2
  {
    var id := TaskId(name1, secs1);
    TaskIdParts(name1, secs1);
    TaskIdParts(name2, secs2);
    assert |name1| == |name2|;
    assert Decimal(secs1) == id[|name1| + 6..] == Decimal(secs2);
    DecimalRoundTrip(secs1);
    DecimalRoundTrip(secs2);
  }

  /** The body of the 202 response of `add_task`. */
  datatype AddTaskResponse = AddTaskResponse(message: string, taskId: string, status: string)

  function QueuedRecord(id: string, now: int): TaskStatus {
    TaskStatus(id, Queued, now, None, None)
  }

  /**
   * `add_task`: a fresh record in state queued is stored under the id by
   * plain assignment (a record already under that id is replaced), the id is
   * put at the tail of the queue, and the id is returned with status queued.
   */
  function AddTask(s: State, name: string, secs: nat, now: int): (r: (State, AddTaskResponse))
    ensures var id := TaskId(name, secs);
      && r.0.statuses.Keys == s.statuses.Keys + {id}
      && r.0.statuses[id] == TaskStatus(id, Queued, now, None, None)
      && (forall other :: other in s.statuses && other != id ==> r.0.statuses[other] == s.statuses[other])
      && r.0.queue == s.queue + [id]
      && r.0.unfinished == s.unfinished + 1
      && r.0.worker == s.worker
      && r.1 == AddTaskResponse("Task '" + name + "' has been added to queue", id, "queued")
  {
    var id := TaskId(name, secs);
    (State(s.statuses[id := QueuedRecord(id, now)], s.queue + [id], s.unfinished + 1, s.worker),
     AddTaskResponse("Task '" + name + "' has been added to queue", id, StatusName(Queued)))
  }

  /**
   * The worker takes the head of the queue and marks its record processing,
   * if it has one. With an empty queue the `get` blocks, and a worker that
   * is not waiting takes nothing: both leave the state as it is.
   */
  function Begin(s: State): (r: State)
    ensures s.worker.Waiting? && |s.queue| > 0 ==>
      && r.worker == Executing(s.queue[0])
      && r.queue == s.queue[1..]
      && r.unfinished == s.unfinished
      && (s.queue[0] in s.statuses ==> r.statuses == s.statuses[s.queue[0] := s.statuses[s.queue[0]].(status := Processing)])
      && (s.queue[0] !in s.statuses ==> r.statuses == s.statuses)
    ensures !(s.worker.Waiting? && |s.queue| > 0) ==> r == s
  {
    if s.worker.Waiting? && |s.queue| > 0 then
      var id := s.queue[0];
      var statuses := if id in s.statuses then s.statuses[id := s.statuses[id].(status := Processing)] else s.statuses;
      State(statuses, s.queue[1..], s.unfinished, Executing(id))
    else s
  }

  /** The record after its unit of work ended: completed, or failed with the error text; stamped either way. */
  function Finished(t: TaskStatus, e: Execution): (u: TaskStatus)
    ensures u.taskId == t.taskId && u.createdAt == t.createdAt && u.completedAt == Some(e.finishedAt)
    ensures e.outcome.Success? ==> u.status == Completed && u.error == t.error
    ensures e.outcome.Failure? ==> u.status == Failed && u.error == Some(e.outcome.message)
  {
    match e.outcome
    case Success => t.(status := Completed, completedAt := Some(e.finishedAt))
    case Failure(msg) => t.(status := Failed, error := Some(msg), completedAt := Some(e.finishedAt))
  }

  /**
   * The unit of work of the executing id ended: its record (if any) is
   * finished, the failure is swallowed, `task_done` is called once and the
   * worker waits again. A worker that is not executing is not affected.
   */
  function Finish(s: State, e: Execution): (r: State)
    ensures s.worker.Executing? ==>
      && r.worker == Waiting
      && r.queue == s.queue
      && r.unfinished == s.unfinished - 1
      && (s.worker.id in s.statuses ==> r.statuses == s.statuses[s.worker.id := Finished(s.statuses[s.worker.id], e)])
      && (s.worker.id !in s.statuses ==> r.statuses == s.statuses)
    ensures !s.worker.Executing? ==> r == s
  {
    if s.worker.Executing? then
      var id := s.worker.id;
      var statuses := if id in s.statuses then s.statuses[id := Finished(s.statuses[id], e)] else s.statuses;
      State(statuses, s.queue, s.unfinished - 1, Waiting)
    else s
  }

  /** One full turn of the worker loop. */
  function Step(s: State, e: Execution): (r: State)
    ensures s.worker.Waiting? && |s.queue| == 0 ==> r == s
    ensures s.worker.Waiting? && |s.queue| > 0 ==> r.worker == Waiting && r.queue == s.queue[1..] && r.unfinished == s.unfinished - 1
  {
    Finish(Begin(s), e)
  }

  /**
   * Cancelling the worker task: while waiting it just stops; while awaiting
   * a unit of work, the `finally` still calls `task_done` but the record is
   * left processing, since the cancellation is not an `Exception`.
   */
  function Cancel(s: State): (r: State)
    ensures r.worker == Cancelled && r.statuses == s.statuses && r.queue == s.queue
    ensures r.unfinished == s.unfinished - (if s.worker.Executing? then 1 else 0)
  {
    State(s.statuses, s.queue, if s.worker.Executing? then s.unfinished - 1 else s.unfinished, Cancelled)
  }

  /** The worker's turns, one per execution, in order. */
  function Run(s: State, execs: seq<Execution>): (r: State)
    ensures r.statuses.Keys == s.statuses.Keys
    ensures r.worker.Cancelled? <==> s.worker.Cancelled?
    decreases |execs|
  {
    if |execs| == 0 then s else Step(Run(s, execs[..|execs| - 1]), execs[|execs| - 1])
  }

  const TaskNotFound := HttpError(NOT_FOUND, "Task not found")

  /** `get_task_status`: 404 for an id with no record, otherwise the stored record. */
  function GetTaskStatus(s: State, id: string): (r: Result<TaskStatus, HttpError>)
    ensures r.Err? <==> id !in s.statuses
    ensures r.Err? ==> r.error == TaskNotFound
    ensures r.Ok? ==> r.value == s.statuses[id]
  {
    if id !in s.statuses then Err(TaskNotFound) else Ok(s.statuses[id])
  }

  /** The ids whose record is in the given state. */
  function WithStatus(m: map<string, TaskStatus>, st: Status): (ids: set<string>)
    ensures ids <= m.Keys
  {
    set id | id in m && m[id].status == st
  }

  datatype QueueStatus = QueueStatus(
    queueSize: int,
    totalTasks: int,
    completedTasks: int,
    failedTasks: int,
    processingTasks: int)

  lemma SubsetCard<T>(a: set<T>, b: set<T>)
    requires a <= b
    ensures |a| <= |b|
  {
    assert b == a + (b - a);
  }

  /**
   * `get_queue_status`: the counts of completed, failed and processing
   * records count disjoint sets of records, so together they never exceed
   * the number of records; the queue size is the queue's length.
   */
  function GetQueueStatus(s: State): (r: QueueStatus)
    ensures r.queueSize == |s.queue| && r.totalTasks == |s.statuses|
    ensures r.completedTasks == |WithStatus(s.statuses, Completed)|
    ensures r.failedTasks == |WithStatus(s.statuses, Failed)|
    ensures r.processingTasks == |WithStatus(s.statuses, Processing)|
    ensures r.completedTasks + r.failedTasks + r.processingTasks <= r.totalTasks
  {
    var c := WithStatus(s.statuses, Completed);
    var f := WithStatus(s.statuses, Failed);
    var p := WithStatus(s.statuses, Processing);
    assert c !! f && c !! p && f !! p;
    assert |c + f + p| == |c| + |f| + |p|;
    SubsetCard(c + f + p, s.statuses.Keys);
    QueueStatus(|s.queue|, |s.statuses|, |c|, |f|, |p|)
  }

  // ---------------------------------------------------------------------
  // The invariant that holds while every id is unique

  predicate Distinct(q: seq<string>) {
    forall i, j :: 0 <= i < j < |q| ==> q[i] != q[j]
  }

  /** The id is waiting in the queue or being worked on. */
  predicate Pending(s: State, id: string) {
    id in s.queue || s.worker == Executing(id)
  }

  /** A record is stamped exactly when it is done, and carries an error exactly when it failed. */
  predicate CoherentRecord(id: string, t: TaskStatus) {
    && t.taskId == id
    && (t.completedAt.Some? <==> t.status == Completed || t.status == Failed)
    && (t.error.Some? <==> t.status == Failed)
  }

  /** Every queued id has a queued record, and every queued record is in the queue, once. */
  ghost predicate QueueMatches(s: State) {
    && Distinct(s.queue)
    && (forall id :: id in s.queue ==> id in s.statuses && s.statuses[id].status == Queued)
    && (forall id :: id in s.statuses && s.statuses[id].status == Queued ==> id in s.queue)
  }

  /** The executing id has a processing record; a processing record is the executing one, or was cut off by cancellation. */
  ghost predicate WorkerMatches(s: State) {
    && (s.worker.Executing? ==> s.worker.id in s.statuses && s.statuses[s.worker.id].status == Processing)
    && (forall id :: id in s.statuses && s.statuses[id].status == Processing ==> s.worker == Executing(id) || s.worker.Cancelled?)
  }

  ghost predicate WellFormed(s: State) {
    && QueueMatches(s)
    && WorkerMatches(s)
    && (forall id :: id in s.statuses ==> CoherentRecord(id, s.statuses[id]))
    && s.unfinished == |s.queue| + (if s.worker.Executing? then 1 else 0)
  }

  lemma InitialWellFormed()
    ensures WellFormed(Initial)
  {
  }

  /** Adding a task whose id is not pending keeps the invariant, a replaced finished record included. */
  lemma AddTaskPreserves(s: State, name: string, secs: nat, now: int)
    requires WellFormed(s)
    requires !Pending(s, TaskId(name, secs))
    ensures WellFormed(AddTask(s, name, secs, now).0)
  {
    var id := TaskId(name, secs);
    var r := AddTask(s, name, secs, now).0;
    assert forall i :: 0 <= i < |s.queue| ==> r.queue[i] == s.queue[i];
    assert r.queue[|s.queue|] == id;
    assert QueueMatches(r) by {
      assert Distinct(r.queue);
      forall x | x in r.statuses && r.statuses[x].status == Queued
        ensures x in r.queue
      {
        if x != id {
          assert x in s.queue;
        }
      }
    }
  }

  /**
   * A second `add_task` for a pending id (same name within the same second)
   * breaks the invariant: the id is then queued twice, or its running task's
   * record is reset to queued.
   */
  lemma AddTaskCollision(s: State, name: string, secs: nat, now: int)
    requires WellFormed(s)
    requires Pending(s, TaskId(name, secs))
    ensures !WellFormed(AddTask(s, name, secs, now).0)
  {
    var id := TaskId(name, secs);
    var r := AddTask(s, name, secs, now).0;
    if id in s.queue {
      var i :| 0 <= i < |s.queue| && s.queue[i] == id;
      assert r.queue[i] == r.queue[|s.queue|];
      assert !Distinct(r.queue);
    } else {
      assert r.worker == Executing(id) && r.statuses[id].status == Queued;
    }
  }

  lemma BeginPreserves(s: State)
    requires WellFormed(s)
    ensures WellFormed(Begin(s))
  {
    if s.worker.Waiting? && |s.queue| > 0 {
      var r := Begin(s);
      var id := s.queue[0];
      assert forall i :: 0 <= i < |r.queue| ==> r.queue[i] == s.queue[i + 1];
      assert id !in r.queue;
      assert QueueMatches(r) by {
        forall x | x in r.statuses && r.statuses[x].status == Queued
          ensures x in r.queue
        {
          assert x in s.queue && x != id;
          var i :| 0 <= i < |s.queue| && s.queue[i] == x;
          assert r.queue[i - 1] == x;
        }
      }
    }
  }

  lemma FinishPreserves(s: State, e: Execution)
    requires WellFormed(s)
    ensures WellFormed(Finish(s, e))
  {
  }

  lemma StepPreserves(s: State, e: Execution)
    requires WellFormed(s)
    ensures WellFormed(Step(s, e))
  {
    BeginPreserves(s);
    FinishPreserves(Begin(s), e);
  }

  lemma CancelPreserves(s: State)
    requires WellFormed(s)
    ensures WellFormed(Cancel(s))
  {
  }

  /** The only ways a record's status moves, given unique ids. */
  predicate Allowed(before: Status, after: Status) {
    || before == after
    || (before == Queued && after == Processing)
    || (before == Processing && (after == Completed || after == Failed))
  }

  /** One transition of the registry, with its inputs. */
  datatype Event =
    | Add(name: string, secs: nat, now: int)
    | TakeHead
    | Done(execution: Execution)
    | Stop

  function Apply(s: State, ev: Event): State {
    match ev
    case Add(name, secs, now) => AddTask(s, name, secs, now).0
    case TakeHead => Begin(s)
    case Done(e) => Finish(s, e)
    case Stop => Cancel(s)
  }

  /** An event that keeps ids unique: a task is never added under an id that already has a record. */
  predicate FreshEvent(s: State, ev: Event) {
    ev.Add? ==> TaskId(ev.name, ev.secs) !in s.statuses
  }

  /**
   * With unique ids, every record moves queued, then processing, then
   * completed or failed, never back; a new record starts queued.
   */
  lemma Lifecycle(s: State, ev: Event)
    requires WellFormed(s) && FreshEvent(s, ev)
    ensures var r := Apply(s, ev);
      && s.statuses.Keys <= r.statuses.Keys
      && (forall id :: id in s.statuses ==> Allowed(s.statuses[id].status, r.statuses[id].status))
      && (forall id :: id in r.statuses && id !in s.statuses ==> r.statuses[id].status == Queued)
  {
    match ev
    case Add(name, secs, now) =>
    case TakeHead =>
    case Done(e) =>
      if s.worker.Executing? {
        assert s.statuses[s.worker.id].status == Processing;
      }
    case Stop =>
  }

  /**
   * With unique ids, a completed or failed record is never changed again,
   * so repeated lookups of it give the same record.
   */
  lemma TerminalIsFinal(s: State, ev: Event, id: string)
    requires WellFormed(s) && FreshEvent(s, ev)
    requires id in s.statuses && s.statuses[id].status in {Completed, Failed}
    ensures GetTaskStatus(Apply(s, ev), id) == GetTaskStatus(s, id)
  {
    match ev
    case Add(name, secs, now) =>
    case TakeHead =>
      if s.worker.Waiting? && |s.queue| > 0 {
        assert s.statuses[s.queue[0]].status == Queued;
      }
    case Done(e) =>
      if s.worker.Executing? {
        assert s.statuses[s.worker.id].status == Processing;
      }
    case Stop =>
  }

  /** Records are never removed, so `total_tasks` never decreases. */
  lemma TotalNeverDecreases(s: State, ev: Event)
    ensures GetQueueStatus(s).totalTasks <= GetQueueStatus(Apply(s, ev)).totalTasks
  {
    var r := Apply(s, ev);
    assert s.statuses.Keys <= r.statuses.Keys;
    SubsetCard(s.statuses.Keys, r.statuses.Keys);
  }

  /** A turn from a waiting state finishes the head of the queue and touches no other record. */
  lemma StepTakesHead(s: State, e: Execution)
    requires s.worker.Waiting? && |s.queue| > 0 && s.queue[0] in s.statuses
    ensures var id := s.queue[0];
      Step(s, e).statuses == s.statuses[id := Finished(s.statuses[id], e)]
  {
  }

  /** Running over `n` executions from a waiting state takes `n` items off the head and calls `task_done` `n` times. */
  lemma {:induction false} RunQueue(s: State, execs: seq<Execution>)
    requires s.worker.Waiting? && |execs| <= |s.queue|
    ensures var r := Run(s, execs);
      && r.worker.Waiting?
      && r.queue == s.queue[|execs|..]
      && r.unfinished == s.unfinished - |execs|
    decreases |execs|
  {
    if |execs| > 0 {
      RunQueue(s, execs[..|execs| - 1]);
    }
  }

  /** The invariant holds after any number of the worker's turns. */
  lemma {:induction false} RunPreserves(s: State, execs: seq<Execution>)
    requires WellFormed(s)
    ensures WellFormed(Run(s, execs))
    decreases |execs|
  {
    if |execs| > 0 {
      RunPreserves(s, execs[..|execs| - 1]);
      StepPreserves(Run(s, execs[..|execs| - 1]), execs[|execs| - 1]);
    }
  }

  /** The first `|execs|` ids of `q` are finished in `r` by the executions, in order. */
  ghost predicate PrefixFinished(m: map<string, TaskStatus>, q: seq<string>, execs: seq<Execution>, r: map<string, TaskStatus>)
    requires |execs| <= |q|
  {
    forall i :: 0 <= i < |execs| ==> q[i] in m && q[i] in r && r[q[i]] == Finished(m[q[i]], execs[i])
  }

  /** Every record of `m` whose id is not among the first `n` of `q` is as it was in `r`. */
  ghost predicate OthersUntouched(m: map<string, TaskStatus>, q: seq<string>, n: nat, r: map<string, TaskStatus>)
    requires n <= |q|
  {
    forall id :: id in m && id !in q[..n] ==> id in r && r[id] == m[id]
  }

  /** The first `n` queued ids of `q` finished by the first `n` executions, every other record of `m` as it was. */
  ghost predicate FinishedInOrder(m: map<string, TaskStatus>, q: seq<string>, execs: seq<Execution>, r: map<string, TaskStatus>)
    requires |execs| <= |q|
  {
    PrefixFinished(m, q, execs, r) && OthersUntouched(m, q, |execs|, r)
  }

  lemma PrefixFinishedExtend(m: map<string, TaskStatus>, q: seq<string>, execs: seq<Execution>, before: map<string, TaskStatus>, e: Execution)
    requires |execs| < |q| && Distinct(q) && q[|execs|] in m
    requires PrefixFinished(m, q, execs, before)
    ensures PrefixFinished(m, q, execs + [e], before[q[|execs|] := Finished(m[q[|execs|]], e)])
  {
    var n := |execs|;
    var execs' := execs + [e];
    forall i | 0 <= i < n
      ensures q[i] != q[n] && execs'[i] == execs[i]
    {
    }
  }

  lemma OthersUntouchedExtend(m: map<string, TaskStatus>, q: seq<string>, n: nat, before: map<string, TaskStatus>, t: TaskStatus)
    requires n < |q|
    requires OthersUntouched(m, q, n, before)
    ensures OthersUntouched(m, q, n + 1, before[q[n] := t])
  {
    assert q[..n + 1] == q[..n] + [q[n]];
  }

  lemma FinishedInOrderExtend(m: map<string, TaskStatus>, q: seq<string>, execs: seq<Execution>, before: map<string, TaskStatus>, e: Execution)
    requires |execs| < |q| && Distinct(q) && q[|execs|] in m
    requires FinishedInOrder(m, q, execs, before)
    ensures FinishedInOrder(m, q, execs + [e], before[q[|execs|] := Finished(m[q[|execs|]], e)])
  {
    PrefixFinishedExtend(m, q, execs, before, e);
    OthersUntouchedExtend(m, q, |execs|, before, Finished(m[q[|execs|]], e));
  }

  /** The queued ids are distinct and each has a record. */
  predicate UniqueRecorded(s: State) {
    Distinct(s.queue) && forall i :: 0 <= i < |s.queue| ==> s.queue[i] in s.statuses
  }

  /** In a queue of distinct ids, the id at `n` is not among the ones before it. */
  lemma NotInPrefix(q: seq<string>, n: nat)
    requires Distinct(q) && n < |q|
    ensures q[n] !in q[..n]
  {
  }

  /** One more turn extends the finished prefix by the next queued id. */
  lemma FifoAdvance(s: State, execs: seq<Execution>, prev: State)
    requires 0 < |execs| <= |s.queue| && UniqueRecorded(s)
    requires prev.worker.Waiting? && prev.queue == s.queue[|execs| - 1..] && prev.statuses.Keys == s.statuses.Keys
    requires FinishedInOrder(s.statuses, s.queue, execs[..|execs| - 1], prev.statuses)
    ensures FinishedInOrder(s.statuses, s.queue, execs, Step(prev, execs[|execs| - 1]).statuses)
  {
    var n := |execs| - 1;
    var id, e := s.queue[n], execs[n];
    PrefixAndLast(execs);
    assert prev.queue[0] == id;
    assert id in s.statuses;
    NotInPrefix(s.queue, n);
    assert prev.statuses[id] == s.statuses[id];
    StepTakesHead(prev, e);
    FinishedInOrderExtend(s.statuses, s.queue, execs[..n], prev.statuses, e);
  }

  lemma PrefixAndLast<T>(xs: seq<T>)
    requires |xs| > 0
    ensures xs[..|xs| - 1] + [xs[|xs| - 1]] == xs
  {
  }

  /**
   * FIFO: run from a waiting state over `n` executions (no more than the
   * queue holds), with the queued ids distinct and recorded, the i-th queued
   * id is finished by the i-th execution, and every other record is
   * unchanged.
   */
  lemma {:induction false} RunFifo(s: State, execs: seq<Execution>)
    requires s.worker.Waiting? && |execs| <= |s.queue|
    requires UniqueRecorded(s)
    ensures FinishedInOrder(s.statuses, s.queue, execs, Run(s, execs).statuses)
    decreases |execs|
  {
    if |execs| > 0 {
      var n := |execs| - 1;
      RunFifo(s, execs[..n]);
      RunQueue(s, execs[..n]);
      FifoAdvance(s, execs, Run(s, execs[..n]));
    }
  }

  // ---------------------------------------------------------------------
  // `users_db` and `user_registration`

  datatype RegisteredUser = RegisteredUser(name: string, email: string, phone: string)

  function Emails(db: seq<RegisteredUser>): (es: set<string>)
    ensures forall e :: e in es <==> exists k :: 0 <= k < |db| && db[k].email == e
  {
    set k | 0 <= k < |db| :: db[k].email
  }

  const UserExists := HttpError(BAD_REQUEST, "User exists.")

  /**
   * The `users_db` check of `user_registration`: a known email is refused
   * with 400 and the list is left as it is; otherwise the user is appended
   * once, at the end, and returned.
   */
  function UserRegistration(db: seq<RegisteredUser>, user: RegisteredUser): (r: (seq<RegisteredUser>, Result<RegisteredUser, HttpError>))
    ensures r.1.Err? <==> exists k :: 0 <= k < |db| && db[k].email == user.email
    ensures r.1.Err? ==> r.0 == db && r.1.error == UserExists
    ensures r.1.Ok? ==> r.0 == db + [user] && r.1.value == user
  {
    if user.email in Emails(db) then (db, Err(UserExists)) else (db + [user], Ok(user))
  }

  predicate UniqueEmails(db: seq<RegisteredUser>) {
    forall i, j :: 0 <= i < j < |db| ==> db[i].email != db[j].email
  }

  /** Registration keeps emails unique: each email is in `users_db` at most once. */
  lemma RegistrationKeepsEmailsUnique(db: seq<RegisteredUser>, user: RegisteredUser)
    requires UniqueEmails(db)
    ensures UniqueEmails(UserRegistration(db, user).0)
  {
    var r := UserRegistration(db, user).0;
    if r != db {
      forall i, j | 0 <= i < j < |r|
        ensures r[i].email != r[j].email
      {
        if j == |db| {
          assert r[i] == db[i];
        }
      }
    }
  }
}

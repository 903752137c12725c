/**
 The task table and the operations that change it. Every operation here is one critical
 section of the source: it runs from taking the table's lock to releasing it.
 */
module TaskRuntime {
  import opened Support
  import opened TaskModel

  const MAX_ACTIVE_TASKS_PER_OWNER: nat := 32
  const MAX_RETAINED_TASKS: nat := 128

  type Store = map<TaskId, OwnedTask>

  datatype Event = Changed(snapshot: Snapshot) | Removed(taskId: TaskId)

  // ----- Critical sections as functions and relations on the table -----

  function ActiveIds(store: Store, owner: string): (r: set<TaskId>)
    ensures forall id :: id in r <==>
              id in store && store[id].snapshot.owner == owner && store[id].snapshot.state in {Queued, Running, Waiting}
  {
    set id | id in store && store[id].snapshot.owner == owner && !IsTerminal(store[id].snapshot.state)
  }

  /** `id` is a terminal task, and none of the terminal tasks was updated earlier. */
  predicate OldestTerminal(store: Store, id: TaskId) {
    && id in store
    && IsTerminal(store[id].snapshot.state)
    && forall other :: other in store && IsTerminal(store[other].snapshot.state) ==>
         store[id].snapshot.updatedAt <= store[other].snapshot.updatedAt
  }

  function NewTask(id: TaskId, spec: Spec, now: Time): OwnedTask {
    OwnedTask(
      Snapshot(id, spec.owner, spec.toolName, spec.mode, Queued, 0, None, None, now, now),
      spec.argumentsJson, None, false, false)
  }

  /**
   How `create` may change the table. Which of several equally old terminal tasks is
   evicted depends on hash order, so this is a relation.
   */
  ghost predicate Creates(
    before: Store, after: Store, id: TaskId, spec: Spec, now: Time,
    evicted: Option<TaskId>, error: Option<ValidationError>)
  {
    if Validate(spec).Some? then
      after == before && evicted == None && error == Validate(spec)
    else if |ActiveIds(before, spec.owner)| >= MAX_ACTIVE_TASKS_PER_OWNER then
      after == before && evicted == None && error == Some(TooManyActiveTasks)
    else if |before| < MAX_RETAINED_TASKS then
      after == before[id := NewTask(id, spec, now)] && evicted == None && error == None
    else if evicted.Some? then
      && OldestTerminal(before, evicted.value)
      && after == (before - {evicted.value})[id := NewTask(id, spec, now)]
      && error == None
    else
      && (forall other :: other in before ==> !IsTerminal(before[other].snapshot.state))
      && after == before && error == Some(TaskCapacityReached)
  }

  function Cancelling(task: OwnedTask, now: Time): OwnedTask {
    task.(cancelled := true, snapshot := task.snapshot.(state := Cancelled, updatedAt := now))
  }

  predicate Cancellable(store: Store, id: TaskId) {
    id in store && !IsTerminal(store[id].snapshot.state)
  }

  function Cancels(store: Store, id: TaskId, now: Time): Store {
    if Cancellable(store, id) then store[id := Cancelling(store[id], now)] else store
  }

  predicate Startable(store: Store, id: TaskId) {
    id in store && !store[id].cancelled
  }

  function Prepares(store: Store, id: TaskId, now: Time): Store {
    if Startable(store, id) then store[id := BeforeRun(store[id], now)] else store
  }

  function ExecutionFor(store: Store, id: TaskId, now: Time): Option<Execution> {
    if Startable(store, id) then
      var task := BeforeRun(store[id], now);
      Some(Execution(id, task.snapshot.toolName, task.argumentsJson, task.snapshot.runCount))
    else None
  }

  function Applies(store: Store, id: TaskId, result: RunResult, now: Time): Store {
    if Startable(store, id) then store[id := AfterRun(store[id], result, now)] else store
  }

  function NextFor(store: Store, id: TaskId, result: RunResult): NextRun {
    if Startable(store, id) && !Finishes(store[id], result)
    then Wait(IntervalSeconds(store[id].snapshot.mode))
    else Stop
  }

  /** The clock readings a sweep over many tasks makes, one for each task it reaches. */
  type Readings = map<TaskId, Time>

  function ReadingAt(now: Readings, id: TaskId): Time {
    if id in now then now[id] else 0
  }

  /** Every cancellable task of `ids` cancelled, the others untouched. */
  function CancelsAll(store: Store, ids: set<TaskId>, now: Readings): Store {
    map id | id in store ::
      if id in ids && !IsTerminal(store[id].snapshot.state) then Cancelling(store[id], ReadingAt(now, id)) else store[id]
  }

  function CancellableOf(store: Store, ids: set<TaskId>): set<TaskId> {
    set id | id in ids && Cancellable(store, id)
  }

  lemma CancelsNone(store: Store, ids: set<TaskId>, now: Readings)
    ensures CancelsAll(store, ids - ids, now) == store
  {
  }

  lemma CancelsOneMore(store: Store, ids: set<TaskId>, pending: set<TaskId>, id: TaskId, now: Readings)
    requires id in pending && pending <= ids
    ensures CancelsAll(store, ids - (pending - {id}), now)
         == Cancels(CancelsAll(store, ids - pending, now), id, ReadingAt(now, id))
    ensures Cancellable(CancelsAll(store, ids - pending, now), id) == Cancellable(store, id)
  {
  }

  /** Taking `id` out of the ids still to visit adds it to the goal's visited part, if it is a goal. */
  lemma CountStep(goal: set<TaskId>, unseen: set<TaskId>, id: TaskId)
    requires id in unseen
    ensures |goal - (unseen - {id})| == |goal - unseen| + if id in goal then 1 else 0
  {
    if id in goal {
      assert goal - (unseen - {id}) == (goal - unseen) + {id};
    } else {
      assert goal - (unseen - {id}) == goal - unseen;
    }
  }

  // ----- The runtime object -----

  class BackgroundTaskRuntime {
    var tasks: Store
    var events: seq<Event>

    constructor ()
      ensures tasks == map[] && events == []
    {
      tasks := map[];
      events := [];
    }

    /** Counts an owner's tasks that are not terminal. */
    method CountActive(owner: string) returns (active: nat)
      ensures active == |ActiveIds(tasks, owner)|
    {
      active := 0;
      var unseen := tasks.Keys;
      ghost var goal := ActiveIds(tasks, owner);
      while unseen != {}
        invariant unseen <= tasks.Keys
        invariant active == |goal - unseen|
        decreases unseen
      {
        var id :| id in unseen;
        CountStep(goal, unseen, id);
        unseen := unseen - {id};
        if tasks[id].snapshot.owner == owner && !IsTerminal(tasks[id].snapshot.state) {
          active := active + 1;
        }
      }
      assert goal - unseen == goal;
    }

    /** Finds the terminal task with the least update time, if any task is terminal. */
    method FindOldestTerminal() returns (oldest: Option<TaskId>)
      ensures oldest.Some? ==> OldestTerminal(tasks, oldest.value)
      ensures oldest.Some? ==>
                && tasks[oldest.value].snapshot.state in {Completed, Failed, Cancelled}
                && forall id :: id in tasks && tasks[id].snapshot.state in {Completed, Failed, Cancelled} ==>
                     tasks[oldest.value].snapshot.updatedAt <= tasks[id].snapshot.updatedAt
      ensures oldest.None? ==> forall id :: id in tasks ==> !IsTerminal(tasks[id].snapshot.state)
    {
      oldest := None;
      var unseen := tasks.Keys;
      while unseen != {}
        invariant unseen <= tasks.Keys
        invariant oldest.None? ==>
                    forall id :: id in tasks && id !in unseen ==> !IsTerminal(tasks[id].snapshot.state)
        invariant oldest.Some? ==>
                    && oldest.value in tasks && IsTerminal(tasks[oldest.value].snapshot.state)
                    && forall id :: id in tasks && id !in unseen && IsTerminal(tasks[id].snapshot.state) ==>
                         tasks[oldest.value].snapshot.updatedAt <= tasks[id].snapshot.updatedAt
        decreases unseen
      {
        var id :| id in unseen;
        unseen := unseen - {id};
        if IsTerminal(tasks[id].snapshot.state)
           && (oldest.None? || tasks[id].snapshot.updatedAt < tasks[oldest.value].snapshot.updatedAt) {
          oldest := Some(id);
        }
      }
    }

    /** `id` and `now` are the fresh identifier and the clock reading `create` draws. */
    method Create(id: TaskId, spec: Spec, now: Time)
      returns (evicted: Option<TaskId>, error: Option<ValidationError>)
      modifies this
      ensures Creates(old(tasks), tasks, id, spec, now, evicted, error)
      ensures error.Some? ==> tasks == old(tasks) && events == old(events)
      ensures error == Some(TooManyActiveTasks) <==>
                Validate(spec).None? && |ActiveIds(old(tasks), spec.owner)| >= MAX_ACTIVE_TASKS_PER_OWNER
      ensures error == Some(TaskCapacityReached) <==>
                && Validate(spec).None? && |ActiveIds(old(tasks), spec.owner)| < MAX_ACTIVE_TASKS_PER_OWNER
                && |old(tasks)| >= MAX_RETAINED_TASKS
                && forall other :: other in old(tasks) ==> old(tasks)[other].snapshot.state in {Queued, Running, Waiting}
      ensures error.None? ==>
                && id in tasks && tasks[id].argumentsJson == spec.argumentsJson && !tasks[id].cancelled
                && tasks[id].snapshot ==
                   Snapshot(id, spec.owner, spec.toolName, spec.mode, Queued, 0, None, None, now, now)
      ensures error.None? ==>
                events == old(events)
                          + (if evicted.Some? then [Removed(evicted.value)] else [])
                          + [Changed(NewTask(id, spec, now).snapshot)]
    {
      evicted := None;
      error := Validate(spec);
      if error.Some? {
        return;
      }
      var active := CountActive(spec.owner);
      if active >= MAX_ACTIVE_TASKS_PER_OWNER {
        error := Some(TooManyActiveTasks);
        return;
      }
      if |tasks| >= MAX_RETAINED_TASKS {
        evicted := FindOldestTerminal();
        if evicted.None? {
          error := Some(TaskCapacityReached);
          return;
        }
        tasks := tasks - {evicted.value};
      }
      tasks := tasks[id := NewTask(id, spec, now)];
      if evicted.Some? {
        events := events + [Removed(evicted.value)];
      }
      events := events + [Changed(tasks[id].snapshot)];
    }

    method Cancel(id: TaskId, now: Time) returns (accepted: bool)
      modifies this
      ensures tasks == Cancels(old(tasks), id, now)
      ensures accepted == Cancellable(old(tasks), id)
      ensures events == old(events) + (if accepted then [Changed(tasks[id].snapshot)] else [])
    {
      if id !in tasks {
        return false;
      }
      var task := tasks[id];
      if task.snapshot.state == Completed || task.snapshot.state == Failed
         || task.snapshot.state == State.Cancelled {
        return false;
      }
      task := task.(cancelled := true);
      task := task.(snapshot := task.snapshot.(state := State.Cancelled));
      task := task.(snapshot := task.snapshot.(updatedAt := now));
      tasks := tasks[id := task];
      events := events + [Changed(task.snapshot)];
      return true;
    }

    /** The loop shared by `cancel_owner`, `cancel_all` and `shutdown`, without interference. */
    method CancelEach(ids: set<TaskId>, now: Readings) returns (count: nat)
      modifies this
      ensures tasks == CancelsAll(old(tasks), ids, now)
      ensures count == |CancellableOf(old(tasks), ids)|
      ensures old(events) <= events && |events| == |old(events)| + count
    {
      count := 0;
      var pending := ids;
      ghost var start, goal := tasks, CancellableOf(tasks, ids);
      CancelsNone(start, ids, now);
      while pending != {}
        invariant pending <= ids
        invariant tasks == CancelsAll(start, ids - pending, now)
        invariant count == |goal - pending|
        invariant old(events) <= events && |events| == |old(events)| + count
        decreases pending
      {
        var id :| id in pending;
        CountStep(goal, pending, id);
        CancelsOneMore(start, ids, pending, id, now);
        pending := pending - {id};
        var accepted := Cancel(id, ReadingAt(now, id));
        count := if accepted then count + 1 else count;
      }
      assert goal - pending == goal && ids - pending == ids;
    }

    method CancelOwner(owner: string, now: Readings) returns (count: nat)
      modifies this
      ensures count == |ActiveIds(old(tasks), owner)|
      ensures old(events) <= events && |events| == |old(events)| + count
      ensures ActiveIds(tasks, owner) == {}
      ensures tasks.Keys == old(tasks.Keys)
      ensures forall id :: id in tasks ==>
                tasks[id] == if id in ActiveIds(old(tasks), owner)
                             then Cancelling(old(tasks)[id], ReadingAt(now, id)) else old(tasks)[id]
    {
      var ids := set id | id in tasks && tasks[id].snapshot.owner == owner;
      assert CancellableOf(tasks, ids) == ActiveIds(tasks, owner);
      count := CancelEach(ids, now);
    }

    method CancelAll(now: Readings) returns (count: nat)
      modifies this
      ensures count == |CancellableOf(old(tasks), old(tasks).Keys)|
      ensures old(events) <= events && |events| == |old(events)| + count
      ensures forall id :: id in tasks ==> IsTerminal(tasks[id].snapshot.state)
      ensures tasks.Keys == old(tasks.Keys)
      ensures forall id :: id in tasks ==>
                tasks[id] == if Cancellable(old(tasks), id)
                             then Cancelling(old(tasks)[id], ReadingAt(now, id)) else old(tasks)[id]
    {
      count := CancelEach(tasks.Keys, now);
    }

    method PrepareExecution(id: TaskId, now: Time) returns (execution: Option<Execution>)
      modifies this
      ensures tasks == Prepares(old(tasks), id, now)
      ensures execution == ExecutionFor(old(tasks), id, now)
      ensures execution.Some? <==> id in old(tasks) && !old(tasks)[id].cancelled
      ensures execution.Some? ==>
                && execution.value.taskId == id
                && execution.value.toolName == old(tasks)[id].snapshot.toolName
                && execution.value.argumentsJson == old(tasks)[id].argumentsJson
                && execution.value.runNumber == tasks[id].snapshot.runCount
      ensures events == old(events) + (if execution.Some? then [Changed(tasks[id].snapshot)] else [])
    {
      if id !in tasks {
        return None;
      }
      var task := tasks[id];
      if task.cancelled {
        return None;
      }
      task := task.(snapshot := task.snapshot.(state := Running));
      task := task.(snapshot := task.snapshot.(runCount := SaturatingAdd(task.snapshot.runCount, 1, 0xFFFF_FFFF)));
      task := task.(snapshot := task.snapshot.(updatedAt := now));
      tasks := tasks[id := task];
      execution := Some(Execution(id, task.snapshot.toolName, task.argumentsJson, task.snapshot.runCount));
      events := events + [Changed(task.snapshot)];
    }

    method ApplyExecutionResult(id: TaskId, result: RunResult, now: Time) returns (next: NextRun)
      modifies this
      ensures tasks == Applies(old(tasks), id, result, now)
      ensures next == NextFor(old(tasks), id, result)
      ensures next.Wait? <==>
                id in old(tasks) && !old(tasks)[id].cancelled && tasks[id].snapshot.state == Waiting
      ensures next.Wait? ==>
                && !old(tasks)[id].snapshot.mode.OneShot?
                && next.intervalSeconds == old(tasks)[id].snapshot.mode.intervalSeconds
      ensures events == old(events) + (if Startable(old(tasks), id) then [Changed(tasks[id].snapshot)] else [])
    {
      if id !in tasks || tasks[id].cancelled {
        return Stop;
      }
      var task := tasks[id];
      var matched: bool;
      match result {
        case Ok(success) =>
          matched := ConditionMatches(task.snapshot.mode, task.lastFingerprint, task.hadFailure, success);
          task := task.(lastFingerprint := Some(success.fingerprint), hadFailure := false);
          task := task.(snapshot := task.snapshot.(lastSummary := Some(success.summary), lastErrorCode := None));
        case Err(_) =>
          matched := task.snapshot.mode.Conditional? && task.snapshot.mode.condition.ExecutionFails?;
          task := task.(hadFailure := true);
          task := task.(snapshot :=
            task.snapshot.(lastSummary := None, lastErrorCode := Some("execution_failed")));
      }
      var finished :=
        task.snapshot.mode.OneShot? || matched || task.snapshot.runCount >= MaximumRuns(task.snapshot.mode);
      if finished {
        var state := if task.snapshot.lastErrorCode.Some? && !matched then Failed else Completed;
        task := task.(snapshot := task.snapshot.(state := state, updatedAt := now));
        next := Stop;
      } else {
        task := task.(snapshot := task.snapshot.(state := Waiting, updatedAt := now));
        next := Wait(IntervalSeconds(task.snapshot.mode));
      }
      tasks := tasks[id := task];
      events := events + [Changed(task.snapshot)];
    }
  }
}

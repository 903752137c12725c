/**
 Every interleaving of the background-task scheduler: any number of callers of `create`,
 `cancel`, `cancel_owner`, `cancel_all` and `shutdown`, and one worker per task running
 prepare, execute, apply, wait. The table changes only inside critical sections; between
 them anything may happen. The executor's answers are arbitrary, the clock need not be
 monotone, and the cancellation wake-up may be lost.
 */
module TaskSystem {
  import opened Support
  import opened Text
  import opened TaskModel
  import opened TaskRuntime

  /** Where a worker stands in `run_task`. */
  datatype Worker =
    | AtPrepare
    | Executing(runNumber: nat)
    | Sleeping(seconds: nat)
    | Stopped
    | Aborted

  /**
   What has happened to a task so far, kept even after the task is evicted: the request that
   created it and when, the last time its record changed, every execution handed out, every
   result recorded and every cancellation accepted.
   */
  datatype Track = Track(
    spec: Spec,
    createdAt: Time,
    touchedAt: Time,
    starts: seq<Execution>,
    results: seq<RunResult>,
    cancels: nat)

  datatype System = System(store: Store, workers: map<TaskId, Worker>, tracks: map<TaskId, Track>)

  datatype Step =
    | Create(id: TaskId, spec: Spec, now: Time, evicted: Option<TaskId>, error: Option<ValidationError>)
    | Cancel(id: TaskId, now: Time)
    | Prepare(id: TaskId, now: Time)
    | Apply(id: TaskId, result: RunResult, now: Time)
    | TimerFires(id: TaskId)
    | WakeUp(id: TaskId)
    | Abort(id: TaskId)

  ghost predicate Init(s: System) {
    s.store == map[] && s.workers == map[] && s.tracks == map[]
  }

  ghost predicate Next(s: System, step: Step, s': System) {
    match step
    case Create(id, spec, now, evicted, error) => CreateStep(s, s', id, spec, now, evicted, error)
    case Cancel(id, now) => CancelStep(s, s', id, now)
    case Prepare(id, now) => PrepareStep(s, s', id, now)
    case Apply(id, result, now) => ApplyStep(s, s', id, result, now)
    case TimerFires(id) =>
      && id in s.workers && s.workers[id].Sleeping?
      && s' == s.(workers := s.workers[id := AtPrepare])
    case WakeUp(id) =>
      // The notification exists only once `cancel` has run; a worker may also never see it.
      && id in s.workers && s.workers[id].Sleeping?
      && id in s.tracks && s.tracks[id].cancels > 0
      && s' == s.(workers := s.workers[id := Stopped])
    case Abort(id) =>
      && id in s.workers && s.workers[id] != Stopped
      && s' == s.(workers := s.workers[id := Aborted])
  }

  /** Task ids are random UUIDs: one that was never used before. */
  ghost predicate CreateStep(
    s: System, s': System, id: TaskId, spec: Spec, now: Time,
    evicted: Option<TaskId>, error: Option<ValidationError>)
  {
    && id !in s.tracks && id !in s.workers && id !in s.store
    && Creates(s.store, s'.store, id, spec, now, evicted, error)
    && if error.Some? then s'.workers == s.workers && s'.tracks == s.tracks
       else && s'.workers == s.workers[id := AtPrepare]
            && s'.tracks == s.tracks[id := Track(spec, now, now, [], [], 0)]
  }

  ghost predicate CancelStep(s: System, s': System, id: TaskId, now: Time) {
    && s'.store == Cancels(s.store, id, now)
    && s'.workers == s.workers
    && s'.tracks == (if Cancellable(s.store, id) && id in s.tracks
                     then s.tracks[id := s.tracks[id].(cancels := s.tracks[id].cancels + 1, touchedAt := now)]
                     else s.tracks)
  }

  ghost predicate PrepareStep(s: System, s': System, id: TaskId, now: Time) {
    && id in s.workers && s.workers[id] == AtPrepare && id in s.tracks
    && s'.store == Prepares(s.store, id, now)
    && var execution := ExecutionFor(s.store, id, now);
       if execution.None? then
         s'.workers == s.workers[id := Stopped] && s'.tracks == s.tracks
       else
         && s'.workers == s.workers[id := Executing(execution.value.runNumber)]
         && s'.tracks ==
            s.tracks[id := s.tracks[id].(starts := s.tracks[id].starts + [execution.value], touchedAt := now)]
  }

  ghost predicate ApplyStep(s: System, s': System, id: TaskId, result: RunResult, now: Time) {
    && id in s.workers && s.workers[id].Executing? && id in s.tracks
    && s'.store == Applies(s.store, id, result, now)
    && s'.workers ==
       s.workers[id := match NextFor(s.store, id, result)
                       case Stop => Stopped
                       case Wait(seconds) => Sleeping(seconds)]
    && s'.tracks ==
       (if Startable(s.store, id)
        then s.tracks[id := s.tracks[id].(results := s.tracks[id].results + [result], touchedAt := now)]
        else s.tracks)
  }

  // ----- The inductive invariant -----

  /** The first `n` executions of a task: its own tool and arguments, numbered from 1. */
  ghost function Numbered(id: TaskId, spec: Spec, n: nat): seq<Execution> {
    seq(n, k requires 0 <= k < n => Execution(id, spec.toolName, spec.argumentsJson, k + 1))
  }

  /** No proper prefix of the recorded results would already have ended the task. */
  ghost predicate NoEarlierStop(mode: Mode, results: seq<RunResult>) {
    forall k :: 1 <= k < |results| ==> !Stops(mode, results[..k])
  }

  ghost predicate Unfinished(track: Track) {
    track.results == [] || !Stops(track.spec.mode, track.results)
  }

  /** Holds of every task ever created, retained or not. */
  ghost predicate TrackInv(id: TaskId, track: Track, worker: Worker) {
    && ValidMode(track.spec.mode)
    && track.starts == Numbered(id, track.spec, |track.starts|)
    && |track.starts| <= MaximumRuns(track.spec.mode)
    && |track.results| <= |track.starts|
    && NoEarlierStop(track.spec.mode, track.results)
    && track.cancels <= 1
    && (worker.Sleeping? ==> !track.spec.mode.OneShot? && worker.seconds == track.spec.mode.intervalSeconds)
  }

  /** The record shows the request its task was created for, and when it was made and last changed. */
  ghost predicate Describes(task: OwnedTask, id: TaskId, track: Track) {
    && task.snapshot.id == id
    && task.snapshot.owner == track.spec.owner && task.snapshot.toolName == track.spec.toolName
    && task.snapshot.mode == track.spec.mode && task.argumentsJson == track.spec.argumentsJson
    && task.snapshot.createdAt == track.createdAt && task.snapshot.updatedAt == track.touchedAt
  }

  /** Ties a retained task to its worker's program counter. */
  ghost predicate TaskInv(id: TaskId, track: Track, task: OwnedTask, worker: Worker) {
    && Describes(task, id, track)
    && task.snapshot.runCount == |track.starts|
    && Summarises(task, track.results)
    && (task.cancelled <==> task.snapshot.state == Cancelled)
    && (task.cancelled <==> track.cancels == 1)
    && (!task.cancelled ==> LiveInv(track, task.snapshot.state, worker))
  }

  ghost predicate LiveInv(track: Track, state: State, worker: Worker) {
    match worker
    case AtPrepare =>
      && Unfinished(track) && |track.results| == |track.starts|
      && state == (if track.results == [] then Queued else Waiting)
    case Executing(n) =>
      Unfinished(track) && n == |track.starts| == |track.results| + 1 && state == Running
    case Sleeping(_) =>
      Unfinished(track) && |track.results| == |track.starts| >= 1 && state == Waiting
    case Stopped =>
      && track.results != [] && |track.results| == |track.starts|
      && Stops(track.spec.mode, track.results) && state == FinalState(track.spec.mode, track.results)
    case Aborted =>
      Unfinished(track) && (state == Queued || state == Running || state == Waiting)
  }

  ghost predicate Inv(s: System) {
    && s.workers.Keys == s.tracks.Keys
    && s.store.Keys <= s.tracks.Keys
    && (forall id :: id in s.tracks ==> TrackInv(id, s.tracks[id], s.workers[id]))
    && (forall id :: id in s.store ==> TaskInv(id, s.tracks[id], s.store[id], s.workers[id]))
  }

  ghost predicate WithinCapacity(s: System) {
    && |s.store| <= MAX_RETAINED_TASKS
    && forall owner :: |ActiveIds(s.store, owner)| <= MAX_ACTIVE_TASKS_PER_OWNER
  }

  lemma AppendStart(id: TaskId, spec: Spec, n: nat)
    ensures Numbered(id, spec, n) + [Execution(id, spec.toolName, spec.argumentsJson, n + 1)] == Numbered(id, spec, n + 1)
  {
  }

  lemma AppendResult(mode: Mode, results: seq<RunResult>, result: RunResult)
    requires NoEarlierStop(mode, results)
    requires results == [] || !Stops(mode, results)
    ensures NoEarlierStop(mode, results + [result])
  {
    var extended := results + [result];
    forall k | 1 <= k < |extended|
      ensures !Stops(mode, extended[..k])
    {
      if k == |results| {
        assert extended[..k] == results;
      } else {
        assert extended[..k] == results[..k];
      }
    }
  }

  /** The system after a successful `create` that evicted `dropped`. */
  ghost function Added(s: System, id: TaskId, spec: Spec, now: Time, dropped: set<TaskId>): System {
    System(
      (s.store - dropped)[id := NewTask(id, spec, now)],
      s.workers[id := AtPrepare],
      s.tracks[id := Track(spec, now, now, [], [], 0)])
  }

  ghost function Evictions(evicted: Option<TaskId>): set<TaskId> {
    if evicted.Some? then {evicted.value} else {}
  }

  lemma CreateAdds(s: System, step: Step, s': System)
    requires step.Create? && Next(s, step, s') && step.error.None?
    ensures Validate(step.spec).None? && |ActiveIds(s.store, step.spec.owner)| < MAX_ACTIVE_TASKS_PER_OWNER
    ensures Evictions(step.evicted) <= s.store.Keys
    ensures |s.store| - |Evictions(step.evicted)| < MAX_RETAINED_TASKS || |s.store| > MAX_RETAINED_TASKS
    ensures s' == Added(s, step.id, step.spec, step.now, Evictions(step.evicted))
  {
  }

  lemma AddedKeepsInv(s: System, id: TaskId, spec: Spec, now: Time, dropped: set<TaskId>)
    requires Inv(s) && id !in s.tracks && Validate(spec).None?
    ensures Inv(Added(s, id, spec, now, dropped))
  {
    var s' := Added(s, id, spec, now, dropped);
    assert TrackInv(id, s'.tracks[id], s'.workers[id]);
    assert TaskInv(id, s'.tracks[id], s'.store[id], s'.workers[id]);
    forall other | other in s'.store && other != id
      ensures TaskInv(other, s'.tracks[other], s'.store[other], s'.workers[other])
    {
      assert other in s.store && s'.store[other] == s.store[other];
    }
  }

  lemma CreateKeepsInv(s: System, step: Step, s': System)
    requires Inv(s) && step.Create? && Next(s, step, s')
    ensures Inv(s')
  {
    if step.error.None? {
      CreateAdds(s, step, s');
      AddedKeepsInv(s, step.id, step.spec, step.now, Evictions(step.evicted));
    }
  }

  lemma CancelledTaskInv(id: TaskId, track: Track, task: OwnedTask, worker: Worker, now: Time)
    requires TrackInv(id, track, worker) && TaskInv(id, track, task, worker) && !IsTerminal(task.snapshot.state)
    ensures var cancelled := track.(cancels := track.cancels + 1, touchedAt := now);
            TrackInv(id, cancelled, worker) && TaskInv(id, cancelled, Cancelling(task, now), worker)
  {
  }

  lemma CancelKeepsInv(s: System, step: Step, s': System)
    requires Inv(s) && step.Cancel? && Next(s, step, s')
    ensures Inv(s')
  {
    var id := step.id;
    if Cancellable(s.store, id) {
      CancelledTaskInv(id, s.tracks[id], s.store[id], s.workers[id], step.now);
    }
  }

  /** The step that starts a run never looks at the limit; the worker's position keeps it in bounds. */
  lemma PrepareKeepsInv(s: System, step: Step, s': System)
    requires Inv(s) && step.Prepare? && Next(s, step, s')
    ensures Inv(s')
  {
    var id := step.id;
    if Startable(s.store, id) {
      AppendStart(id, s.tracks[id].spec, |s.tracks[id].starts|);
      assert |s.tracks[id].starts| < MaximumRuns(s.tracks[id].spec.mode);
      assert Summarises(s'.store[id], s'.tracks[id].results);
      assert TaskInv(id, s'.tracks[id], s'.store[id], s'.workers[id]);
    }
  }

  lemma ApplyKeepsInv(s: System, step: Step, s': System)
    requires Inv(s) && step.Apply? && Next(s, step, s')
    ensures Inv(s')
  {
    var id := step.id;
    if Startable(s.store, id) {
      var track := s.tracks[id];
      AppendResult(track.spec.mode, track.results, step.result);
      IncrementalDecisionIsHistoryRule(s.store[id], track.results, step.result, step.now);
      assert TaskInv(id, s'.tracks[id], s'.store[id], s'.workers[id]);
    }
  }

  /** A worker that wakes up or is aborted moves without touching the table. */
  lemma WorkerMoveKeepsInv(s: System, step: Step, s': System)
    requires Inv(s) && (step.TimerFires? || step.WakeUp? || step.Abort?) && Next(s, step, s')
    ensures Inv(s')
  {
    forall id | id in s'.store
      ensures TaskInv(id, s'.tracks[id], s'.store[id], s'.workers[id])
    {
      assert TaskInv(id, s.tracks[id], s.store[id], s.workers[id]);
    }
  }

  lemma NextKeepsInv(s: System, step: Step, s': System)
    requires Inv(s) && Next(s, step, s')
    ensures Inv(s')
  {
    match step
    case Create(_, _, _, _, _) => CreateKeepsInv(s, step, s');
    case Cancel(_, _) => CancelKeepsInv(s, step, s');
    case Prepare(_, _) => PrepareKeepsInv(s, step, s');
    case Apply(_, _, _) => ApplyKeepsInv(s, step, s');
    case TimerFires(_) => WorkerMoveKeepsInv(s, step, s');
    case WakeUp(_) => WorkerMoveKeepsInv(s, step, s');
    case Abort(_) => WorkerMoveKeepsInv(s, step, s');
  }

  // ----- Capacity -----

  lemma SubsetIsSmaller(a: set<TaskId>, b: set<TaskId>)
    requires a <= b
    ensures |a| <= |b|
  {
    assert b == a + (b - a);
  }

  lemma CreationCountsOne(before: Store, after: Store, id: TaskId, task: OwnedTask, dropped: set<TaskId>)
    requires id !in before && dropped <= before.Keys
    requires after == (before - dropped)[id := task]
    ensures |after| == |before| - |dropped| + 1
  {
  }

  lemma CreationAddsOneActive(before: Store, after: Store, id: TaskId, task: OwnedTask, dropped: set<TaskId>, owner: string)
    requires after == (before - dropped)[id := task]
    ensures |ActiveIds(after, owner)| <= |ActiveIds(before, owner)| + if task.snapshot.owner == owner then 1 else 0
  {
    if task.snapshot.owner == owner {
      SubsetIsSmaller(ActiveIds(after, owner), ActiveIds(before, owner) + {id});
    } else {
      SubsetIsSmaller(ActiveIds(after, owner), ActiveIds(before, owner));
    }
  }

  lemma AddedKeepsCapacity(s: System, id: TaskId, spec: Spec, now: Time, dropped: set<TaskId>)
    requires WithinCapacity(s) && id !in s.store && dropped <= s.store.Keys
    requires |s.store| - |dropped| < MAX_RETAINED_TASKS
    requires |ActiveIds(s.store, spec.owner)| < MAX_ACTIVE_TASKS_PER_OWNER
    ensures WithinCapacity(Added(s, id, spec, now, dropped))
  {
    var task, after := NewTask(id, spec, now), Added(s, id, spec, now, dropped).store;
    CreationCountsOne(s.store, after, id, task, dropped);
    forall owner
      ensures |ActiveIds(after, owner)| <= MAX_ACTIVE_TASKS_PER_OWNER
    {
      CreationAddsOneActive(s.store, after, id, task, dropped, owner);
    }
  }

  lemma CreateKeepsCapacity(s: System, step: Step, s': System)
    requires WithinCapacity(s) && step.Create? && Next(s, step, s')
    ensures WithinCapacity(s')
  {
    if step.error.None? {
      CreateAdds(s, step, s');
      AddedKeepsCapacity(s, step.id, step.spec, step.now, Evictions(step.evicted));
    }
  }

  /** Starting or finishing a run never brings a terminal task back to life. */
  lemma ActiveTasksOnlyShrink(s: System, step: Step, s': System, owner: string)
    requires !step.Create? && Next(s, step, s')
    requires step.id in s.store ==>
               && step.id in s.tracks && step.id in s.workers
               && TaskInv(step.id, s.tracks[step.id], s.store[step.id], s.workers[step.id])
    ensures s'.store.Keys == s.store.Keys
    ensures ActiveIds(s'.store, owner) <= ActiveIds(s.store, owner)
  {
    forall id | id in ActiveIds(s'.store, owner)
      ensures id in ActiveIds(s.store, owner)
    {
      assert id != step.id ==> s'.store[id] == s.store[id];
    }
  }

  lemma OtherStepsKeepCapacity(s: System, step: Step, s': System)
    requires Inv(s) && WithinCapacity(s) && !step.Create? && Next(s, step, s')
    ensures WithinCapacity(s')
  {
    ActiveTasksOnlyShrink(s, step, s', "");
    forall owner
      ensures |ActiveIds(s'.store, owner)| <= MAX_ACTIVE_TASKS_PER_OWNER
    {
      ActiveTasksOnlyShrink(s, step, s', owner);
      SubsetIsSmaller(ActiveIds(s'.store, owner), ActiveIds(s.store, owner));
    }
  }

  // ----- Whole runs -----

  ghost predicate IsRun(states: seq<System>, steps: seq<Step>) {
    && |states| == |steps| + 1
    && Init(states[0])
    && forall i :: 0 <= i < |steps| ==> Next(states[i], steps[i], states[i + 1])
  }

  lemma {:induction false} RunKeepsInv(states: seq<System>, steps: seq<Step>, i: nat)
    requires IsRun(states, steps) && i < |states|
    ensures Inv(states[i]) && WithinCapacity(states[i])
  {
    if i == 0 {
      assert forall owner :: ActiveIds(states[0].store, owner) == {};
    } else {
      RunKeepsInv(states, steps, i - 1);
      NextKeepsInv(states[i - 1], steps[i - 1], states[i]);
      if steps[i - 1].Create? {
        CreateKeepsCapacity(states[i - 1], steps[i - 1], states[i]);
      } else {
        OtherStepsKeepCapacity(states[i - 1], steps[i - 1], states[i]);
      }
    }
  }

  /**
   In every interleaving the executions handed out for a task carry its id, the tool and the
   arguments it was created with, and the run numbers 1, 2, 3, .... There are no more of them
   than its run limit allows, so the 32-bit run counter never saturates.
   */
  lemma ExecutionsAreNumberedAndBounded(states: seq<System>, steps: seq<Step>, i: nat, id: TaskId)
    requires IsRun(states, steps) && i < |states|
    requires id in states[i].tracks
    ensures var track := states[i].tracks[id];
            && (forall k :: 0 <= k < |track.starts| ==>
                  track.starts[k] == Execution(id, track.spec.toolName, track.spec.argumentsJson, k + 1))
            && |track.starts| <= (if track.spec.mode.OneShot? then 1 else track.spec.mode.maxRuns) <= 10_000 < U32_MAX
            && (id in states[i].store ==> states[i].store[id].snapshot.runCount == |track.starts|)
  {
    RunKeepsInv(states, steps, i);
  }

  /** At most 128 tasks are retained and at most 32 of each owner's are not terminal. */
  lemma CapacityIsRespected(states: seq<System>, steps: seq<Step>, i: nat, owner: string)
    requires IsRun(states, steps) && i < |states|
    ensures |states[i].store| <= MAX_RETAINED_TASKS
    ensures |ActiveIds(states[i].store, owner)| <= MAX_ACTIVE_TASKS_PER_OWNER
  {
    RunKeepsInv(states, steps, i);
  }

  /** What a task was created for never changes, from its creation to beyond its eviction. */
  lemma {:induction false} SpecIsKept(states: seq<System>, steps: seq<Step>, created: nat, i: nat)
    requires IsRun(states, steps) && created < i < |states|
    requires steps[created].Create? && steps[created].error.None?
    ensures var id := steps[created].id;
            && id in states[i].tracks
            && states[i].tracks[id].spec == steps[created].spec && states[i].tracks[id].createdAt == steps[created].now
    decreases i
  {
    assert Next(states[i - 1], steps[i - 1], states[i]);
    if created + 1 < i {
      SpecIsKept(states, steps, created, i - 1);
    }
  }

  /**
   From its creation on, a retained record shows the owner, tool, mode and arguments of the
   request that created it, the time of that request, and the time of its own last change;
   a worker between two runs sleeps for exactly the requested interval.
   */
  lemma RecordsMatchTheRequest(states: seq<System>, steps: seq<Step>, created: nat, i: nat)
    requires IsRun(states, steps) && created < i < |states|
    requires steps[created].Create? && steps[created].error.None?
    ensures var id, spec := steps[created].id, steps[created].spec;
            && id in states[i].tracks && id in states[i].workers
            && (forall k :: 0 <= k < |states[i].tracks[id].starts| ==>
                  states[i].tracks[id].starts[k] == Execution(id, spec.toolName, spec.argumentsJson, k + 1))
            && (id in states[i].store ==>
                  var task := states[i].store[id];
                  && task.snapshot.id == id && task.snapshot.owner == spec.owner
                  && task.snapshot.toolName == spec.toolName && task.snapshot.mode == spec.mode
                  && task.argumentsJson == spec.argumentsJson
                  && task.snapshot.createdAt == steps[created].now
                  && task.snapshot.updatedAt == states[i].tracks[id].touchedAt)
            && (states[i].workers[id].Sleeping? ==>
                  !spec.mode.OneShot? && states[i].workers[id].seconds == spec.mode.intervalSeconds)
  {
    SpecIsKept(states, steps, created, i);
    RunKeepsInv(states, steps, i);
    var id := steps[created].id;
    assert TrackInv(id, states[i].tracks[id], states[i].workers[id]);
    assert id in states[i].store ==> TaskInv(id, states[i].tracks[id], states[i].store[id], states[i].workers[id]);
  }

  /** The task is terminal or already evicted. */
  ghost predicate Settled(s: System, id: TaskId) {
    id in s.tracks && (id in s.store ==> IsTerminal(s.store[id].snapshot.state))
  }

  ghost predicate UnchangedFor(s: System, s': System, id: TaskId) {
    && id in s.tracks && id in s'.tracks && s'.tracks[id] == s.tracks[id]
    && (id in s'.store ==> id in s.store && s'.store[id] == s.store[id])
  }

  lemma SettledStep(s: System, step: Step, s': System, id: TaskId)
    requires Next(s, step, s') && Settled(s, id)
    requires id in s.workers
    requires id in s.store ==> TaskInv(id, s.tracks[id], s.store[id], s.workers[id])
    ensures Settled(s', id) && UnchangedFor(s, s', id)
  {
  }

  lemma UnchangedTwice(s: System, s': System, s'': System, id: TaskId)
    requires UnchangedFor(s, s', id) && UnchangedFor(s', s'', id)
    ensures UnchangedFor(s, s'', id)
  {
  }

  lemma SettledStaysSettled(s: System, step: Step, s': System, id: TaskId)
    requires Inv(s) && Next(s, step, s') && Settled(s, id)
    ensures Settled(s', id) && UnchangedFor(s, s', id)
  {
    SettledStep(s, step, s', id);
  }

  /**
   Completed, Failed and Cancelled are absorbing: from then on the whole task record stays
   as it is until eviction, no further run starts, no result is recorded, no cancellation
   is accepted, and an evicted task never comes back.
   */
  lemma {:induction false} TerminalStatesAbsorb(states: seq<System>, steps: seq<Step>, i: nat, j: nat, id: TaskId)
    requires IsRun(states, steps) && i <= j < |states|
    requires Settled(states[i], id)
    ensures Settled(states[j], id) && UnchangedFor(states[i], states[j], id)
    ensures !Cancellable(states[j].store, id)
    decreases j - i
  {
    if i < j {
      TerminalStatesAbsorb(states, steps, i, j - 1, id);
      RunKeepsInv(states, steps, j - 1);
      SettledStaysSettled(states[j - 1], steps[j - 1], states[j], id);
      UnchangedTwice(states[i], states[j - 1], states[j], id);
    }
  }

  /**
   `cancel` returns true at most once for a task, and once it has, no execution starts and no
   in-flight result is recorded, whether or not the worker ever sees the wake-up.
   */
  lemma CancellationIsFinal(states: seq<System>, steps: seq<Step>, i: nat, j: nat, id: TaskId)
    requires IsRun(states, steps) && i < |steps| && i < j < |states|
    requires steps[i].Cancel? && steps[i].id == id && Cancellable(states[i].store, id)
    ensures id in states[i].tracks && id in states[j].tracks
    ensures states[j].tracks[id] == states[i].tracks[id].(cancels := 1, touchedAt := steps[i].now)
    ensures id in states[j].store ==> states[j].store[id] == Cancelling(states[i].store[id], steps[i].now)
    ensures j < |steps| ==> !(steps[j].Cancel? && steps[j].id == id && Cancellable(states[j].store, id))
  {
    RunKeepsInv(states, steps, i);
    assert TaskInv(id, states[i].tracks[id], states[i].store[id], states[i].workers[id]);
    assert TrackInv(id, states[i].tracks[id], states[i].workers[id]);
    TerminalStatesAbsorb(states, steps, i + 1, j, id);
  }

  /** A task leaves the table only when `create` evicts it: terminal, and none older is terminal. */
  lemma OnlyOldestTerminalIsEvicted(s: System, step: Step, s': System, id: TaskId)
    requires Next(s, step, s') && id in s.store && id !in s'.store
    ensures step.Create? && step.error.None? && step.evicted == Some(id)
    ensures |s.store| >= MAX_RETAINED_TASKS && s.store[id].snapshot.state in {Completed, Failed, Cancelled}
    ensures forall other :: other in s.store && s.store[other].snapshot.state in {Completed, Failed, Cancelled} ==>
              s.store[id].snapshot.updatedAt <= s.store[other].snapshot.updatedAt
  {
  }

  lemma RejectedCreateChangesNothing(s: System, step: Step, s': System)
    requires Next(s, step, s') && step.Create? && step.error.Some?
    ensures s' == s
  {
  }

  /**
   An uncancelled task has finished if and only if its results satisfy the stopping rule,
   it stopped at the first run that did, and it is Failed exactly when that run erred
   without its condition holding.
   */
  lemma StopsExactlyByHistoryRule(states: seq<System>, steps: seq<Step>, i: nat, id: TaskId)
    requires IsRun(states, steps) && i < |states|
    requires id in states[i].store && !states[i].store[id].cancelled
    ensures id in states[i].tracks
    ensures var track, state := states[i].tracks[id], states[i].store[id].snapshot.state;
            && (IsTerminal(state) <==> track.results != [] && Stops(track.spec.mode, track.results))
            && (forall k :: 1 <= k < |track.results| ==> !Stops(track.spec.mode, track.results[..k]))
            && (IsTerminal(state) ==>
                  && |track.results| == |track.starts|
                  && (state == Failed <==>
                        && track.results[|track.results| - 1].Err?
                        && !ConditionHolds(track.spec.mode, track.results))
                  && (state == Completed <==> state != Failed))
  {
    RunKeepsInv(states, steps, i);
    assert TaskInv(id, states[i].tracks[id], states[i].store[id], states[i].workers[id]);
    assert TrackInv(id, states[i].tracks[id], states[i].workers[id]);
  }
}

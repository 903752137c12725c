/** Background tasks: specifications, snapshots, validation and the run-by-run decision. */
module TaskModel {
  import opened Support
  import opened Text
  import Json
  import JsonBounds

  type TaskId = string
  type Time = int

  datatype Condition =
    | ResultChanged
    | ResultContains(text: string)
    | ResultFieldEquals(pointer: string, expected: Json.Value)
    | ExecutionFails
    | ExecutionRecovers

  datatype Mode =
    | OneShot
    | Interval(intervalSeconds: nat, maxRuns: nat)
    | Conditional(intervalSeconds: nat, maxRuns: nat, condition: Condition)

  datatype State = Queued | Running | Waiting | Completed | Failed | Cancelled

  /** `arguments` is what the JSON parser makes of `argumentsJson`, absent when it is malformed. */
  datatype Spec = Spec(
    owner: string,
    toolName: string,
    argumentsJson: string,
    arguments: Option<Json.Value>,
    mode: Mode)

  datatype Snapshot = Snapshot(
    id: TaskId,
    owner: string,
    toolName: string,
    mode: Mode,
    state: State,
    runCount: nat,
    lastSummary: Option<string>,
    lastErrorCode: Option<string>,
    createdAt: Time,
    updatedAt: Time)

  datatype OwnedTask = OwnedTask(
    snapshot: Snapshot,
    argumentsJson: string,
    lastFingerprint: Option<string>,
    hadFailure: bool,
    cancelled: bool)

  datatype Execution = Execution(taskId: TaskId, toolName: string, argumentsJson: string, runNumber: nat)

  datatype Success = Success(summary: string, fingerprint: string, conditionValue: Option<Json.Value>)

  /** What one executor call hands back; the error text is wiped and never kept. */
  type RunResult = Result<Success, ()>

  datatype NextRun = Stop | Wait(intervalSeconds: nat)

  datatype ValidationError =
    | Invalid
    | InvalidInterval
    | InvalidRunLimit
    | ArgumentsTooLarge
    | LiveHandleNotAllowed
    | TooManyActiveTasks
    | TaskCapacityReached

  datatype Limits = Limits(minimumInterval: nat, maximumInterval: nat, maximumRuns: nat, maximumArgumentChars: nat)

  const DEFAULT_LIMITS := Limits(5, 86_400, 10_000, 128 * 1024)

  predicate IsTerminal(state: State)
    ensures IsTerminal(state) <==> state != Queued && state != Running && state != Waiting
  {
    state == Completed || state == Failed || state == Cancelled
  }

  function MaximumRuns(mode: Mode): nat {
    if mode.OneShot? then 1 else mode.maxRuns
  }

  function IntervalSeconds(mode: Mode): nat {
    if mode.OneShot? then 0 else mode.intervalSeconds
  }

  /** What validation establishes about a mode, and all that the scheduler relies on. */
  predicate ValidMode(mode: Mode) {
    1 <= MaximumRuns(mode) <= DEFAULT_LIMITS.maximumRuns
  }

  /** `validate_background_task_spec` under the default limits, in the source's order of checks. */
  function Validate(spec: Spec): (r: Option<ValidationError>)
    ensures r.None? <==>
            && !IsBlank(spec.owner) && !IsBlank(spec.toolName)
            && |spec.argumentsJson| <= DEFAULT_LIMITS.maximumArgumentChars
            && spec.arguments.Some? && !JsonBounds.HandleOccurs(spec.arguments.value)
            && (spec.mode.OneShot? ||
                (5 <= spec.mode.intervalSeconds <= 86_400 && 1 <= spec.mode.maxRuns <= 10_000))
    ensures r.None? ==> ValidMode(spec.mode)
    ensures r == Some(ArgumentsTooLarge) <==> |spec.argumentsJson| > DEFAULT_LIMITS.maximumArgumentChars
    ensures r == Some(Invalid) <==>
            && |spec.argumentsJson| <= DEFAULT_LIMITS.maximumArgumentChars
            && (IsBlank(spec.owner) || IsBlank(spec.toolName) || spec.arguments.None?)
    ensures r == Some(LiveHandleNotAllowed) <==>
            && |spec.argumentsJson| <= DEFAULT_LIMITS.maximumArgumentChars
            && !IsBlank(spec.owner) && !IsBlank(spec.toolName)
            && spec.arguments.Some? && JsonBounds.HandleOccurs(spec.arguments.value)
    ensures r == Some(InvalidInterval) ==>
              !spec.mode.OneShot? && !(5 <= spec.mode.intervalSeconds <= 86_400)
    ensures r == Some(InvalidRunLimit) ==>
              !spec.mode.OneShot? && 5 <= spec.mode.intervalSeconds <= 86_400 && !(1 <= spec.mode.maxRuns <= 10_000)
    ensures r != Some(TooManyActiveTasks) && r != Some(TaskCapacityReached)
  {
    if IsBlank(spec.owner) || IsBlank(spec.toolName) || |spec.argumentsJson| > DEFAULT_LIMITS.maximumArgumentChars then
      if |spec.argumentsJson| > DEFAULT_LIMITS.maximumArgumentChars then Some(ArgumentsTooLarge) else Some(Invalid)
    else if spec.arguments.None? then Some(Invalid)
    else
      JsonBounds.RuntimeCheckIsExact(spec.arguments.value);
      if JsonBounds.RuntimeContainsHandle(spec.arguments.value) then Some(LiveHandleNotAllowed)
      else match spec.mode
           case OneShot => None
           case Interval(seconds, runs) => ValidateSchedule(seconds, runs)
           case Conditional(seconds, runs, _) => ValidateSchedule(seconds, runs)
  }

  function ValidateSchedule(seconds: nat, runs: nat): (r: Option<ValidationError>)
    ensures r.None? <==>
            && DEFAULT_LIMITS.minimumInterval <= seconds <= DEFAULT_LIMITS.maximumInterval
            && 1 <= runs <= DEFAULT_LIMITS.maximumRuns
    ensures r == Some(InvalidInterval) <==> !(DEFAULT_LIMITS.minimumInterval <= seconds <= DEFAULT_LIMITS.maximumInterval)
    ensures r.Some? ==> r.value == InvalidInterval || r.value == InvalidRunLimit
  {
    if !(DEFAULT_LIMITS.minimumInterval <= seconds <= DEFAULT_LIMITS.maximumInterval) then Some(InvalidInterval)
    else if runs == 0 || runs > DEFAULT_LIMITS.maximumRuns then Some(InvalidRunLimit)
    else None
  }

  // ----- The incremental decision, as the runtime computes it -----

  function ConditionMatches(mode: Mode, previous: Option<string>, hadFailure: bool, result: Success): bool {
    mode.Conditional? &&
    match mode.condition
    case ResultChanged => previous.Some? && previous.value != result.fingerprint
    case ResultContains(text) => Contains(result.summary, text)
    case ResultFieldEquals(pointer, expected) =>
      && result.conditionValue.Some?
      && Json.Pointer(result.conditionValue.value, pointer) == Some(expected)
    case ExecutionFails => false
    case ExecutionRecovers => hadFailure
  }

  function Matched(task: OwnedTask, result: RunResult): bool {
    match result
    case Ok(success) => ConditionMatches(task.snapshot.mode, task.lastFingerprint, task.hadFailure, success)
    case Err(_) => task.snapshot.mode.Conditional? && task.snapshot.mode.condition.ExecutionFails?
  }

  /** The fields a finished run overwrites, before the state is decided. */
  function Record(task: OwnedTask, result: RunResult): OwnedTask {
    match result
    case Ok(success) =>
      task.(lastFingerprint := Some(success.fingerprint),
            hadFailure := false,
            snapshot := task.snapshot.(lastSummary := Some(success.summary), lastErrorCode := None))
    case Err(_) =>
      task.(hadFailure := true,
            snapshot := task.snapshot.(lastSummary := None, lastErrorCode := Some("execution_failed")))
  }

  function Finishes(task: OwnedTask, result: RunResult): bool {
    || task.snapshot.mode.OneShot?
    || Matched(task, result)
    || task.snapshot.runCount >= MaximumRuns(task.snapshot.mode)
  }

  function AfterRun(task: OwnedTask, result: RunResult, now: Time): OwnedTask {
    var recorded := Record(task, result);
    var state :=
      if !Finishes(task, result) then Waiting
      else if recorded.snapshot.lastErrorCode.Some? && !Matched(task, result) then Failed
      else Completed;
    recorded.(snapshot := recorded.snapshot.(state := state, updatedAt := now))
  }

  function BeforeRun(task: OwnedTask, now: Time): OwnedTask {
    task.(snapshot := task.snapshot.(
            state := Running,
            runCount := SaturatingAdd(task.snapshot.runCount, 1, U32_MAX),
            updatedAt := now))
  }

  // ----- The same decision as a rule over the whole history of results -----

  /** The fingerprint of the latest success in a history. */
  ghost function LatestFingerprint(history: seq<RunResult>): Option<string> {
    if history == [] then None
    else if history[|history| - 1].Ok? then Some(history[|history| - 1].value.fingerprint)
    else LatestFingerprint(history[..|history| - 1])
  }

  ghost predicate EndsInFailure(history: seq<RunResult>) {
    history != [] && history[|history| - 1].Err?
  }

  /** Position `i` holds the latest success before position `j`. */
  ghost predicate LatestSuccessBefore(history: seq<RunResult>, i: nat, j: nat) {
    && i < j <= |history|
    && history[i].Ok?
    && forall k :: i < k < j ==> history[k].Err?
  }

  /** The awaited condition holds at the last run of a history, told from the results alone. */
  ghost predicate ConditionHolds(mode: Mode, history: seq<RunResult>)
    requires history != []
  {
    var n := |history| - 1;
    mode.Conditional? &&
    match mode.condition
    case ResultChanged =>
      history[n].Ok? && exists i: nat ::
        LatestSuccessBefore(history, i, n) && history[i].value.fingerprint != history[n].value.fingerprint
    case ResultContains(text) => history[n].Ok? && Contains(history[n].value.summary, text)
    case ResultFieldEquals(pointer, expected) =>
      && history[n].Ok?
      && history[n].value.conditionValue.Some?
      && Json.Pointer(history[n].value.conditionValue.value, pointer) == Some(expected)
    case ExecutionFails => history[n].Err?
    case ExecutionRecovers => history[n].Ok? && n > 0 && history[n - 1].Err?
  }

  /** The history ends a task: its condition holds at the last run, or the run limit is reached. */
  ghost predicate Stops(mode: Mode, history: seq<RunResult>)
    requires history != []
  {
    ConditionHolds(mode, history) || |history| >= if mode.OneShot? then 1 else mode.maxRuns
  }

  ghost function FinalState(mode: Mode, history: seq<RunResult>): State
    requires history != []
  {
    if history[|history| - 1].Err? && !ConditionHolds(mode, history) then Failed else Completed
  }

  lemma {:induction false} LatestFingerprintIsLatest(history: seq<RunResult>, i: nat)
    requires LatestSuccessBefore(history, i, |history|)
    ensures LatestFingerprint(history) == Some(history[i].value.fingerprint)
    decreases |history|
  {
    if i < |history| - 1 {
      LatestFingerprintIsLatest(history[..|history| - 1], i);
    }
  }

  lemma {:induction false} LatestFingerprintExists(history: seq<RunResult>) returns (i: nat)
    requires LatestFingerprint(history).Some?
    ensures LatestSuccessBefore(history, i, |history|)
    decreases |history|
  {
    var n := |history| - 1;
    if history[n].Ok? {
      i := n;
    } else {
      i := LatestFingerprintExists(history[..n]);
    }
  }

  /** The task's incremental fields summarise exactly the results recorded so far. */
  ghost predicate Summarises(task: OwnedTask, history: seq<RunResult>) {
    && task.lastFingerprint == LatestFingerprint(history)
    && task.hadFailure == EndsInFailure(history)
    && task.snapshot.lastErrorCode == (if EndsInFailure(history) then Some("execution_failed") else None)
    && task.snapshot.lastSummary ==
       (if history != [] && !EndsInFailure(history) then Some(history[|history| - 1].value.summary) else None)
  }

  /**
   The two remembered fields are enough: deciding from them agrees with deciding from the
   whole history, and the updated fields summarise the extended history.
   */
  lemma IncrementalDecisionIsHistoryRule(task: OwnedTask, history: seq<RunResult>, result: RunResult, now: Time)
    requires Summarises(task, history)
    requires task.snapshot.runCount == |history| + 1
    ensures var extended := history + [result];
            var mode := task.snapshot.mode;
            && Matched(task, result) == ConditionHolds(mode, extended)
            && Finishes(task, result) == Stops(mode, extended)
            && Summarises(AfterRun(task, result, now), extended)
            && AfterRun(task, result, now).snapshot.state ==
               (if Stops(mode, extended) then FinalState(mode, extended) else Waiting)
  {
    var extended := history + [result];
    var n := |history|;
    assert extended[..n] == history;
    assert result.Err? ==> LatestFingerprint(extended) == LatestFingerprint(history);
    var mode := task.snapshot.mode;
    if mode.Conditional? && mode.condition.ResultChanged? && result.Ok? {
      if task.lastFingerprint.Some? {
        var i := LatestFingerprintExists(history);
        LatestFingerprintIsLatest(history, i);
        assert LatestSuccessBefore(extended, i, n);
      }
      forall i: nat | LatestSuccessBefore(extended, i, n)
        ensures LatestFingerprint(history) == Some(extended[i].value.fingerprint)
      {
        assert LatestSuccessBefore(history, i, n);
        LatestFingerprintIsLatest(history, i);
      }
    }
  }
}

/**
 The ACP adapter's registry of active prompt runs. A run registers, supersedes the run it
 finds for its session, streams, and cleans up after itself; cancel, close and delete
 requests interleave with all of this at lock granularity.
 */
module RunRegistry {
  import opened Support

  type SessionId = string
  type RunId = nat
  type Registry = map<SessionId, RunId>

  // ----- The registry's critical sections -----

  function Registered(registry: Registry, session: SessionId): Option<RunId> {
    if session in registry then Some(registry[session]) else None
  }

  /** What `cleanup_active_run` leaves: only the caller's own run is removed. */
  function CleanedUp(registry: Registry, session: SessionId, run: RunId): Registry {
    if Registered(registry, session) == Some(run) then registry - {session} else registry
  }

  /** The shared registry; `cancels` records every cancel message sent, in order. */
  class ActiveRuns {
    var runs: Registry
    var cancels: seq<RunId>

    constructor ()
      ensures runs == map[] && cancels == []
    {
      runs := map[];
      cancels := [];
    }

    /** Registers a run and yields the one it supersedes, to be cancelled after the lock is released. */
    method Register(session: SessionId, run: RunId) returns (previous: Option<RunId>)
      modifies this
      ensures previous == Registered(old(runs), session)
      ensures runs == old(runs)[session := run] && cancels == old(cancels)
    {
      previous := None;
      if session in runs {
        previous := Some(runs[session]);
      }
      runs := runs[session := run];
    }

    /** `cancel_active_run`: the message is sent while the lock is still held. */
    method CancelActiveRun(session: SessionId)
      modifies this
      ensures runs == old(runs) - {session}
      ensures cancels == old(cancels) + (if session in old(runs) then [old(runs)[session]] else [])
    {
      if session in runs {
        cancels := cancels + [runs[session]];
        runs := runs - {session};
      } else {
        assert runs == runs - {session};
      }
    }

    /** `cleanup_active_run` */
    method CleanupActiveRun(session: SessionId, run: RunId)
      modifies this
      ensures runs == CleanedUp(old(runs), session, run) && cancels == old(cancels)
    {
      if session in runs && runs[session] == run {
        runs := runs - {session};
      }
    }
  }

  // ----- Every interleaving -----

  /** `owes` is the superseded run this one has taken out of the registry but not yet messaged. */
  datatype Phase = Registering(owes: Option<RunId>) | Streaming | Ended | CleanedUpPhase

  /** `order` numbers the registrations. */
  datatype Run = Run(session: SessionId, phase: Phase, cancelSent: bool, order: nat)

  datatype System = System(registry: Registry, runs: map<RunId, Run>, registrations: nat)

  datatype Step =
    | Register(run: RunId, session: SessionId)
    | NotifySuperseded(run: RunId)
    | Cancel(session: SessionId)
    | End(run: RunId)
    | CleanUp(run: RunId)

  ghost predicate Init(s: System) {
    s.registry == map[] && s.runs == map[] && s.registrations == 0
  }

  ghost function Sent(runs: map<RunId, Run>, run: Option<RunId>): map<RunId, Run> {
    if run.Some? && run.value in runs then runs[run.value := runs[run.value].(cancelSent := true)] else runs
  }

  ghost function WithPhase(runs: map<RunId, Run>, run: RunId, phase: Phase): map<RunId, Run>
    requires run in runs
  {
    runs[run := runs[run].(phase := phase)]
  }

  ghost predicate Next(s: System, step: Step, s': System) {
    match step
    case Register(run, session) =>
      && run !in s.runs
      && s' == System(
           s.registry[session := run],
           s.runs[run := Run(session, Registering(Registered(s.registry, session)), false, s.registrations)],
           s.registrations + 1)
    case NotifySuperseded(run) =>
      && run in s.runs && s.runs[run].phase.Registering?
      && s' == s.(runs := WithPhase(Sent(s.runs, s.runs[run].phase.owes), run, Streaming))
    case Cancel(session) =>
      s' == s.(registry := s.registry - {session}, runs := Sent(s.runs, Registered(s.registry, session)))
    case End(run) =>
      && run in s.runs && s.runs[run].phase == Streaming
      && s' == s.(runs := WithPhase(s.runs, run, Ended))
    case CleanUp(run) =>
      && run in s.runs && s.runs[run].phase == Ended
      && s' == s.(registry := CleanedUp(s.registry, s.runs[run].session, run),
                  runs := WithPhase(s.runs, run, CleanedUpPhase))
  }

  ghost predicate IsRegistered(s: System, run: RunId) {
    run in s.runs && Registered(s.registry, s.runs[run].session) == Some(run)
  }

  ghost predicate IsOwed(s: System, run: RunId) {
    exists other :: other in s.runs && s.runs[other].phase == Registering(Some(run))
  }

  ghost predicate Unfinished(r: Run) {
    r.phase != CleanedUpPhase
  }

  /** Registered runs are unfinished, uncancelled and filed under their own session. */
  ghost predicate RegistryInv(s: System) {
    forall session :: session in s.registry ==>
      && s.registry[session] in s.runs
      && var run := s.runs[s.registry[session]];
         run.session == session && Unfinished(run) && !run.cancelSent
  }

  /** No unfinished run is forgotten. */
  ghost predicate Accounted(s: System) {
    forall run :: run in s.runs && Unfinished(s.runs[run]) ==>
      IsRegistered(s, run) || s.runs[run].cancelSent || IsOwed(s, run)
  }

  ghost predicate DebtInv(s: System) {
    forall run :: run in s.runs && s.runs[run].phase.Registering? && s.runs[run].phase.owes.Some? ==>
      Owes(s, run, s.runs[run].phase.owes.value)
  }

  /** A registered run is the latest of its session. */
  ghost predicate OrderInv(s: System) {
    && (forall run :: run in s.runs ==> s.runs[run].order < s.registrations)
    && (forall run :: run in s.runs && s.runs[run].session in s.registry ==>
          && s.registry[s.runs[run].session] in s.runs
          && s.runs[run].order <= s.runs[s.registry[s.runs[run].session]].order)
  }

  ghost predicate Inv(s: System) {
    RegistryInv(s) && Accounted(s) && DebtInv(s) && OrderInv(s)
  }

  /**
   An owed run belongs to the debtor's session, was registered earlier, is no longer
   registered, has not been sent a cancel by anyone, and has no other debtor.
   */
  ghost predicate Owes(s: System, run: RunId, owed: RunId)
    requires run in s.runs
  {
    && owed in s.runs && owed != run
    && s.runs[owed].session == s.runs[run].session
    && s.runs[owed].order < s.runs[run].order
    && !IsRegistered(s, owed) && !s.runs[owed].cancelSent
    && forall other :: other in s.runs && s.runs[other].phase == Registering(Some(owed)) ==> other == run
  }

  /** Only a registration adds a run; no step changes a run's session or number, or takes a cancel back. */
  lemma RunsOnlyMoveOn(s: System, step: Step, s': System)
    requires Next(s, step, s')
    ensures forall run :: run in s.runs ==>
              && run in s'.runs && s'.runs[run].session == s.runs[run].session && s'.runs[run].order == s.runs[run].order
              && (s.runs[run].cancelSent ==> s'.runs[run].cancelSent)
    ensures forall run :: run in s'.runs && run !in s.runs ==> step.Register? && run == step.run
    ensures forall run :: run in s.runs && s'.runs[run].phase != s.runs[run].phase ==> !step.Cancel? && run == step.run
  {
  }

  lemma KeepsRegistryInv(s: System, step: Step, s': System)
    requires RegistryInv(s) && DebtInv(s) && Next(s, step, s')
    ensures RegistryInv(s')
  {
  }

  lemma KeepsAccounted(s: System, step: Step, s': System)
    requires RegistryInv(s) && Accounted(s) && DebtInv(s) && Next(s, step, s')
    ensures Accounted(s')
  {
    RunsOnlyMoveOn(s, step, s');
    forall run | run in s'.runs && Unfinished(s'.runs[run])
      ensures IsRegistered(s', run) || s'.runs[run].cancelSent || IsOwed(s', run)
    {
      if run in s.runs {
        KeepsOneAccounted(s, step, s', run);
      }
    }
  }

  lemma KeepsOneAccounted(s: System, step: Step, s': System, run: RunId)
    requires Next(s, step, s') && run in s.runs && Unfinished(s.runs[run])
    requires run in s'.runs && Unfinished(s'.runs[run])
    requires IsRegistered(s, run) || s.runs[run].cancelSent || IsOwed(s, run)
    ensures IsRegistered(s', run) || s'.runs[run].cancelSent || IsOwed(s', run)
  {
    if IsRegistered(s, run) && step.Register? && step.session == s.runs[run].session {
      assert s'.runs[step.run].phase == Registering(Some(run));
    } else if IsOwed(s, run) {
      var debtor :| debtor in s.runs && s.runs[debtor].phase == Registering(Some(run));
      if !(step.NotifySuperseded? && step.run == debtor) {
        assert s'.runs[debtor].phase == Registering(Some(run));
      }
    }
  }

  lemma KeepsDebtInv(s: System, step: Step, s': System)
    requires RegistryInv(s) && DebtInv(s) && OrderInv(s) && Next(s, step, s')
    ensures DebtInv(s')
  {
    RunsOnlyMoveOn(s, step, s');
    forall run | run in s'.runs && s'.runs[run].phase.Registering? && s'.runs[run].phase.owes.Some?
      ensures Owes(s', run, s'.runs[run].phase.owes.value)
    {
      if run in s.runs {
        assert Owes(s, run, s.runs[run].phase.owes.value);
      }
    }
  }

  lemma KeepsOrderInv(s: System, step: Step, s': System)
    requires RegistryInv(s) && OrderInv(s) && Next(s, step, s')
    ensures OrderInv(s')
  {
    RunsOnlyMoveOn(s, step, s');
  }

  lemma NextKeepsInv(s: System, step: Step, s': System)
    requires Inv(s) && Next(s, step, s')
    ensures Inv(s')
  {
    KeepsRegistryInv(s, step, s');
    KeepsAccounted(s, step, s');
    KeepsDebtInv(s, step, s');
    KeepsOrderInv(s, step, s');
  }

  ghost predicate IsRun(states: seq<System>, steps: seq<Step>) {
    && |states| == |steps| + 1
    && Init(states[0])
    && forall i :: 0 <= i < |steps| ==> Next(states[i], steps[i], states[i + 1])
  }

  lemma {:induction false} RunKeepsInv(states: seq<System>, steps: seq<Step>, i: nat)
    requires IsRun(states, steps) && i < |states|
    ensures Inv(states[i])
  {
    if i > 0 {
      RunKeepsInv(states, steps, i - 1);
      NextKeepsInv(states[i - 1], steps[i - 1], states[i]);
    }
  }

  lemma OwedRunIsInTheWindow(s: System, run: RunId)
    requires Inv(s) && run in s.runs && IsOwed(s, run)
    ensures !IsRegistered(s, run) && !s.runs[run].cancelSent
  {
  }

  /**
   Between registration and cleanup exactly one holds of a run: it is its session's
   registered run, or it has been sent a cancel, or it is owed one by the run that superseded
   it. So it is registered or cancelled if and only if no successor still owes it a cancel. A
   registered run is unfinished and the latest its session has registered.
   */
  lemma NoRunIsForgotten(states: seq<System>, steps: seq<Step>, i: nat, run: RunId)
    requires IsRun(states, steps) && i < |states|
    requires run in states[i].runs
    ensures var s := states[i];
            && (Unfinished(s.runs[run]) ==> (IsRegistered(s, run) || s.runs[run].cancelSent <==> !IsOwed(s, run)))
            && (IsRegistered(s, run) ==>
                  && Unfinished(s.runs[run]) && !s.runs[run].cancelSent && !IsOwed(s, run)
                  && forall other :: other in s.runs && s.runs[other].session == s.runs[run].session ==>
                       s.runs[other].order <= s.runs[run].order)
  {
    RunKeepsInv(states, steps, i);
    if IsOwed(states[i], run) {
      OwedRunIsInTheWindow(states[i], run);
    }
  }

  /** The window is real: just after a second prompt registers, the first run is neither registered nor cancelled. */
  lemma SupersededRunIsUncancelledForAWhile(session: SessionId) returns (states: seq<System>, steps: seq<Step>)
    ensures IsRun(states, steps) && |states| == 3
    ensures var s := states[2];
            && 0 in s.runs && s.runs[0].session == session && Unfinished(s.runs[0])
            && !IsRegistered(s, 0) && !s.runs[0].cancelSent && IsOwed(s, 0)
  {
    var first := Run(session, Registering(None), false, 0);
    var second := Run(session, Registering(Some(0)), false, 1);
    steps := [Register(0, session), Register(1, session)];
    states := [
      System(map[], map[], 0),
      System(map[session := 0], map[0 := first], 1),
      System(map[session := 1], map[0 := first, 1 := second], 2)];
    assert Next(states[0], steps[0], states[1]) && Next(states[1], steps[1], states[2]);
    assert states[2].runs[1].phase == Registering(Some(0));
  }

  /** While no supersession in a session is half done, at most one of its unfinished runs has not been cancelled. */
  lemma OneLiveRunPerSession(states: seq<System>, steps: seq<Step>, i: nat, run: RunId, other: RunId)
    requires IsRun(states, steps) && i < |states|
    requires run in states[i].runs && other in states[i].runs
    requires states[i].runs[run].session == states[i].runs[other].session
    requires Unfinished(states[i].runs[run]) && Unfinished(states[i].runs[other])
    requires !states[i].runs[run].cancelSent && !states[i].runs[other].cancelSent
    requires forall debtor ::
               && debtor in states[i].runs && states[i].runs[debtor].phase.Registering?
               && states[i].runs[debtor].session == states[i].runs[run].session
               ==> states[i].runs[debtor].phase.owes.None?
    ensures run == other
  {
    RunKeepsInv(states, steps, i);
  }

  /** A finished run's cleanup never takes another run out of the registry. */
  lemma CleanupRemovesOnlyItself(s: System, step: Step, s': System, session: SessionId)
    requires Next(s, step, s') && step.CleanUp?
    requires session in s.registry && s.registry[session] != step.run
    ensures session in s'.registry && s'.registry[session] == s.registry[session]
  {
  }
}

/** The supervisor's code as it is written, over the shared memory, with the outside
    world as a script. Undisturbed, each piece is a run of the protocol's steps. */
module SupervisorCode {
  import opened Wrappers
  import opened Health
  import opened Supervisor
  import Runs = SupervisorRuns

  /** How supervision ends, when no stop signal came before it: by one, possibly while the
      output of an exited child is drained; by an exit; or by a failed wait. */
  datatype Ending =
    | StopArrives(duringDrain: bool)
    | ChildLost
    | WaitError

  /** A stop signal during startup comes while a stage is worked on, or while muninn looks
      whether Telegraf stays alive. */
  datatype Early = During(stage: Stage) | WhileSettling

  /** What the outside world does to one run. A stopped child leaves within the grace period
      or is killed behind it, and either wait for it can fail. */
  datatype Script = Script(
    failsAt: Option<Stage>, alive: bool, early: Option<Early>, pid: nat,
    ending: Ending, inGrace: bool, waitFails: bool)

  /** How the stop arm ends: a child that has been reaped before is not waited for again. */
  function StopOutcome(script: Script, reaped: bool): Outcome {
    if script.waitFails && !reaped then Err(WaitFailedStopping) else Ok(())
  }

  /** How supervision ends: an early stop is taken whatever else would have happened. */
  function SuperviseOutcome(script: Script, stopPending: bool): Outcome {
    if stopPending then StopOutcome(script, false)
    else
      match script.ending
      case StopArrives(duringDrain) => StopOutcome(script, duringDrain)
      case ChildLost => Err(TelegrafExited)
      case WaitError => Err(WaitFailedSupervising)
  }

  /** How startup ends: a stop signal changes nothing about it. */
  function StartOutcome(script: Script): Option<Stage> {
    if script.failsAt.Some? then script.failsAt else if script.alive then None else Some(Launch)
  }

  function OutcomeOf(script: Script): Outcome {
    match StartOutcome(script)
    case Some(stage) => Err(StartFailed(stage))
    case None => SuperviseOutcome(script, script.early.Some?)
  }

  /** A step taken from the end of a run. */
  lemma Extend(start: System, acts: seq<Act>, s: System, a: Act) returns (more: seq<Act>, t: System)
    requires After(start, acts) == Some(s) && Enabled(s, a)
    ensures more == acts + [a] && t == Do(s, a) && After(start, more) == Some(t)
  {
    hide Enabled, Do;
    more, t := acts + [a], Do(s, a);
    Runs.AfterOne(s, a);
    Runs.AfterConcat(start, acts, [a]);
  }

  ghost predicate InStep(start: System, acts: seq<Act>, s: System, health: HealthState)
    reads health
  {
    health.Valid() && After(start, acts) == Some(s) && s.shared == health.View()
  }

  // ---- The main task ----------------------------------------------------------------------

  /** One stage of startup: the write of the state, then the work. */
  method EnterStage(health: HealthState, stage: Stage, script: Script,
                    ghost start: System, ghost before: seq<Act>, ghost at: System)
      returns (works: bool, ghost acts: seq<Act>, ghost s: System)
    requires InStep(start, before, at, health) && at.main == Entering(stage)
    modifies health`word
    ensures InStep(start, acts, s, health) && works == (script.failsAt != Some(stage))
    ensures s.main == (if works then NextStage(stage) else SettingFailedAtStart(stage))
    ensures s.child == (if works && stage == Launch then Running else at.child)
    ensures s.stopPending == (at.stopPending || script.early == Some(During(stage)))
  {
    hide After;
    var was := health.Set(StageState(stage));
    acts, s := Extend(start, before, at, Start(StartAct.EnterStage));
    if script.early == Some(During(stage)) {
      acts, s := Extend(start, acts, s, Env(StopSignal));
    }
    works := script.failsAt != Some(stage);
    acts, s := Extend(start, acts, s, Start(if works then WorkSucceeds else WorkFails));
  }

  lemma NoOtherStage(stage: Stage)
    ensures stage in {Runtime, Generation, Validation, Launch}
  {
    match stage {
      case Runtime =>
      case Generation =>
      case Validation =>
      case Launch =>
    }
  }

  /** Everything up to a Telegraf seen alive. */
  method StartUp(health: HealthState, script: Script, ghost start: System)
      returns (failed: Option<Stage>, ghost acts: seq<Act>, ghost s: System)
    requires InStep(start, [], start, health) && start.main == Entering(Runtime) && !start.stopPending
    modifies health`word
    ensures InStep(start, acts, s, health)
    ensures failed == StartOutcome(script)
    ensures s.main == (if failed.Some? then SettingFailedAtStart(failed.value) else RecordingPid)
    ensures failed.None? ==> s.child == Running && s.stopPending == script.early.Some?
  {
    hide After;
    var works: bool;
    works, acts, s := EnterStage(health, Runtime, script, start, [], start);
    if !works { return script.failsAt, acts, s; }
    works, acts, s := EnterStage(health, Generation, script, start, acts, s);
    if !works { return script.failsAt, acts, s; }
    works, acts, s := EnterStage(health, Validation, script, start, acts, s);
    if !works { return script.failsAt, acts, s; }
    works, acts, s := EnterStage(health, Launch, script, start, acts, s);
    if !works { return script.failsAt, acts, s; }
    assert script.failsAt == None by { if script.failsAt.Some? { NoOtherStage(script.failsAt.value); } }
    assert s.stopPending || script.early in {None, Some(WhileSettling)} by {
      if script.early.Some? && script.early.value.During? { NoOtherStage(script.early.value.stage); }
    }
    acts, s := Settle(health, script, start, acts, s);
    failed := if script.alive then None else Some(Launch);
  }

  /** Looking whether Telegraf stays alive. */
  method Settle(health: HealthState, script: Script, ghost start: System, ghost before: seq<Act>, ghost at: System)
      returns (ghost acts: seq<Act>, ghost s: System)
    requires InStep(start, before, at, health) && at.main == Settling && at.child == Running
    ensures InStep(start, acts, s, health) && s.child == Running
    ensures s.main == if script.alive then RecordingPid else SettingFailedAtStart(Launch)
    ensures s.stopPending == (at.stopPending || script.early == Some(WhileSettling))
  {
    hide After;
    acts, s := before, at;
    if script.early == Some(WhileSettling) {
      acts, s := Extend(start, acts, s, Env(StopSignal));
    }
    acts, s := Extend(start, acts, s, Start(if script.alive then ConfirmAlive else ConfirmFails));
  }

  function ClearPid(d: Details): Details {
    d.(pid := None)
  }

  /** Waiting for the child with a grace period, and killing it behind that. Either wait
      can fail, unless the child has been reaped before. */
  method Shutdown(health: HealthState, script: Script, reaped: bool,
                  ghost start: System, ghost before: seq<Act>, ghost at: System)
      returns (fails: bool, ghost acts: seq<Act>, ghost s: System)
    requires InStep(start, before, at, health) && at.main == AwaitingExit
    requires at.child == if reaped then Reaped else Running
    ensures InStep(start, acts, s, health) && fails == (script.waitFails && !reaped)
    ensures s.main == if fails then AbortingChecks(Err(WaitFailedStopping)) else ClearingPidAfterStop
  {
    hide After;
    acts, s := before, at;
    fails := false;
    if reaped {
      acts, s := Extend(start, acts, s, Stop(ReapInGrace));
    } else {
      if !script.inGrace {
        acts, s := Extend(start, acts, s, Stop(GraceOver(true)));
      }
      if script.waitFails {
        acts, s := Extend(start, acts, s, Stop(ShutdownWaitFails));
        return true, acts, s;
      }
      if script.inGrace {
        acts, s := Extend(start, acts, s, Env(ChildExits));
      }
      acts, s := Extend(start, acts, s, Stop(if script.inGrace then ReapInGrace else ReapAfterKill));
    }
    acts, s := Extend(start, acts, s, Stop(DrainedAfterStop));
  }

  /** The stop arm. */
  method StopTelegraf(health: HealthState, script: Script, reaped: bool,
                      ghost start: System, ghost before: seq<Act>, ghost at: System)
      returns (outcome: Outcome, ghost acts: seq<Act>, ghost s: System)
    requires InStep(start, before, at, health) && at.main == SettingStopping
    requires at.child == if reaped then Reaped else Running
    modifies health
    ensures InStep(start, acts, s, health) && s.main == AbortingChecks(outcome)
    ensures outcome == StopOutcome(script, reaped)
  {
    hide After;
    var was := health.Set(Stopping);
    acts, s := Extend(start, before, at, Stop(SetStopping));
    var fails: bool;
    fails, acts, s := Shutdown(health, script, reaped, start, acts, s);
    if fails { return Err(WaitFailedStopping), acts, s; }
    acts, s := ClearAndStop(health, start, acts, s);
    outcome := Ok(());
  }

  method ClearAndStop(health: HealthState, ghost start: System, ghost before: seq<Act>, ghost at: System)
      returns (ghost acts: seq<Act>, ghost s: System)
    requires InStep(start, before, at, health) && at.main == ClearingPidAfterStop
    modifies health
    ensures InStep(start, acts, s, health) && s.main == AbortingChecks(Ok(()))
  {
    hide After;
    health.Update(ClearPid);
    acts, s := Extend(start, before, at, Stop(ClearPidAfterStop));
    var was := health.Set(Stopped);
    acts, s := Extend(start, acts, s, Stop(SetStopped));
  }

  /** The selection between the stop signal and the child's exit. A signal that came
      during startup is pending, and is taken before anything else. */
  method Supervise(health: HealthState, script: Script, ghost start: System, ghost before: seq<Act>, ghost at: System)
      returns (outcome: Outcome, ghost acts: seq<Act>, ghost s: System)
    requires InStep(start, before, at, health) && at.main == Supervising && at.child == Running
    requires at.stopPending == script.early.Some?
    modifies health
    ensures InStep(start, acts, s, health) && s.main == AbortingChecks(outcome)
    ensures outcome == SuperviseOutcome(script, at.stopPending)
  {
    hide After;
    acts, s := before, at;
    if script.early.Some? {
      acts, s := Extend(start, acts, s, Serve(TakeStop));
      outcome, acts, s := StopTelegraf(health, script, false, start, acts, s);
      return;
    }
    match script.ending {
      case StopArrives(duringDrain) =>
        if duringDrain {
          acts, s := Extend(start, acts, s, Env(ChildExits));
          acts, s := Extend(start, acts, s, Serve(ChildReaped));
        }
        acts, s := Extend(start, acts, s, Env(StopSignal));
        acts, s := Extend(start, acts, s, Serve(TakeStop));
        outcome, acts, s := StopTelegraf(health, script, duringDrain, start, acts, s);
      case ChildLost =>
        acts, s := Extend(start, acts, s, Env(ChildExits));
        acts, s := Extend(start, acts, s, Serve(ChildReaped));
        acts, s := ReportExit(health, start, acts, s);
        outcome := Err(TelegrafExited);
      case WaitError =>
        acts, s := Extend(start, acts, s, Serve(WaitFails));
        outcome := Err(WaitFailedSupervising);
    }
  }

  /** The exit arm, once the child has been reaped. */
  method ReportExit(health: HealthState, ghost start: System, ghost before: seq<Act>, ghost at: System)
      returns (ghost acts: seq<Act>, ghost s: System)
    requires InStep(start, before, at, health) && at.main == DrainingAfterExit && !at.stopPending
    modifies health
    ensures InStep(start, acts, s, health) && s.main == AbortingChecks(Err(TelegrafExited))
  {
    hide After;
    acts, s := Extend(start, before, at, Serve(DrainedAfterExit));
    health.Update(ClearPid);
    acts, s := Extend(start, acts, s, Serve(ClearPidAfterExit));
    var was := health.Set(Failed);
    acts, s := Extend(start, acts, s, Serve(SetFailedAfterExit));
  }

  /** From a Telegraf seen alive to one that is supervised. */
  method BecomeReady(health: HealthState, pid: nat, ghost start: System, ghost before: seq<Act>, ghost at: System)
      returns (ghost acts: seq<Act>, ghost s: System)
    requires InStep(start, before, at, health) && at.main == RecordingPid
    modifies health
    ensures InStep(start, acts, s, health) && s.main == Supervising && s.child == at.child && s.stopPending == at.stopPending
  {
    hide After;
    health.Update((d: Details) => d.(pid := Some(pid)));
    acts, s := Extend(start, before, at, Start(RecordPid(pid)));
    var was := health.Set(Ready);
    acts, s := Extend(start, acts, s, Start(SetReady));
    acts, s := Extend(start, acts, s, Start(SpawnChecks));
  }

  lemma NoSteps(s: System)
    ensures After(s, []) == Some(s)
  {
  }

  /** The whole life. What it returns and leaves in memory is what a run of the
      protocol returns and leaves. */
  method Run(health: HealthState, script: Script, ghost modules: set<Module>)
      returns (outcome: Outcome, ghost acts: seq<Act>, ghost s: System)
    requires health.Valid() && health.View() == Init(modules).shared
    modifies health
    ensures InStep(Init(modules), acts, s, health) && s.main == Returned(outcome)
    ensures outcome == OutcomeOf(script)
  {
    hide After;
    assert After(Init(modules), []) == Some(Init(modules)) by { NoSteps(Init(modules)); }
    var failed: Option<Stage>;
    failed, acts, s := StartUp(health, script, Init(modules));
    if failed.Some? {
      var was := health.Set(Failed);
      acts, s := Extend(Init(modules), acts, s, Start(SetFailedAtStart));
      return Err(StartFailed(failed.value)), acts, s;
    }
    acts, s := BecomeReady(health, script.pid, Init(modules), acts, s);
    outcome, acts, s := Supervise(health, script, Init(modules), acts, s);
    acts, s := Extend(Init(modules), acts, s, Stop(AbortChecks));
  }

  /** Only steps of this module's self-check. */
  predicate OwnSteps(acts: seq<Act>, m: Module) {
    forall i | 0 <= i < |acts| :: acts[i].Check? && acts[i].m == m
  }

  // ---- One self-check ------------------------------------------------------------------------

  /** A check records its result, and a failing one then sets `Degraded`. */
  method CheckOnce(health: HealthState, m: Module, success: bool, now: nat,
                   ghost start: System, ghost before: seq<Act>, ghost at: System)
      returns (ghost acts: seq<Act>, ghost s: System)
    requires InStep(start, before, at, health) && m in at.tasks && at.tasks[m].Checking?
    modifies health
    ensures InStep(start, acts, s, health) && m in s.tasks
    ensures s.tasks[m] == if !success then Sleeping else if at.tasks[m].retry then ReadingDetails else Finished
    ensures if success then Succeeded(s, m) else FailedCheck(s, m) && s.shared.state == Degraded
    ensures OwnSteps(before, m) ==> OwnSteps(acts, m)
  {
    hide After;
    health.RecordModuleCheck(m, success, now);
    acts, s := Extend(start, before, at, Check(m, if success then Succeed(now) else Fail(now)));
    if !success {
      var was := health.Set(Degraded);
      acts, s := Extend(start, acts, s, Check(m, CheckAct.SetDegraded));
    }
  }

  /** Check, and after a failure check again until it works or service has ended; the
      answers are those of the checks one after the other. Only the steps of this
      module's task are taken, and the task has ended or is asleep. */
  method RetryUntilItWorks(health: HealthState, m: Module, answers: seq<bool>, times: seq<nat>, ghost start: System)
      returns (ghost acts: seq<Act>, ghost s: System)
    requires InStep(start, [], start, health) && m in start.tasks && start.tasks[m] == Checking(false)
    requires |answers| == |times| > 0
    modifies health
    ensures InStep(start, acts, s, health) && OwnSteps(acts, m)
    ensures m in s.tasks && s.tasks[m] == if true in answers then Finished else Sleeping
    ensures if true in answers then Succeeded(s, m) else FailedCheck(s, m)
  {
    hide After;
    acts, s := CheckOnce(health, m, answers[0], times[0], start, [], start);
    if answers[0] { return; }
    for n := 1 to |answers|
      invariant InStep(start, acts, s, health) && m in s.tasks && s.tasks[m] == Sleeping
      invariant true !in answers[..n] && s.shared.state == Degraded
      invariant FailedCheck(s, m) && OwnSteps(acts, m)
    {
      var state := health.Get();
      acts, s := Extend(start, acts, s, Check(m, Wake));
      if !Health.IsReady(state) {
        // Undisturbed, nobody has ended service meanwhile.
        assert false;
        return;
      }
      acts, s := CheckOnce(health, m, answers[n], times[n], start, acts, s);
      if answers[n] {
        acts, s := ClearDegraded(health, m, start, acts, s);
        return;
      }
      assert answers[..n + 1] == answers[..n] + [answers[n]];
    }
    assert answers[..|answers|] == answers;
  }

  /** Leaving `Degraded` behind a retry that worked: a read, then a swap. */
  method ClearDegraded(health: HealthState, m: Module, ghost start: System, ghost before: seq<Act>, ghost at: System)
      returns (ghost acts: seq<Act>, ghost s: System)
    requires InStep(start, before, at, health) && m in at.tasks && at.tasks[m] == ReadingDetails
    modifies health`word
    ensures InStep(start, acts, s, health) && m in s.tasks && s.tasks[m] == Finished
    ensures s.shared == if AllOk(at.shared.details) then CompareAndSwap(at.shared, Degraded, Ready) else at.shared
    ensures OwnSteps(before, m) ==> OwnSteps(acts, m)
  {
    hide After;
    Health.ClearDegradedIfNothingIsFailing(health);
    acts, s := Extend(start, before, at, Check(m, CheckAct.ReadDetails));
    if AllOk(at.shared.details) {
      acts, s := Extend(start, acts, s, Check(m, Swap));
    }
  }
}

/** The supervisor as a protocol: one main task, one child process, one
    self-check task per module and the environment, interleaved step by step over
    the shared memory of `Health`. Every write of the state, every record, every
    read of the details and the compare-and-swap is a step of its own. */
module Supervisor {
  import opened Wrappers
  import opened Health

  /** The steps of startup, each entered with a write of the state. */
  datatype Stage = Runtime | Generation | Validation | Launch

  function StageState(stage: Stage): State {
    match stage
    case Runtime => CheckingRuntime
    case Generation => GeneratingConfiguration
    case Validation => ValidatingConfiguration
    case Launch => StartingTelegraf
  }

  /** Why the program ends. A failed wait is told apart by where it happened. */
  datatype Failure =
    | StartFailed(stage: Stage)
    | TelegrafExited
    | WaitFailedSupervising
    | WaitFailedStopping

  type Outcome = Result<(), Failure>

  /** Where the main task is: the next thing it will do. */
  datatype Main =
    | Entering(stage: Stage)
    | Working(stage: Stage)
    | Settling
    | SettingFailedAtStart(stage: Stage)
    | RecordingPid
    | SettingReady
    | SpawningChecks
    | Supervising
    | DrainingAfterExit
    | ClearingPidAfterExit
    | SettingFailedAfterExit
    | SettingStopping
    | AwaitingExit
    | AwaitingKilled
    | DrainingAfterStop
    | ClearingPidAfterStop
    | SettingStopped
    | AbortingChecks(outcome: Outcome)
    | Returned(outcome: Outcome)

  datatype Child = Absent | Running | Exited | Reaped

  /** The task that spawns the self-checks. */
  datatype Spawner = Unspawned | Queued | Polled | Aborted

  /** One self-check task. `retry` says whether this is a repeated check. */
  datatype Task =
    | NotSpawned
    | Checking(retry: bool)
    | SettingDegraded
    | Sleeping
    | ReadingDetails
    | Swapping
    | Finished

  datatype System = System(
    shared: Shared,
    main: Main,
    child: Child,
    stopPending: bool,
    spawner: Spawner,
    tasks: map<Module, Task>,
    // History: what the main task wrote, whether the child was seen alive after
    // settling, and whether a failing check wrote since the main task's last write.
    mainWrites: seq<State>,
    confirmed: bool,
    degradedSince: bool)

  /** What the environment does on its own. */
  datatype EnvAct = StopSignal | ChildExits

  /** From the first state write to a supervised child. */
  datatype StartAct =
    | EnterStage | WorkSucceeds | WorkFails | ConfirmAlive | ConfirmFails | SetFailedAtStart
    | RecordPid(pid: nat) | SetReady | SpawnChecks

  /** The selection between a stop signal and the child's exit, and the exit arm. */
  datatype ServeAct =
    | TakeStop | ChildReaped | WaitFails | DrainedAfterExit | ClearPidAfterExit | SetFailedAfterExit

  /** The stop arm, and the end of the main task. */
  datatype StopAct =
    | SetStopping | ReapInGrace | GraceOver(killed: bool) | ReapAfterKill | ShutdownWaitFails
    | DrainedAfterStop | ClearPidAfterStop | SetStopped | AbortChecks

  /** One self-check task. */
  datatype CheckAct =
    | Spawn | Succeed(at: nat) | Fail(at: nat) | SetDegraded | Wake | ReadDetails | Swap

  datatype Act =
    | Env(env: EnvAct)
    | Start(start: StartAct)
    | Serve(serve: ServeAct)
    | Stop(stop: StopAct)
    | PollSpawner
    | Check(m: Module, check: CheckAct)

  function Init(modules: set<Module>): System {
    System(Shared(Starting, Details(None, map[])), Entering(Runtime), Absent, false, Unspawned,
           map m | m in modules :: NotSpawned, [], false, false)
  }

  /** The main task's own write of the state. */
  function MainWrites(s: System, to: State, next: Main): System {
    s.(shared := Write(s.shared, to), main := next, mainWrites := s.mainWrites + [to],
       degradedSince := false)
  }

  predicate EnvEnabled(s: System, a: EnvAct) {
    match a
    case StopSignal => true
    case ChildExits => s.child == Running
  }

  predicate StartEnabled(s: System, a: StartAct) {
    match a
    case EnterStage => s.main.Entering?
    case WorkSucceeds => s.main.Working?
    case WorkFails => s.main.Working?
    case ConfirmAlive => s.main == Settling && s.child == Running
    case ConfirmFails => s.main == Settling
    case SetFailedAtStart => s.main.SettingFailedAtStart?
    case RecordPid(_) => s.main == RecordingPid
    case SetReady => s.main == SettingReady
    case SpawnChecks => s.main == SpawningChecks
  }

  /** The selection is biased: whatever else is ready, a pending stop is taken. */
  predicate ServeEnabled(s: System, a: ServeAct) {
    match a
    case TakeStop => (s.main == Supervising || s.main == DrainingAfterExit) && s.stopPending
    case ChildReaped => s.main == Supervising && s.child == Exited && !s.stopPending
    case WaitFails => s.main == Supervising && !s.stopPending
    case DrainedAfterExit => s.main == DrainingAfterExit && !s.stopPending
    case ClearPidAfterExit => s.main == ClearingPidAfterExit
    case SetFailedAfterExit => s.main == SettingFailedAfterExit
  }

  predicate StopEnabled(s: System, a: StopAct) {
    match a
    case SetStopping => s.main == SettingStopping
    case ReapInGrace => s.main == AwaitingExit && (s.child == Exited || s.child == Reaped)
    case GraceOver(_) => s.main == AwaitingExit
    case ReapAfterKill => s.main == AwaitingKilled && (s.child == Exited || s.child == Reaped)
    case ShutdownWaitFails => s.main == AwaitingExit || s.main == AwaitingKilled
    case DrainedAfterStop => s.main == DrainingAfterStop
    case ClearPidAfterStop => s.main == ClearingPidAfterStop
    case SetStopped => s.main == SettingStopped
    case AbortChecks => s.main.AbortingChecks?
  }

  predicate CheckEnabled(s: System, m: Module, a: CheckAct) {
    m in s.tasks &&
    match a
    case Spawn => s.spawner == Polled && s.tasks[m] == NotSpawned
    case Succeed(_) => s.tasks[m].Checking?
    case Fail(_) => s.tasks[m].Checking?
    case SetDegraded => s.tasks[m] == SettingDegraded
    case Wake => s.tasks[m] == Sleeping
    case ReadDetails => s.tasks[m] == ReadingDetails
    case Swap => s.tasks[m] == Swapping
  }

  predicate Enabled(s: System, a: Act) {
    match a
    case Env(e) => EnvEnabled(s, e)
    case Start(e) => StartEnabled(s, e)
    case Serve(e) => ServeEnabled(s, e)
    case Stop(e) => StopEnabled(s, e)
    case PollSpawner => s.spawner == Queued
    case Check(m, e) => CheckEnabled(s, m, e)
  }

  function NextStage(stage: Stage): Main {
    match stage
    case Runtime => Entering(Generation)
    case Generation => Entering(Validation)
    case Validation => Entering(Launch)
    case Launch => Settling
  }

  function Move(s: System, m: Module, t: Task): System {
    s.(tasks := s.tasks[m := t])
  }

  function DoEnv(s: System, a: EnvAct): System {
    match a
    case StopSignal => s.(stopPending := true)
    case ChildExits => s.(child := Exited)
  }

  function DoStart(s: System, a: StartAct): System
    requires StartEnabled(s, a)
  {
    match a
    case EnterStage => MainWrites(s, StageState(s.main.stage), Working(s.main.stage))
    case WorkSucceeds =>
      s.(main := NextStage(s.main.stage), child := if s.main.stage == Launch then Running else s.child)
    case WorkFails => s.(main := SettingFailedAtStart(s.main.stage))
    case ConfirmAlive => s.(main := RecordingPid, confirmed := true)
    case ConfirmFails => s.(main := SettingFailedAtStart(Launch))
    case SetFailedAtStart => MainWrites(s, Failed, Returned(Err(StartFailed(s.main.stage))))
    case RecordPid(pid) => s.(shared := SetPid(s.shared, Some(pid)), main := SettingReady)
    case SetReady => MainWrites(s, Ready, SpawningChecks)
    case SpawnChecks => s.(spawner := Queued, main := Supervising)
  }

  function DoServe(s: System, a: ServeAct): System {
    match a
    case TakeStop => s.(main := SettingStopping)
    case ChildReaped => s.(child := Reaped, main := DrainingAfterExit)
    case WaitFails => s.(main := AbortingChecks(Err(WaitFailedSupervising)))
    case DrainedAfterExit => s.(main := ClearingPidAfterExit)
    case ClearPidAfterExit => s.(shared := SetPid(s.shared, None), main := SettingFailedAfterExit)
    case SetFailedAfterExit => MainWrites(s, Failed, AbortingChecks(Err(TelegrafExited)))
  }

  /** Aborting reaches the spawner only before its first poll; the self-checks it
      spawned are detached. */
  function DoStop(s: System, a: StopAct): System
    requires StopEnabled(s, a)
  {
    match a
    case SetStopping => MainWrites(s, Stopping, AwaitingExit)
    case ReapInGrace => s.(child := Reaped, main := DrainingAfterStop)
    case GraceOver(killed) =>
      s.(child := if killed && s.child == Running then Exited else s.child, main := AwaitingKilled)
    case ReapAfterKill => s.(child := Reaped, main := DrainingAfterStop)
    case ShutdownWaitFails => s.(main := AbortingChecks(Err(WaitFailedStopping)))
    case DrainedAfterStop => s.(main := ClearingPidAfterStop)
    case ClearPidAfterStop => s.(shared := SetPid(s.shared, None), main := SettingStopped)
    case SetStopped => MainWrites(s, Stopped, AbortingChecks(Ok(())))
    case AbortChecks =>
      s.(spawner := if s.spawner == Queued then Aborted else s.spawner, main := Returned(s.main.outcome))
  }

  function DoCheck(s: System, m: Module, a: CheckAct): System
    requires CheckEnabled(s, m, a)
  {
    match a
    case Spawn => Move(s, m, Checking(false))
    case Succeed(at) =>
      Move(s.(shared := Record(s.shared, m, true, at)), m, if s.tasks[m].retry then ReadingDetails else Finished)
    case Fail(at) => Move(s.(shared := Record(s.shared, m, false, at)), m, SettingDegraded)
    case SetDegraded => Move(s.(shared := Write(s.shared, Degraded), degradedSince := true), m, Sleeping)
    case Wake => Move(s, m, if Health.IsReady(s.shared.state) then Checking(true) else Finished)
    case ReadDetails => Move(s, m, if AllOk(s.shared.details) then Swapping else Finished)
    case Swap => Move(s.(shared := CompareAndSwap(s.shared, Degraded, Ready)), m, Finished)
  }

  function Do(s: System, a: Act): System
    requires Enabled(s, a)
  {
    match a
    case Env(e) => DoEnv(s, e)
    case Start(e) => DoStart(s, e)
    case Serve(e) => DoServe(s, e)
    case Stop(e) => DoStop(s, e)
    case PollSpawner => s.(spawner := Polled)
    case Check(m, e) => DoCheck(s, m, e)
  }

  /** The system after a list of steps, or nothing when one was not enabled. */
  function After(s: System, acts: seq<Act>): Option<System> {
    if acts == [] then Some(s)
    else match After(s, acts[..|acts| - 1])
      case None => None
      case Some(t) => if Enabled(t, acts[|acts| - 1]) then Some(Do(t, acts[|acts| - 1])) else None
  }

  ghost predicate Reachable(modules: set<Module>, s: System) {
    exists acts :: After(Init(modules), acts) == Some(s)
  }

  // ---- The main task's own history ------------------------------------------------

  function Writes(stage: Stage): seq<State> {
    match stage
    case Runtime => [CheckingRuntime]
    case Generation => [CheckingRuntime, GeneratingConfiguration]
    case Validation => [CheckingRuntime, GeneratingConfiguration, ValidatingConfiguration]
    case Launch => [CheckingRuntime, GeneratingConfiguration, ValidatingConfiguration, StartingTelegraf]
  }

  const SERVICE: seq<State> :=
    [CheckingRuntime, GeneratingConfiguration, ValidatingConfiguration, StartingTelegraf, Ready]

  /** What the main task has written when it returns. */
  function WritesOf(outcome: Outcome): seq<State> {
    match outcome
    case Ok(_) => SERVICE + [Stopping, Stopped]
    case Err(StartFailed(stage)) => Writes(stage) + [Failed]
    case Err(TelegrafExited) => SERVICE + [Failed]
    case Err(WaitFailedSupervising) => SERVICE
    case Err(WaitFailedStopping) => SERVICE + [Stopping]
  }

  /** What the main task has written by the time it is where it is. */
  function WritesBy(main: Main): seq<State> {
    match main
    case Entering(stage) => Writes(stage)[..|Writes(stage)| - 1]
    case Working(stage) => Writes(stage)
    case SettingFailedAtStart(stage) => Writes(stage)
    case Settling => Writes(Launch)
    case RecordingPid => Writes(Launch)
    case SettingReady => Writes(Launch)
    case SpawningChecks => SERVICE
    case Supervising => SERVICE
    case DrainingAfterExit => SERVICE
    case ClearingPidAfterExit => SERVICE
    case SettingFailedAfterExit => SERVICE
    case SettingStopping => SERVICE
    case AwaitingExit => SERVICE + [Stopping]
    case AwaitingKilled => SERVICE + [Stopping]
    case DrainingAfterStop => SERVICE + [Stopping]
    case ClearingPidAfterStop => SERVICE + [Stopping]
    case SettingStopped => SERVICE + [Stopping]
    case AbortingChecks(outcome) => WritesOf(outcome)
    case Returned(outcome) => WritesOf(outcome)
  }

  /** The last state the main task wrote, `Starting` before the first. */
  function LastWrite(s: System): State {
    if s.mainWrites == [] then Starting else s.mainWrites[|s.mainWrites| - 1]
  }

  /** Telegraf is confirmed and service has not been ended by the main task. */
  predicate InService(s: System) {
    LastWrite(s) == Ready
  }

  /** The main task has written `Stopping`, `Failed` or `Stopped`. */
  predicate Ended(s: System) {
    LastWrite(s) == Stopping || LastWrite(s) == Failed || LastWrite(s) == Stopped
  }

  predicate PidKnown(main: Main) {
    match main
    case SettingReady => true
    case SpawningChecks => true
    case Supervising => true
    case DrainingAfterExit => true
    case ClearingPidAfterExit => true
    case SettingStopping => true
    case AwaitingExit => true
    case AwaitingKilled => true
    case DrainingAfterStop => true
    case ClearingPidAfterStop => true
    case AbortingChecks(Err(WaitFailedSupervising)) => true
    case AbortingChecks(Err(WaitFailedStopping)) => true
    case Returned(Err(WaitFailedSupervising)) => true
    case Returned(Err(WaitFailedStopping)) => true
    case _ => false
  }

  /** Startup has seen the child alive after the settle window. */
  predicate PastConfirmation(main: Main) {
    match main
    case Entering(_) => false
    case Working(_) => false
    case Settling => false
    case SettingFailedAtStart(_) => false
    case AbortingChecks(Err(StartFailed(_))) => false
    case Returned(Err(StartFailed(_))) => false
    case _ => true
  }

  predicate PastSpawning(main: Main) {
    PastConfirmation(main) && main != RecordingPid && main != SettingReady && main != SpawningChecks
  }

  predicate ChildReapedBy(main: Main) {
    match main
    case DrainingAfterExit => true
    case ClearingPidAfterExit => true
    case SettingFailedAfterExit => true
    case DrainingAfterStop => true
    case ClearingPidAfterStop => true
    case SettingStopped => true
    case AbortingChecks(outcome) => outcome == Ok(()) || outcome == Err(TelegrafExited)
    case Returned(outcome) => outcome == Ok(()) || outcome == Err(TelegrafExited)
    case _ => false
  }

  /** What holds of the main task in every reachable state. */
  ghost predicate MainInv(s: System) {
    && s.mainWrites == WritesBy(s.main)
    && (s.shared.details.pid.Some? <==> PidKnown(s.main))
    && (ChildReapedBy(s.main) ==> s.child == Reaped)
    && (PastConfirmation(s.main) ==> s.confirmed)
    && (!PastSpawning(s.main) ==> s.spawner == Unspawned)
    && (s.main.Entering? || s.main.Working? ==> s.child == Absent)
  }

  // ---- The self-checks ---------------------------------------------------------------

  predicate Succeeded(s: System, m: Module) {
    m in s.shared.details.checks && s.shared.details.checks[m].success
  }

  predicate FailedCheck(s: System, m: Module) {
    m in s.shared.details.checks && !s.shared.details.checks[m].success
  }

  /** What a task's place says about its module's record. */
  ghost predicate TaskInv(s: System, m: Module) {
    m in s.tasks &&
    match s.tasks[m]
    case NotSpawned => m !in s.shared.details.checks
    case Checking(retry) => if retry then FailedCheck(s, m) else m !in s.shared.details.checks
    case SettingDegraded => FailedCheck(s, m)
    case Sleeping => FailedCheck(s, m)
    case ReadingDetails => Succeeded(s, m)
    case Swapping => Succeeded(s, m)
    case Finished => Succeeded(s, m) || (FailedCheck(s, m) && !InService(s))
  }

  /** Some recorded check is a failure, or some retry stands between its
      successful record and its compare-and-swap. */
  ghost predicate HasACause(s: System) {
    exists m | m in s.tasks :: FailedCheck(s, m) || s.tasks[m] == ReadingDetails || s.tasks[m] == Swapping
  }

  /** What holds of the state word and the tasks in every reachable state. */
  ghost predicate CheckInv(s: System) {
    && s.shared.details.checks.Keys <= s.tasks.Keys
    && (forall m | m in s.tasks :: TaskInv(s, m))
    && (s.spawner != Polled ==> forall m | m in s.tasks :: s.tasks[m] == NotSpawned)
    && (s.shared.state == Degraded ==> HasACause(s))
    && (InService(s) ==> Health.IsReady(s.shared.state))
    && (!InService(s) && !s.degradedSince ==> s.shared.state == LastWrite(s))
    && (s.spawner == Unspawned ==> !s.degradedSince)
    && (s.degradedSince ==> Health.IsReady(s.shared.state))
  }

  ghost predicate Inv(s: System) {
    MainInv(s) && CheckInv(s)
  }

  lemma InitInv(modules: set<Module>)
    ensures Inv(Init(modules))
  {
  }

  // ---- Every step keeps the invariant ------------------------------------------------

  lemma StartKeepsMainInv(s: System, a: StartAct)
    requires MainInv(s) && StartEnabled(s, a)
    ensures MainInv(DoStart(s, a))
  {
  }

  lemma ServeKeepsMainInv(s: System, a: ServeAct)
    requires MainInv(s) && ServeEnabled(s, a)
    ensures MainInv(DoServe(s, a))
  {
  }

  lemma StopKeepsMainInv(s: System, a: StopAct)
    requires MainInv(s) && StopEnabled(s, a)
    ensures MainInv(DoStop(s, a))
  {
  }

  /** A step that leaves the tasks and their records alone keeps what is known of
      them, provided service begins only before any task exists. */
  lemma UntouchedKeepsCheckInv(s: System, t: System)
    requires CheckInv(s) && t.tasks == s.tasks && t.shared.details.checks == s.shared.details.checks
    requires t.shared.state == Degraded ==> s.shared.state == Degraded
    requires InService(t) ==> Health.IsReady(t.shared.state)
    requires InService(t) ==> InService(s) || s.spawner != Polled
    requires !InService(t) && !t.degradedSince ==> t.shared.state == LastWrite(t)
    requires t.spawner != Polled ==> s.spawner != Polled
    requires t.spawner == Unspawned ==> !t.degradedSince
    requires t.degradedSince ==> Health.IsReady(t.shared.state)
    ensures CheckInv(t)
  {
    forall m | m in t.tasks ensures TaskInv(t, m) {
      assert TaskInv(s, m);
    }
    if s.shared.state == Degraded {
      var m :| m in s.tasks && (FailedCheck(s, m) || s.tasks[m] == ReadingDetails || s.tasks[m] == Swapping);
      assert FailedCheck(t, m) || t.tasks[m] == ReadingDetails || t.tasks[m] == Swapping;
    }
  }

  lemma StartKeepsCheckInv(s: System, a: StartAct)
    requires Inv(s) && StartEnabled(s, a)
    ensures CheckInv(DoStart(s, a))
  {
    hide TaskInv, HasACause;
    UntouchedKeepsCheckInv(s, DoStart(s, a));
  }

  lemma ServeKeepsCheckInv(s: System, a: ServeAct)
    requires Inv(s) && ServeEnabled(s, a)
    ensures CheckInv(DoServe(s, a))
  {
    hide TaskInv, HasACause;
    UntouchedKeepsCheckInv(s, DoServe(s, a));
  }

  lemma StopKeepsCheckInv(s: System, a: StopAct)
    requires Inv(s) && StopEnabled(s, a)
    ensures CheckInv(DoStop(s, a))
  {
    hide TaskInv, HasACause;
    UntouchedKeepsCheckInv(s, DoStop(s, a));
  }

  /** A step of one self-check leaves the other modules' places and records alone. */
  lemma OthersUntouched(s: System, m: Module, a: CheckAct)
    requires CheckEnabled(s, m, a)
    ensures var t := DoCheck(s, m, a);
            && t.tasks.Keys == s.tasks.Keys && t.main == s.main && t.child == s.child
            && t.mainWrites == s.mainWrites && t.confirmed == s.confirmed && t.spawner == s.spawner
            && t.shared.details.pid == s.shared.details.pid
            && (forall k | k in s.tasks && k != m :: s.tasks[k] == t.tasks[k])
            && (forall k | k in s.tasks && k != m :: FailedCheck(s, k) == FailedCheck(t, k))
            && (forall k | k in s.tasks && k != m :: Succeeded(s, k) == Succeeded(t, k))
            && (forall k | k in s.tasks && k != m :: (k in s.shared.details.checks) == (k in t.shared.details.checks))
            && t.shared.details.checks.Keys <= s.shared.details.checks.Keys + {m}
  {
  }

  lemma CheckKeepsTaskInv(s: System, m: Module, a: CheckAct)
    requires CheckInv(s) && CheckEnabled(s, m, a)
    ensures forall k | k in s.tasks :: TaskInv(DoCheck(s, m, a), k)
  {
    var t := DoCheck(s, m, a);
    OwnTaskInv(s, m, a);
    OthersUntouched(s, m, a);
    hide DoCheck, CheckEnabled;
    forall k | k in s.tasks ensures TaskInv(t, k) {
      assert TaskInv(s, k);
    }
  }

  lemma OwnTaskInv(s: System, m: Module, a: CheckAct)
    requires CheckInv(s) && CheckEnabled(s, m, a)
    ensures TaskInv(DoCheck(s, m, a), m)
  {
    assert TaskInv(s, m);
  }

  /** After a step of a self-check `Degraded` still has a cause. */
  lemma CheckKeepsCause(s: System, m: Module, a: CheckAct)
    requires CheckInv(s) && CheckEnabled(s, m, a) && DoCheck(s, m, a).shared.state == Degraded
    ensures HasACause(DoCheck(s, m, a))
  {
    var t := DoCheck(s, m, a);
    assert TaskInv(s, m);
    CheckKeepsTaskInv(s, m, a);
    assert TaskInv(t, m);
    OthersUntouched(s, m, a);
    if s.shared.state == Degraded {
      var k :| k in s.tasks && (FailedCheck(s, k) || s.tasks[k] == ReadingDetails || s.tasks[k] == Swapping);
      if k != m {
        assert FailedCheck(t, k) || t.tasks[k] == ReadingDetails || t.tasks[k] == Swapping;
      } else if a.ReadDetails? && !AllOk(s.shared.details) {
        var j :| j in s.shared.details.checks && !s.shared.details.checks[j].success;
        assert FailedCheck(t, j);
      } else {
        assert FailedCheck(t, m) || t.tasks[m] == ReadingDetails || t.tasks[m] == Swapping;
      }
    } else {
      assert FailedCheck(t, m);
    }
  }

  lemma CheckKeepsInv(s: System, m: Module, a: CheckAct)
    requires Inv(s) && CheckEnabled(s, m, a)
    ensures Inv(DoCheck(s, m, a))
  {
    var t := DoCheck(s, m, a);
    assert TaskInv(s, m);
    OthersUntouched(s, m, a);
    CheckKeepsTaskInv(s, m, a);
    if t.shared.state == Degraded { CheckKeepsCause(s, m, a); }
  }

  lemma StepKeepsInv(s: System, a: Act)
    requires Inv(s) && Enabled(s, a)
    ensures Inv(Do(s, a)) && Do(s, a).tasks.Keys == s.tasks.Keys
  {
    hide MainInv, CheckInv, DoStart, DoServe, DoStop, DoCheck, DoEnv;
    match a
    case Env(e) =>
      QuietStepKeepsInv(s, a);
    case Start(e) =>
      StartKeepsMainInv(s, e);
      StartKeepsCheckInv(s, e);
      SameModules(s, a);
    case Serve(e) =>
      ServeKeepsMainInv(s, e);
      ServeKeepsCheckInv(s, e);
      SameModules(s, a);
    case Stop(e) =>
      StopKeepsMainInv(s, e);
      StopKeepsCheckInv(s, e);
      SameModules(s, a);
    case PollSpawner =>
      QuietStepKeepsInv(s, a);
    case Check(m, e) =>
      CheckKeepsInv(s, m, e);
      OthersUntouched(s, m, e);
  }

  lemma SameModules(s: System, a: Act)
    requires Enabled(s, a) && !a.Check?
    ensures Do(s, a).tasks == s.tasks
  {
  }

  lemma QuietStepKeepsInv(s: System, a: Act)
    requires Inv(s) && Enabled(s, a) && (a.Env? || a.PollSpawner?)
    ensures Inv(Do(s, a)) && Do(s, a).tasks == s.tasks
  {
    UntouchedKeepsCheckInv(s, Do(s, a));
  }

  lemma {:induction false} RunKeepsInv(s: System, acts: seq<Act>)
    requires Inv(s) && After(s, acts).Some?
    ensures Inv(After(s, acts).value) && After(s, acts).value.tasks.Keys == s.tasks.Keys
  {
    hide Inv, Do, Enabled;
    if acts != [] {
      RunKeepsInv(s, acts[..|acts| - 1]);
      StepKeepsInv(After(s, acts[..|acts| - 1]).value, acts[|acts| - 1]);
    }
  }

  lemma ReachableInv(modules: set<Module>, s: System)
    requires Reachable(modules, s)
    ensures Inv(s) && s.tasks.Keys == modules
  {
    hide Inv;
    var acts :| After(Init(modules), acts) == Some(s);
    InitInv(modules);
    RunKeepsInv(Init(modules), acts);
  }
}

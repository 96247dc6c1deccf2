/** The protocol told by what has happened, without the state of any task: when each step may
    come, and what the shared memory then holds. The runs of `Supervisor` are exactly the
    histories allowed here. */
module SupervisorHistory {
  import opened Basics
  import opened Wrappers
  import opened Health
  import opened Supervisor
  import Runs = SupervisorRuns

  // ---- What has happened ---------------------------------------------------------------

  predicate IsMainStep(a: Act) {
    a.Start? || a.Serve? || a.Stop?
  }

  /** The main task's last step. */
  function LastMain(h: seq<Act>): (last: Option<Act>)
    ensures last.Some? ==> IsMainStep(last.value)
  {
    if h == [] then None
    else if IsMainStep(h[|h| - 1]) then Some(h[|h| - 1])
    else LastMain(h[..|h| - 1])
  }

  /** How many stages of startup have been completed. */
  function StagesDone(h: seq<Act>): nat {
    if h == [] then 0
    else StagesDone(h[..|h| - 1]) + if h[|h| - 1] == Start(WorkSucceeds) then 1 else 0
  }

  /** What of a history decides when the steps of the main task, the child and the spawner may come:
      the main task's last step, how many stages are completed, and what has happened at all. */
  datatype Facts = Facts(
    last: Option<Act>, stages: nat, stop: bool, exits: bool, killed: bool, reaped: bool,
    spawned: bool, polled: bool, aborted: bool, stopped: bool, failed: bool, waitFailed: bool)

  function FactsOf(h: seq<Act>): Facts {
    Facts(LastMain(h), StagesDone(h), Env(StopSignal) in h, Env(ChildExits) in h, Stop(GraceOver(true)) in h,
          Serve(ChildReaped) in h || Stop(ReapInGrace) in h || Stop(ReapAfterKill) in h,
          Start(SpawnChecks) in h, PollSpawner in h, Stop(AbortChecks) in h,
          Stop(SetStopped) in h, Serve(SetFailedAfterExit) in h, Serve(WaitFails) in h)
  }

  /** The last step of a module's self-check, and what had happened before it. */
  function LastCheck(h: seq<Act>, m: Module): Option<(CheckAct, seq<Act>)> {
    if h == [] then None
    else
      var last := h[|h| - 1];
      if last.Check? && last.m == m then Some((last.check, h[..|h| - 1])) else LastCheck(h[..|h| - 1], m)
  }

  // ---- The shared memory ---------------------------------------------------------------------

  /** The state word: whoever wrote last, but a swap changes nothing but `Degraded`. */
  function StateAfter(h: seq<Act>): State {
    if h == [] then Starting
    else
      var before := h[..|h| - 1];
      match h[|h| - 1]
      case Start(EnterStage) =>
        (match StagesDone(before)
         case 0 => CheckingRuntime
         case 1 => GeneratingConfiguration
         case 2 => ValidatingConfiguration
         case _ => StartingTelegraf)
      case Start(SetFailedAtStart) => Failed
      case Start(SetReady) => Ready
      case Serve(SetFailedAfterExit) => Failed
      case Stop(SetStopping) => Stopping
      case Stop(SetStopped) => Stopped
      case Check(_, SetDegraded) => Degraded
      case Check(_, Swap) => if StateAfter(before) == Degraded then Ready else StateAfter(before)
      case _ => StateAfter(before)
  }

  function PidAfter(h: seq<Act>): Option<nat> {
    if h == [] then None
    else
      match h[|h| - 1]
      case Start(RecordPid(pid)) => Some(pid)
      case Serve(ClearPidAfterExit) => None
      case Stop(ClearPidAfterStop) => None
      case _ => PidAfter(h[..|h| - 1])
  }

  /** What was recorded of a module's check last. */
  function RecordAfter(h: seq<Act>, m: Module): Option<ModuleCheck> {
    if h == [] then None
    else
      match h[|h| - 1]
      case Check(k, Succeed(at)) => if k == m then Some(ModuleCheck(true, at)) else RecordAfter(h[..|h| - 1], m)
      case Check(k, Fail(at)) => if k == m then Some(ModuleCheck(false, at)) else RecordAfter(h[..|h| - 1], m)
      case _ => RecordAfter(h[..|h| - 1], m)
  }

  predicate ReadyAfter(h: seq<Act>) {
    StateAfter(h) == Ready || StateAfter(h) == Degraded
  }

  ghost predicate NothingFailing(h: seq<Act>) {
    forall m, at :: RecordAfter(h, m) != Some(ModuleCheck(false, at))
  }

  // ---- When a step may come --------------------------------------------------------------------

  predicate AllowedEnv(f: Facts, a: EnvAct) {
    match a
    case StopSignal => true
    case ChildExits => f.stages == 4 && !f.exits && !f.killed
  }

  /** A Telegraf is seen alive when it has been started and has not exited since. */
  predicate AllowedStart(f: Facts, a: StartAct) {
    match a
    case EnterStage => f.last == None || (f.last == Some(Start(WorkSucceeds)) && f.stages < 4)
    case WorkSucceeds => f.last == Some(Start(StartAct.EnterStage))
    case WorkFails => f.last == Some(Start(StartAct.EnterStage))
    case ConfirmAlive => f.last == Some(Start(WorkSucceeds)) && f.stages == 4 && !f.exits
    case ConfirmFails => f.last == Some(Start(WorkSucceeds)) && f.stages == 4
    case SetFailedAtStart => f.last == Some(Start(WorkFails)) || f.last == Some(Start(ConfirmFails))
    case RecordPid(_) => f.last == Some(Start(ConfirmAlive))
    case SetReady => f.last.Some? && f.last.value.Start? && f.last.value.start.RecordPid?
    case SpawnChecks => f.last == Some(Start(SetReady))
  }

  /** A pending stop is taken before anything else, from service or while the output of an
      exited child is drained. */
  predicate AllowedServe(f: Facts, a: ServeAct) {
    match a
    case TakeStop => (f.last == Some(Start(SpawnChecks)) || f.last == Some(Serve(ChildReaped))) && f.stop
    case ChildReaped => f.last == Some(Start(SpawnChecks)) && f.exits && !f.stop
    case WaitFails => f.last == Some(Start(SpawnChecks)) && !f.stop
    case DrainedAfterExit => f.last == Some(Serve(ChildReaped)) && !f.stop
    case ClearPidAfterExit => f.last == Some(Serve(DrainedAfterExit))
    case SetFailedAfterExit => f.last == Some(Serve(ClearPidAfterExit))
  }

  predicate AllowedStop(f: Facts, a: StopAct) {
    var grace := f.last == Some(Stop(SetStopping));
    var kill := f.last.Some? && f.last.value.Stop? && f.last.value.stop.GraceOver?;
    match a
    case SetStopping => f.last == Some(Serve(TakeStop))
    case ReapInGrace => grace && f.exits
    case GraceOver(_) => grace
    case ReapAfterKill => kill && (f.exits || f.killed)
    case ShutdownWaitFails => grace || kill
    case DrainedAfterStop => f.last == Some(Stop(ReapInGrace)) || f.last == Some(Stop(ReapAfterKill))
    case ClearPidAfterStop => f.last == Some(Stop(DrainedAfterStop))
    case SetStopped => f.last == Some(Stop(ClearPidAfterStop))
    case AbortChecks =>
      || f.last == Some(Stop(SetStopped)) || f.last == Some(Serve(SetFailedAfterExit))
      || f.last == Some(Serve(WaitFails)) || f.last == Some(Stop(ShutdownWaitFails))
  }

  /** A check is repeated when muninn was ready as its task awoke; a repeated one that succeeds
      reads the details, and swaps if nothing was failing then. */
  ghost predicate AllowedCheck(h: seq<Act>, m: Module, a: CheckAct) {
    var last := LastCheck(h, m);
    match a
    case Spawn => last == None && PollSpawner in h
    case Succeed(_) => last.Some? && (last.value.0 == Spawn || (last.value.0 == Wake && ReadyAfter(last.value.1)))
    case Fail(_) => last.Some? && (last.value.0 == Spawn || (last.value.0 == Wake && ReadyAfter(last.value.1)))
    case SetDegraded => last.Some? && last.value.0.Fail?
    case Wake => last.Some? && last.value.0 == CheckAct.SetDegraded
    case ReadDetails => last.Some? && last.value.0.Succeed? && Check(m, Wake) in last.value.1
    case Swap => last.Some? && last.value.0 == ReadDetails && NothingFailing(last.value.1)
  }

  /** The spawner runs once, unless it was aborted before. */
  ghost predicate Allowed(modules: set<Module>, h: seq<Act>, a: Act) {
    match a
    case Env(e) => AllowedEnv(FactsOf(h), e)
    case Start(e) => AllowedStart(FactsOf(h), e)
    case Serve(e) => AllowedServe(FactsOf(h), e)
    case Stop(e) => AllowedStop(FactsOf(h), e)
    case PollSpawner => FactsOf(h).spawned && !FactsOf(h).polled && !FactsOf(h).aborted
    case Check(m, e) => m in modules && AllowedCheck(h, m, e)
  }

  // ---- The state of a run, from its history ----------------------------------------------------------

  function NextFacts(f: Facts, a: Act): Facts {
    Facts(if IsMainStep(a) then Some(a) else f.last,
          f.stages + (if a == Start(WorkSucceeds) then 1 else 0),
          f.stop || a == Env(StopSignal), f.exits || a == Env(ChildExits), f.killed || a == Stop(GraceOver(true)),
          f.reaped || a == Serve(ChildReaped) || a == Stop(ReapInGrace) || a == Stop(ReapAfterKill),
          f.spawned || a == Start(SpawnChecks), f.polled || a == PollSpawner, f.aborted || a == Stop(AbortChecks),
          f.stopped || a == Stop(SetStopped), f.failed || a == Serve(SetFailedAfterExit),
          f.waitFailed || a == Serve(WaitFails))
  }

  lemma FactsGrow(h: seq<Act>, a: Act)
    ensures FactsOf(h + [a]) == NextFacts(FactsOf(h), a)
  {
    assert (h + [a])[..|h|] == h;
    InMore(h, a, Env(StopSignal)); InMore(h, a, Env(ChildExits)); InMore(h, a, Stop(GraceOver(true)));
    InMore(h, a, Serve(ChildReaped)); InMore(h, a, Stop(ReapInGrace)); InMore(h, a, Stop(ReapAfterKill));
    InMore(h, a, Start(SpawnChecks)); InMore(h, a, PollSpawner); InMore(h, a, Stop(AbortChecks));
    InMore(h, a, Stop(SetStopped)); InMore(h, a, Serve(SetFailedAfterExit)); InMore(h, a, Serve(WaitFails));
  }

  lemma InMore(h: seq<Act>, a: Act, b: Act)
    ensures b in h + [a] <==> b in h || b == a
  {
  }

  function StageOf(n: nat): Stage {
    if n == 0 then Runtime else if n == 1 then Generation else if n == 2 then Validation else Launch
  }

  function OutcomeAfter(f: Facts): Outcome {
    if f.stopped then Ok(())
    else if f.failed then Err(TelegrafExited)
    else if f.waitFailed then Err(WaitFailedSupervising)
    else Err(WaitFailedStopping)
  }

  function MainAfter(last: Option<Act>, stages: nat, outcome: Outcome): Main {
    match last
    case None => Entering(Runtime)
    case Some(Start(a)) =>
      (match a
       case EnterStage => Working(StageOf(stages))
       case WorkSucceeds => if stages < 4 then Entering(StageOf(stages)) else Settling
       case WorkFails => SettingFailedAtStart(StageOf(stages))
       case ConfirmAlive => RecordingPid
       case ConfirmFails => SettingFailedAtStart(Launch)
       case SetFailedAtStart => Returned(Err(StartFailed(StageOf(stages))))
       case RecordPid(_) => SettingReady
       case SetReady => SpawningChecks
       case SpawnChecks => Supervising)
    case Some(Serve(a)) =>
      (match a
       case TakeStop => SettingStopping
       case ChildReaped => DrainingAfterExit
       case WaitFails => AbortingChecks(outcome)
       case DrainedAfterExit => ClearingPidAfterExit
       case ClearPidAfterExit => SettingFailedAfterExit
       case SetFailedAfterExit => AbortingChecks(outcome))
    case Some(Stop(a)) =>
      (match a
       case SetStopping => AwaitingExit
       case ReapInGrace => DrainingAfterStop
       case GraceOver(_) => AwaitingKilled
       case ReapAfterKill => DrainingAfterStop
       case ShutdownWaitFails => AbortingChecks(outcome)
       case DrainedAfterStop => ClearingPidAfterStop
       case ClearPidAfterStop => SettingStopped
       case SetStopped => AbortingChecks(outcome)
       case AbortChecks => Returned(outcome))
    case _ => Entering(Runtime)
  }

  function ChildAfter(f: Facts): Child {
    if f.stages < 4 then Absent
    else if f.reaped then Reaped
    else if f.exits || f.killed then Exited
    else Running
  }

  function SpawnerAfter(f: Facts): Spawner {
    if !f.spawned then Unspawned else if f.polled then Polled else if f.aborted then Aborted else Queued
  }

  ghost function TaskAfter(h: seq<Act>, m: Module): Task {
    match LastCheck(h, m)
    case None => NotSpawned
    case Some((Spawn, _)) => Checking(false)
    case Some((Succeed(_), before)) => if Check(m, Wake) in before then ReadingDetails else Finished
    case Some((Fail(_), _)) => SettingDegraded
    case Some((SetDegraded, _)) => Sleeping
    case Some((Wake, before)) => if ReadyAfter(before) then Checking(true) else Finished
    case Some((ReadDetails, before)) => if NothingFailing(before) then Swapping else Finished
    case Some((Swap, _)) => Finished
  }

  /** The last steps leave few places to be in. */
  predicate Places(f: Facts) {
    && f.stages <= 4
    && (f.last.Some? ==> IsMainStep(f.last.value))
    && (f.last == None ==> f.stages == 0)
    && (f.last == Some(Start(StartAct.EnterStage)) || f.last == Some(Start(WorkFails)) ==> f.stages < 4)
    && (f.last == Some(Start(WorkSucceeds)) ==> f.stages > 0)
    && (f.last.Some? && !f.last.value.Start? ==> f.stages == 4)
    && (f.last.Some? && f.last.value.Start? && f.last.value.start !in {StartAct.EnterStage, WorkSucceeds, WorkFails, StartAct.SetFailedAtStart}
        ==> f.stages == 4)
    && (f.exits || f.killed ==> f.stages == 4)
    && (f.reaped ==> (f.exits || f.killed) && f.last.Some? && !f.last.value.Start?)
    && (f.killed ==> f.last.Some? && f.last.value.Stop? && f.last.value.stop != StopAct.SetStopping)
    && (f.spawned <==> f.last == Some(Start(SpawnChecks)) || (f.last.Some? && !f.last.value.Start?))
    && (f.stopped ==> f.last == Some(Stop(SetStopped)) || f.last == Some(Stop(AbortChecks)))
    && (f.failed ==> f.last == Some(Serve(SetFailedAfterExit)) || f.last == Some(Stop(AbortChecks)))
    && (f.waitFailed ==> f.last == Some(Serve(WaitFails)) || f.last == Some(Stop(AbortChecks)))
    && (f.aborted ==> f.last == Some(Stop(AbortChecks)))
    && (f.polled ==> f.spawned)
  }

  ghost predicate Memory(h: seq<Act>, s: System) {
    && s.shared.state == StateAfter(h) && s.shared.details.pid == PidAfter(h)
    && (forall m :: RecordAfter(h, m) ==
                    if m in s.shared.details.checks then Some(s.shared.details.checks[m]) else None)
  }

  ghost predicate Tasks(modules: set<Module>, h: seq<Act>, s: System) {
    s.tasks.Keys == modules && forall m | m in modules :: s.tasks[m] == TaskAfter(h, m)
  }

  /** The parts of the state that the main task, the child and the spawner are in. */
  predicate Control(f: Facts, s: System) {
    && s.main == MainAfter(f.last, f.stages, OutcomeAfter(f))
    && s.stopPending == f.stop && s.child == ChildAfter(f) && s.spawner == SpawnerAfter(f)
  }

  ghost predicate Matches(modules: set<Module>, h: seq<Act>, s: System) {
    && Places(FactsOf(h)) && Control(FactsOf(h), s) && Memory(h, s) && Tasks(modules, h, s)
    && forall m :: SpawnIsFirst(h, m)
  }

  // The steps allowed are the steps enabled.

  lemma EnvAllowed(f: Facts, s: System, a: EnvAct)
    requires Places(f) && Control(f, s)
    ensures EnvEnabled(s, a) <==> AllowedEnv(f, a)
  {
  }

  lemma StartAllowed(f: Facts, s: System, a: StartAct)
    requires Places(f) && Control(f, s)
    ensures StartEnabled(s, a) <==> AllowedStart(f, a)
  {
  }

  lemma ServeAllowed(f: Facts, s: System, a: ServeAct)
    requires Places(f) && Control(f, s)
    ensures ServeEnabled(s, a) <==> AllowedServe(f, a)
  {
  }

  lemma StopAllowed(f: Facts, s: System, a: StopAct)
    requires Places(f) && Control(f, s)
    ensures StopEnabled(s, a) <==> AllowedStop(f, a)
  {
  }

  lemma CheckAllowed(modules: set<Module>, h: seq<Act>, s: System, m: Module, a: CheckAct)
    requires Places(FactsOf(h)) && Control(FactsOf(h), s) && Tasks(modules, h, s)
    ensures CheckEnabled(s, m, a) <==> m in modules && AllowedCheck(h, m, a)
  {
    hide StagesDone, LastMain, LastCheck, ReadyAfter, NothingFailing;
  }

  lemma AllowedExactlyWhenEnabled(modules: set<Module>, h: seq<Act>, s: System, a: Act)
    requires Matches(modules, h, s)
    ensures Enabled(s, a) <==> Allowed(modules, h, a)
  {
    hide Places, Memory, Tasks, EnvEnabled, StartEnabled, ServeEnabled, StopEnabled, CheckEnabled,
         AllowedEnv, AllowedStart, AllowedServe, AllowedStop, AllowedCheck, FactsOf, MainAfter, ChildAfter, SpawnIsFirst;
    match a {
      case Env(e) => EnvAllowed(FactsOf(h), s, e);
      case Start(e) => StartAllowed(FactsOf(h), s, e);
      case Serve(e) => ServeAllowed(FactsOf(h), s, e);
      case Stop(e) => StopAllowed(FactsOf(h), s, e);
      case PollSpawner => SpawnerAllowed(FactsOf(h));
      case Check(m, e) => CheckAllowed(modules, h, s, m, e);
    }
  }

  lemma SpawnerAllowed(f: Facts)
    ensures SpawnerAfter(f) == Queued <==> f.spawned && !f.polled && !f.aborted
  {
  }

  // One more step.

  lemma EnvKeepsPlaces(f: Facts, a: EnvAct)
    requires Places(f) && AllowedEnv(f, a)
    ensures Places(NextFacts(f, Env(a)))
  {
  }

  lemma EnvKeepsControl(f: Facts, s: System, a: EnvAct)
    requires Places(f) && Control(f, s) && AllowedEnv(f, a) && EnvEnabled(s, a)
    ensures Control(NextFacts(f, Env(a)), DoEnv(s, a))
  {
    hide EnvEnabled;
  }

  lemma StartKeepsPlaces(f: Facts, a: StartAct)
    requires Places(f) && AllowedStart(f, a)
    ensures Places(NextFacts(f, Start(a)))
  {
  }

  lemma StartKeepsControl(f: Facts, s: System, a: StartAct)
    requires Places(f) && Control(f, s) && AllowedStart(f, a) && StartEnabled(s, a)
    ensures Control(NextFacts(f, Start(a)), DoStart(s, a))
  {
    hide StartEnabled;
  }

  lemma ServeKeepsPlaces(f: Facts, a: ServeAct)
    requires Places(f) && AllowedServe(f, a)
    ensures Places(NextFacts(f, Serve(a)))
  {
  }

  lemma ServeKeepsControl(f: Facts, s: System, a: ServeAct)
    requires Places(f) && Control(f, s) && AllowedServe(f, a) && ServeEnabled(s, a)
    ensures Control(NextFacts(f, Serve(a)), DoServe(s, a))
  {
    hide ServeEnabled;
  }

  lemma StopKeepsPlaces(f: Facts, a: StopAct)
    requires Places(f) && AllowedStop(f, a)
    ensures Places(NextFacts(f, Stop(a)))
  {
  }

  /** But for the last step, where the main task goes does not depend on where it was. */
  lemma StopMovesOn(f: Facts, s: System, a: StopAct)
    requires Places(f) && AllowedStop(f, a) && a != AbortChecks && StopEnabled(s, a)
    ensures var g := NextFacts(f, Stop(a)); DoStop(s, a).main == MainAfter(g.last, g.stages, OutcomeAfter(g))
  {
    assert !f.stopped && !f.failed && !f.waitFailed;
    hide Places, StopEnabled, AllowedStop;
  }

  lemma AbortReturns(f: Facts, s: System)
    requires Control(f, s) && AllowedStop(f, AbortChecks) && StopEnabled(s, AbortChecks)
    ensures var g := NextFacts(f, Stop(AbortChecks)); DoStop(s, AbortChecks).main == MainAfter(g.last, g.stages, OutcomeAfter(g))
  {
    hide StopEnabled, ChildAfter, SpawnerAfter;
  }

  lemma StopKeepsChild(f: Facts, s: System, a: StopAct)
    requires f.stages == 4 && s.child == ChildAfter(f) && StopEnabled(s, a)
    requires a == ReapInGrace || a == ReapAfterKill ==> f.exits || f.killed
    ensures DoStop(s, a).child == ChildAfter(NextFacts(f, Stop(a)))
  {
    hide StopEnabled;
  }

  lemma StopKeepsSpawner(f: Facts, s: System, a: StopAct)
    requires f.spawned && s.spawner == SpawnerAfter(f) && s.stopPending == f.stop && StopEnabled(s, a)
    requires !f.aborted
    ensures var g, t := NextFacts(f, Stop(a)), DoStop(s, a); t.stopPending == g.stop && t.spawner == SpawnerAfter(g)
  {
    hide StopEnabled;
  }

  lemma StopIsInService(f: Facts, a: StopAct)
    requires Places(f) && AllowedStop(f, a)
    ensures f.stages == 4 && f.spawned && !f.aborted
    ensures a == ReapInGrace || a == ReapAfterKill ==> f.exits || f.killed
  {
  }

  lemma StopKeepsControl(f: Facts, s: System, a: StopAct)
    requires Places(f) && Control(f, s) && AllowedStop(f, a) && StopEnabled(s, a)
    ensures Control(NextFacts(f, Stop(a)), DoStop(s, a))
  {
    StopIsInService(f, a);
    StopKeepsChild(f, s, a);
    StopKeepsSpawner(f, s, a);
    hide StopEnabled, MainAfter, OutcomeAfter, ChildAfter, SpawnerAfter, NextFacts, DoStop, AllowedStop, Places;
    if a == AbortChecks { AbortReturns(f, s); } else { StopMovesOn(f, s, a); }
  }

  lemma PollKeepsControl(f: Facts, s: System)
    requires Places(f) && Control(f, s) && s.spawner == Queued
    ensures Places(NextFacts(f, PollSpawner)) && Control(NextFacts(f, PollSpawner), s.(spawner := Polled))
  {
  }

  lemma CheckKeepsControl(f: Facts, s: System, m: Module, a: CheckAct)
    requires Places(f) && Control(f, s) && CheckEnabled(s, m, a)
    ensures Places(NextFacts(f, Check(m, a))) && Control(NextFacts(f, Check(m, a)), DoCheck(s, m, a))
  {
    assert NextFacts(f, Check(m, a)) == f;
    hide Places, NextFacts, MainAfter, OutcomeAfter, ChildAfter, SpawnerAfter;
  }

  lemma StepKeepsControl(f: Facts, s: System, a: Act)
    requires Places(f) && Control(f, s) && Enabled(s, a)
    ensures Places(NextFacts(f, a)) && Control(NextFacts(f, a), Do(s, a))
  {
    hide Places, Control, NextFacts, EnvEnabled, StartEnabled, ServeEnabled, StopEnabled, CheckEnabled,
         DoEnv, DoStart, DoServe, DoStop, DoCheck, AllowedEnv, AllowedStart, AllowedServe, AllowedStop;
    match a {
      case Env(e) => EnvAllowed(f, s, e); EnvKeepsPlaces(f, e); EnvKeepsControl(f, s, e);
      case Start(e) => StartAllowed(f, s, e); StartKeepsPlaces(f, e); StartKeepsControl(f, s, e);
      case Serve(e) => ServeAllowed(f, s, e); ServeKeepsPlaces(f, e); ServeKeepsControl(f, s, e);
      case Stop(e) => StopAllowed(f, s, e); StopKeepsPlaces(f, e); StopKeepsControl(f, s, e);
      case PollSpawner => PollKeepsControl(f, s);
      case Check(m, e) => CheckKeepsControl(f, s, m, e);
    }
  }

  // The shared memory, one step on.

  lemma StateOneMore(h: seq<Act>, a: Act)
    ensures StateAfter(h + [a]) ==
            match a
            case Start(EnterStage) =>
              (match StagesDone(h) case 0 => CheckingRuntime case 1 => GeneratingConfiguration
               case 2 => ValidatingConfiguration case _ => StartingTelegraf)
            case Start(SetFailedAtStart) => Failed
            case Start(SetReady) => Ready
            case Serve(SetFailedAfterExit) => Failed
            case Stop(SetStopping) => Stopping
            case Stop(SetStopped) => Stopped
            case Check(_, SetDegraded) => Degraded
            case Check(_, Swap) => if StateAfter(h) == Degraded then Ready else StateAfter(h)
            case _ => StateAfter(h)
  {
    assert (h + [a])[..|h|] == h;
    hide StagesDone;
  }

  lemma PidOneMore(h: seq<Act>, a: Act)
    ensures PidAfter(h + [a]) ==
            match a
            case Start(RecordPid(pid)) => Some(pid)
            case Serve(ClearPidAfterExit) => None
            case Stop(ClearPidAfterStop) => None
            case _ => PidAfter(h)
  {
    assert (h + [a])[..|h|] == h;
  }

  lemma RecordOneMore(h: seq<Act>, a: Act, m: Module)
    ensures RecordAfter(h + [a], m) ==
            match a
            case Check(k, Succeed(at)) => (if k == m then Some(ModuleCheck(true, at)) else RecordAfter(h, m))
            case Check(k, Fail(at)) => (if k == m then Some(ModuleCheck(false, at)) else RecordAfter(h, m))
            case _ => RecordAfter(h, m)
  {
    assert (h + [a])[..|h|] == h;
  }

  lemma StartKeepsState(h: seq<Act>, s: System, a: StartAct)
    requires Places(FactsOf(h)) && Control(FactsOf(h), s) && AllowedStart(FactsOf(h), a) && StartEnabled(s, a)
    requires s.shared.state == StateAfter(h)
    ensures DoStart(s, a).shared.state == StateAfter(h + [Start(a)])
  {
    StateOneMore(h, Start(a));
    hide StagesDone, StateAfter, LastMain, StartEnabled;
  }

  lemma StepKeepsState(h: seq<Act>, s: System, a: Act)
    requires Places(FactsOf(h)) && Control(FactsOf(h), s) && Enabled(s, a) && s.shared.state == StateAfter(h)
    ensures Do(s, a).shared.state == StateAfter(h + [a])
  {
    StateOneMore(h, a);
    hide StagesDone, StateAfter, LastMain, Places, Control, FactsOf;
    if a.Start? {
      StartAllowed(FactsOf(h), s, a.start);
      StartKeepsState(h, s, a.start);
    }
  }

  lemma StartKeepsPid(h: seq<Act>, s: System, a: StartAct)
    requires StartEnabled(s, a) && s.shared.details.pid == PidAfter(h)
    ensures DoStart(s, a).shared.details.pid == PidAfter(h + [Start(a)])
    ensures DoStart(s, a).shared.details.checks == s.shared.details.checks && DoStart(s, a).tasks == s.tasks
  {
    PidOneMore(h, Start(a));
    hide PidAfter;
  }

  lemma ServeKeepsPid(h: seq<Act>, s: System, a: ServeAct)
    requires ServeEnabled(s, a) && s.shared.details.pid == PidAfter(h)
    ensures DoServe(s, a).shared.details.pid == PidAfter(h + [Serve(a)])
    ensures DoServe(s, a).shared.details.checks == s.shared.details.checks && DoServe(s, a).tasks == s.tasks
  {
    PidOneMore(h, Serve(a));
    hide PidAfter;
  }

  lemma StopKeepsPid(h: seq<Act>, s: System, a: StopAct)
    requires StopEnabled(s, a) && s.shared.details.pid == PidAfter(h)
    ensures DoStop(s, a).shared.details.pid == PidAfter(h + [Stop(a)])
    ensures DoStop(s, a).shared.details.checks == s.shared.details.checks && DoStop(s, a).tasks == s.tasks
  {
    PidOneMore(h, Stop(a));
    hide PidAfter;
  }

  lemma CheckKeepsPid(h: seq<Act>, s: System, m: Module, a: CheckAct)
    requires CheckEnabled(s, m, a) && s.shared.details.pid == PidAfter(h)
    ensures DoCheck(s, m, a).shared.details.pid == PidAfter(h + [Check(m, a)])
  {
    PidOneMore(h, Check(m, a));
    hide PidAfter;
  }

  /** But for a check, a step leaves the tasks and their records alone. */
  lemma StepKeepsPid(h: seq<Act>, s: System, a: Act)
    requires Enabled(s, a) && s.shared.details.pid == PidAfter(h)
    ensures Do(s, a).shared.details.pid == PidAfter(h + [a])
    ensures !a.Check? ==> Do(s, a).shared.details.checks == s.shared.details.checks && Do(s, a).tasks == s.tasks
  {
    PidOneMore(h, a);
    hide PidAfter, DoStart, DoServe, DoStop, DoCheck, StartEnabled, ServeEnabled, StopEnabled, CheckEnabled;
    match a {
      case Env(e) =>
      case Start(e) => StartKeepsPid(h, s, e);
      case Serve(e) => ServeKeepsPid(h, s, e);
      case Stop(e) => StopKeepsPid(h, s, e);
      case PollSpawner =>
      case Check(m, e) => CheckKeepsPid(h, s, m, e);
    }
  }

  function RecordIn(d: Details, m: Module): Option<ModuleCheck> {
    if m in d.checks then Some(d.checks[m]) else None
  }

  lemma CheckKeepsRecord(h: seq<Act>, s: System, k: Module, a: CheckAct, m: Module)
    requires CheckEnabled(s, k, a) && RecordIn(s.shared.details, m) == RecordAfter(h, m)
    ensures RecordIn(DoCheck(s, k, a).shared.details, m) == RecordAfter(h + [Check(k, a)], m)
  {
    RecordOneMore(h, Check(k, a), m);
    hide RecordAfter;
  }

  lemma StepKeepsRecord(h: seq<Act>, s: System, a: Act, m: Module)
    requires Enabled(s, a) && RecordIn(s.shared.details, m) == RecordAfter(h, m) && s.shared.details.pid == PidAfter(h)
    ensures RecordIn(Do(s, a).shared.details, m) == RecordAfter(h + [a], m)
  {
    StepKeepsPid(h, s, a);
    RecordOneMore(h, a, m);
    if a.Check? { CheckKeepsRecord(h, s, a.m, a.check, m); }
    hide RecordAfter, DoStart, DoServe, DoStop, DoEnv, DoCheck, StartEnabled, ServeEnabled, StopEnabled, CheckEnabled;
  }

  lemma StepKeepsMemory(h: seq<Act>, s: System, a: Act)
    requires Places(FactsOf(h)) && Control(FactsOf(h), s) && Memory(h, s) && Enabled(s, a)
    ensures Memory(h + [a], Do(s, a))
  {
    hide Places, Control, FactsOf, StateAfter, PidAfter, RecordAfter, Enabled, Do;
    StepKeepsState(h, s, a);
    StepKeepsPid(h, s, a);
    forall m ensures RecordIn(Do(s, a).shared.details, m) == RecordAfter(h + [a], m) {
      StepKeepsRecord(h, s, a, m);
    }
  }

  // The tasks, one step on.

  lemma LastCheckOneMore(h: seq<Act>, a: Act, m: Module)
    ensures LastCheck(h + [a], m) == if a.Check? && a.m == m then Some((a.check, h)) else LastCheck(h, m)
  {
    assert (h + [a])[..|h|] == h;
  }

  lemma NothingFailingMeans(h: seq<Act>, s: System)
    requires Memory(h, s)
    ensures AllOk(s.shared.details) <==> NothingFailing(h)
    ensures ReadyAfter(h) <==> Health.IsReady(s.shared.state)
  {
    hide RecordAfter, StateAfter;
    if AllOk(s.shared.details) {
      forall m, at ensures RecordAfter(h, m) != Some(ModuleCheck(false, at)) {
        assert RecordAfter(h, m).Some? ==> m in s.shared.details.checks;
      }
    }
    if NothingFailing(h) {
      forall k | k in s.shared.details.checks ensures s.shared.details.checks[k].success {
        assert RecordAfter(h, k) != Some(ModuleCheck(false, s.shared.details.checks[k].at));
      }
    }
  }

  /** Spawning comes before anything else a check does. */
  ghost predicate SpawnIsFirst(h: seq<Act>, m: Module) {
    && (LastCheck(h, m).None? ==> forall c :: Check(m, c) !in h)
    && (LastCheck(h, m).Some? && LastCheck(h, m).value.0 == Spawn ==> Check(m, Wake) !in h)
    && (LastCheck(h, m).Some? ==> Check(m, LastCheck(h, m).value.0) in h)
  }

  lemma SpawnStaysFirst(h: seq<Act>, a: Act, m: Module)
    requires SpawnIsFirst(h, m) && (a == Check(m, Spawn) ==> LastCheck(h, m).None?)
    ensures SpawnIsFirst(h + [a], m)
  {
    LastCheckOneMore(h, a, m);
    forall b: Act ensures b in h + [a] <==> b in h || b == a {}
    hide LastCheck;
  }

  lemma OwnTaskKept(modules: set<Module>, h: seq<Act>, s: System, m: Module, a: CheckAct)
    requires Memory(h, s) && Tasks(modules, h, s) && SpawnIsFirst(h, m) && CheckEnabled(s, m, a) && m in modules
    ensures DoCheck(s, m, a).tasks[m] == TaskAfter(h + [Check(m, a)], m)
  {
    NothingFailingMeans(h, s);
    LastCheckOneMore(h, Check(m, a), m);
    hide NothingFailing, ReadyAfter, Memory, LastCheck;
  }

  lemma OtherTaskKept(h: seq<Act>, a: Act, m: Module)
    requires !(a.Check? && a.m == m)
    ensures TaskAfter(h + [a], m) == TaskAfter(h, m)
  {
    LastCheckOneMore(h, a, m);
    hide LastCheck, NothingFailing, ReadyAfter;
  }

  lemma StepKeepsTasks(modules: set<Module>, h: seq<Act>, s: System, a: Act)
    requires Memory(h, s) && Tasks(modules, h, s) && Enabled(s, a) && forall m | m in modules :: SpawnIsFirst(h, m)
    ensures Tasks(modules, h + [a], Do(s, a))
  {
    assert s.shared.details.pid == PidAfter(h);
    hide Memory, TaskAfter, SpawnIsFirst, Do, Enabled, DoCheck, CheckEnabled;
    if a.Check? {
      assert CheckEnabled(s, a.m, a.check) && Do(s, a) == DoCheck(s, a.m, a.check) by { CheckIsOne(s, a.m, a.check); }
      OthersUntouched(s, a.m, a.check);
      OwnIsAModule(s, a.m, a.check);
      OwnTaskKept(modules, h, s, a.m, a.check);
      forall m | m in modules && m != a.m ensures Do(s, a).tasks[m] == TaskAfter(h + [a], m) {
        OtherTaskKept(h, a, m);
      }
    } else {
      StepKeepsPid(h, s, a);
      forall m | m in modules ensures Do(s, a).tasks[m] == TaskAfter(h + [a], m) {
        OtherTaskKept(h, a, m);
      }
    }
  }

  lemma CheckIsOne(s: System, m: Module, a: CheckAct)
    requires Enabled(s, Check(m, a))
    ensures CheckEnabled(s, m, a) && Do(s, Check(m, a)) == DoCheck(s, m, a)
  {
  }

  lemma OwnIsAModule(s: System, m: Module, a: CheckAct)
    requires CheckEnabled(s, m, a)
    ensures m in s.tasks
  {
  }

  // ---- The runs are the histories allowed --------------------------------------------------------

  /** Every step was allowed when it came. */
  ghost predicate IsHistory(modules: set<Module>, acts: seq<Act>) {
    forall j | 0 <= j < |acts| :: Allowed(modules, acts[..j], acts[j])
  }

  lemma NothingYet(modules: set<Module>)
    ensures Matches(modules, [], Init(modules))
  {
  }

  lemma StepKeepsMatch(modules: set<Module>, h: seq<Act>, s: System, a: Act)
    requires Matches(modules, h, s) && Enabled(s, a)
    ensures Matches(modules, h + [a], Do(s, a))
  {
    hide Places, Control, FactsOf, Memory, Tasks, SpawnIsFirst, Enabled, Do;
    FactsGrow(h, a);
    StepKeepsControl(FactsOf(h), s, a);
    StepKeepsMemory(h, s, a);
    StepKeepsTasks(modules, h, s, a);
    AllowedExactlyWhenEnabled(modules, h, s, a);
    forall m ensures SpawnIsFirst(h + [a], m) {
      SpawnOnlyOnce(modules, h, a, m);
      SpawnStaysFirst(h, a, m);
    }
  }

  lemma SpawnOnlyOnce(modules: set<Module>, h: seq<Act>, a: Act, m: Module)
    requires Allowed(modules, h, a)
    ensures a == Check(m, Spawn) ==> LastCheck(h, m).None?
  {
    hide FactsOf;
  }

  /** A list of steps is a run exactly when each was allowed by what had happened before, and
      the shared memory then holds what the history says. */
  lemma {:induction false} RunsAreHistories(modules: set<Module>, acts: seq<Act>)
    ensures After(Init(modules), acts).Some? <==> IsHistory(modules, acts)
    ensures After(Init(modules), acts).Some? ==> Matches(modules, acts, After(Init(modules), acts).value)
  {
    hide Matches, Allowed, Enabled, Do;
    if acts == [] {
      NothingYet(modules);
    } else {
      var front, last := acts[..|acts| - 1], acts[|acts| - 1];
      assert acts == front + [last];
      assert forall j | 0 <= j < |front| :: acts[..j] == front[..j] && acts[j] == front[j];
      assert acts[..|front|] == front;
      RunsAreHistories(modules, front);
      if After(Init(modules), front).Some? {
        var s := After(Init(modules), front).value;
        AllowedExactlyWhenEnabled(modules, front, s, last);
        if Enabled(s, last) { StepKeepsMatch(modules, front, s, last); }
      }
    }
  }

  /** The state word, the pid and the records, from the history alone. */
  lemma MemoryIsTheHistory(modules: set<Module>, acts: seq<Act>)
    requires After(Init(modules), acts).Some?
    ensures var shared := After(Init(modules), acts).value.shared;
            && shared.state == StateAfter(acts) && shared.details.pid == PidAfter(acts)
            && forall m :: RecordIn(shared.details, m) == RecordAfter(acts, m)
  {
    hide StateAfter, PidAfter, RecordAfter, Places, Control, FactsOf, Tasks, SpawnIsFirst;
    RunsAreHistories(modules, acts);
  }

  lemma StepConfirms(s: System, a: Act)
    requires Enabled(s, a)
    ensures Do(s, a).confirmed <==> s.confirmed || a == Start(ConfirmAlive)
  {
    hide StartEnabled, ServeEnabled, StopEnabled, CheckEnabled;
  }

  /** Telegraf counts as seen alive exactly when a run has confirmed it. */
  lemma {:induction false} ConfirmedMeans(modules: set<Module>, acts: seq<Act>)
    requires After(Init(modules), acts).Some?
    ensures After(Init(modules), acts).value.confirmed <==> Start(ConfirmAlive) in acts
  {
    hide Enabled, Do;
    if acts != [] {
      var front, last := acts[..|acts| - 1], acts[|acts| - 1];
      assert acts == front + [last];
      ConfirmedMeans(modules, front);
      StepConfirms(After(Init(modules), front).value, last);
    }
  }

  // ---- Readiness needs a living Telegraf ----------------------------------------------------------

  lemma {:induction false} LastMainIsThere(h: seq<Act>) returns (k: nat)
    requires LastMain(h).Some?
    ensures k < |h| && h[k] == LastMain(h).value
  {
    if IsMainStep(h[|h| - 1]) {
      k := |h| - 1;
    } else {
      k := LastMainIsThere(h[..|h| - 1]);
    }
  }

  lemma AllowedThen(modules: set<Module>, acts: seq<Act>, j: nat)
    requires After(Init(modules), acts).Some? && j < |acts|
    ensures Allowed(modules, acts[..j], acts[j])
  {
    RunsAreHistories(modules, acts);
  }

  /** Readiness is written only after Telegraf has been looked at and had not exited by then. */
  lemma ReadyNeedsALivingChild(modules: set<Module>, acts: seq<Act>, j: nat) returns (i: nat)
    requires After(Init(modules), acts).Some? && j < |acts| && acts[j] == Start(SetReady)
    ensures i < j && acts[i] == Start(ConfirmAlive) && Env(ChildExits) !in acts[..i]
  {
    hide LastMain, StagesDone;
    AllowedThen(modules, acts, j);
    var k := LastMainIsThere(acts[..j]);
    AllowedThen(modules, acts, k);
    i := LastMainIsThere(acts[..k]);
    AllowedThen(modules, acts, i);
  }

  lemma LastTellsReady(f: Facts, main: Main)
    requires Places(f) && main == MainAfter(f.last, f.stages, OutcomeAfter(f))
    requires PastSpawning(main) || main == SpawningChecks
    ensures f.last == Some(Start(SetReady)) || f.spawned
  {
  }

  lemma ReadyIsPastSpawning(modules: set<Module>, s: System)
    requires Reachable(modules, s) && (s.shared.state == Ready || s.shared.state == Degraded)
    ensures PastSpawning(s.main) || s.main == SpawningChecks
  {
    hide WritesBy, CheckInv;
    ReachableInv(modules, s);
    Runs.ReadyOnlyWhenConfirmed(modules, s);
    Runs.WritesBeforeService(s.main);
  }

  lemma ReadyWasSet(modules: set<Module>, acts: seq<Act>) returns (j: nat)
    requires After(Init(modules), acts).Some?
    requires var state := After(Init(modules), acts).value.shared.state; state == Ready || state == Degraded
    ensures j < |acts| && acts[j] == Start(SetReady)
  {
    hide LastMain, StagesDone, Memory, Tasks, SpawnIsFirst, Places, MainAfter, OutcomeAfter, PastSpawning, Init, After, ChildAfter,
         SpawnerAfter;
    var s := After(Init(modules), acts).value;
    assert Reachable(modules, s);
    ReadyIsPastSpawning(modules, s);
    RunsAreHistories(modules, acts);
    var f := FactsOf(acts);
    LastTellsReady(f, s.main);
    if f.last == Some(Start(SetReady)) {
      j := LastMainIsThere(acts);
    } else {
      var k :| 0 <= k < |acts| && acts[k] == Start(SpawnChecks);
      AllowedThen(modules, acts, k);
      j := LastMainIsThere(acts[..k]);
    }
  }

  /** If Telegraf exits before it has been seen alive, muninn is never ready. */
  lemma DeadTelegrafIsNeverReady(modules: set<Module>, acts: seq<Act>, k: nat)
    requires After(Init(modules), acts).Some?
    requires k < |acts| && acts[k] == Env(ChildExits) && Start(ConfirmAlive) !in acts[..k]
    ensures var state := After(Init(modules), acts).value.shared.state; state != Ready && state != Degraded
  {
    var state := After(Init(modules), acts).value.shared.state;
    if state == Ready || state == Degraded {
      var j := ReadyWasSet(modules, acts);
      var i := ReadyNeedsALivingChild(modules, acts, j);
      StandsBefore(acts, k, i);
      StandsBefore(acts, i, k);
    }
  }
}

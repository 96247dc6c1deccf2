/** What every run of the supervisor keeps, what it can always do, and the runs
    that show which stronger claims do not hold. */
module SupervisorRuns {
  import opened Wrappers
  import opened Health
  import opened Supervisor

  // ---- Composing runs ---------------------------------------------------------------

  lemma {:induction false} AfterConcat(s: System, a: seq<Act>, b: seq<Act>)
    requires After(s, a).Some?
    ensures After(s, a + b) == After(After(s, a).value, b)
  {
    hide Enabled, Do;
    if b == [] {
      assert a + b == a;
    } else {
      AfterConcat(s, a, b[..|b| - 1]);
      assert (a + b)[..|a + b| - 1] == a + b[..|b| - 1];
    }
  }

  lemma AfterOne(s: System, a: Act)
    requires Enabled(s, a)
    ensures After(s, [a]) == Some(Do(s, a))
  {
    hide Enabled, Do;
    assert [a][..0] == [];
    assert After(s, [a][..|[a]| - 1]) == Some(s);
  }

  lemma ReachableInit(modules: set<Module>)
    ensures Reachable(modules, Init(modules))
  {
    assert After(Init(modules), []) == Some(Init(modules));
  }

  lemma ReachableStep(modules: set<Module>, s: System, a: Act)
    requires Reachable(modules, s) && Enabled(s, a)
    ensures Reachable(modules, Do(s, a))
  {
    hide Enabled, Do;
    var acts :| After(Init(modules), acts) == Some(s);
    AfterConcat(Init(modules), acts, [a]);
    AfterOne(s, a);
    assert After(Init(modules), acts + [a]) == Some(Do(s, a));
  }

  // ---- Degraded --------------------------------------------------------------------------

  /** `Degraded` never outlives its cause: some recorded check is a failure, or a
      retry has recorded its success and not yet finished clearing the state. */
  lemma DegradedHasACause(modules: set<Module>, s: System)
    requires Reachable(modules, s) && s.shared.state == Degraded
    ensures exists m | m in modules && m in s.tasks :: FailedCheck(s, m) || s.tasks[m] == ReadingDetails || s.tasks[m] == Swapping
  {
    ReachableInv(modules, s);
  }

  /** Once every self-check has ended while Telegraf is in service, the state is
      `Ready` and every module's last record is a success. */
  lemma QuietServiceIsReady(modules: set<Module>, s: System)
    requires Reachable(modules, s) && InService(s)
    requires forall m | m in s.tasks :: s.tasks[m] == Finished
    ensures s.shared.state == Ready && forall m | m in modules :: Succeeded(s, m)
  {
    ReachableInv(modules, s);
    forall m | m in modules ensures Succeeded(s, m) {
      assert TaskInv(s, m);
    }
  }

  /** The step by which a self-check task comes nearer to its end when checks succeed. */
  function Onward(t: Task): CheckAct
    requires t != NotSpawned && t != Finished
  {
    match t
    case Checking(_) => Succeed(0)
    case SettingDegraded => CheckAct.SetDegraded
    case Sleeping => Wake
    case ReadingDetails => ReadDetails
    case Swapping => Swap
  }

  function Distance(t: Task): nat {
    match t
    case NotSpawned => 0
    case SettingDegraded => 5
    case Sleeping => 4
    case Checking(_) => 3
    case ReadingDetails => 2
    case Swapping => 1
    case Finished => 0
  }

  /** Steps of self-checks whose checks succeed. */
  predicate OnlySuccesses(acts: seq<Act>) {
    forall i | 0 <= i < |acts| :: acts[i].Check? && !acts[i].check.Fail?
  }

  lemma OneOnward(s: System, m: Module)
    requires Inv(s) && InService(s) && m in s.tasks && Distance(s.tasks[m]) > 0
    ensures var a := Check(m, Onward(s.tasks[m]));
            && Enabled(s, a) && Distance(Do(s, a).tasks[m]) < Distance(s.tasks[m])
            && Do(s, a).tasks[m] != NotSpawned
            && Do(s, a).main == s.main && InService(Do(s, a))
            && forall k | k in s.tasks && k != m :: k in Do(s, a).tasks && Do(s, a).tasks[k] == s.tasks[k]
  {
    OthersUntouched(s, m, Onward(s.tasks[m]));
  }

  /** One module's self-check can be brought to its end without touching the others. */
  lemma {:induction false} Settle(s: System, m: Module) returns (acts: seq<Act>)
    requires Inv(s) && InService(s) && m in s.tasks
    ensures After(s, acts).Some? && OnlySuccesses(acts)
    ensures var t := After(s, acts).value;
            && Inv(t) && InService(t) && t.main == s.main && t.tasks.Keys == s.tasks.Keys
            && Distance(t.tasks[m]) == 0
            && forall k | k in s.tasks && k != m :: t.tasks[k] == s.tasks[k]
    decreases Distance(s.tasks[m])
  {
    hide Inv, Do, Enabled;
    if Distance(s.tasks[m]) == 0 {
      acts := [];
    } else {
      var a := Check(m, Onward(s.tasks[m]));
      OneOnward(s, m);
      StepKeepsInv(s, a);
      var rest := Settle(Do(s, a), m);
      AfterOne(s, a);
      AfterConcat(s, [a], rest);
      acts := [a] + rest;
    }
  }

  function Unsettled(s: System): set<Module> {
    set m | m in s.tasks && Distance(s.tasks[m]) > 0
  }

  lemma {:induction false} SettleAll(s: System) returns (acts: seq<Act>)
    requires Inv(s) && InService(s)
    ensures After(s, acts).Some? && OnlySuccesses(acts)
    ensures var t := After(s, acts).value;
            Inv(t) && InService(t) && t.main == s.main && Unsettled(t) == {}
    decreases |Unsettled(s)|
  {
    hide Inv, Do, Enabled;
    if Unsettled(s) == {} {
      acts := [];
    } else {
      var m :| m in Unsettled(s);
      var first := Settle(s, m);
      var t := After(s, first).value;
      assert Unsettled(t) == Unsettled(s) - {m};
      var rest := SettleAll(t);
      AfterConcat(s, first, rest);
      acts := first + rest;
    }
  }

  /** `Degraded` always has a way out: from every reachable degraded state of a
      supervised Telegraf, successful checks alone lead back to `Ready`. */
  lemma RecoveryIsAlwaysPossible(modules: set<Module>, s: System)
    requires Reachable(modules, s) && InService(s) && s.shared.state == Degraded
    ensures exists acts :: OnlySuccesses(acts) && After(s, acts).Some?
                           && After(s, acts).value.shared.state == Ready
                           && After(s, acts).value.main == s.main
  {
    ReachableInv(modules, s);
    var acts := SettleAll(s);
    SettledIsReady(After(s, acts).value);
  }

  lemma SettledIsReady(t: System)
    requires Inv(t) && InService(t) && Unsettled(t) == {}
    ensures t.shared.state == Ready
  {
    forall m | m in t.tasks ensures !FailedCheck(t, m) && Distance(t.tasks[m]) == 0 {
      assert TaskInv(t, m);
      assert m !in Unsettled(t);
    }
  }

  // ---- Readiness ---------------------------------------------------------------------------

  /** Readiness is reported only once Telegraf has been seen alive after settling. */
  lemma ReadyOnlyWhenConfirmed(modules: set<Module>, s: System)
    requires Reachable(modules, s) && Health.IsReady(s.shared.state)
    ensures s.confirmed && Ready in s.mainWrites
  {
    ReachableInv(modules, s);
    WritesBeforeService(s.main);
  }

  lemma WritesBeforeService(main: Main)
    ensures !PastSpawning(main) && main != SpawningChecks ==> forall w | w in WritesBy(main) :: !Health.IsReady(w)
    ensures PastSpawning(main) || main == SpawningChecks ==> Ready in WritesBy(main) && PastConfirmation(main)
  {
    assert SERVICE[4] == Ready;
    assert PastSpawning(main) || main == SpawningChecks ==> SERVICE <= WritesBy(main);
    if SERVICE <= WritesBy(main) { assert WritesBy(main)[4] == SERVICE[4]; }
  }

  const LIFE: seq<State> := SERVICE + [Stopping, Stopped]

  /** The main task follows the life of a clean run up to some point, or leaves it
      for `Failed` before a stop. */
  lemma WritesFollowLife(main: Main) returns (n: nat)
    ensures var w := WritesBy(main);
            && n <= |LIFE| && n <= |w| && (forall i | 0 <= i < n :: w[i] == LIFE[i])
            && (|w| == n || (n <= |SERVICE| && |w| == n + 1 && w[n] == Failed))
  {
    var w := WritesBy(main);
    n := if w != [] && w[|w| - 1] == Failed then |w| - 1 else |w|;
  }

  lemma LifeRises()
    ensures forall i, j | 0 <= i < j < |LIFE| :: Code(LIFE[i]) < Code(LIFE[j])
    ensures forall i | 0 <= i < |SERVICE| :: Code(LIFE[i]) < Code(Failed)
  {
  }

  /** The main task's writes only ever go up in the order of the states. */
  lemma MainWritesIncrease(modules: set<Module>, s: System)
    requires Reachable(modules, s)
    ensures forall i, j | 0 <= i < j < |s.mainWrites| :: Code(s.mainWrites[i]) < Code(s.mainWrites[j])
  {
    ReachableInv(modules, s);
    hide WritesBy, Code;
    var n := WritesFollowLife(s.main);
    LifeRises();
  }

  predicate IsFailingCheck(a: Act) {
    a.Check? && a.check == CheckAct.SetDegraded
  }

  ghost predicate ReadySometime(s: System, acts: seq<Act>)
    requires After(s, acts).Some?
  {
    exists n | 0 <= n <= |acts| :: After(s, acts[..n]).Some? && Health.IsReady(After(s, acts[..n]).value.shared.state)
  }

  /** After the end of service a self-check makes muninn ready again only by failing. */
  lemma EndedCheckStep(s: System, m: Module, a: CheckAct)
    requires Ended(s) && !Health.IsReady(s.shared.state) && CheckEnabled(s, m, a)
    ensures Ended(DoCheck(s, m, a))
    ensures Health.IsReady(DoCheck(s, m, a).shared.state) <==> a == CheckAct.SetDegraded
  {
  }

  /** And no other step does. */
  lemma EndedMainStep(s: System, a: Act)
    requires MainInv(s) && Ended(s) && !Health.IsReady(s.shared.state) && Enabled(s, a) && !a.Check?
    ensures Ended(Do(s, a)) && !Health.IsReady(Do(s, a).shared.state)
  {
    EndedIsLeaving(s);
    hide MainInv, Ended, DoStop;
    match a {
      case Env(e) => EndedIsTheWrites(s, Do(s, a));
      case Start(e) => LeavingIsPast(s.main);
      case Serve(e) => LeavingIsPast(s.main);
      case Stop(e) => EndedStopStep(s, e);
      case PollSpawner => EndedIsTheWrites(s, Do(s, a));
    }
  }

  lemma EndedIsTheWrites(s: System, t: System)
    ensures s.mainWrites == t.mainWrites ==> Ended(s) == Ended(t)
  {
  }

  lemma EndedStopStep(s: System, a: StopAct)
    requires Ended(s) && Leaving(s.main) && !Health.IsReady(s.shared.state) && StopEnabled(s, a)
    ensures Ended(DoStop(s, a)) && !Health.IsReady(DoStop(s, a).shared.state)
  {
  }

  lemma LeavingIsPast(main: Main)
    ensures Leaving(main) ==> forall s: System, e: StartAct | s.main == main :: !StartEnabled(s, e)
    ensures Leaving(main) ==> forall s: System, e: ServeAct | s.main == main :: !ServeEnabled(s, e)
  {
  }

  /** Where the main task can be once service has ended. */
  predicate Leaving(main: Main) {
    match main
    case AwaitingExit => true
    case AwaitingKilled => true
    case DrainingAfterStop => true
    case ClearingPidAfterStop => true
    case SettingStopped => true
    case AbortingChecks(_) => true
    case Returned(_) => true
    case _ => false
  }

  lemma EndedIsLeaving(s: System)
    requires MainInv(s) && Ended(s)
    ensures Leaving(s.main)
  {
  }

  lemma EndedStep(s: System, a: Act)
    requires Inv(s) && Ended(s) && !Health.IsReady(s.shared.state) && Enabled(s, a)
    ensures Ended(Do(s, a))
    ensures Health.IsReady(Do(s, a).shared.state) <==> IsFailingCheck(a)
  {
    hide MainInv, CheckInv, DoCheck, CheckEnabled, Ended;
    if a.Check? {
      EndedCheckStep(s, a.m, a.check);
    } else {
      EndedMainStep(s, a);
    }
  }

  lemma {:induction false} EndedStaysUnready(s: System, acts: seq<Act>)
    requires Inv(s) && Ended(s) && !Health.IsReady(s.shared.state) && After(s, acts).Some?
    requires forall i | 0 <= i < |acts| :: !IsFailingCheck(acts[i])
    ensures Ended(After(s, acts).value) && !Health.IsReady(After(s, acts).value.shared.state)
  {
    hide Inv, Do, Enabled, Ended;
    if acts != [] {
      var front := acts[..|acts| - 1];
      EndedStaysUnready(s, front);
      RunKeepsInv(s, front);
      EndedStep(After(s, front).value, acts[|acts| - 1]);
    }
  }

  lemma {:induction false} PrefixRuns(s: System, acts: seq<Act>, n: nat)
    requires After(s, acts).Some? && n <= |acts|
    ensures After(s, acts[..n]).Some?
  {
    hide Enabled, Do;
    if n < |acts| {
      PrefixRuns(s, acts[..|acts| - 1], n);
      assert acts[..|acts| - 1][..n] == acts[..n];
    } else {
      assert acts[..n] == acts;
    }
  }

  /** After the main task has ended service, readiness comes back in a run exactly
      if some failing check sets `Degraded` in it: no recovery step does it. */
  lemma ReadinessReturnsOnlyByAFailingCheck(modules: set<Module>, s: System, acts: seq<Act>)
    requires Reachable(modules, s) && Ended(s) && !Health.IsReady(s.shared.state) && After(s, acts).Some?
    ensures ReadySometime(s, acts) <==> exists i | 0 <= i < |acts| :: IsFailingCheck(acts[i])
  {
    hide Inv, Do, Enabled, Ended;
    if ReadySometime(s, acts) { OnlyByAFailingCheck(modules, s, acts); }
    if i :| 0 <= i < |acts| && IsFailingCheck(acts[i]) { ByAFailingCheck(s, acts, i); }
  }

  lemma OnlyByAFailingCheck(modules: set<Module>, s: System, acts: seq<Act>)
    requires Reachable(modules, s) && Ended(s) && !Health.IsReady(s.shared.state) && After(s, acts).Some?
    requires ReadySometime(s, acts)
    ensures exists i | 0 <= i < |acts| :: IsFailingCheck(acts[i])
  {
    ReachableInv(modules, s);
    hide Inv, Do, Enabled, Ended, After;
    var n :| 0 <= n <= |acts| && After(s, acts[..n]).Some? && Health.IsReady(After(s, acts[..n]).value.shared.state);
    if forall i | 0 <= i < |acts| :: !IsFailingCheck(acts[i]) {
      EndedStaysUnready(s, acts[..n]);
    }
  }

  lemma ByAFailingCheck(s: System, acts: seq<Act>, i: nat)
    requires After(s, acts).Some? && i < |acts| && IsFailingCheck(acts[i])
    ensures ReadySometime(s, acts)
  {
    hide Do, Enabled;
    PrefixRuns(s, acts, i + 1);
    assert acts[..i + 1][..i] == acts[..i];
    FailingCheckMakesReady(After(s, acts[..i]).value, acts[i]);
    assert After(s, acts[..i + 1]) == Some(Do(After(s, acts[..i]).value, acts[i]));
  }

  lemma FailingCheckMakesReady(s: System, a: Act)
    requires Enabled(s, a) && IsFailingCheck(a)
    ensures Health.IsReady(Do(s, a).shared.state)
  {
  }

  /** A self-check that can still fail: it is about to write, or checking, or can yet be
      spawned. */
  predicate CanFail(s: System, m: Module)
    requires m in s.tasks
  {
    || s.tasks[m].Checking? || s.tasks[m] == Task.SettingDegraded
    || (s.tasks[m] == NotSpawned && (s.spawner == Queued || s.spawner == Polled))
  }

  ghost predicate SomeCanFail(s: System) {
    exists m | m in s.tasks :: CanFail(s, m)
  }

  lemma CheckLeavesNone(s: System, m: Module, a: CheckAct)
    requires Ended(s) && !Health.IsReady(s.shared.state) && CheckEnabled(s, m, a) && !SomeCanFail(s)
    ensures !SomeCanFail(DoCheck(s, m, a)) && a != CheckAct.SetDegraded
  {
    assert !CanFail(s, m);
    OthersUntouched(s, m, a);
    forall k | k in DoCheck(s, m, a).tasks ensures !CanFail(DoCheck(s, m, a), k) {
      assert !CanFail(s, k);
    }
  }

  lemma OtherStepLeavesNone(s: System, a: Act)
    requires MainInv(s) && Ended(s) && Enabled(s, a) && !a.Check? && !SomeCanFail(s)
    ensures !SomeCanFail(Do(s, a))
  {
    EndedIsLeaving(s);
    LeavingIsPast(s.main);
    hide MainInv, Ended;
    forall k | k in Do(s, a).tasks ensures !CanFail(Do(s, a), k) {
      assert !CanFail(s, k);
    }
  }

  lemma {:induction false} NoneCanFailForGood(s: System, acts: seq<Act>)
    requires Inv(s) && Ended(s) && !Health.IsReady(s.shared.state) && !SomeCanFail(s) && After(s, acts).Some?
    ensures var t := After(s, acts).value; Ended(t) && !Health.IsReady(t.shared.state) && !SomeCanFail(t)
  {
    hide Inv, Do, Enabled, Ended, SomeCanFail;
    if acts != [] {
      var front, a := acts[..|acts| - 1], acts[|acts| - 1];
      NoneCanFailForGood(s, front);
      RunKeepsInv(s, front);
      NoneCanFailStep(After(s, front).value, a);
    }
  }

  lemma NoneCanFailStep(s: System, a: Act)
    requires Inv(s) && Ended(s) && !Health.IsReady(s.shared.state) && !SomeCanFail(s) && Enabled(s, a)
    ensures Ended(Do(s, a)) && !Health.IsReady(Do(s, a).shared.state) && !SomeCanFail(Do(s, a))
  {
    hide MainInv, CheckInv, DoCheck, CheckEnabled, Ended, SomeCanFail;
    EndedStep(s, a);
    if a.Check? {
      CheckLeavesNone(s, a.m, a.check);
    } else {
      OtherStepLeavesNone(s, a);
    }
  }

  /** A self-check that can fail makes muninn ready when it does. */
  lemma FailingNow(s: System, m: Module) returns (acts: seq<Act>)
    requires m in s.tasks && CanFail(s, m)
    ensures After(s, acts).Some? && Health.IsReady(After(s, acts).value.shared.state)
    decreases if s.tasks[m] == Task.SettingDegraded then 0 else if s.tasks[m].Checking? then 1 else if s.spawner == Polled then 2 else 3
  {
    hide Health.IsReady, After;
    var a := if s.tasks[m] == Task.SettingDegraded then Check(m, CheckAct.SetDegraded)
             else if s.tasks[m].Checking? then Check(m, Fail(0))
             else if s.spawner == Polled then Check(m, Spawn)
             else PollSpawner;
    AfterOne(s, a);
    if s.tasks[m] == Task.SettingDegraded {
      FailingCheckMakesReady(s, a);
      acts := [a];
    } else {
      var rest := FailingNow(Do(s, a), m);
      AfterConcat(s, [a], rest);
      acts := [a] + rest;
    }
  }

  ghost predicate CanBecomeReady(s: System) {
    exists acts :: After(s, acts).Some? && Health.IsReady(After(s, acts).value.shared.state)
  }

  /** Once service has ended and muninn is not ready, it can become ready again exactly
      when some self-check can still fail. */
  lemma ReadinessCanReturnExactlyWhenACheckCanFail(modules: set<Module>, s: System)
    requires Reachable(modules, s) && Ended(s) && !Health.IsReady(s.shared.state)
    ensures CanBecomeReady(s) <==> SomeCanFail(s)
  {
    ReachableInv(modules, s);
    hide Inv, Ended, CanFail, After;
    if m :| m in s.tasks && CanFail(s, m) {
      var acts := FailingNow(s, m);
    } else {
      forall acts | After(s, acts).Some? ensures !Health.IsReady(After(s, acts).value.shared.state) {
        NoneCanFailForGood(s, acts);
      }
    }
  }

  // ---- How a run ends ------------------------------------------------------------------------

  /** `run` returns Ok only through the stop arm, with the child reaped, its pid cleared
      and `Stopped` written last; and `Stopped` is what is seen exactly when no failing
      check has written since. */
  lemma OkMeansStopped(modules: set<Module>, s: System)
    requires Reachable(modules, s) && s.main == Returned(Ok(()))
    ensures s.child == Reaped && s.shared.details.pid.None?
    ensures s.mainWrites == SERVICE + [Stopping, Stopped] && LastWrite(s) == Stopped
    ensures s.shared.state == Stopped <==> !s.degradedSince
  {
    ReachableInv(modules, s);
  }

  /** After an error the state is `Failed` exactly when the error is not a failed wait
      and no failing check has set `Degraded` since `Failed` was written. Whatever the
      checks do, `Failed` is the main task's last write, and the pid is cleared, exactly
      when it is not a failed wait. */
  lemma ErrorIsFailedUnlessAWaitFailed(modules: set<Module>, s: System, e: Failure)
    requires Reachable(modules, s) && s.main == Returned(Err(e))
    ensures s.shared.state == Failed <==> !IsWaitFailure(e) && !s.degradedSince
    ensures LastWrite(s) == Failed <==> !IsWaitFailure(e)
    ensures LastWrite(s) == Failed <==> s.shared.details.pid.None?
    ensures e == TelegrafExited ==> s.child == Reaped
    ensures e.StartFailed? ==> Ready !in s.mainWrites && s.shared.state == Failed
  {
    ReachableInv(modules, s);
    if e.StartFailed? { WritesBeforeService(s.main); }
  }

  predicate IsWaitFailure(e: Failure) {
    e == WaitFailedSupervising || e == WaitFailedStopping
  }

  predicate IsMainWrite(a: Act) {
    match a
    case Start(e) => e == EnterStage || e == SetFailedAtStart || e == SetReady
    case Serve(e) => e == SetFailedAfterExit
    case Stop(e) => e == SetStopping || e == SetStopped
    case _ => false
  }

  /** Some failing check sets `Degraded`, and the main task writes no state after it. */
  ghost predicate DegradedLast(acts: seq<Act>) {
    exists i | 0 <= i < |acts| :: IsFailingCheck(acts[i]) && NoMainWriteFrom(acts, i)
  }

  predicate NoMainWriteFrom(acts: seq<Act>, i: nat) {
    forall j | i <= j < |acts| :: !IsMainWrite(acts[j])
  }

  /** What the history says is what happened in the run. */
  lemma {:induction false} DegradedSinceMeans(modules: set<Module>, acts: seq<Act>)
    requires After(Init(modules), acts).Some?
    ensures After(Init(modules), acts).value.degradedSince <==> DegradedLast(acts)
  {
    hide Do, Enabled;
    if acts != [] {
      var front, a := acts[..|acts| - 1], acts[|acts| - 1];
      DegradedSinceMeans(modules, front);
      DegradedStep(After(Init(modules), front).value, a);
      OneMoreAct(acts);
    }
  }

  lemma DegradedStep(s: System, a: Act)
    requires Enabled(s, a)
    ensures Do(s, a).degradedSince <==> IsFailingCheck(a) || (s.degradedSince && !IsMainWrite(a))
  {
    hide DoCheck, CheckEnabled;
    if a.Check? { DegradedCheckStep(s, a.m, a.check); }
  }

  lemma DegradedCheckStep(s: System, m: Module, a: CheckAct)
    requires CheckEnabled(s, m, a)
    ensures DoCheck(s, m, a).degradedSince <==> a == CheckAct.SetDegraded || s.degradedSince
  {
  }

  lemma OneMoreAct(acts: seq<Act>)
    requires acts != []
    ensures var front, a := acts[..|acts| - 1], acts[|acts| - 1];
            DegradedLast(acts) <==> IsFailingCheck(a) || (DegradedLast(front) && !IsMainWrite(a))
  {
    hide IsFailingCheck, IsMainWrite;
    var front, a := acts[..|acts| - 1], acts[|acts| - 1];
    assert IsFailingCheck(a) ==> !IsMainWrite(a) by { CheckIsNoWrite(a); }
    if IsFailingCheck(a) { assert NoMainWriteFrom(acts, |acts| - 1); }
    if i :| 0 <= i < |front| && IsFailingCheck(front[i]) && NoMainWriteFrom(front, i) {
      assert acts[i] == front[i];
      if !IsMainWrite(a) {
        forall j | i <= j < |acts| ensures !IsMainWrite(acts[j]) {
          if j < |front| { assert acts[j] == front[j]; }
        }
      }
    }
    if i :| 0 <= i < |acts| && IsFailingCheck(acts[i]) && NoMainWriteFrom(acts, i) {
      if i < |front| {
        assert front[i] == acts[i] && NoMainWriteFrom(front, i);
      }
    }
  }

  lemma CheckIsNoWrite(a: Act)
    ensures IsFailingCheck(a) ==> !IsMainWrite(a)
  {
  }

  /** The pid is cleared before `Failed` or `Stopped` is written, never after. */
  lemma PidClearedBeforeTheEnd(modules: set<Module>, s: System)
    requires Reachable(modules, s) && (LastWrite(s) == Failed || LastWrite(s) == Stopped)
    ensures s.shared.details.pid.None?
  {
    ReachableInv(modules, s);
  }

  /** The supervisor has settled on reporting a crash, or on a failed wait while it was
      supervising. */
  predicate PastTheStop(main: Main) {
    || main == ClearingPidAfterExit || main == SettingFailedAfterExit
    || main == AbortingChecks(Err(TelegrafExited)) || main == Returned(Err(TelegrafExited))
    || main == AbortingChecks(Err(WaitFailedSupervising)) || main == Returned(Err(WaitFailedSupervising))
  }

  lemma StopCheckStep(s: System, m: Module, a: CheckAct)
    requires CheckEnabled(s, m, a)
    ensures DoCheck(s, m, a).stopPending == s.stopPending && DoCheck(s, m, a).main == s.main
  {
  }

  lemma StopStep(s: System, a: Act)
    requires s.stopPending && !PastTheStop(s.main) && Enabled(s, a)
    ensures Do(s, a).stopPending && !PastTheStop(Do(s, a).main)
    ensures PastConfirmation(s.main) ==> PastConfirmation(Do(s, a).main)
  {
    hide CheckEnabled, DoCheck, StopEnabled, DoStop;
    if a.Check? { StopCheckStep(s, a.m, a.check); }
    if a.Stop? { StopArmStep(s, a.stop); }
  }

  lemma StopArmStep(s: System, a: StopAct)
    requires s.stopPending && !PastTheStop(s.main) && StopEnabled(s, a)
    ensures DoStop(s, a).stopPending && !PastTheStop(DoStop(s, a).main)
    ensures PastConfirmation(s.main) ==> PastConfirmation(DoStop(s, a).main)
  {
  }

  /** A stop signal wins: once one is pending before a crash has been settled on, every
      continuation that returns has not reported a crash; and if Telegraf had been seen
      alive by then, it returns through the stop arm, cleanly or with its failed wait. */
  lemma {:induction false} StopWins(s: System, acts: seq<Act>)
    requires s.stopPending && !PastTheStop(s.main) && After(s, acts).Some?
    ensures var t := After(s, acts).value;
            && t.stopPending && !PastTheStop(t.main)
            && (PastConfirmation(s.main) ==> PastConfirmation(t.main))
            && (PastConfirmation(s.main) && t.main.Returned? ==>
                  t.main.outcome == Ok(()) || t.main.outcome == Err(WaitFailedStopping))
  {
    hide Enabled, Do;
    if acts != [] {
      StopWins(s, acts[..|acts| - 1]);
      StopStep(After(s, acts[..|acts| - 1]).value, acts[|acts| - 1]);
    }
    ReturnsThroughTheStop(After(s, acts).value.main);
  }

  lemma ReturnsThroughTheStop(main: Main)
    ensures PastConfirmation(main) && !PastTheStop(main) && main.Returned? ==>
              main.outcome == Ok(()) || main.outcome == Err(WaitFailedStopping)
  {
    if main.Returned? {
      match main.outcome {
        case Ok(u) => assert u == ();
        case Err(e) =>
          match e {
            case StartFailed(_) =>
            case TelegrafExited =>
            case WaitFailedSupervising =>
            case WaitFailedStopping =>
          }
      }
    }
  }

  // ---- Runs that refute stronger claims ----------------------------------------------------------

  lemma {:induction false} ReachableRun(modules: set<Module>, s: System, acts: seq<Act>)
    requires Reachable(modules, s) && After(s, acts).Some?
    ensures Reachable(modules, After(s, acts).value)
  {
    hide Enabled, Do;
    if acts != [] {
      ReachableRun(modules, s, acts[..|acts| - 1]);
      ReachableStep(modules, After(s, acts[..|acts| - 1]).value, acts[|acts| - 1]);
    }
  }

  /** A stage of startup that succeeds. */
  lemma PassStage(modules: set<Module>, s: System) returns (t: System)
    requires Reachable(modules, s) && s.main.Entering?
    ensures Reachable(modules, t) && t.main == NextStage(s.main.stage)
    ensures t.child == (if s.main.stage == Launch then Running else s.child)
    ensures t.tasks == s.tasks && t.spawner == s.spawner
    ensures t.shared.details == s.shared.details && t.stopPending == s.stopPending
  {
    ReachableStep(modules, s, Start(EnterStage));
    t := Do(s, Start(EnterStage));
    ReachableStep(modules, t, Start(WorkSucceeds));
    t := Do(t, Start(WorkSucceeds));
  }

  /** A run of startup that succeeds. */
  lemma Launched(modules: set<Module>) returns (s: System)
    ensures Reachable(modules, s) && s.main == Settling && s.child == Running && s.spawner == Unspawned
    ensures s.tasks == Init(modules).tasks && s.shared.details.checks == map[] && !s.stopPending
  {
    ReachableInit(modules);
    s := PassStage(modules, Init(modules));
    s := PassStage(modules, s);
    s := PassStage(modules, s);
    s := PassStage(modules, s);
  }

  lemma Started(modules: set<Module>) returns (s: System)
    ensures Reachable(modules, s) && s.main == Supervising && s.child == Running && s.spawner == Queued
    ensures s.tasks == Init(modules).tasks && s.shared.details.checks == map[]
    ensures s.shared.state == Ready && InService(s) && !s.stopPending
  {
    s := Launched(modules);
    ReachableStep(modules, s, Start(ConfirmAlive));
    s := Do(s, Start(ConfirmAlive));
    ReachableStep(modules, s, Start(RecordPid(7)));
    s := Do(s, Start(RecordPid(7)));
    ReachableStep(modules, s, Start(SetReady));
    s := Do(s, Start(SetReady));
    ReachableStep(modules, s, Start(SpawnChecks));
    s := Do(s, Start(SpawnChecks));
  }

  /** A run in which the first check of `m` has been recorded as a failure. */
  lemma RecordedFailure(modules: set<Module>, s: System, m: Module) returns (t: System)
    requires Reachable(modules, s) && s.spawner == Polled && m in s.tasks && s.tasks[m] == NotSpawned
    ensures Reachable(modules, t) && t.tasks == s.tasks[m := Task.SettingDegraded]
    ensures t == s.(tasks := t.tasks, shared := Record(s.shared, m, false, 0))
  {
    ReachableStep(modules, s, Check(m, Spawn));
    t := Do(s, Check(m, Spawn));
    ReachableStep(modules, t, Check(m, Fail(0)));
    t := Do(t, Check(m, Fail(0)));
  }

  /** muninn can report ready again while Telegraf is being torn down: a check that
      failed before the stop writes `Degraded` over `Stopping`. */
  lemma ReadyAfterStopping(m: Module) returns (s: System)
    ensures Reachable({m}, s) && LastWrite(s) == Stopping && Health.IsReady(s.shared.state)
  {
    s := Started({m});
    ReachableStep({m}, s, PollSpawner);
    s := Do(s, PollSpawner);
    s := RecordedFailure({m}, s, m);
    ReachableStep({m}, s, Env(StopSignal));
    s := Do(s, Env(StopSignal));
    ReachableStep({m}, s, Serve(TakeStop));
    s := Do(s, Serve(TakeStop));
    ReachableStep({m}, s, Stop(SetStopping));
    s := Do(s, Stop(SetStopping));
    ReachableStep({m}, s, Check(m, CheckAct.SetDegraded));
    s := Do(s, Check(m, CheckAct.SetDegraded));
  }

  /** Nor does an error keep the state at `Failed`: a check that failed before the crash
      writes `Degraded` over it, and muninn is ready after it has given up. */
  lemma DegradedAfterFailed(m: Module) returns (s: System)
    ensures Reachable({m}, s) && s.main == Returned(Err(TelegrafExited)) && LastWrite(s) == Failed
    ensures s.shared.state == Degraded && Health.IsReady(s.shared.state)
  {
    s := Started({m});
    ReachableStep({m}, s, PollSpawner);
    s := Do(s, PollSpawner);
    s := RecordedFailure({m}, s, m);
    s := Crashed({m}, s);
    ReachableStep({m}, s, Check(m, CheckAct.SetDegraded));
    s := Do(s, Check(m, CheckAct.SetDegraded));
  }

  /** A run in which the child exits and is reaped. */
  lemma Reaping(modules: set<Module>, s: System) returns (t: System)
    requires Reachable(modules, s) && s.main == Supervising && s.child == Running && !s.stopPending
    ensures Reachable(modules, t) && t.main == ClearingPidAfterExit && t.tasks == s.tasks
  {
    hide Reachable;
    ReachableStep(modules, s, Env(ChildExits));
    t := Do(s, Env(ChildExits));
    ReachableStep(modules, t, Serve(ChildReaped));
    t := Do(t, Serve(ChildReaped));
    ReachableStep(modules, t, Serve(DrainedAfterExit));
    t := Do(t, Serve(DrainedAfterExit));
  }

  /** And in which the exit is reported. */
  lemma Crashed(modules: set<Module>, s: System) returns (t: System)
    requires Reachable(modules, s) && s.main == Supervising && s.child == Running && !s.stopPending
    ensures Reachable(modules, t) && t.main == Returned(Err(TelegrafExited)) && LastWrite(t) == Failed
    ensures t.tasks == s.tasks
  {
    hide Reachable;
    t := Reaping(modules, s);
    ReachableStep(modules, t, Serve(ClearPidAfterExit));
    t := Do(t, Serve(ClearPidAfterExit));
    ReachableStep(modules, t, Serve(SetFailedAfterExit));
    t := Do(t, Serve(SetFailedAfterExit));
    ReachableStep(modules, t, Stop(AbortChecks));
    t := Do(t, Stop(AbortChecks));
  }

  /** An error need not end in `Failed`: a failed wait leaves `Ready` behind. */
  lemma ErrorWithoutFailed(modules: set<Module>) returns (s: System)
    ensures Reachable(modules, s) && s.main == Returned(Err(WaitFailedSupervising)) && s.shared.state == Ready
  {
    s := Started(modules);
    ReachableStep(modules, s, Serve(WaitFails));
    s := Do(s, Serve(WaitFails));
    ReachableStep(modules, s, Stop(AbortChecks));
    s := Do(s, Stop(AbortChecks));
  }

  /** `Ready` does not mean that nothing is failing: a failure recorded and written
      between another module's read and its swap is cleared by that swap, and stays
      unseen until the failing module's own retry. */
  lemma ReadyWhileFailing(a: Module, b: Module) returns (s: System)
    requires a != b
    ensures Reachable({a, b}, s) && s.shared.state == Ready && FailedCheck(s, b)
    ensures s.tasks == map[a := Finished, b := Sleeping]
  {
    hide Reachable;
    var both := {a, b};
    s := AboutToClear(both, a, b);
    s := RecordedFailure(both, s, b);
    ReachableStep(both, s, Check(b, CheckAct.SetDegraded));
    s := Do(s, Check(b, CheckAct.SetDegraded));
    ReachableStep(both, s, Check(a, Swap));
    s := Do(s, Check(a, Swap));
  }

  /** A run in which the retry of `a` has read that nothing is failing. */
  lemma AboutToClear(both: set<Module>, a: Module, b: Module) returns (s: System)
    requires both == {a, b} && a != b
    ensures Reachable(both, s) && s.spawner == Polled
    ensures s.tasks == map[a := Swapping, b := NotSpawned]
  {
    s := Retrying(both, a, b);
    ReachableStep(both, s, Check(a, Succeed(1)));
    s := Do(s, Check(a, Succeed(1)));
    OnlyGoodRecord(s, a);
    ReachableStep(both, s, Check(a, ReadDetails));
    s := Do(s, Check(a, ReadDetails));
  }

  /** A run in which `a` has failed and is being checked again. */
  lemma Retrying(both: set<Module>, a: Module, b: Module) returns (s: System)
    requires both == {a, b} && a != b
    ensures Reachable(both, s) && s.spawner == Polled
    ensures s.tasks == map[a := Checking(true), b := NotSpawned] && s.shared.details.checks.Keys == {a}
  {
    s := Started(both);
    ReachableStep(both, s, PollSpawner);
    s := Do(s, PollSpawner);
    s := RecordedFailure(both, s, a);
    ReachableStep(both, s, Check(a, CheckAct.SetDegraded));
    s := Do(s, Check(a, CheckAct.SetDegraded));
    ReachableStep(both, s, Check(a, Wake));
    s := Do(s, Check(a, Wake));
  }

  lemma OnlyGoodRecord(s: System, a: Module)
    requires s.shared.details.checks.Keys == {a} && Succeeded(s, a)
    ensures AllOk(s.shared.details)
  {
  }
}

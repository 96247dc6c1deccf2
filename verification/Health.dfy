/** The observable state: an atomic word and a locked table, written by the
    supervisor and its self-checks and read by the health endpoints. */
module Health {
  import opened Wrappers

  type Module = string

  datatype State =
    | Starting | CheckingRuntime | GeneratingConfiguration | ValidatingConfiguration | StartingTelegraf
    | Ready | Degraded | Stopping | Failed | Stopped

  const ALL: seq<State> :=
    [Starting, CheckingRuntime, GeneratingConfiguration, ValidatingConfiguration, StartingTelegraf,
     Ready, Degraded, Stopping, Failed, Stopped]

  /** The discriminant. */
  function Code(s: State): nat {
    match s
    case Starting => 0 case CheckingRuntime => 1 case GeneratingConfiguration => 2
    case ValidatingConfiguration => 3 case StartingTelegraf => 4 case Ready => 5
    case Degraded => 6 case Stopping => 7 case Failed => 8 case Stopped => 9
  }

  function FromCode(v: nat): State {
    if v < |ALL| then ALL[v] else Stopped
  }

  lemma StateSurvivesTheWord(s: State)
    ensures Code(s) < |ALL| && FromCode(Code(s)) == s
    ensures forall v: nat | v >= 10 :: FromCode(v) == Stopped
  {
  }

  predicate IsReady(s: State) {
    s == Ready || s == Degraded
  }

  datatype ModuleCheck = ModuleCheck(success: bool, at: nat)

  /** What `/status` reports beyond the state, as far as the protocol uses it. */
  datatype Details = Details(pid: Option<nat>, checks: map<Module, ModuleCheck>)

  /** The shared memory as one value. */
  datatype Shared = Shared(state: State, details: Details)

  function Write(m: Shared, to: State): Shared {
    m.(state := to)
  }

  function CompareAndSwap(m: Shared, from: State, to: State): Shared {
    if m.state == from then m.(state := to) else m
  }

  function Record(m: Shared, module_: Module, success: bool, at: nat): Shared {
    m.(details := m.details.(checks := m.details.checks[module_ := ModuleCheck(success, at)]))
  }

  function SetPid(m: Shared, pid: Option<nat>): Shared {
    m.(details := m.details.(pid := pid))
  }

  predicate AllOk(d: Details) {
    forall k | k in d.checks :: d.checks[k].success
  }

  /** The memory as the program holds it: the state is a small integer. */
  class HealthState {
    var word: nat
    var details: Details

    ghost predicate Valid()
      reads this
    {
      word < |ALL|
    }

    ghost function View(): Shared
      reads this
    {
      Shared(FromCode(word), details)
    }

    constructor ()
      ensures Valid() && View() == Shared(Starting, Details(None, map[]))
    {
      word := Code(Starting);
      details := Details(None, map[]);
    }

    method Get() returns (s: State)
      ensures s == View().state
    {
      s := FromCode(word);
    }

    method Set(to: State) returns (was: State)
      requires Valid()
      modifies this`word
      ensures Valid() && was == old(View().state) && View() == Write(old(View()), to)
    {
      StateSurvivesTheWord(to);
      was := FromCode(word);
      word := Code(to);
    }

    /** Moves only from `from`; comparing words is comparing states. */
    method TransitionFrom(from: State, to: State) returns (moved: bool)
      requires Valid()
      modifies this`word
      ensures Valid() && View() == CompareAndSwap(old(View()), from, to)
      ensures moved <==> old(View().state) == from
    {
      StateSurvivesTheWord(from);
      StateSurvivesTheWord(to);
      moved := word == Code(from);
      if moved { word := Code(to); }
    }

    method ReadDetails() returns (d: Details)
      ensures d == View().details
    {
      d := details;
    }

    method Update(f: Details -> Details)
      requires Valid()
      modifies this`details
      ensures Valid() && View() == old(View()).(details := f(old(details)))
    {
      details := f(details);
    }

    method RecordModuleCheck(m: Module, success: bool, now: nat)
      requires Valid()
      modifies this`details
      ensures Valid() && View() == Record(old(View()), m, success, now)
    {
      Update((d: Details) => d.(checks := d.checks[m := ModuleCheck(success, now)]));
    }
  }

  /** Leaving `Degraded`: a read, and then a conditional write. Nothing happens
      unless every recorded check is good and the state is still `Degraded`. */
  method ClearDegradedIfNothingIsFailing(health: HealthState)
    requires health.Valid()
    modifies health`word
    ensures health.Valid()
    ensures health.View() == if AllOk(old(health.View()).details) then CompareAndSwap(old(health.View()), Degraded, Ready)
                             else old(health.View())
  {
    var d := health.ReadDetails();
    if AllOk(d) {
      var moved := health.TransitionFrom(Degraded, Ready);
    }
  }
}

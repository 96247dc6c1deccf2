/** The health listener's accept loop: a permit is taken before a connection is
    accepted and given back when it ends, and a shutdown can be seen at every
    point where the loop waits. Peers, connections and the shutdown signal are
    the environment. */
module AcceptLoop {
  import opened Wrappers

  type Connection = nat

  /** Where the loop is: waiting for a permit; holding one and waiting for a peer;
      or past the loop, draining, and done. */
  datatype Phase = WaitingForPermit | WaitingForPeer | Draining | Returned

  datatype Listener = Listener(
    free: nat,
    phase: Phase,
    live: set<Connection>,
    shutdownPending: bool)

  datatype Event =
    | ShutdownSignal
    | AcquirePermit
    | Accept(c: Connection)
    | AcceptFails
    | TakeShutdown
    | ConnectionEnds(c: Connection)
    | Drained
    | DrainTimesOut

  function Open(max: nat): Listener {
    Listener(max, WaitingForPermit, {}, false)
  }

  predicate Waiting(l: Listener) {
    l.phase == WaitingForPermit || l.phase == WaitingForPeer
  }

  predicate Enabled(l: Listener, e: Event) {
    match e
    case ShutdownSignal => true
    case AcquirePermit => l.phase == WaitingForPermit && l.free > 0
    case Accept(c) => l.phase == WaitingForPeer && c !in l.live
    case AcceptFails => l.phase == WaitingForPeer
    case TakeShutdown => Waiting(l) && l.shutdownPending
    case ConnectionEnds(c) => c in l.live
    case Drained => l.phase == Draining && l.live == {}
    case DrainTimesOut => l.phase == Draining
  }

  /** Leaving a turn of the loop without a connection drops the permit in hand; an
      accepted connection carries it away. */
  function Do(l: Listener, e: Event): Listener
    requires Enabled(l, e)
  {
    match e
    case ShutdownSignal => l.(shutdownPending := true)
    case AcquirePermit => l.(free := l.free - 1, phase := WaitingForPeer)
    case Accept(c) => l.(live := l.live + {c}, phase := WaitingForPermit)
    case AcceptFails => l.(free := l.free + 1, phase := WaitingForPermit)
    case TakeShutdown => l.(free := l.free + Held(l), phase := Draining)
    case ConnectionEnds(c) => l.(live := l.live - {c}, free := l.free + 1)
    case Drained => l.(phase := Returned)
    case DrainTimesOut => l.(phase := Returned)
  }

  function After(l: Listener, events: seq<Event>): Option<Listener>
    decreases |events|
  {
    if events == [] then Some(l)
    else if Enabled(l, events[0]) then After(Do(l, events[0]), events[1..])
    else None
  }

  ghost predicate Reachable(max: nat, l: Listener) {
    exists events :: After(Open(max), events) == Some(l)
  }

  /** The permit the loop itself holds. */
  function Held(l: Listener): nat {
    if l.phase == WaitingForPeer then 1 else 0
  }

  function Permits(l: Listener): nat {
    l.free + Held(l) + |l.live|
  }

  lemma {:induction false} PermitsAreConserved(l: Listener, events: seq<Event>)
    requires After(l, events).Some?
    ensures Permits(After(l, events).value) == Permits(l)
    decreases |events|
  {
    if events != [] {
      PermitsAreConserved(Do(l, events[0]), events[1..]);
    }
  }

  /** No permit is ever lost or made, failed accepts and shutdowns included, so
      there are never more connections than permits. */
  lemma EveryPermitIsAccountedFor(max: nat, l: Listener)
    requires Reachable(max, l)
    ensures l.free + Held(l) + |l.live| == max && |l.live| <= max
  {
    var events :| After(Open(max), events) == Some(l);
    PermitsAreConserved(Open(max), events);
  }

  /** A step of the loop itself; the others are the environment's. */
  predicate IsLoopStep(e: Event) {
    e.AcquirePermit? || e.Accept? || e.AcceptFails? || e.TakeShutdown? || e.Drained? || e.DrainTimesOut?
  }

  /** A pending shutdown waits for nobody: whatever happens before it is taken, it can be
      taken next, and the loop then returns without any peer's doing; and while every
      permit is held by a peer, taking it is all the loop can do. */
  lemma {:induction false} ShutdownIsNeverBehindAPermit(max: nat, l: Listener, events: seq<Event>)
    requires Permits(l) == max && Waiting(l) && l.shutdownPending
    requires After(l, events).Some? && TakeShutdown !in events
    ensures var t := After(l, events).value;
            && Waiting(t) && t.shutdownPending && Enabled(t, TakeShutdown)
            && (|t.live| == max ==> forall e | IsLoopStep(e) && Enabled(t, e) :: e == TakeShutdown)
            && var end := After(t, [TakeShutdown, DrainTimesOut]);
               end.Some? && end.value.phase == Returned && end.value.live == t.live && end.value.free + |t.live| == max
    decreases |events|
  {
    if events == [] {
      var drained := Do(l, TakeShutdown);
      assert [TakeShutdown, DrainTimesOut][1..] == [DrainTimesOut];
      assert [DrainTimesOut][1..] == [];
      assert After(drained, [DrainTimesOut]) == After(Do(drained, DrainTimesOut), []);
    } else {
      assert events[0] != TakeShutdown;
      PermitsAreConserved(l, [events[0]]);
      assert [events[0]][1..] == [];
      ShutdownIsNeverBehindAPermit(max, Do(l, events[0]), events[1..]);
    }
  }

  /** So at capacity, until a connection ends, the loop takes no step but the shutdown. */
  lemma {:induction false} AtCapacityOnlyTheShutdown(max: nat, l: Listener, events: seq<Event>)
    requires Permits(l) == max == |l.live| && Waiting(l) && l.shutdownPending
    requires After(l, events).Some? && TakeShutdown !in events
    requires forall i | 0 <= i < |events| :: !events[i].ConnectionEnds?
    ensures forall i | 0 <= i < |events| :: !IsLoopStep(events[i])
    ensures After(l, events).value == l
    decreases |events|
  {
    if events != [] {
      assert events[0] != TakeShutdown;
      AtCapacityOnlyTheShutdown(max, Do(l, events[0]), events[1..]);
    }
  }

  function Accepts(events: seq<Event>): nat {
    if events == [] then 0 else (if events[0].Accept? then 1 else 0) + Accepts(events[1..])
  }

  /** Without a connection ending, no run accepts more peers than there are permits left,
      the one in hand included. */
  lemma {:induction false} AcceptsNeedPermits(l: Listener, events: seq<Event>)
    requires After(l, events).Some?
    requires forall i | 0 <= i < |events| :: !events[i].ConnectionEnds?
    ensures Accepts(events) <= l.free + Held(l)
    decreases |events|
  {
    if events != [] {
      AcceptsNeedPermits(Do(l, events[0]), events[1..]);
    }
  }

  /** Once the shutdown has been taken no connection is added, whatever happens. */
  lemma {:induction false} NoConnectionAfterShutdown(l: Listener, events: seq<Event>)
    requires !Waiting(l) && After(l, events).Some?
    ensures !Waiting(After(l, events).value) && After(l, events).value.live <= l.live
    decreases |events|
  {
    if events != [] {
      NoConnectionAfterShutdown(Do(l, events[0]), events[1..]);
    }
  }

  /** While the loop is running it can always be brought to accept again: when the
      connections that are left end, a permit is free for the next peer. */
  lemma {:induction false} AcceptingCanResume(max: nat, l: Listener) returns (events: seq<Event>)
    requires Permits(l) == max && max > 0 && Waiting(l)
    ensures After(l, events).Some? && After(l, events).value.phase == WaitingForPeer
    ensures forall i | 0 <= i < |events| :: events[i].ConnectionEnds? || events[i].AcquirePermit?
    decreases |l.live|
  {
    if l.phase == WaitingForPeer {
      events := [];
    } else if l.free > 0 {
      events := [AcquirePermit];
      assert events[1..] == [];
    } else {
      assert l.live != {};
      var c :| c in l.live;
      var rest := AcceptingCanResume(max, Do(l, ConnectionEnds(c)));
      events := [ConnectionEnds(c)] + rest;
      assert events[1..] == rest;
    }
  }

  // ---- What ends the loop ---------------------------------------------------------------

  lemma {:induction false} AfterConcat(l: Listener, a: seq<Event>, b: seq<Event>)
    ensures After(l, a + b) == match After(l, a) case None => None case Some(t) => After(t, b)
    decreases |a|
  {
    if a == [] {
      assert a + b == b;
    } else {
      assert (a + b)[1..] == a[1..] + b;
      if Enabled(l, a[0]) { AfterConcat(Do(l, a[0]), a[1..], b); }
    }
  }

  lemma {:induction false} OnlyASignalIsPending(l: Listener, events: seq<Event>)
    requires Waiting(l) && After(l, events).Some? && TakeShutdown !in events
    ensures var t := After(l, events).value;
            Waiting(t) && (t.shutdownPending <==> l.shutdownPending || ShutdownSignal in events)
    decreases |events|
  {
    if events != [] {
      assert events[0] != TakeShutdown;
      OnlyASignalIsPending(Do(l, events[0]), events[1..]);
      assert events == [events[0]] + events[1..];
    }
  }

  /** The loop runs on until it is told to stop: in any run, the shutdown is taken only after a
      signal, and only once. */
  lemma ShutdownNeedsASignal(max: nat, events: seq<Event>, j: nat)
    requires After(Open(max), events).Some? && j < |events| && events[j] == TakeShutdown
    ensures ShutdownSignal in events[..j] && TakeShutdown !in events[..j]
  {
    var k := FirstShutdown(events, j);
    assert events == events[..k] + events[k..];
    AfterConcat(Open(max), events[..k], events[k..]);
    OnlyASignalIsPending(Open(max), events[..k]);
    assert events[..k] <= events[..j];
    if k < j {
      var t := After(Open(max), events[..k]).value;
      assert events[k..][1..] == events[k + 1..];
      assert events[k + 1..] == events[k + 1..j] + events[j..];
      AfterConcat(Do(t, TakeShutdown), events[k + 1..j], events[j..]);
      NoConnectionAfterShutdown(Do(t, TakeShutdown), events[k + 1..j]);
    }
  }

  lemma FirstShutdown(events: seq<Event>, j: nat) returns (k: nat)
    requires j < |events| && events[j] == TakeShutdown
    ensures k <= j && events[k] == TakeShutdown && TakeShutdown !in events[..k]
  {
    k := 0;
    while events[k] != TakeShutdown
      invariant k <= j && TakeShutdown !in events[..k]
      decreases j - k
    {
      assert events[..k + 1] == events[..k] + [events[k]];
      k := k + 1;
    }
  }

  /** Without a timeout the loop is not over before every connection has ended. */
  lemma {:induction false} DrainWaitsForTheLast(l: Listener, events: seq<Event>)
    requires After(l, events).Some? && DrainTimesOut !in events
    requires l.phase == Returned ==> l.live == {}
    ensures After(l, events).value.phase == Returned ==> After(l, events).value.live == {}
    decreases |events|
  {
    if events != [] {
      assert events[0] != DrainTimesOut;
      DrainWaitsForTheLast(Do(l, events[0]), events[1..]);
    }
  }

  /** And the drain can always end that way, with every permit back. */
  lemma {:induction false} DrainCanEnd(l: Listener) returns (events: seq<Event>)
    requires l.phase == Draining
    ensures After(l, events).Some?
    ensures var t := After(l, events).value; t.phase == Returned && t.live == {} && t.free == Permits(l)
    ensures forall e | e in events :: e.ConnectionEnds? || e == Drained
    decreases |l.live|
  {
    if l.live == {} {
      events := [Drained];
      assert events[1..] == [];
    } else {
      var c :| c in l.live;
      var rest := DrainCanEnd(Do(l, ConnectionEnds(c)));
      events := [ConnectionEnds(c)] + rest;
      assert events[1..] == rest;
    }
  }
}

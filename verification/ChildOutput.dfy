/** Telegraf's output readers, which are waited for before an exit is reported: for a
    while at most, and no longer once a stop has interrupted the wait. */
module ChildOutput {
  import opened Basics
  import opened Wrappers

  /** Two seconds, in milliseconds. */
  const OUTPUT_DRAIN_TIMEOUT: nat := 2000

  datatype Ending = AllRead | DeadlinePassed | Interrupted

  /** Waiting for one reader after the other until the deadline. A reader stands for the
      time at which it reaches the end of its pipe; a stop interrupts only while the
      wait is suspended, and at the same moment it comes first. */
  function Await(readers: seq<nat>, now: nat, deadline: nat, stop: Option<nat>): (nat, Ending)
    decreases |readers|
  {
    if readers == [] then (now, AllRead)
    else if readers[0] <= now then Await(readers[1..], now, deadline, stop)
    else if deadline <= now then (now, DeadlinePassed)
    else if stop.Some? && stop.value <= Min(readers[0], deadline) then (Max(now, stop.value), Interrupted)
    else if readers[0] <= deadline then Await(readers[1..], readers[0], deadline, stop)
    else (deadline, DeadlinePassed)
  }

  class Telegraf {
    var forwarders: seq<nat>
    var now: nat

    constructor (forwarders: seq<nat>, now: nat)
      ensures this.forwarders == forwarders && this.now == now
    {
      this.forwarders := forwarders;
      this.now := now;
    }

    /** The list is taken before the first wait, so an interrupted drain leaves nothing
        for a later one. */
    method DrainOutput(stop: Option<nat>) returns (ending: Ending)
      modifies this
      ensures forwarders == []
      ensures (now, ending) == Await(old(forwarders), old(now), old(now) + OUTPUT_DRAIN_TIMEOUT, stop)
    {
      var deadline := now + OUTPUT_DRAIN_TIMEOUT;
      var taken := forwarders;
      forwarders := [];
      for n := 0 to |taken|
        invariant forwarders == []
        invariant Await(taken[n..], now, deadline, stop) == Await(old(forwarders), old(now), deadline, stop)
      {
        var handle := taken[n];
        assert taken[n..][1..] == taken[n + 1..];
        if handle > now {
          if deadline <= now { return DeadlinePassed; }
          if stop.Some? && stop.value <= Min(handle, deadline) {
            now := Max(now, stop.value);
            return Interrupted;
          }
          if handle > deadline {
            now := deadline;
            return DeadlinePassed;
          }
          now := handle;
        }
      }
      ending := AllRead;
    }

    /** What the supervisor does once the child has been reaped. A stop that comes before,
        or with, the exit has already taken the stop arm, while the list of readers was
        still whole. One that interrupts the drain takes it now, and drains again. */
    method ReportExit(stop: Option<nat>)
      modifies this
      ensures forwarders == [] && now == Told(old(forwarders), old(now), stop)
    {
      if stop.Some? && stop.value <= now {
        var ending := DrainOutput(None);
      } else {
        var ending := DrainOutput(stop);
        if ending == Interrupted {
          ending := DrainOutput(None);
        }
      }
    }
  }

  /** When the supervisor goes on to report the exit. */
  function Told(readers: seq<nat>, exited: nat, stop: Option<nat>): nat {
    if stop.Some? && stop.value <= exited then Await(readers, exited, exited + OUTPUT_DRAIN_TIMEOUT, None).0
    else
      var (now, ending) := Await(readers, exited, exited + OUTPUT_DRAIN_TIMEOUT, stop);
      if ending == Interrupted then Await([], now, now + OUTPUT_DRAIN_TIMEOUT, None).0 else now
  }

  /** Everything has been read, or as much as two seconds allow. */
  predicate WaitedFor(readers: seq<nat>, exited: nat, told: nat) {
    told >= exited + 2000 || forall r | r in readers :: r <= told
  }

  /** When the last reader is done. */
  function Latest(readers: seq<nat>, now: nat): (t: nat)
    ensures t >= now && forall r | r in readers :: r <= t
    ensures t == now || t in readers
  {
    assert forall r | r in readers :: r == readers[0] || r in readers[1..];
    if readers == [] then now else Max(readers[0], Latest(readers[1..], now))
  }

  /** When an undisturbed drain is over. */
  function Done(readers: seq<nat>, exited: nat): nat {
    Min(Latest(readers, exited), exited + OUTPUT_DRAIN_TIMEOUT)
  }

  /** The wait ends with the last reader or at the deadline, whichever comes first,
      unless a stop comes while it lasts. */
  lemma {:induction false} AwaitIsTheLatest(readers: seq<nat>, now: nat, deadline: nat, stop: Option<nat>)
    requires now <= deadline
    ensures var (t, ending) := Await(readers, now, deadline, stop);
            var done := Min(Latest(readers, now), deadline);
            && (ending == Interrupted <==> stop.Some? && now < done && stop.value <= done)
            && t == (if ending == Interrupted then Max(now, stop.value) else done)
            && (ending == AllRead ==> Latest(readers, now) <= deadline)
            && (ending == DeadlinePassed ==> Latest(readers, now) > deadline)
    decreases |readers|
  {
    if readers != [] {
      if readers[0] <= now {
        AwaitIsTheLatest(readers[1..], now, deadline, stop);
      } else if readers[0] <= deadline {
        AwaitIsTheLatest(readers[1..], readers[0], deadline, stop);
        LatestFrom(readers[1..], now, readers[0]);
      }
    }
  }

  lemma {:induction false} LatestFrom(readers: seq<nat>, a: nat, b: nat)
    requires a <= b
    ensures Latest(readers, b) == Max(b, Latest(readers, a))
  {
    if readers != [] { LatestFrom(readers[1..], a, b); }
  }

  /** An exit is reported only after the output has been waited for, as the program
      promises, exactly when no stop comes between the exit and the end of the drain.
      A stop before the exit, which is how muninn is usually ended, loses nothing. */
  lemma OutputIsWaitedForUnlessStopped(readers: seq<nat>, exited: nat, stop: Option<nat>)
    ensures WaitedFor(readers, exited, Told(readers, exited, stop)) <==>
            !(stop.Some? && exited < stop.value < Done(readers, exited))
  {
    AwaitIsTheLatest(readers, exited, exited + OUTPUT_DRAIN_TIMEOUT, None);
    AwaitIsTheLatest(readers, exited, exited + OUTPUT_DRAIN_TIMEOUT, stop);
    if stop.Some? && exited < stop.value < Done(readers, exited) {
      assert Latest(readers, exited) in readers;
    }
  }

  /** A drain never takes longer than its deadline. */
  lemma DrainIsBounded(readers: seq<nat>, exited: nat, stop: Option<nat>)
    ensures exited <= Told(readers, exited, stop) <= exited + 2000
  {
    AwaitIsTheLatest(readers, exited, exited + OUTPUT_DRAIN_TIMEOUT, None);
    AwaitIsTheLatest(readers, exited, exited + OUTPUT_DRAIN_TIMEOUT, stop);
  }
}

/** The image-update check: one entry for every selected container, judged on evidence
    while the budget lasts. */
module ImageUpdates {
  import opened Basics
  import opened Wrappers
  import opened ImageReference
  import Glob

  datatype Container = Container(name: string, image: string, imageId: string)

  datatype Reason =
    | DigestPinnedReference | ImageIdReference | NoRepoDigest | NoMatchingRepoDigest
    | ImageInspectFailed | DistributionQueryFailed | BudgetExceeded

  datatype DaemonReason = InvalidEndpoint | DockerUnreachable

  datatype ContainerCheck =
    ContainerCheck(name: string, image: string, outcome: Result<bool, Reason>, at: nat, detail: Option<string>)

  datatype Report =
    Report(daemonOutcome: Result<nat, DaemonReason>, containers: seq<ContainerCheck>, at: nat, detail: Option<string>)

  // ---- The world outside ------------------------------------------------------------------

  datatype Call = ListRunning | RepoDigests(imageId: string) | RemoteDigest(reference: string)

  datatype Answer<T> = Answer(result: Result<T, string>, took: nat)

  /** How the n-th call would be answered and how long that takes, how long the check
      itself takes to get to its n-th container, and what the wall clock says then. */
  datatype World = World(
    list: nat -> Answer<seq<Container>>,
    digests: (nat, string) -> Answer<seq<string>>,
    remote: (nat, string) -> Answer<string>,
    pause: nat -> nat,
    wall: nat -> nat)

  datatype Made = Made(call: Call, began: nat, ended: nat)

  /** The calls made so far, and the time. */
  datatype Moment = Moment(log: seq<Made>, now: nat)

  function After(m: Moment, call: Call, took: nat): Moment {
    Moment(m.log + [Made(call, m.now, m.now + took)], m.now + took)
  }

  // ---- One container ------------------------------------------------------------------------

  const ID_PREFIX: string := "sha256:"

  /** The daemon put an image ID where a reference belongs. */
  predicate IsImageId(c: Container) {
    c.image == c.imageId || ID_PREFIX <= c.image
  }

  function Fail(c: Container, reason: Reason, detail: Option<string>, at: nat): ContainerCheck {
    ContainerCheck(c.name, c.image, Err(reason), at, detail)
  }

  function CheckOf(w: World, m: Moment, c: Container, at: nat): (ContainerCheck, Moment) {
    if IsImageId(c) then (Fail(c, ImageIdReference, None, at), m)
    else match SplitReference(c.image)
      case None => (Fail(c, DigestPinnedReference, None, at), m)
      case Some((repo, tag)) =>
        var asked := w.digests(|m.log|, c.imageId);
        var inspected := After(m, RepoDigests(c.imageId), asked.took);
        match asked.result
        case Err(e) => (Fail(c, ImageInspectFailed, Some(e), at), inspected)
        case Ok(digests) => Compared(w, inspected, c, digests, repo, repo + ":" + tag, at)
  }

  function Compared(w: World, m: Moment, c: Container, digests: seq<string>, repo: string, reference: string, at: nat)
    : (ContainerCheck, Moment)
  {
    match FindLocalDigest(digests, repo)
    case None => (Fail(c, if digests == [] then NoRepoDigest else NoMatchingRepoDigest, None, at), m)
    case Some(local) =>
      var asked := w.remote(|m.log|, reference);
      var resolved := After(m, RemoteDigest(reference), asked.took);
      match asked.result
      case Err(e) => (Fail(c, DistributionQueryFailed, Some(e), at), resolved)
      case Ok(remote) => (ContainerCheck(c.name, c.image, Ok(local != remote), at, None), resolved)
  }

  // ---- Every container ------------------------------------------------------------------------

  function Selected(all: seq<Container>, included: seq<string>, excluded: seq<string>): seq<Container> {
    if all == [] then []
    else
      var before := Selected(all[..|all| - 1], included, excluded);
      var last := all[|all| - 1];
      if Glob.PassesFilters(last.name, included, excluded) then before + [last] else before
  }

  function NextCheck(w: World, m: Moment, c: Container, n: nat, deadline: nat): (ContainerCheck, Moment) {
    var ready := m.(now := m.now + w.pause(n));
    if ready.now >= deadline then (Fail(c, BudgetExceeded, None, w.wall(n + 1)), ready)
    else CheckOf(w, ready, c, w.wall(n + 1))
  }

  function ChecksOf(w: World, m: Moment, cs: seq<Container>, deadline: nat): (seq<ContainerCheck>, Moment)
    decreases |cs|
  {
    if cs == [] then ([], m)
    else
      var n := |cs| - 1;
      var (done, reached) := ChecksOf(w, m, cs[..n], deadline);
      var (check, next) := NextCheck(w, reached, cs[n], n, deadline);
      (done + [check], next)
  }

  function RunOf(w: World, m: Moment, budget: nat, included: seq<string>, excluded: seq<string>): (Report, Moment) {
    var asked := w.list(|m.log|);
    var listed := After(m, ListRunning, asked.took);
    match asked.result
    case Err(e) => (Report(Err(DockerUnreachable), [], w.wall(0), Some(e)), listed)
    case Ok(all) =>
      var (checks, end) := ChecksOf(w, listed, Selected(all, included, excluded), m.now + budget);
      (Report(Ok(|checks|), checks, w.wall(0), None), end)
  }

  /** The daemon, and the clock that runs while it answers. */
  class Daemon {
    const world: World
    var log: seq<Made>
    var now: nat

    constructor (world: World, now: nat)
      ensures this.world == world && View() == Moment([], now)
    {
      this.world := world;
      this.log := [];
      this.now := now;
    }

    ghost function View(): Moment
      reads this
    {
      Moment(log, now)
    }

    method Answered(call: Call, took: nat)
      modifies this
      ensures View() == After(old(View()), call, took)
    {
      log := log + [Made(call, now, now + took)];
      now := now + took;
    }

    method Wait(time: nat)
      modifies this`now
      ensures View() == old(View()).(now := old(now) + time)
    {
      now := now + time;
    }

    method CheckOne(c: Container, at: nat) returns (check: ContainerCheck)
      modifies this
      ensures (check, View()) == CheckOf(world, old(View()), c, at)
    {
      if IsImageId(c) {
        return Fail(c, ImageIdReference, None, at);
      }
      var split := SplitReference(c.image);
      if split.None? {
        return Fail(c, DigestPinnedReference, None, at);
      }
      var (repo, tag) := split.value;
      var digests := world.digests(|log|, c.imageId);
      Answered(RepoDigests(c.imageId), digests.took);
      if digests.result.Err? {
        return Fail(c, ImageInspectFailed, Some(digests.result.error), at);
      }
      var local := FindLocalDigest(digests.result.value, repo);
      if local.None? {
        return Fail(c, if digests.result.value == [] then NoRepoDigest else NoMatchingRepoDigest, None, at);
      }
      var reference := repo + ":" + tag;
      var remote := world.remote(|log|, reference);
      Answered(RemoteDigest(reference), remote.took);
      if remote.result.Err? {
        return Fail(c, DistributionQueryFailed, Some(remote.result.error), at);
      }
      check := ContainerCheck(c.name, c.image, Ok(local.value != remote.result.value), at, None);
    }

    /** The check stops asking once its budget is spent. */
    method CheckNext(c: Container, n: nat, started: nat, budget: nat) returns (check: ContainerCheck)
      modifies this
      ensures (check, View()) == NextCheck(world, old(View()), c, n, started + budget)
    {
      hide CheckOf;
      Wait(world.pause(n));
      if now - started >= budget {
        check := Fail(c, BudgetExceeded, None, world.wall(n + 1));
      } else {
        check := CheckOne(c, world.wall(n + 1));
      }
    }

    method CheckAll(all: seq<Container>, started: nat, budget: nat, included: seq<string>, excluded: seq<string>)
        returns (checks: seq<ContainerCheck>)
      modifies this
      ensures (checks, View()) == ChecksOf(world, old(View()), Selected(all, included, excluded), started + budget)
    {
      hide ChecksOf, Selected, NextCheck, Glob.PassesFilters;
      checks := [];
      assert all[..0] == [];
      NothingToCheck(world, View(), started + budget, included, excluded);
      for i := 0 to |all|
        invariant (checks, View()) == ChecksOf(world, old(View()), Selected(all[..i], included, excluded), started + budget)
        invariant |checks| == |Selected(all[..i], included, excluded)|
      {
        var c := all[i];
        SelectedOneMore(all, i, included, excluded);
        if Glob.PassesFilters(c.name, included, excluded) {
          var check := CheckNext(c, |checks|, started, budget);
          OneMoreCheck(world, old(View()), Selected(all[..i], included, excluded), c, started + budget);
          checks := checks + [check];
        }
      }
      assert all[..|all|] == all;
    }

    method Run(budget: nat, included: seq<string>, excluded: seq<string>) returns (report: Report)
      modifies this
      ensures (report, View()) == RunOf(world, old(View()), budget, included, excluded)
    {
      hide ChecksOf, Selected;
      var at := world.wall(0);
      var started := now;
      var listed := world.list(|log|);
      Answered(ListRunning, listed.took);
      if listed.result.Err? {
        return Report(Err(DockerUnreachable), [], at, Some(listed.result.error));
      }
      var checks := CheckAll(listed.result.value, started, budget, included, excluded);
      report := Report(Ok(|checks|), checks, at, None);
    }
  }

  lemma NothingToCheck(w: World, m: Moment, deadline: nat, included: seq<string>, excluded: seq<string>)
    ensures Selected([], included, excluded) == [] && ChecksOf(w, m, [], deadline) == ([], m)
  {
  }

  lemma SelectedOneMore(all: seq<Container>, i: nat, included: seq<string>, excluded: seq<string>)
    requires i < |all|
    ensures Selected(all[..i + 1], included, excluded) ==
            var before := Selected(all[..i], included, excluded);
            if Glob.PassesFilters(all[i].name, included, excluded) then before + [all[i]] else before
  {
    assert all[..i + 1][..i] == all[..i];
  }

  lemma OneMoreCheck(w: World, m: Moment, cs: seq<Container>, c: Container, deadline: nat)
    ensures var (done, reached) := ChecksOf(w, m, cs, deadline);
            var (check, next) := NextCheck(w, reached, c, |cs|, deadline);
            ChecksOf(w, m, cs + [c], deadline) == (done + [check], next)
  {
    hide NextCheck;
    assert (cs + [c])[..|cs|] == cs;
  }

  // ---- A judgement stands on evidence -----------------------------------------------------------

  predicate Asked(log: seq<Made>, n: int, call: Call) {
    0 <= n < |log| && log[n].call == call
  }

  /** The image the container runs was inspected by call `n`, which told these digests. */
  ghost predicate Inspected(w: World, log: seq<Made>, n: int, c: Container, digests: seq<string>) {
    Asked(log, n, RepoDigests(c.imageId)) && w.digests(n, c.imageId).result == Ok(digests)
  }

  /** The next call asked the registry for the very reference, after a local digest
      was found under some spelling of the repository. */
  ghost predicate Resolved(w: World, log: seq<Made>, n: int, c: Container, local: string, remote: Result<string, string>) {
    && SplitReference(c.image).Some?
    && var (repo, tag) := SplitReference(c.image).value;
    && (exists digests, i :: Inspected(w, log, n, c, digests) && RecordedAt(digests, repo, i, local))
    && Asked(log, n + 1, RemoteDigest(repo + ":" + tag))
    && w.remote(n + 1, repo + ":" + tag).result == remote
  }

  /** What each outcome says about the container and about what was answered. */
  ghost predicate Justified(w: World, log: seq<Made>, n: int, c: Container, outcome: Result<bool, Reason>) {
    && (outcome == Err(ImageIdReference) <==> c.image == c.imageId || "sha256:" <= c.image)
    && (outcome == Err(DigestPinnedReference) <==> !(c.image == c.imageId || "sha256:" <= c.image) && '@' in c.image)
    && match outcome
    case Ok(available) =>
      exists local, remote :: Resolved(w, log, n, c, local, Ok(remote)) && (available <==> local != remote)
    case Err(DistributionQueryFailed) => exists local, e :: Resolved(w, log, n, c, local, Err(e))
    case Err(ImageInspectFailed) => Asked(log, n, RepoDigests(c.imageId)) && w.digests(n, c.imageId).result.Err?
    case Err(NoRepoDigest) => Inspected(w, log, n, c, [])
    case Err(NoMatchingRepoDigest) =>
      SplitReference(c.image).Some? &&
      exists digests :: Inspected(w, log, n, c, digests) && digests != []
                        && forall i | 0 <= i < |digests| :: RecordsNothing(digests[i], SplitReference(c.image).value.0)
    case Err(ImageIdReference) => true
    case Err(DigestPinnedReference) => true
    case Err(BudgetExceeded) => false
  }

  /** A call about this container's own image. */
  predicate Concerns(call: Call, c: Container) {
    || call == RepoDigests(c.imageId)
    || (SplitReference(c.image).Some? &&
        call == RemoteDigest(SplitReference(c.image).value.0 + ":" + SplitReference(c.image).value.1))
  }

  lemma ImageIdMeans(c: Container)
    ensures IsImageId(c) <==> c.image == c.imageId || "sha256:" <= c.image
  {
  }

  lemma OneCheckIsJustified(w: World, m: Moment, c: Container, at: nat)
    ensures var (check, end) := CheckOf(w, m, c, at);
            && Justified(w, end.log, |m.log|, c, check.outcome)
            && check.name == c.name && check.image == c.image && check.at == at
            && (check.detail.Some? <==> check.outcome in {Err(ImageInspectFailed), Err(DistributionQueryFailed)})
  {
    ImageIdMeans(c);
    hide SplitReference, FindLocalDigest, EntryMatches, RecordedAt, IsImageId;
    ReferenceResplits(c.image);
    var asked := w.digests(|m.log|, c.imageId);
    if !IsImageId(c) && SplitReference(c.image).Some? && asked.result.Ok? {
      ComparisonIsJustified(w, After(m, RepoDigests(c.imageId), asked.took), c, asked.result.value, at);
    }
  }

  lemma ComparisonIsJustified(w: World, m: Moment, c: Container, digests: seq<string>, at: nat)
    requires SplitReference(c.image).Some? && !IsImageId(c) && Inspected(w, m.log, |m.log| - 1, c, digests)
    ensures var (repo, tag) := SplitReference(c.image).value;
            var (check, end) := Compared(w, m, c, digests, repo, repo + ":" + tag, at);
            Justified(w, end.log, |m.log| - 1, c, check.outcome)
  {
    ImageIdMeans(c);
    hide SplitReference, FindLocalDigest, EntryMatches, RecordedAt, IsImageId;
    var (repo, tag) := SplitReference(c.image).value;
    var end := Compared(w, m, c, digests, repo, repo + ":" + tag, at).1;
    assert Inspected(w, end.log, |m.log| - 1, c, digests);
    ReferenceResplits(c.image);
    LocalDigestIsTheFirst(digests, repo);
    var local := FindLocalDigest(digests, repo);
    if local.Some? {
      assert Resolved(w, end.log, |m.log| - 1, c, local.value, w.remote(|m.log|, repo + ":" + tag).result);
    }
  }

  /** At most two calls are made for a container, both about its own image, and what
      was logged before is kept. */
  lemma CheckMakesTwoCalls(w: World, m: Moment, c: Container, at: nat)
    ensures var end := CheckOf(w, m, c, at).1;
            && m.log <= end.log && |end.log| <= |m.log| + 2
            && forall j | |m.log| <= j < |end.log| :: Concerns(end.log[j].call, c)
  {
    hide SplitReference, IsImageId, FindLocalDigest;
  }

  lemma JustifiedInLongerLog(w: World, log: seq<Made>, longer: seq<Made>, n: int, c: Container, outcome: Result<bool, Reason>)
    requires log <= longer && Justified(w, log, n, c, outcome)
    ensures Justified(w, longer, n, c, outcome)
  {
    hide SplitReference, EntryMatches, RecordedAt, IsImageId;
    forall k: int, call: Call | Asked(log, k, call) ensures Asked(longer, k, call) {
    }
    forall digests: seq<string> | Inspected(w, log, n, c, digests) ensures Inspected(w, longer, n, c, digests) {
    }
    forall local: string, remote: Result<string, string> | Resolved(w, log, n, c, local, remote)
      ensures Resolved(w, longer, n, c, local, remote)
    {
    }
  }

  // ---- The whole run ----------------------------------------------------------------------------

  ghost predicate HasEvidence(w: World, log: seq<Made>, c: Container, outcome: Result<bool, Reason>) {
    exists n :: Justified(w, log, n, c, outcome)
  }

  predicate ConcernsOneOf(call: Call, cs: seq<Container>) {
    exists i | 0 <= i < |cs| :: Concerns(call, cs[i])
  }

  /** The first `k` containers are judged and the others are out of budget, with no
      call made for them. */
  ghost predicate SplitAt(w: World, m: Moment, cs: seq<Container>, checks: seq<ContainerCheck>, end: Moment, k: nat) {
    && |checks| == |cs| && k <= |cs|
    && (forall i | 0 <= i < |cs| :: checks[i].name == cs[i].name && checks[i].image == cs[i].image)
    && (forall i | 0 <= i < |cs| :: checks[i].at == w.wall(i + 1))
    && (forall i | 0 <= i < k :: HasEvidence(w, end.log, cs[i], checks[i].outcome))
    && (forall i | k <= i < |cs| :: checks[i].outcome == Err(BudgetExceeded))
    && m.log <= end.log && |end.log| <= |m.log| + 2 * k
    && (forall j | |m.log| <= j < |end.log| :: ConcernsOneOf(end.log[j].call, cs[..k]))
  }

  lemma {:induction false} ChecksAreSplit(w: World, m: Moment, cs: seq<Container>, deadline: nat) returns (k: nat)
    ensures var (checks, end) := ChecksOf(w, m, cs, deadline);
            && SplitAt(w, m, cs, checks, end, k)
            && |checks| == |cs| && k <= |cs| && (k < |cs| ==> end.now >= deadline)
    decreases |cs|
  {
    hide CheckOf, SplitReference, HasEvidence, ConcernsOneOf, Justified, SplitAt;
    if cs == [] {
      k := 0;
      NothingSplit(w, m);
    } else {
      var n := |cs| - 1;
      var (done, reached) := ChecksOf(w, m, cs[..n], deadline);
      k := ChecksAreSplit(w, m, cs[..n], deadline);
      var ready := reached.(now := reached.now + w.pause(n));
      var (check, next) := NextCheck(w, reached, cs[n], n, deadline);
      if ready.now < deadline {
        OneCheckIsJustified(w, ready, cs[n], w.wall(n + 1));
        CheckMakesTwoCalls(w, ready, cs[n], w.wall(n + 1));
        SplitGrows(w, m, cs, done, reached, check, next);
        k := n + 1;
      } else {
        SplitStays(w, m, cs, done, reached, check, next, k);
      }
    }
  }

  lemma NothingSplit(w: World, m: Moment)
    ensures SplitAt(w, m, [], [], m, 0)
  {
  }

  lemma SplitGrows(w: World, m: Moment, cs: seq<Container>, done: seq<ContainerCheck>, reached: Moment,
                   check: ContainerCheck, next: Moment)
    requires cs != [] && SplitAt(w, m, cs[..|cs| - 1], done, reached, |cs| - 1)
    requires check.name == cs[|cs| - 1].name && check.image == cs[|cs| - 1].image && check.at == w.wall(|cs|)
    requires Justified(w, next.log, |reached.log|, cs[|cs| - 1], check.outcome)
    requires reached.log <= next.log && |next.log| <= |reached.log| + 2
    requires forall j | |reached.log| <= j < |next.log| :: Concerns(next.log[j].call, cs[|cs| - 1])
    ensures SplitAt(w, m, cs, done + [check], next, |cs|)
  {
    assert HasEvidence(w, next.log, cs[|cs| - 1], check.outcome);
    hide Justified, Concerns, HasEvidence, ConcernsOneOf;
    assert cs[..|cs|] == cs && cs[..|cs| - 1][..|cs| - 1] == cs[..|cs| - 1];
    NamesGrow(cs, done, check);
    EvidenceGrows(w, cs, done, check, reached.log, next.log);
    CallsStillConcern(cs, m.log, reached.log, next.log);
  }

  lemma NamesGrow(cs: seq<Container>, done: seq<ContainerCheck>, check: ContainerCheck)
    requires |cs| == |done| + 1 && check.name == cs[|done|].name && check.image == cs[|done|].image
    requires forall i | 0 <= i < |done| :: done[i].name == cs[..|cs| - 1][i].name && done[i].image == cs[..|cs| - 1][i].image
    ensures forall i | 0 <= i < |cs| :: (done + [check])[i].name == cs[i].name && (done + [check])[i].image == cs[i].image
  {
    assert forall i | 0 <= i < |done| :: cs[..|cs| - 1][i] == cs[i];
  }

  lemma EvidenceGrows(w: World, cs: seq<Container>, done: seq<ContainerCheck>, check: ContainerCheck,
                      log: seq<Made>, longer: seq<Made>)
    requires |cs| == |done| + 1 && log <= longer && HasEvidence(w, longer, cs[|done|], check.outcome)
    requires forall i | 0 <= i < |done| :: HasEvidence(w, log, cs[..|cs| - 1][i], done[i].outcome)
    ensures forall i | 0 <= i < |cs| :: HasEvidence(w, longer, cs[i], (done + [check])[i].outcome)
  {
    hide HasEvidence;
    forall i | 0 <= i < |cs| ensures HasEvidence(w, longer, cs[i], (done + [check])[i].outcome) {
      if i < |done| {
        assert cs[..|cs| - 1][i] == cs[i];
        EvidenceStays(w, log, longer, cs[i], done[i].outcome);
      }
    }
  }

  lemma EvidenceStays(w: World, log: seq<Made>, longer: seq<Made>, c: Container, outcome: Result<bool, Reason>)
    requires log <= longer && HasEvidence(w, log, c, outcome)
    ensures HasEvidence(w, longer, c, outcome)
  {
    hide Justified;
    var at :| Justified(w, log, at, c, outcome);
    JustifiedInLongerLog(w, log, longer, at, c, outcome);
  }

  lemma CallsStillConcern(cs: seq<Container>, start: seq<Made>, log: seq<Made>, longer: seq<Made>)
    requires cs != [] && log <= longer
    requires forall j | |start| <= j < |log| :: ConcernsOneOf(log[j].call, cs[..|cs| - 1])
    requires forall j | |log| <= j < |longer| :: Concerns(longer[j].call, cs[|cs| - 1])
    ensures forall j | |start| <= j < |longer| :: ConcernsOneOf(longer[j].call, cs)
  {
    hide Concerns;
    forall j | |start| <= j < |longer| ensures ConcernsOneOf(longer[j].call, cs) {
      if j < |log| {
        ConcernsOneOfMore(longer[j].call, cs[..|cs| - 1], cs);
      }
    }
  }

  lemma ConcernsOneOfMore(call: Call, some: seq<Container>, more: seq<Container>)
    requires some <= more
    ensures ConcernsOneOf(call, some) ==> ConcernsOneOf(call, more)
  {
    hide Concerns;
    if i :| 0 <= i < |some| && Concerns(call, some[i]) {
      assert Concerns(call, more[i]);
    }
  }

  lemma SplitStays(w: World, m: Moment, cs: seq<Container>, done: seq<ContainerCheck>, reached: Moment,
                   check: ContainerCheck, next: Moment, k: nat)
    requires cs != [] && SplitAt(w, m, cs[..|cs| - 1], done, reached, k)
    requires check.name == cs[|cs| - 1].name && check.image == cs[|cs| - 1].image && check.at == w.wall(|cs|)
    requires check.outcome == Err(BudgetExceeded) && next.log == reached.log
    ensures SplitAt(w, m, cs, done + [check], next, k)
  {
    hide HasEvidence, ConcernsOneOf;
    var n := |cs| - 1;
    assert forall i | 0 <= i < n :: cs[..n][i] == cs[i];
    assert cs[..n][..k] == cs[..k];
  }

  /** What the report tells of the containers the daemon lists. */
  ghost predicate Accounts(w: World, m: Moment, included: seq<string>, excluded: seq<string>,
                           report: Report, end: Moment, k: nat) {
    var asked := w.list(|m.log|);
    var listed := After(m, ListRunning, asked.took);
    report.at == w.wall(0) &&
    match asked.result
    case Err(e) =>
      report.daemonOutcome == Err(DockerUnreachable) && report.detail == Some(e) && report.containers == [] && end == listed
    case Ok(all) =>
      var selected := Selected(all, included, excluded);
      report.detail == None && report.daemonOutcome == Ok(|selected|) && SplitAt(w, listed, selected, report.containers, end, k)
  }

  /** Every selected container has its entry, in the daemon's order; the budget cuts the
      list once; each entry before the cut stands on evidence, and nothing is asked
      about the others. */
  lemma EveryContainerIsAccountedFor(w: World, m: Moment, budget: nat, included: seq<string>, excluded: seq<string>)
      returns (k: nat)
    ensures var (report, end) := RunOf(w, m, budget, included, excluded);
            Accounts(w, m, included, excluded, report, end, k)
  {
    hide ChecksOf, Selected, SplitAt;
    k := 0;
    var asked := w.list(|m.log|);
    if asked.result.Ok? {
      k := ChecksAreSplit(w, After(m, ListRunning, asked.took), Selected(asked.result.value, included, excluded), m.now + budget);
    }
  }

  lemma NamesInOrder(w: World, m: Moment, budget: nat, included: seq<string>, excluded: seq<string>)
    requires w.list(|m.log|).result.Ok?
    ensures var report := RunOf(w, m, budget, included, excluded).0;
            var selected := Selected(w.list(|m.log|).result.value, included, excluded);
            && report.daemonOutcome == Ok(|selected|) && |report.containers| == |selected|
            && forall i | 0 <= i < |selected| ::
                 report.containers[i].name == selected[i].name && report.containers[i].image == selected[i].image
  {
    hide RunOf, Selected, HasEvidence, ConcernsOneOf;
    var k := EveryContainerIsAccountedFor(w, m, budget, included, excluded);
  }

  /** The filter keeps the daemon's order, and decides on each container by itself. */
  lemma {:induction false} SelectedInParts(a: seq<Container>, b: seq<Container>, included: seq<string>, excluded: seq<string>)
    ensures Selected(a + b, included, excluded) == Selected(a, included, excluded) + Selected(b, included, excluded)
    ensures |b| == 1 ==> Selected(b, included, excluded) == if Glob.PassesFilters(b[0].name, included, excluded) then b else []
  {
    hide Glob.PassesFilters;
    if b == [] {
      assert a + b == a;
    } else {
      SelectedInParts(a, b[..|b| - 1], included, excluded);
      assert (a + b)[..|a + b| - 1] == a + b[..|b| - 1];
      assert |b| == 1 ==> b[..0] == [] && b == [b[0]];
    }
  }

  // ---- How long it takes ------------------------------------------------------------------------

  /** No container's two calls take longer than `c` together. */
  ghost predicate CallsTakeAtMost(w: World, c: nat) {
    forall n: nat, id, reference :: TwoCalls(w, n, id, reference) <= c
  }

  function TwoCalls(w: World, n: nat, id: string, reference: string): nat {
    w.digests(n, id).took + w.remote(n + 1, reference).took
  }

  ghost predicate NoPauses(w: World) {
    forall n :: w.pause(n) == 0
  }

  lemma CheckTakesItsCalls(w: World, m: Moment, container: Container, at: nat, c: nat)
    requires CallsTakeAtMost(w, c)
    ensures var end := CheckOf(w, m, container, at).1;
            && m.log <= end.log && m.now <= end.now <= m.now + c
            && forall j | |m.log| <= j < |end.log| :: end.log[j].ended <= m.now + c
  {
    hide SplitReference, FindLocalDigest, IsImageId;
    assert TwoCalls(w, |m.log|, container.imageId, "") <= c;
    if SplitReference(container.image).Some? {
      var (repo, tag) := SplitReference(container.image).value;
      assert TwoCalls(w, |m.log|, container.imageId, repo + ":" + tag) <= c;
      assert |After(m, RepoDigests(container.imageId), w.digests(|m.log|, container.imageId).took).log| == |m.log| + 1;
    }
  }

  lemma {:induction false} ChecksEndInTime(w: World, m: Moment, cs: seq<Container>, deadline: nat, c: nat)
    requires CallsTakeAtMost(w, c)
    ensures var end := ChecksOf(w, m, cs, deadline).1;
            && m.log <= end.log
            && (forall j | |m.log| <= j < |end.log| :: end.log[j].ended < deadline + c)
            && (NoPauses(w) ==> end.now == m.now || end.now < deadline + c)
    decreases |cs|
  {
    hide CheckOf, CallsTakeAtMost;
    if cs != [] {
      var n := |cs| - 1;
      var reached := ChecksOf(w, m, cs[..n], deadline).1;
      ChecksEndInTime(w, m, cs[..n], deadline, c);
      CheckTakesItsCalls(w, reached.(now := reached.now + w.pause(n)), cs[n], w.wall(n + 1), c);
    }
  }

  /** Every call has been answered by the time the list call was, or within one
      container's calls of the budget; and if the check itself takes no time, so has
      the whole run. */
  lemma RunEndsInTime(w: World, m: Moment, budget: nat, included: seq<string>, excluded: seq<string>, c: nat)
    requires CallsTakeAtMost(w, c)
    ensures var end := RunOf(w, m, budget, included, excluded).1;
            var limit := m.now + Max(w.list(|m.log|).took, budget + c);
            && m.log <= end.log
            && (forall j | |m.log| <= j < |end.log| :: end.log[j].ended <= limit)
            && (NoPauses(w) ==> end.now <= limit)
  {
    hide CallsTakeAtMost, ChecksOf, Selected, NoPauses;
    var asked := w.list(|m.log|);
    var listed := After(m, ListRunning, asked.took);
    if asked.result.Ok? {
      ChecksEndInTime(w, listed, Selected(asked.result.value, included, excluded), m.now + budget, c);
    }
  }

  // Time passes in calls and pauses, and only there.

  function TimeOf(w: World, n: nat, call: Call): nat {
    match call
    case ListRunning => w.list(n).took
    case RepoDigests(id) => w.digests(n, id).took
    case RemoteDigest(reference) => w.remote(n, reference).took
  }

  function Spent(w: World, log: seq<Made>): nat {
    if log == [] then 0 else Spent(w, log[..|log| - 1]) + TimeOf(w, |log| - 1, log[|log| - 1].call)
  }

  function Paused(w: World, n: nat): nat {
    if n == 0 then 0 else Paused(w, n - 1) + w.pause(n - 1)
  }

  /** One call after the other, each as long as its answer takes. */
  predicate OneAfterTheOther(w: World, m: Moment) {
    && (forall n: nat | n < |m.log| :: m.log[n].ended == m.log[n].began + TimeOf(w, n, m.log[n].call) && m.log[n].ended <= m.now)
    && (forall n: nat, k: nat | n < k < |m.log| :: m.log[n].ended <= m.log[k].began)
  }

  lemma CallTakesItsTime(w: World, m: Moment, call: Call)
    requires OneAfterTheOther(w, m)
    ensures var end := After(m, call, TimeOf(w, |m.log|, call));
            && OneAfterTheOther(w, end) && end.now == m.now + TimeOf(w, |m.log|, call)
            && Spent(w, end.log) == Spent(w, m.log) + TimeOf(w, |m.log|, call)
  {
    var end := After(m, call, TimeOf(w, |m.log|, call));
    assert end.log[..|m.log|] == m.log;
    hide TimeOf;
    LogGrows(w, m, call);
  }

  lemma LogGrows(w: World, m: Moment, call: Call)
    requires OneAfterTheOther(w, m)
    ensures OneAfterTheOther(w, After(m, call, TimeOf(w, |m.log|, call)))
  {
    hide TimeOf;
    var end := After(m, call, TimeOf(w, |m.log|, call));
    assert forall n: nat | n < |m.log| :: end.log[n] == m.log[n];
  }

  lemma CheckTimeAddsUp(w: World, m: Moment, c: Container, at: nat)
    requires OneAfterTheOther(w, m)
    ensures var end := CheckOf(w, m, c, at).1;
            OneAfterTheOther(w, end) && end.now - m.now == Spent(w, end.log) - Spent(w, m.log)
  {
    hide SplitReference, FindLocalDigest, IsImageId, OneAfterTheOther, Spent, After;
    CallTakesItsTime(w, m, RepoDigests(c.imageId));
    if SplitReference(c.image).Some? {
      var (repo, tag) := SplitReference(c.image).value;
      var inspected := After(m, RepoDigests(c.imageId), w.digests(|m.log|, c.imageId).took);
      CallTakesItsTime(w, inspected, RemoteDigest(repo + ":" + tag));
    }
  }

  lemma {:induction false} ChecksTimeAddsUp(w: World, m: Moment, cs: seq<Container>, deadline: nat)
    requires OneAfterTheOther(w, m)
    ensures var end := ChecksOf(w, m, cs, deadline).1;
            OneAfterTheOther(w, end) && end.now - m.now == Spent(w, end.log) - Spent(w, m.log) + Paused(w, |cs|)
    decreases |cs|
  {
    hide CheckOf, OneAfterTheOther, Spent;
    if cs != [] {
      var n := |cs| - 1;
      ChecksTimeAddsUp(w, m, cs[..n], deadline);
      var reached := ChecksOf(w, m, cs[..n], deadline).1;
      var ready := reached.(now := reached.now + w.pause(n));
      LaterIsAfter(w, reached, ready);
      CheckTimeAddsUp(w, ready, cs[n], w.wall(n + 1));
    }
  }

  lemma LaterIsAfter(w: World, m: Moment, later: Moment)
    requires OneAfterTheOther(w, m) && later.log == m.log && later.now >= m.now
    ensures OneAfterTheOther(w, later)
  {
  }

  /** A run makes one call after the other, each as long as its answer takes, and takes the time
      of its calls and of its pauses. */
  lemma RunTimeAddsUp(w: World, now: nat, budget: nat, included: seq<string>, excluded: seq<string>)
    ensures var (report, end) := RunOf(w, Moment([], now), budget, included, excluded);
            OneAfterTheOther(w, end) && end.now == now + Spent(w, end.log) + Paused(w, |report.containers|)
  {
    hide ChecksOf, Selected, OneAfterTheOther, Spent;
    var m := Moment([], now);
    NothingSpent(w, m);
    CallTakesItsTime(w, m, ListRunning);
    var asked := w.list(0);
    if asked.result.Ok? {
      var listed := After(m, ListRunning, asked.took);
      var cs := Selected(asked.result.value, included, excluded);
      ChecksTimeAddsUp(w, listed, cs, now + budget);
      AsManyChecks(w, listed, cs, now + budget);
    }
  }

  lemma NothingSpent(w: World, m: Moment)
    requires m.log == []
    ensures OneAfterTheOther(w, m) && Spent(w, m.log) == 0
  {
  }

  lemma {:induction false} AsManyChecks(w: World, m: Moment, cs: seq<Container>, deadline: nat)
    ensures |ChecksOf(w, m, cs, deadline).0| == |cs|
    decreases |cs|
  {
    hide NextCheck;
    if cs != [] { AsManyChecks(w, m, cs[..|cs| - 1], deadline); }
  }

  /** A world in which no call and no pause takes longer than this. */
  ghost predicate Prompt(w: World, listing: nat, inspect: nat, resolve: nat, pause: nat) {
    && (forall n :: w.list(n).took <= listing)
    && (forall n, id :: w.digests(n, id).took <= inspect)
    && (forall n, reference :: w.remote(n, reference).took <= resolve)
    && (forall n :: w.pause(n) <= pause)
  }

  function Took(w: World, budget: nat, included: seq<string>, excluded: seq<string>): nat {
    RunOf(w, Moment([], 0), budget, included, excluded).1.now
  }

  ghost predicate AlwaysEndsWithin(budget: nat, margin: nat, listing: nat, inspect: nat, resolve: nat, pause: nat) {
    forall w, included, excluded | Prompt(w, listing, inspect, resolve, pause) ::
      Took(w, budget, included, excluded) < budget + margin
  }

  lemma {:induction false} NoBudgetNoCalls(w: World, m: Moment, cs: seq<Container>)
    requires NoPauses(w)
    ensures ChecksOf(w, m, cs, 0).1.now == m.now
    decreases |cs|
  {
    hide CheckOf;
    if cs != [] { NoBudgetNoCalls(w, m, cs[..|cs| - 1]); }
  }

  lemma PromptRunEndsWithin(w: World, budget: nat, margin: nat, listing: nat, inspect: nat, resolve: nat,
                            included: seq<string>, excluded: seq<string>)
    requires Prompt(w, listing, inspect, resolve, 0) && listing < budget + margin
    requires budget == 0 || inspect + resolve <= margin
    ensures Took(w, budget, included, excluded) < budget + margin
  {
    hide ChecksOf, Selected;
    var asked := w.list(0);
    assert NoPauses(w);
    forall n: nat, id, reference ensures TwoCalls(w, n, id, reference) <= inspect + resolve {
    }
    if asked.result.Ok? {
      var listed := After(Moment([], 0), ListRunning, asked.took);
      var cs := Selected(asked.result.value, included, excluded);
      if budget == 0 {
        NoBudgetNoCalls(w, listed, cs);
      } else {
        ChecksEndInTime(w, listed, cs, budget, inspect + resolve);
      }
    }
  }

  // Three worlds that overstay. In each the same container is listed again and again.

  const SLOW: Container := Container("a", "a", "b")

  function Slows(n: nat): (cs: seq<Container>)
    ensures |cs| == n && forall i | 0 <= i < n :: cs[i] == SLOW
  {
    seq(n, _ => SLOW)
  }

  lemma {:induction false} AllSelected(n: nat)
    ensures Selected(Slows(n), [], []) == Slows(n)
  {
    if n > 0 {
      AllSelected(n - 1);
      assert Slows(n)[..n - 1] == Slows(n - 1);
      assert Slows(n - 1) + [SLOW] == Slows(n);
    }
  }

  ghost predicate Answers(w: World, n: nat) {
    && (forall i: nat :: w.digests(i, "b").result == Ok(["a" + "@" + "x"]))
    && (forall i: nat :: w.remote(i, "a" + ":" + LATEST).result == Ok("x"))
    && w.list(0).result == Ok(Slows(n))
  }

  lemma SlowCheck(w: World, m: Moment, n: nat, at: nat)
    requires Answers(w, n)
    ensures var end := CheckOf(w, m, SLOW, at).1;
            && |end.log| == |m.log| + 2
            && end.now == m.now + w.digests(|m.log|, "b").took + w.remote(|m.log| + 1, "a" + ":" + LATEST).took
  {
    hide SplitReference, SplitOnce, NormalizeRepository;
    SplitOnceFinds("a", '@', "x");
    SplitWithoutTag("a");
    assert EntryMatches(["a" + "@" + "x"][0], "a");
    assert !IsImageId(SLOW);
  }

  lemma RunTakesItsChecks(w: World, budget: nat, n: nat)
    requires Answers(w, n)
    ensures Took(w, budget, [], []) == ChecksOf(w, After(Moment([], 0), ListRunning, w.list(0).took), Slows(n), budget).1.now
  {
    hide ChecksOf, Selected, Slows;
    AllSelected(n);
  }

  /** The daemon takes its time to list nothing. */
  function SlowList(listing: nat): World {
    World((n: nat) => Answer(Ok(Slows(0)), listing),
          (n: nat, id: string) => Answer(Ok(["a" + "@" + "x"]), 0),
          (n: nat, reference: string) => Answer(Ok("x"), 0),
          n => 0, n => 0)
  }

  /** The check itself takes one unit for each of `count` containers. */
  function SlowSelf(count: nat): World {
    World((n: nat) => Answer(Ok(Slows(count)), 0),
          (n: nat, id: string) => Answer(Ok(["a" + "@" + "x"]), 0),
          (n: nat, reference: string) => Answer(Ok("x"), 0),
          n => 1, n => 0)
  }

  /** Quick containers fill the budget but for one unit; the last one takes all its time. */
  function SlowLast(budget: nat, inspect: nat, resolve: nat): World {
    World((n: nat) => Answer(Ok(Slows(budget)), 0),
          (n: nat, id: string) => Answer(Ok(["a" + "@" + "x"]),
             if n + 1 == 2 * budget then inspect else if inspect > 0 then 1 else 0),
          (n: nat, reference: string) => Answer(Ok("x"),
             if n == 2 * budget then resolve else if inspect > 0 then 0 else if resolve > 0 then 1 else 0),
          n => 0, n => 0)
  }

  lemma {:induction false} SelfTakesTime(w: World, m: Moment, count: nat, k: nat, deadline: nat)
    requires Answers(w, count) && (forall n :: w.pause(n) == 1)
    ensures ChecksOf(w, m, Slows(k), deadline).1.now >= m.now + k
  {
    hide CheckOf, Answers;
    if k > 0 {
      assert Slows(k)[..k - 1] == Slows(k - 1);
      SelfTakesTime(w, m, count, k - 1, deadline);
      var reached := ChecksOf(w, m, Slows(k - 1), deadline).1;
      SlowCheck(w, reached.(now := reached.now + 1), count, w.wall(k));
    }
  }

  lemma {:induction false} BudgetFills(budget: nat, inspect: nat, resolve: nat, m: Moment, k: nat)
    requires k < budget && inspect + resolve > 0 && |m.log| == 1 && m.now == 0
    ensures var end := ChecksOf(SlowLast(budget, inspect, resolve), m, Slows(k), budget).1;
            end.now == k && |end.log| == 1 + 2 * k
  {
    hide CheckOf;
    var w := SlowLast(budget, inspect, resolve);
    if k > 0 {
      assert Slows(k)[..k - 1] == Slows(k - 1);
      BudgetFills(budget, inspect, resolve, m, k - 1);
      SlowCheck(w, ChecksOf(w, m, Slows(k - 1), budget).1, budget, w.wall(k));
    }
  }

  lemma LastOneOverstays(budget: nat, inspect: nat, resolve: nat)
    requires budget > 0 && inspect + resolve > 0
    ensures Took(SlowLast(budget, inspect, resolve), budget, [], []) == budget - 1 + inspect + resolve
  {
    hide CheckOf;
    var w := SlowLast(budget, inspect, resolve);
    var m := After(Moment([], 0), ListRunning, 0);
    RunTakesItsChecks(w, budget, budget);
    BudgetFills(budget, inspect, resolve, m, budget - 1);
    assert Slows(budget)[..budget - 1] == Slows(budget - 1);
    SlowCheck(w, ChecksOf(w, m, Slows(budget - 1), budget).1, budget, w.wall(budget));
  }

  lemma SelfOverstays(budget: nat, margin: nat)
    ensures Took(SlowSelf(budget + margin), budget, [], []) >= budget + margin
  {
    hide ChecksOf;
    var w := SlowSelf(budget + margin);
    RunTakesItsChecks(w, budget, budget + margin);
    SelfTakesTime(w, After(Moment([], 0), ListRunning, 0), budget + margin, budget + margin, budget);
  }

  lemma ListOverstays(budget: nat, listing: nat)
    ensures Took(SlowList(listing), budget, [], []) == listing
  {
    RunTakesItsChecks(SlowList(listing), budget, 0);
  }

  /** Telegraf waits the budget and a margin. No run overstays that, however many containers
      there are, exactly when the list comes before then, one container's two calls fit in
      the margin, and the check takes no time of its own between containers. */
  lemma EndsInTimeExactlyWhenOneContainerFits(budget: nat, margin: nat, listing: nat, inspect: nat, resolve: nat, pause: nat)
    ensures AlwaysEndsWithin(budget, margin, listing, inspect, resolve, pause) <==>
            listing < budget + margin && (budget == 0 || inspect + resolve <= margin) && pause == 0
  {
    hide Took;
    if listing >= budget + margin {
      ListOverstays(budget, listing);
      assert Prompt(SlowList(listing), listing, inspect, resolve, pause);
    } else if pause > 0 {
      SelfOverstays(budget, margin);
      assert Prompt(SlowSelf(budget + margin), listing, inspect, resolve, pause);
    } else if budget > 0 && inspect + resolve > margin {
      LastOneOverstays(budget, inspect, resolve);
      assert Prompt(SlowLast(budget, inspect, resolve), listing, inspect, resolve, pause);
    } else {
      forall w, included, excluded | Prompt(w, listing, inspect, resolve, pause)
        ensures Took(w, budget, included, excluded) < budget + margin
      {
        PromptRunEndsWithin(w, budget, margin, listing, inspect, resolve, included, excluded);
      }
    }
  }

  // ---- What the aggregate means -----------------------------------------------------------------

  /** The daemon answered and every selected container came away with a verdict. */
  predicate Succeeded(r: Report) {
    r.daemonOutcome.Ok? && forall i | 0 <= i < |r.containers| :: r.containers[i].outcome.Ok?
  }

  function WithVerdict(cs: seq<ContainerCheck>): nat {
    if cs == [] then 0 else (if cs[0].outcome.Ok? then 1 else 0) + WithVerdict(cs[1..])
  }

  function Verdicts(r: Report): (nat, nat) {
    (WithVerdict(r.containers), |r.containers|)
  }

  lemma {:induction false} AllHaveVerdicts(cs: seq<ContainerCheck>)
    ensures WithVerdict(cs) <= |cs|
    ensures WithVerdict(cs) == |cs| <==> forall i | 0 <= i < |cs| :: cs[i].outcome.Ok?
  {
    if cs != [] {
      AllHaveVerdicts(cs[1..]);
      assert forall i | 0 < i < |cs| :: cs[i] == cs[1..][i - 1];
      assert (forall i | 0 <= i < |cs[1..]| :: cs[1..][i].outcome.Ok?) <==> forall i | 0 < i < |cs| :: cs[i].outcome.Ok?;
    }
  }

  /** A run has succeeded exactly when the daemon answered and the verdicts are as many
      as the containers; one container out of budget is enough to fail it. */
  lemma SucceededExactlyWhenAllJudged(w: World, m: Moment, budget: nat, included: seq<string>, excluded: seq<string>)
    ensures var (report, end) := RunOf(w, m, budget, included, excluded);
            && (Succeeded(report) <==> report.daemonOutcome.Ok? && Verdicts(report).0 == Verdicts(report).1)
            && (report.daemonOutcome.Ok? ==> report.daemonOutcome.value == Verdicts(report).1)
            && ((exists i | 0 <= i < |report.containers| :: report.containers[i].outcome == Err(BudgetExceeded)) ==> !Succeeded(report))
  {
    AllHaveVerdicts(RunOf(w, m, budget, included, excluded).0.containers);
  }
}

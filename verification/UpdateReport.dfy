/** The report of an image-update check as line protocol, and what reading it tells. */
module UpdateReport {
  import opened Wrappers
  import opened ImageUpdates
  import opened LineProtocol

  const MEASUREMENT_CHECK: string := "muninn_image_updates"
  const MEASUREMENT_CONTAINER: string := "muninn_container_image_updates"

  function ReasonWord(r: Reason): string {
    match r
    case DigestPinnedReference => "digest_pinned_reference"
    case ImageIdReference => "image_id_reference"
    case NoRepoDigest => "no_repo_digest"
    case NoMatchingRepoDigest => "no_matching_repo_digest"
    case ImageInspectFailed => "image_inspect_failed"
    case DistributionQueryFailed => "distribution_query_failed"
    case BudgetExceeded => "budget_exceeded"
  }

  function DaemonReasonWord(r: DaemonReason): string {
    match r
    case InvalidEndpoint => "invalid_endpoint"
    case DockerUnreachable => "docker_unreachable"
  }

  // ---- Printing, as the check formats it ------------------------------------------------

  function ContainerText(c: ContainerCheck): string {
    var head := MEASUREMENT_CONTAINER + ",container_name=" + EscapeTag(c.name) + ",image=" + EscapeTag(c.image);
    match c.outcome
    case Err(reason) =>
      head + ",status=error,reason=" + ReasonWord(reason)
      + " check_success=0i,check_timestamp_seconds=" + Decimal(c.at) + "i\n"
    case Ok(available) =>
      head + ",status=ok,reason=none" + " check_success=1i,check_timestamp_seconds=" + Decimal(c.at) + "i\n"
      + head + " update_available=" + Decimal(if available then 1 else 0) + "i\n"
  }

  function DaemonText(outcome: Result<nat, DaemonReason>, at: nat): string {
    match outcome
    case Err(reason) =>
      MEASUREMENT_CHECK + ",status=error,reason=" + DaemonReasonWord(reason)
      + " check_success=0i,check_timestamp_seconds=" + Decimal(at) + "i\n"
    case Ok(count) =>
      MEASUREMENT_CHECK + ",status=ok,reason=none" + " check_success=1i,check_timestamp_seconds=" + Decimal(at)
      + "i,containers_checked=" + Decimal(count) + "i\n"
  }

  method Print(r: Report) returns (out: string)
    ensures out == PrintPoints(PointsOf(r))
  {
    hide PrintPoint, PrintPoints, DaemonText, ContainerText, DaemonPoint, ContainerPoints;
    ghost var first := [DaemonPoint(r.daemonOutcome, r.at)];
    DaemonTextIsAPoint(r.daemonOutcome, r.at);
    OnePointText(first[0]);
    out := DaemonText(r.daemonOutcome, r.at);
    assert first + [] == first;
    if r.daemonOutcome.Ok? {
      assert ContainersPoints(r.containers[..0]) == [];
      for i := 0 to |r.containers|
        invariant out == PrintPoints(first + ContainersPoints(r.containers[..i]))
      {
        ghost var before := ContainersPoints(r.containers[..i]);
        assert r.containers[..i + 1][..i] == r.containers[..i];
        ContainerTextIsPoints(r.containers[i]);
        PrintConcat(first + before, ContainerPoints(r.containers[i]));
        assert first + before + ContainerPoints(r.containers[i]) == first + (before + ContainerPoints(r.containers[i]));
        out := out + ContainerText(r.containers[i]);
      }
      assert r.containers[..|r.containers|] == r.containers;
    }
  }

  // ---- The points of a report --------------------------------------------------------------

  function DaemonPoint(outcome: Result<nat, DaemonReason>, at: nat): Point {
    match outcome
    case Err(reason) =>
      Point(MEASUREMENT_CHECK, [("status", "error"), ("reason", DaemonReasonWord(reason))],
            [("check_success", 0), ("check_timestamp_seconds", at)])
    case Ok(count) =>
      Point(MEASUREMENT_CHECK, [("status", "ok"), ("reason", "none")],
            [("check_success", 1), ("check_timestamp_seconds", at), ("containers_checked", count)])
  }

  function CheckPoint(c: ContainerCheck): Point {
    match c.outcome
    case Err(reason) =>
      Point(MEASUREMENT_CONTAINER,
            [("container_name", c.name), ("image", c.image), ("status", "error"), ("reason", ReasonWord(reason))],
            [("check_success", 0), ("check_timestamp_seconds", c.at)])
    case Ok(_) =>
      Point(MEASUREMENT_CONTAINER,
            [("container_name", c.name), ("image", c.image), ("status", "ok"), ("reason", "none")],
            [("check_success", 1), ("check_timestamp_seconds", c.at)])
  }

  function VerdictPoint(c: ContainerCheck, available: bool): Point {
    Point(MEASUREMENT_CONTAINER, [("container_name", c.name), ("image", c.image)],
          [("update_available", if available then 1 else 0)])
  }

  /** A verdict has a point of its own; a failure has none. */
  function ContainerPoints(c: ContainerCheck): seq<Point> {
    match c.outcome
    case Err(_) => [CheckPoint(c)]
    case Ok(available) => [CheckPoint(c), VerdictPoint(c, available)]
  }

  function ContainersPoints(cs: seq<ContainerCheck>): seq<Point> {
    if cs == [] then [] else ContainersPoints(cs[..|cs| - 1]) + ContainerPoints(cs[|cs| - 1])
  }

  function PointsOf(r: Report): seq<Point> {
    [DaemonPoint(r.daemonOutcome, r.at)] + if r.daemonOutcome.Ok? then ContainersPoints(r.containers) else []
  }

  lemma {:induction false} PrintConcat(a: seq<Point>, b: seq<Point>)
    ensures PrintPoints(a + b) == PrintPoints(a) + PrintPoints(b)
  {
    hide PrintPoint;
    if a == [] {
      assert a + b == b;
    } else {
      assert (a + b)[1..] == a[1..] + b;
      PrintConcat(a[1..], b);
    }
  }

  lemma OnePointText(p: Point)
    ensures PrintPoints([p]) == PrintPoint(p)
  {
    hide PrintPoint;
    assert [p][1..] == [];
  }

  lemma PlainTag(word: string)
    requires Plain(word)
    ensures EscapeTag(word) == word
  {
    EscapeIsOnePass(word);
    PlainNeedsNoEscape(word);
  }

  lemma PlainReason(r: Reason)
    ensures Plain(ReasonWord(r))
  {
    hide Plain;
    PlainBeginnings();
    PlainEndings();
    match r {
      case DigestPinnedReference =>
        PlainJoin("digest_pinned", "_reference");
        assert "digest_pinned" + "_reference" == "digest_pinned_reference";
      case ImageIdReference =>
        PlainJoin("image_id", "_reference");
        assert "image_id" + "_reference" == "image_id_reference";
      case NoRepoDigest =>
        PlainJoin("no_repo", "_digest");
        assert "no_repo" + "_digest" == "no_repo_digest";
      case NoMatchingRepoDigest =>
        PlainJoin("no_matching", "_repo_digest");
        assert "no_matching" + "_repo_digest" == "no_matching_repo_digest";
      case ImageInspectFailed =>
        PlainJoin("image_inspect", "_failed");
        assert "image_inspect" + "_failed" == "image_inspect_failed";
      case DistributionQueryFailed =>
        PlainJoin("distribution", "_query_failed");
        assert "distribution" + "_query_failed" == "distribution_query_failed";
      case BudgetExceeded =>
        PlainJoin("budget", "_exceeded");
        assert "budget" + "_exceeded" == "budget_exceeded";
    }
  }

  lemma PlainBeginnings()
    ensures Plain("digest_pinned") && Plain("image_id") && Plain("no_repo") && Plain("no_matching")
    ensures Plain("image_inspect") && Plain("distribution") && Plain("budget")
  {
  }

  lemma PlainEndings()
    ensures Plain("_reference") && Plain("_digest") && Plain("_repo_digest") && Plain("_failed")
    ensures Plain("_query_failed") && Plain("_exceeded")
  {
  }

  lemma PlainJoin(a: string, b: string)
    requires Plain(a) && Plain(b)
    ensures Plain(a + b)
  {
  }

  lemma PlainDaemonReason(r: DaemonReason)
    ensures Plain(DaemonReasonWord(r))
  {
  }

  lemma PlainStatus()
    ensures Plain("ok") && Plain("error") && Plain("none")
  {
  }

  function TagText(key: string, value: string): string {
    "," + key + "=" + EscapeTag(value)
  }

  lemma TagsText(tags: seq<(string, string)>)
    requires tags != []
    ensures PrintTags(tags) == TagText(tags[0].0, tags[0].1) + PrintTags(tags[1..])
  {
    hide EscapeTag;
  }

  lemma TwoTags(a: (string, string), b: (string, string))
    ensures PrintTags([a, b]) == TagText(a.0, a.1) + TagText(b.0, b.1)
  {
    hide TagText;
    TagsText([a, b]);
    TagsText([b]);
    assert [a, b][1..] == [b] && [b][1..] == [];
  }

  lemma FourTags(a: (string, string), b: (string, string), c: (string, string), d: (string, string))
    ensures PrintTags([a, b, c, d]) == TagText(a.0, a.1) + TagText(b.0, b.1) + (TagText(c.0, c.1) + TagText(d.0, d.1))
  {
    hide TagText, PrintTags;
    TagsText([a, b, c, d]);
    TagsText([b, c, d]);
    assert [a, b, c, d][1..] == [b, c, d] && [b, c, d][1..] == [c, d];
    TwoTags(c, d);
  }

  lemma StatusTags(status: string, reason: string)
    requires Plain(status) && Plain(reason)
    ensures TagText("status", status) + TagText("reason", reason) == ",status=" + status + ",reason=" + reason
  {
    hide EscapeTag;
    PlainTag(status);
    PlainTag(reason);
  }

  lemma SmallDecimal(n: nat)
    requires n < 10
    ensures Decimal(n) == [Digit(n)]
  {
  }

  /** What follows the tags of a check line. */
  function Tail(success: string, at: nat): string {
    " check_success=" + success + "i,check_timestamp_seconds=" + Decimal(at) + "i"
  }

  lemma TimedFields(success: nat, at: nat)
    requires success < 10
    ensures " " + PrintFields([("check_success", success), ("check_timestamp_seconds", at)]) == Tail([Digit(success)], at)
  {
    SmallDecimal(success);
    TwoFields(("check_success", success), ("check_timestamp_seconds", at));
    SpaceThenSuccess([Digit(success)], Decimal(at));
    hide Decimal, PrintFields;
  }

  /** Where the fields' own text meets the format's. */
  lemma SpaceThenSuccess(success: string, at: string)
    ensures " " + ("check_success" + "=" + success + "i" + "," + ("check_timestamp_seconds" + "=" + at + "i"))
            == " check_success=" + success + "i,check_timestamp_seconds=" + at + "i"
  {
    assert " " + "check_success" + "=" == " check_success=";
    assert "i" + "," + "check_timestamp_seconds" + "=" == "i,check_timestamp_seconds=";
    var whole := " " + ("check_success" + "=" + success + "i" + "," + ("check_timestamp_seconds" + "=" + at + "i"));
    assert whole == (" " + "check_success" + "=") + success + ("i" + "," + "check_timestamp_seconds" + "=") + at + "i" by {
      Pieces(" ", "check_success", "=", success, "i", ",", "check_timestamp_seconds", "=", at, "i");
    }
  }

  lemma Pieces(a: string, b: string, c: string, d: string, e: string, f: string, g: string, h: string, i: string, j: string)
    ensures a + (b + c + d + e + f + (g + h + i + j)) == (a + b + c) + d + (e + f + g + h) + i + j
  {
  }

  lemma TwoFields(a: (string, nat), b: (string, nat))
    ensures PrintFields([a, b]) == PrintField(a) + "," + PrintField(b)
  {
    hide PrintField;
    assert [a, b][1..] == [b];
  }

  lemma CountFields(at: nat, count: nat)
    ensures " " + PrintFields([("check_success", 1), ("check_timestamp_seconds", at), ("containers_checked", count)])
            == Tail([Digit(1)], at) + ",containers_checked=" + Decimal(count) + "i"
  {
    var a, b, c := ("check_success", 1), ("check_timestamp_seconds", at), ("containers_checked", count);
    ThreeFields(a, b, c);
    TimedFields(1, at);
    TwoFields(a, b);
    CountText(Decimal(count));
    hide Decimal, PrintFields, PrintField;
  }

  lemma ThreeFields(a: (string, nat), b: (string, nat), c: (string, nat))
    ensures PrintFields([a, b, c]) == PrintFields([a, b]) + ("," + PrintField(c))
  {
    hide PrintField;
    assert [a, b, c][1..] == [b, c] && [a, b][1..] == [b];
    TwoFields(b, c);
    TwoFields(a, b);
  }

  lemma CountText(count: string)
    ensures "," + ("containers_checked" + "=" + count + "i") == ",containers_checked=" + count + "i"
  {
    assert "," + "containers_checked" + "=" == ",containers_checked=";
  }

  lemma Regroup(m: string, a: string, b: string, f: string)
    ensures m + (a + b) + " " + f + "\n" == m + a + b + (" " + f) + "\n"
  {
  }

  lemma Untagged(m: string, b: string, f: string)
    ensures m + b + " " + f + "\n" == m + b + (" " + f) + "\n"
  {
  }

  lemma DaemonTextIsAPoint(outcome: Result<nat, DaemonReason>, at: nat)
    ensures DaemonText(outcome, at) == PrintPoint(DaemonPoint(outcome, at))
  {
    PlainStatus();
    hide Decimal, EscapeTag, PrintFields, PrintTags, TagText, Plain;
    var p := DaemonPoint(outcome, at);
    Untagged(p.measurement, PrintTags(p.tags), PrintFields(p.fields));
    match outcome {
      case Err(reason) =>
        PlainDaemonReason(reason);
        TwoTags(("status", "error"), ("reason", DaemonReasonWord(reason)));
        StatusTags("error", DaemonReasonWord(reason));
        TimedFields(0, at);
        FailedDaemonText(DaemonReasonWord(reason), at);
      case Ok(count) =>
        TwoTags(("status", "ok"), ("reason", "none"));
        StatusTags("ok", "none");
        CountFields(at, count);
        CountedDaemonText(at, count);
    }
  }

  lemma FailedDaemonText(word: string, at: nat)
    ensures MEASUREMENT_CHECK + (",status=" + "error" + ",reason=" + word) + Tail([Digit(0)], at) + "\n" ==
            MEASUREMENT_CHECK + ",status=error,reason=" + word + " check_success=0i,check_timestamp_seconds=" + Decimal(at) + "i\n"
  {
    hide Decimal;
    ErrorText();
  }

  lemma CountedDaemonText(at: nat, count: nat)
    ensures MEASUREMENT_CHECK + (",status=" + "ok" + ",reason=" + "none")
            + (Tail([Digit(1)], at) + ",containers_checked=" + Decimal(count) + "i") + "\n" ==
            MEASUREMENT_CHECK + ",status=ok,reason=none" + " check_success=1i,check_timestamp_seconds=" + Decimal(at)
            + "i,containers_checked=" + Decimal(count) + "i\n"
  {
    hide Decimal;
    OkText();
    assert "i" + ",containers_checked=" == "i,containers_checked=";
    assert "i" + "\n" == "i\n";
  }

  lemma ErrorText()
    ensures ",status=" + "error" + ",reason=" == ",status=error,reason="
    ensures " check_success=" + [Digit(0)] + "i,check_timestamp_seconds=" == " check_success=0i,check_timestamp_seconds="
  {
  }

  lemma OkText()
    ensures ",status=" + "ok" + ",reason=" + "none" == ",status=ok,reason=none"
    ensures " check_success=" + [Digit(1)] + "i,check_timestamp_seconds=" == " check_success=1i,check_timestamp_seconds="
  {
  }

  function Head(c: ContainerCheck): string {
    MEASUREMENT_CONTAINER + ",container_name=" + EscapeTag(c.name) + ",image=" + EscapeTag(c.image)
  }

  lemma HeadTags(c: ContainerCheck)
    ensures MEASUREMENT_CONTAINER + (TagText("container_name", c.name) + TagText("image", c.image)) == Head(c)
  {
    hide EscapeTag;
  }

  lemma CheckPointText(c: ContainerCheck)
    ensures PrintPoint(CheckPoint(c)) ==
            match c.outcome
            case Err(reason) => Head(c) + ",status=error,reason=" + ReasonWord(reason)
                                + " check_success=0i,check_timestamp_seconds=" + Decimal(c.at) + "i\n"
            case Ok(_) => Head(c) + ",status=ok,reason=none" + " check_success=1i,check_timestamp_seconds=" + Decimal(c.at) + "i\n"
  {
    PlainStatus();
    HeadTags(c);
    hide Decimal, EscapeTag, PrintFields, PrintTags, TagText, Plain, Head;
    var own := TagText("container_name", c.name) + TagText("image", c.image);
    match c.outcome {
      case Err(reason) =>
        var word := ReasonWord(reason);
        PlainReason(reason);
        FourTags(("container_name", c.name), ("image", c.image), ("status", "error"), ("reason", word));
        StatusTags("error", word);
        TimedFields(0, c.at);
        Regroup(MEASUREMENT_CONTAINER, own, TagText("status", "error") + TagText("reason", word), PrintFields(CheckPoint(c).fields));
        FailedText(Head(c), word, c.at);
      case Ok(_) =>
        FourTags(("container_name", c.name), ("image", c.image), ("status", "ok"), ("reason", "none"));
        StatusTags("ok", "none");
        TimedFields(1, c.at);
        Regroup(MEASUREMENT_CONTAINER, own, TagText("status", "ok") + TagText("reason", "none"), PrintFields(CheckPoint(c).fields));
        JudgedText(Head(c), c.at);
    }
  }

  lemma FailedText(head: string, word: string, at: nat)
    ensures head + (",status=" + "error" + ",reason=" + word) + Tail([Digit(0)], at) + "\n" ==
            head + ",status=error,reason=" + word + " check_success=0i,check_timestamp_seconds=" + Decimal(at) + "i\n"
  {
    hide Decimal;
    ErrorText();
  }

  lemma JudgedText(head: string, at: nat)
    ensures head + (",status=" + "ok" + ",reason=" + "none") + Tail([Digit(1)], at) + "\n" ==
            head + ",status=ok,reason=none" + " check_success=1i,check_timestamp_seconds=" + Decimal(at) + "i\n"
  {
    hide Decimal;
    OkText();
  }

  lemma VerdictPointText(c: ContainerCheck, available: bool)
    ensures PrintPoint(VerdictPoint(c, available)) ==
            Head(c) + " update_available=" + Decimal(if available then 1 else 0) + "i\n"
  {
    HeadTags(c);
    TwoTags(("container_name", c.name), ("image", c.image));
    hide Decimal, EscapeTag, PrintTags, TagText, Head;
  }

  lemma ContainerTextIsPoints(c: ContainerCheck)
    ensures ContainerText(c) == PrintPoints(ContainerPoints(c))
  {
    CheckPointText(c);
    OnePointText(CheckPoint(c));
    if c.outcome.Ok? {
      VerdictPointText(c, c.outcome.value);
      OnePointText(VerdictPoint(c, c.outcome.value));
      PrintConcat([CheckPoint(c)], [VerdictPoint(c, c.outcome.value)]);
    }
    hide Decimal, EscapeTag, PrintPoint, PrintPoints, CheckPoint, VerdictPoint;
  }

  // ---- Reading a report ------------------------------------------------------------------------

  datatype Seen = Seen(name: string, image: string, outcome: Result<bool, Reason>, at: nat)

  datatype SeenReport = SeenReport(daemon: Result<nat, DaemonReason>, at: nat, containers: seq<Seen>)

  function Lookup<V>(xs: seq<(string, V)>, key: string): Option<V> {
    if xs == [] then None else if xs[0].0 == key then Some(xs[0].1) else Lookup(xs[1..], key)
  }

  function ReadReason(word: string): Option<Reason> {
    if word == "digest_pinned_reference" then Some(DigestPinnedReference)
    else if word == "image_id_reference" then Some(ImageIdReference)
    else if word == "no_repo_digest" then Some(NoRepoDigest)
    else if word == "no_matching_repo_digest" then Some(NoMatchingRepoDigest)
    else if word == "image_inspect_failed" then Some(ImageInspectFailed)
    else if word == "distribution_query_failed" then Some(DistributionQueryFailed)
    else if word == "budget_exceeded" then Some(BudgetExceeded)
    else None
  }

  function ReadDaemonReason(word: string): Option<DaemonReason> {
    if word == "invalid_endpoint" then Some(InvalidEndpoint)
    else if word == "docker_unreachable" then Some(DockerUnreachable)
    else None
  }

  /** Status, reason and success of a check agree. */
  predicate IsFailure(p: Point) {
    Lookup(p.tags, "status") == Some("error") && Lookup(p.tags, "reason").Some? && Lookup(p.fields, "check_success") == Some(0)
  }

  predicate IsSuccess(p: Point) {
    && Lookup(p.tags, "status") == Some("ok") && Lookup(p.tags, "reason") == Some("none")
    && Lookup(p.fields, "check_success") == Some(1)
  }

  predicate IsVerdict(p: Point, name: Option<string>, image: Option<string>) {
    && p.measurement == "muninn_container_image_updates"
    && Lookup(p.tags, "container_name") == name && Lookup(p.tags, "image") == image
    && Lookup(p.fields, "update_available") in {Some(0), Some(1)}
  }

  /** The first container among the points, and how many points it took. */
  function ReadContainer(ps: seq<Point>): Option<(Seen, nat)>
    requires ps != []
  {
    var name, image := Lookup(ps[0].tags, "container_name"), Lookup(ps[0].tags, "image");
    var at := Lookup(ps[0].fields, "check_timestamp_seconds");
    if ps[0].measurement != "muninn_container_image_updates" || name.None? || image.None? || at.None? then None
    else if IsFailure(ps[0]) then
      var reason := ReadReason(Lookup(ps[0].tags, "reason").value);
      if reason.None? then None else Some((Seen(name.value, image.value, Err(reason.value), at.value), 1))
    else if IsSuccess(ps[0]) && |ps| > 1 && IsVerdict(ps[1], name, image) then
      Some((Seen(name.value, image.value, Ok(Lookup(ps[1].fields, "update_available") == Some(1)), at.value), 2))
    else None
  }

  function ReadContainers(ps: seq<Point>): Option<seq<Seen>>
    decreases |ps|
  {
    if ps == [] then Some([])
    else match ReadContainer(ps)
      case None => None
      case Some((seen, taken)) =>
        if taken == 0 || taken > |ps| then None
        else match ReadContainers(ps[taken..]) case None => None case Some(rest) => Some([seen] + rest)
  }

  function ReadReportPoints(ps: seq<Point>): Option<SeenReport> {
    if ps == [] || ps[0].measurement != "muninn_image_updates" then None
    else
      var at, count := Lookup(ps[0].fields, "check_timestamp_seconds"), Lookup(ps[0].fields, "containers_checked");
      if at.None? then None
      else if IsFailure(ps[0]) then
        var reason := ReadDaemonReason(Lookup(ps[0].tags, "reason").value);
        if |ps| != 1 || reason.None? then None else Some(SeenReport(Err(reason.value), at.value, []))
      else if IsSuccess(ps[0]) && count.Some? then
        match ReadContainers(ps[1..])
        case None => None
        case Some(seen) => Some(SeenReport(Ok(count.value), at.value, seen))
      else None
  }

  function ReadReport(text: string): Option<SeenReport> {
    match ReadPoints(text) case None => None case Some(ps) => ReadReportPoints(ps)
  }

  // ---- Reading undoes printing --------------------------------------------------------------------

  function SeenOf(c: ContainerCheck): Seen {
    Seen(Clean(c.name), Clean(c.image), c.outcome, c.at)
  }

  function SeenAll(cs: seq<ContainerCheck>): (seen: seq<Seen>)
    ensures |seen| == |cs| && forall i | 0 <= i < |cs| :: seen[i] == SeenOf(cs[i])
  {
    if cs == [] then [] else [SeenOf(cs[0])] + SeenAll(cs[1..])
  }

  function WhatIsSeen(r: Report): SeenReport {
    SeenReport(r.daemonOutcome, r.at, if r.daemonOutcome.Ok? then SeenAll(r.containers) else [])
  }

  lemma ReasonReadsBack(r: Reason)
    ensures ReadReason(ReasonWord(r)) == Some(r)
  {
    assert "no_matching_repo_digest"[0] != "digest_pinned_reference"[0];
  }

  lemma DaemonReasonReadsBack(r: DaemonReason)
    ensures ReadDaemonReason(DaemonReasonWord(r)) == Some(r)
  {
  }

  lemma {:induction false} CleanConcat(a: seq<Point>, b: seq<Point>)
    ensures CleanPoints(a + b) == CleanPoints(a) + CleanPoints(b)
  {
    hide CleanPoint;
    if a == [] {
      assert a + b == b;
    } else {
      assert (a + b)[1..] == a[1..] + b;
      CleanConcat(a[1..], b);
    }
  }

  /** The points of the containers from the first on. */
  function FromFirst(cs: seq<ContainerCheck>): seq<Point> {
    if cs == [] then [] else ContainerPoints(cs[0]) + FromFirst(cs[1..])
  }

  lemma {:induction false} FromFirstConcat(a: seq<ContainerCheck>, b: seq<ContainerCheck>)
    ensures FromFirst(a + b) == FromFirst(a) + FromFirst(b)
  {
    hide ContainerPoints;
    if a == [] {
      assert a + b == b;
    } else {
      assert (a + b)[1..] == a[1..] + b;
      FromFirstConcat(a[1..], b);
    }
  }

  lemma {:induction false} FromFirstIsTheSame(cs: seq<ContainerCheck>)
    ensures ContainersPoints(cs) == FromFirst(cs)
  {
    hide ContainerPoints;
    if cs != [] {
      var front, last := cs[..|cs| - 1], [cs[|cs| - 1]];
      FromFirstIsTheSame(front);
      FromFirstConcat(front, last);
      assert cs == front + last;
      assert last[1..] == [] && FromFirst([]) == [];
      assert FromFirst(last) == ContainerPoints(cs[|cs| - 1]) + [];
    }
  }

  lemma OwnTagsClean(name: string, image: string, rest: seq<(string, string)>)
    ensures CleanTags([("container_name", name), ("image", image)] + rest)
            == [("container_name", Clean(name)), ("image", Clean(image))] + CleanTags(rest)
  {
    hide Clean;
    var tags := [("container_name", name), ("image", image)] + rest;
    assert tags[1..] == [("image", image)] + rest && tags[1..][1..] == rest;
  }

  lemma StatusTagsClean(status: string, reason: string)
    requires Plain(status) && Plain(reason)
    ensures CleanTags([("status", status), ("reason", reason)]) == [("status", status), ("reason", reason)]
  {
    hide Clean;
    PlainNeedsNoEscape(status);
    PlainNeedsNoEscape(reason);
    assert [("status", status), ("reason", reason)][1..] == [("reason", reason)];
    assert [("reason", reason)][1..] == [];
    assert CleanTags([("reason", reason)]) == [("reason", reason)] + CleanTags([]) == [("reason", reason)];
  }

  /** A check line as it is read: the names with control characters replaced. */
  lemma CleanCheckPoint(c: ContainerCheck)
    ensures CleanPoint(CheckPoint(c)) == CheckPoint(c.(name := Clean(c.name), image := Clean(c.image)))
  {
    hide Clean, CleanTags;
    PlainStatus();
    var own := [("container_name", c.name), ("image", c.image)];
    var word := match c.outcome case Err(reason) => ReasonWord(reason) case Ok(_) => "none";
    var status := if c.outcome.Ok? then "ok" else "error";
    if c.outcome.Err? { PlainReason(c.outcome.error); }
    OwnTagsClean(c.name, c.image, [("status", status), ("reason", word)]);
    StatusTagsClean(status, word);
    assert own + [("status", status), ("reason", word)] == CheckPoint(c).tags;
  }

  lemma CleanVerdictPoint(c: ContainerCheck, available: bool)
    ensures CleanPoint(VerdictPoint(c, available)) == VerdictPoint(c.(name := Clean(c.name), image := Clean(c.image)), available)
  {
    hide Clean, CleanTags;
    OwnTagsClean(c.name, c.image, []);
    assert CleanTags([]) == [] by { NoTagsClean(); }
    assert [("container_name", c.name), ("image", c.image)] + [] == VerdictPoint(c, available).tags;
  }

  lemma NoTagsClean()
    ensures CleanTags([]) == []
  {
  }

  lemma ContainerPointsClean(c: ContainerCheck)
    ensures CleanPoints(ContainerPoints(c)) == ContainerPoints(c.(name := Clean(c.name), image := Clean(c.image)))
  {
    hide Clean, CleanPoint, CheckPoint, VerdictPoint;
    CleanCheckPoint(c);
    match c.outcome {
      case Err(_) => assert [CheckPoint(c)][1..] == [];
      case Ok(available) =>
        CleanVerdictPoint(c, available);
        assert [CheckPoint(c), VerdictPoint(c, available)][1..] == [VerdictPoint(c, available)];
        assert [VerdictPoint(c, available)][1..] == [];
        assert CleanPoints([VerdictPoint(c, available)]) == [CleanPoint(VerdictPoint(c, available))] + CleanPoints([]);
    }
  }

  lemma LookupHere<V>(key: string, value: V, rest: seq<(string, V)>)
    ensures Lookup([(key, value)] + rest, key) == Some(value)
  {
  }

  lemma LookupThere<V>(other: string, value: V, rest: seq<(string, V)>, key: string)
    requires other != key
    ensures Lookup([(other, value)] + rest, key) == Lookup(rest, key)
  {
    assert ([(other, value)] + rest)[1..] == rest;
  }

  lemma TheirKeysDiffer()
    ensures "container_name" != "image" && "container_name" != "status" && "container_name" != "reason"
    ensures "image" != "status" && "image" != "reason" && "status" != "reason"
    ensures "check_success" != "check_timestamp_seconds" && "check_success" != "containers_checked"
    ensures "check_timestamp_seconds" != "containers_checked"
    ensures "ok" != "error"
  {
    assert |"container_name"| == 14 && |"image"| == 5 && |"status"| == 6 && |"reason"| == 6;
    assert "status"[0] == 's' && "reason"[0] == 'r';
  }

  lemma LookupOwn(name: string, image: string, rest: seq<(string, string)>)
    ensures var tags := [("container_name", name), ("image", image)] + rest;
            && Lookup(tags, "container_name") == Some(name) && Lookup(tags, "image") == Some(image)
            && Lookup(tags, "status") == Lookup(rest, "status") && Lookup(tags, "reason") == Lookup(rest, "reason")
  {
    hide Lookup;
    TheirKeysDiffer();
    var second := [("image", image)] + rest;
    assert [("container_name", name), ("image", image)] + rest == [("container_name", name)] + second;
    LookupHere("container_name", name, second);
    LookupThere("container_name", name, second, "image");
    LookupHere("image", image, rest);
    LookupThere("container_name", name, second, "status");
    LookupThere("image", image, rest, "status");
    LookupThere("container_name", name, second, "reason");
    LookupThere("image", image, rest, "reason");
  }

  lemma LookupStatus(status: string, reason: string)
    ensures var tags := [("status", status), ("reason", reason)];
            Lookup(tags, "status") == Some(status) && Lookup(tags, "reason") == Some(reason)
  {
    hide Lookup;
    TheirKeysDiffer();
    assert [("status", status), ("reason", reason)] == [("status", status)] + [("reason", reason)];
    LookupHere("status", status, [("reason", reason)]);
    LookupThere("status", status, [("reason", reason)], "reason");
    assert [("reason", reason)] == [("reason", reason)] + [];
    LookupHere("reason", reason, []);
  }

  lemma LookupTimed(success: nat, at: nat, rest: seq<(string, nat)>)
    ensures var fields := [("check_success", success), ("check_timestamp_seconds", at)] + rest;
            && Lookup(fields, "check_success") == Some(success)
            && Lookup(fields, "check_timestamp_seconds") == Some(at)
            && Lookup(fields, "containers_checked") == Lookup(rest, "containers_checked")
  {
    hide Lookup;
    TheirKeysDiffer();
    var second := [("check_timestamp_seconds", at)] + rest;
    assert [("check_success", success), ("check_timestamp_seconds", at)] + rest == [("check_success", success)] + second;
    LookupHere("check_success", success, second);
    LookupThere("check_success", success, second, "check_timestamp_seconds");
    LookupHere("check_timestamp_seconds", at, rest);
    LookupThere("check_success", success, second, "containers_checked");
    LookupThere("check_timestamp_seconds", at, rest, "containers_checked");
  }

  lemma CheckPointReadsBack(c: ContainerCheck)
    ensures var p := CheckPoint(c);
            && p.measurement == MEASUREMENT_CONTAINER
            && Lookup(p.tags, "container_name") == Some(c.name) && Lookup(p.tags, "image") == Some(c.image)
            && (if c.outcome.Ok? then IsSuccess(p) && !IsFailure(p) else IsFailure(p))
            && Lookup(p.fields, "check_timestamp_seconds") == Some(c.at)
            && (c.outcome.Err? ==> Lookup(p.tags, "reason") == Some(ReasonWord(c.outcome.error)))
  {
    hide Lookup, ReasonWord;
    TheirKeysDiffer();
    var p := CheckPoint(c);
    var word := match c.outcome case Err(reason) => ReasonWord(reason) case Ok(_) => "none";
    var status := if c.outcome.Ok? then "ok" else "error";
    var success := if c.outcome.Ok? then 1 else 0;
    LookupOwn(c.name, c.image, [("status", status), ("reason", word)]);
    LookupStatus(status, word);
    LookupTimed(success, c.at, []);
    assert p.tags == [("container_name", c.name), ("image", c.image)] + [("status", status), ("reason", word)];
    assert p.fields == [("check_success", success), ("check_timestamp_seconds", c.at)] + [];
  }

  lemma VerdictPointReadsBack(c: ContainerCheck, available: bool)
    ensures var p := VerdictPoint(c, available);
            && IsVerdict(p, Some(c.name), Some(c.image))
            && Lookup(p.fields, "update_available") == Some(if available then 1 else 0)
  {
    hide Lookup;
    var p := VerdictPoint(c, available);
    LookupOwn(c.name, c.image, []);
    assert p.tags == [("container_name", c.name), ("image", c.image)] + [];
    var value: nat := if available then 1 else 0;
    LookupHere("update_available", value, []);
    assert p.fields == [("update_available", value)] + [];
  }

  /** The points of a container are read as its check, whatever follows. */
  lemma ContainerReadsBack(c: ContainerCheck, rest: seq<Point>)
    ensures ReadContainer(ContainerPoints(c) + rest) == Some((Seen(c.name, c.image, c.outcome, c.at), |ContainerPoints(c)|))
  {
    hide Lookup, ReadReason, ReasonWord, CheckPoint, VerdictPoint, IsSuccess, IsFailure, IsVerdict;
    TheirKeysDiffer();
    var ps := ContainerPoints(c) + rest;
    assert ps[0] == CheckPoint(c);
    CheckPointReadsBack(c);
    match c.outcome {
      case Err(reason) => ReasonReadsBack(reason);
      case Ok(available) =>
        assert ps[1] == VerdictPoint(c, available);
        VerdictPointReadsBack(c, available);
    }
  }

  lemma {:induction false} ContainersReadBack(cs: seq<ContainerCheck>)
    ensures ReadContainers(CleanPoints(FromFirst(cs))) == Some(SeenAll(cs))
  {
    hide ReadContainer, ContainerPoints, CleanPoints, Clean;
    if cs == [] {
      assert CleanPoints([]) == [] by { NoPointsClean(); }
    } else {
      var c := cs[0].(name := Clean(cs[0].name), image := Clean(cs[0].image));
      var rest := CleanPoints(FromFirst(cs[1..]));
      CleanConcat(ContainerPoints(cs[0]), FromFirst(cs[1..]));
      ContainerPointsClean(cs[0]);
      ContainerReadsBack(c, rest);
      ContainersReadBack(cs[1..]);
      HasPoints(c);
      assert (ContainerPoints(c) + rest)[|ContainerPoints(c)|..] == rest;
    }
  }

  lemma NoPointsClean()
    ensures CleanPoints([]) == []
  {
  }

  lemma HasPoints(c: ContainerCheck)
    ensures ContainerPoints(c) != []
  {
  }

  lemma PointsArePrintable(r: Report)
    ensures forall i | 0 <= i < |PointsOf(r)| :: Printable(PointsOf(r)[i])
  {
    hide Printable, DaemonPoint, ContainerPoints;
    DaemonPointIsPrintable(r.daemonOutcome, r.at);
    FromFirstIsTheSame(r.containers);
    ContainersArePrintable(r.containers);
  }

  lemma PlainKeys()
    ensures Plain("container_name") && Plain("image") && Plain("status") && Plain("reason")
    ensures Plain("check_success") && Plain("containers_checked") && Plain("update_available")
  {
    hide Plain;
    PlainTagKeys();
    PlainFieldKeys();
  }

  lemma PlainTagKeys()
    ensures Plain("container_name") && Plain("image") && Plain("status") && Plain("reason")
  {
  }

  lemma PlainFieldKeys()
    ensures Plain("check_success") && Plain("containers_checked") && Plain("update_available")
  {
  }

  lemma PlainMeasurements()
    ensures Plain(MEASUREMENT_CHECK) && Plain(MEASUREMENT_CONTAINER) && Plain("check_timestamp_seconds")
  {
    hide Plain;
    PlainParts();
    PlainJoin("muninn_", "image_updates");
    PlainJoin("muninn_container_", "image_updates");
    PlainJoin("check_timestamp", "_seconds");
    assert "muninn_" + "image_updates" == MEASUREMENT_CHECK;
    assert "muninn_container_" + "image_updates" == MEASUREMENT_CONTAINER;
    assert "check_timestamp" + "_seconds" == "check_timestamp_seconds";
  }

  lemma PlainParts()
    ensures Plain("muninn_") && Plain("image_updates") && Plain("muninn_container_")
    ensures Plain("check_timestamp") && Plain("_seconds")
  {
  }

  lemma DaemonPointIsPrintable(outcome: Result<nat, DaemonReason>, at: nat)
    ensures Printable(DaemonPoint(outcome, at))
  {
    hide Plain;
    PlainKeys();
    PlainMeasurements();
  }

  lemma ContainerIsPrintable(c: ContainerCheck)
    ensures forall i | 0 <= i < |ContainerPoints(c)| :: Printable(ContainerPoints(c)[i])
  {
    hide Plain;
    PlainKeys();
    PlainMeasurements();
  }

  lemma {:induction false} ContainersArePrintable(cs: seq<ContainerCheck>)
    ensures forall i | 0 <= i < |FromFirst(cs)| :: Printable(FromFirst(cs)[i])
  {
    hide Printable, ContainerPoints;
    if cs != [] {
      ContainerIsPrintable(cs[0]);
      ContainersArePrintable(cs[1..]);
    }
  }

  lemma CleanDaemonPoint(outcome: Result<nat, DaemonReason>, at: nat)
    ensures CleanPoint(DaemonPoint(outcome, at)) == DaemonPoint(outcome, at)
  {
    hide CleanTags, Plain;
    PlainStatus();
    match outcome {
      case Err(reason) =>
        PlainDaemonReason(reason);
        StatusTagsClean("error", DaemonReasonWord(reason));
      case Ok(_) => StatusTagsClean("ok", "none");
    }
  }

  lemma DaemonLineReadsBack(outcome: Result<nat, DaemonReason>, at: nat)
    ensures var p := DaemonPoint(outcome, at);
            && p.measurement == MEASUREMENT_CHECK
            && (if outcome.Ok? then IsSuccess(p) && !IsFailure(p) else IsFailure(p))
            && Lookup(p.fields, "check_timestamp_seconds") == Some(at)
            && (outcome.Err? ==> Lookup(p.tags, "reason") == Some(DaemonReasonWord(outcome.error)))
            && (outcome.Ok? ==> Lookup(p.fields, "containers_checked") == Some(outcome.value))
  {
    hide Lookup;
    TheirKeysDiffer();
    var p := DaemonPoint(outcome, at);
    match outcome {
      case Err(reason) =>
        LookupStatus("error", DaemonReasonWord(reason));
        LookupTimed(0, at, []);
        assert p.fields == [("check_success", 0), ("check_timestamp_seconds", at)] + [];
      case Ok(count) =>
        LookupStatus("ok", "none");
        LookupTimed(1, at, [("containers_checked", count)]);
        assert p.fields == [("check_success", 1), ("check_timestamp_seconds", at)] + [("containers_checked", count)];
        LookupHere("containers_checked", count, []);
        assert [("containers_checked", count)] == [("containers_checked", count)] + [];
    }
  }

  lemma ReportPointsReadBack(r: Report, rest: seq<Point>)
    requires if r.daemonOutcome.Ok? then ReadContainers(rest) == Some(SeenAll(r.containers)) else rest == []
    ensures ReadReportPoints([DaemonPoint(r.daemonOutcome, r.at)] + rest) == Some(WhatIsSeen(r))
  {
    hide Lookup, DaemonPoint, ReadContainers, ReadDaemonReason, DaemonReasonWord, SeenAll, IsSuccess, IsFailure;
    TheirKeysDiffer();
    DaemonLineReadsBack(r.daemonOutcome, r.at);
    if r.daemonOutcome.Err? { DaemonReasonReadsBack(r.daemonOutcome.error); }
    assert ([DaemonPoint(r.daemonOutcome, r.at)] + rest)[1..] == rest;
  }

  /** Reading the printed report gives the daemon's outcome, the count, and every
      container's name, image and outcome in order: whatever the names are, with their
      control characters replaced. */
  lemma ReportReadsBack(r: Report)
    ensures ReadReport(PrintPoints(PointsOf(r))) == Some(WhatIsSeen(r))
  {
    hide DaemonPoint, CleanPoint, CleanPoints, PrintPoints, ReadContainers, ReadPoints, ReadReportPoints, WhatIsSeen,
         FromFirst, Printable, SeenAll;
    var first := DaemonPoint(r.daemonOutcome, r.at);
    var rest := if r.daemonOutcome.Ok? then FromFirst(r.containers) else [];
    PointsArePrintable(r);
    PointsReadBack(PointsOf(r));
    FromFirstIsTheSame(r.containers);
    assert PointsOf(r) == [first] + rest;
    FirstCleans(first, rest);
    CleanDaemonPoint(r.daemonOutcome, r.at);
    NoPointsClean();
    ContainersReadBack(r.containers);
    ReportPointsReadBack(r, CleanPoints(rest));
  }

  lemma FirstCleans(p: Point, rest: seq<Point>)
    ensures CleanPoints([p] + rest) == [CleanPoint(p)] + CleanPoints(rest)
    ensures CleanPoints([p] + rest)[1..] == CleanPoints(rest)
  {
    hide CleanPoint;
    assert ([p] + rest)[1..] == rest;
  }

  /** As many containers as were selected and as the daemon line counts, each under its
      own name, in the daemon's order, with the outcome of its check. */
  ghost predicate TellsOf(read: Option<SeenReport>, selected: seq<Container>, checks: seq<ContainerCheck>) {
    && read.Some? && read.value.daemon == Ok(|selected|)
    && |read.value.containers| == |selected| == |checks|
    && forall i | 0 <= i < |selected| ::
         && read.value.containers[i].name == Clean(selected[i].name)
         && read.value.containers[i].image == Clean(selected[i].image)
         && read.value.containers[i].outcome == checks[i].outcome
  }

  /** A whole run, printed and read again. */
  lemma RunReadsBack(w: World, m: Moment, budget: nat, included: seq<string>, excluded: seq<string>)
    requires w.list(|m.log|).result.Ok?
    ensures var report := RunOf(w, m, budget, included, excluded).0;
            TellsOf(ReadReport(PrintPoints(PointsOf(report))), Selected(w.list(|m.log|).result.value, included, excluded),
                    report.containers)
  {
    hide RunOf, ReadReport, PrintPoints, PointsOf, Clean, Selected;
    NamesInOrder(w, m, budget, included, excluded);
    ReportReadsBack(RunOf(w, m, budget, included, excluded).0);
  }
}

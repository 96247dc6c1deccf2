# muninn: a verified model

muninn is a supervisor around Telegraf. It writes Telegraf's configuration, starts and
watches the process, answers health probes, and checks for pending packages and newer
container images. Several of its small algorithms and protocols are right or wrong for
reasons no single branch shows. This project models those and proves what they are for.

- `Glob`, `ImageReference`, `ImageUpdates`, `LineProtocol`, `UpdateReport`: the image-update
  check. The backtracking glob matcher against its recursive meaning, the reading of image
  references, a budgeted run against an arbitrary daemon and clock, and the report printed as
  line protocol and read back.
- `Chunked`, `Response`: the Docker client's responses. The chunked coding of section 7.1 of
  RFC 9112 in both directions, and which truncations go unnoticed.
- `Redaction`: replacing secret values in a line, as disjoint intervals of the original line.
- `Health`, `Supervisor`, `SupervisorRuns`, `SupervisorHistory`, `SupervisorCode`, `ChildOutput`: the shared state, the
  protocol of the main task, its child and any number of self-checks at the granularity of single
  writes, records, reads and swaps, all of its runs, the same runs told by nothing but what has happened,
  the code whose undisturbed runs these are, and the wait for the child's last output.
- `AcceptLoop`: the permits and the shutdown of the health listener.
- `TelegrafModel`, `RenderOrder`, `Renderer`, `AdditionOrder`, `MergeOrder`, `GroupOrder`: plugin instances
  that merge, the order they are rendered in, the rendering read back by a TOML table reader (sections
  "Table" and "Array of Tables" of TOML v1.0.0), and exactly when the order of addition shows in it.
- `Basics`, `Bytes`, `Wrappers`: what several of them need.
- `Words`, `AptPolicy`, `AptTables`: apt's pending packages and the classification of security
  updates, against a declarative statement about lines and against the policies apt prints.

Where a claim one would like to make is false of the code, the project keeps the code, shows an
input for which the claim fails, and proves exactly when it holds:

| claim | holds if and only if |
|---|---|
| a glob means what its `*` and `?` say | the text (or the pattern) holds no `*` |
| a secret of eight bytes never survives redaction, whatever other secrets there are | it neither starts nor ends with `*` nor holds `***` |
| merging instances of distinct keys is associative | no key holds an array, then another kind, then an array with something new |
| rendering does not depend on the order in which instances are added | in each bucket, of two members that merge each list starts the other's and all else written is the same, and two groups have the same lines or stand wholly on either side of each other |
| the rendering reads back as the configuration | no key is doubled in a table, and every instance is in its own section |
| the image check ends before Telegraf's timeout | the list does, one container's two calls fit in the 15-second margin, and the check itself takes no time between containers |
| every truncation of an accepted response is noticed | it is chunked, or has no body |
| exactly the security updates are found, whatever is pending | every version with a security source is no number, has a line that ends in one (no negative priority, no phasing percentage), and has such a source without a negative priority |
| a check never finds its own counts of n pending lines inconsistent, whatever apt prints | its second pass cannot be started for n names, or n is below 2^32, or the low 32 bits of n are all set |
| readiness cannot return once service has ended | no self-check is about to write, is checking, or can yet be spawned |
| after an error the state is `Failed` | the error is not a failed wait, and no failing check has set `Degraded` since |
| Telegraf's last output is waited for before its exit is reported | no stop signal comes between the exit and the end of the drain |

Two places differ from what the repository says of itself. `crates/muninn-telegraf/src/process.rs:179`
says that the output is drained on every path that observes the exit; a stop signal during the drain
drops the readers, and the drain of the stop arm then finds none. A stop signal before the exit, which is
how muninn is usually ended, loses nothing. An instance of the agent section
would get a header under `agent` and sub-table headers under `inputs`
(`crates/muninn-telegraf/src/renderer.rs:110`); the modules never build one. In both the model follows
the code.

`dafny verify dfyconfig.toml` checks the whole project.

## Model

| member | source | states |
|---|---|---|
| `Glob.GlobMatch` | crates/muninn-modules/src/image_updates/check.rs:483-510 | the loop over pattern index, text index, last star and retry point ends, and is sound for the recursive meaning of `*` and `?` on every input and exact on every text without `*` |
| `Glob.ScanIsSound` | crates/muninn-modules/src/image_updates/check.rs:491-509 | from any position of the loop, an acceptance means that what is left matches |
| `Glob.ScanIsComplete` | crates/muninn-modules/src/image_updates/check.rs:491-509 | from any position reached on a text without `*`, the loop misses no match |
| `Glob.CommitKeeps` | crates/muninn-modules/src/image_updates/check.rs:494-497 | committing to the earliest match of the segment between two stars loses no match |
| `Glob.RetryKeeps` | crates/muninn-modules/src/image_updates/check.rs:498-501 | giving up one start of the segment after the last star and trying the next loses no match |
| `Glob.AheadIsNeeded` | crates/muninn-modules/src/image_updates/check.rs:491-501 | a match that is still pending after the last star goes through the segment matched so far |
| `Glob.DecideIsExact` | crates/muninn-modules/src/image_updates/check.rs:483-510 | on texts without `*` the verdict is the recursive meaning, for every pattern |
| `Glob.RightExactlyForStarlessTexts` | crates/muninn-modules/src/image_updates/check.rs:483-510 | a text is judged rightly by every pattern if and only if it holds no `*` |
| `Glob.RightExactlyForStarlessPatterns` | crates/muninn-modules/src/image_updates/check.rs:483-510 | a pattern judges every text rightly if and only if it holds no `*`: the equality test runs before the star test |
| `Glob.StarredTextMisleads` | crates/muninn-modules/src/image_updates/check.rs:492-494 | for every text with a `*` some pattern matches it and is refused |
| `Glob.StarredPatternIsMisled` | crates/muninn-modules/src/image_updates/check.rs:492-494 | for every pattern with a `*` some text matches it and is refused |
| `Glob.FiltersMeanTheirGlobs` | crates/muninn-modules/src/image_updates/check.rs:512-517 | an include list is an allow-list, and an exclude list is applied within it |
| `ImageReference.SplitIsAtTheTag` | crates/muninn-modules/src/image_updates/check.rs:418-430 | a reference splits at the colon with no separator after it, so a registry port is no tag |
| `ImageReference.SplitWithoutTag` | crates/muninn-modules/src/image_updates/check.rs:418-430 | without such a colon the whole reference is the repository and the tag is `latest` |
| `ImageReference.ReferenceResplits` | crates/muninn-modules/src/image_updates/check.rs:418-430 | only a reference with `@` is pinned; `repository:tag` splits into the same pair again |
| `ImageReference.CanonicalIsFixed` | crates/muninn-modules/src/image_updates/check.rs:440-463 | normalising leaves a name as it is if and only if it starts with a registry host and, on the Hub, has two components |
| `ImageReference.NormalizedIsCanonical` | crates/muninn-modules/src/image_updates/check.rs:440-463 | normalising always gives such a name |
| `ImageReference.NormalizingTwice` | crates/muninn-modules/src/image_updates/check.rs:440-463 | normalising twice changes nothing |
| `ImageReference.HubSpellingsAgree` | crates/muninn-modules/src/image_updates/check.rs:440-463 | the four long spellings of an official image agree, and the bare name joins them if and only if it does not look like a registry host |
| `ImageReference.NormalizedIsTheName` | crates/muninn-modules/src/image_updates/check.rs:440-463 | normalising gives a name if and only if the repository is one of its spellings: as it stands on another registry; on the Hub with the registry’s name, its older one or none, and without `library` for an official image |
| `ImageReference.LocalDigestIsTheFirst` | crates/muninn-modules/src/image_updates/check.rs:469-475 | a digest is found if and only if it stands behind the first `@` of the first entry whose part before it is a spelling of the repository, and none is found if and only if there is no such entry |
| `ImageReference.OfficialImageIsFound` | crates/muninn-modules/src/image_updates/check.rs:469-475 | the entry of an official image is found under any of its spellings, whichever the entry has |
| `ImageUpdates.Daemon.CheckOne` | crates/muninn-modules/src/image_updates/check.rs:345-396 | one container: the calls made, the time they take, and the outcome with the daemon’s own message |
| `ImageUpdates.Daemon.CheckNext` | crates/muninn-modules/src/image_updates/check.rs:322-332 | once the budget is spent the container is reported as such and nothing is asked |
| `ImageUpdates.Daemon.Run` | crates/muninn-modules/src/image_updates/check.rs:298-343 | a run of the check against an arbitrary daemon and clock comes to the specified report, log and time |
| `ImageUpdates.OneCheckIsJustified` | crates/muninn-modules/src/image_updates/check.rs:345-396 | every outcome stands on evidence in the call log: a verdict compares the digest of the first entry under a spelling of the repository with the answer for the very reference, and each reason holds of the container or of an answer; only an answer that failed leaves a detail |
| `ImageUpdates.CheckMakesTwoCalls` | crates/muninn-modules/src/image_updates/check.rs:345-396 | at most two calls are made for a container, both about its own image |
| `ImageUpdates.ChecksAreSplit` | crates/muninn-modules/src/image_updates/check.rs:319-334 | the containers are split at one point: evidence before it, out of budget behind it, and no call for those |
| `ImageUpdates.EveryContainerIsAccountedFor` | crates/muninn-modules/src/image_updates/check.rs:298-343 | for every daemon and clock the report has one entry per container passing the filters, in order, split at one point |
| `ImageUpdates.NamesInOrder` | crates/muninn-modules/src/image_updates/check.rs:298-343 | the entries carry the names and images of the selected containers in the daemon’s order, and the count is theirs |
| `ImageUpdates.SelectedInParts` | crates/muninn-modules/src/image_updates/check.rs:317-321 | the filter keeps the daemon’s order and decides on each container by itself |
| `ImageUpdates.RunTimeAddsUp` | crates/muninn-modules/src/image_updates/check.rs:298-341 | calls are made one after the other, each as long as its answer takes, and a run takes the time of its calls and pauses |
| `ImageUpdates.ChecksEndInTime` | crates/muninn-modules/src/image_updates/check.rs:319-334 | every call is over within one container’s calls of the budget |
| `ImageUpdates.RunEndsInTime` | crates/muninn-modules/src/image_updates/check.rs:298-343 | a run takes at most the larger of the list call and the budget plus one container’s calls |
| `ImageUpdates.EndsInTimeExactlyWhenOneContainerFits` | crates/muninn-modules/src/image_updates/mod.rs:48-76 | no run overstays the budget and the margin, however many containers there are, if and only if the list comes before then, one container’s two calls fit in the margin (or there is no budget to make them in), and the check takes no time of its own between containers |
| `ImageUpdates.SucceededExactlyWhenAllJudged` | crates/muninn-modules/src/image_updates/check.rs:209-220 | a run has succeeded if and only if the daemon answered and the verdicts are as many as the containers |
| `LineProtocol.EscapeIsOnePass` | crates/muninn-modules/src/image_updates/check.rs:530-538 | the four sequential replacements, backslash first, equal one pass that puts a backslash before each special character |
| `LineProtocol.CleanHasNoControl` | crates/muninn-modules/src/image_updates/check.rs:530-533 | control characters are replaced one for one, and a value stays itself if and only if it has none |
| `LineProtocol.PointsReadBack` | crates/muninn-modules/src/image_updates/check.rs:227-247 | a backslash-aware reader gets back the very points that were printed, whatever the tag values are: no value can add a tag, a field or a line |
| `LineProtocol.DecimalRoundTrip` | crates/muninn-modules/src/image_updates/check.rs:235-239 | printed numbers read back |
| `LineProtocol.DecimalIsShort` | crates/muninn-modules/src/image_updates/check.rs:235-239 | a number is printed without leading zeros |
| `UpdateReport.Print` | crates/muninn-modules/src/image_updates/check.rs:227-247 | the text pushed together for a report is the print of its points |
| `UpdateReport.ContainerTextIsPoints` | crates/muninn-modules/src/image_updates/check.rs:142-162 | the text of one container is one point for a failure and two for a verdict |
| `UpdateReport.DaemonTextIsAPoint` | crates/muninn-modules/src/image_updates/check.rs:228-240 | the first line carries the daemon’s outcome and the count |
| `UpdateReport.ReportReadsBack` | crates/muninn-modules/src/image_updates/check.rs:227-247 | reading the print recovers the daemon outcome, the count, and every container’s name, image and outcome in order |
| `UpdateReport.RunReadsBack` | crates/muninn-modules/src/image_updates/check.rs:298-343 | the print of a whole run tells of exactly the selected containers, in order, with the outcomes of their checks |
| `Chunked.DecodeChunked` | crates/muninn-modules/src/image_updates/docker_api.rs:409-451 | the loop ends, comes to the recursive decoding with the same error in every branch, and its output never exceeds the cap |
| `Chunked.DecodeEncode` | crates/muninn-modules/src/image_updates/docker_api.rs:409-451 | decoding undoes every encoding: any chunks, any spelling of their lengths, any extensions, anything behind the closing line |
| `Chunked.DecodedWasEncoded` | crates/muninn-modules/src/image_updates/docker_api.rs:409-451 | whatever is accepted is an encoding, and its data is the body |
| `Chunked.DecodesExactlyEncodings` | crates/muninn-modules/src/image_updates/docker_api.rs:409-451 | a body is decoded from a prefix if and only if the prefix is an encoding of it below the cap |
| `Chunked.ExtensionDecodesTheSame` | crates/muninn-modules/src/image_updates/docker_api.rs:434-436 | what follows the closing line does not matter |
| `Chunked.TruncationIsRefused` | crates/muninn-modules/src/image_updates/docker_api.rs:409-451 | every prefix shorter than what was consumed is an error |
| `Chunked.HeaderReadsBack` | crates/muninn-modules/src/image_updates/docker_api.rs:417-432 | a length in hexadecimal with or without an extension is read as itself |
| `Chunked.ParsesExactlySpellings` | crates/muninn-modules/src/image_updates/docker_api.rs:427-428 | a length is read if and only if it is spelled in hexadecimal digits of any case, perhaps with leading zeros or a plus sign, and fits 64 bits |
| `Chunked.HeaderIsALength` | crates/muninn-modules/src/image_updates/docker_api.rs:417-428 | a header announces a length if and only if it is white space, such a spelling, white space, and perhaps an extension behind a semicolon |
| `Chunked.ErrorsAreTold` | crates/muninn-modules/src/image_updates/docker_api.rs:412-449 | behind well-formed chunks a missing header, a line that is no length, a chunk over four mebibytes in all, one that runs past the end and one that is not closed are each reported as what they are |
| `Chunked.CanonicalRoundTrip` | crates/muninn-modules/src/image_updates/docker_api.rs:409-451 | any body cut into non-empty pieces below the cap arrives, with any extensions free of CRLF |
| `Response.ParseResponse` | crates/muninn-modules/src/image_updates/docker_api.rs:363-396 | the response read by splitting, looking up fields, decoding and truncating in place is the specified one |
| `Response.HeadReadsBack` | crates/muninn-modules/src/image_updates/docker_api.rs:453-458 | a printed head says what its lines say: the first field of a name counts, in any case, with white space trimmed, and the status line too if it looks like one |
| `Response.HttpLineIsNoField` | crates/muninn-modules/src/image_updates/docker_api.rs:453-458 | a status line of HTTP is neither a transfer coding nor a length, whatever colons it holds |
| `Response.ChunkedResponseArrives` | crates/muninn-modules/src/image_updates/docker_api.rs:363-396 | a chunked response gives the status that its first line has and its data, whatever else its head says |
| `Response.ParsesExactlySpellings` | crates/muninn-modules/src/image_updates/docker_api.rs:371-376 | a number is read if and only if it is spelled in decimal digits, perhaps with leading zeros or a plus sign, and is in range |
| `Response.StatusIsRead` | crates/muninn-modules/src/image_updates/docker_api.rs:370-376 | the status is the number behind the protocol, with or without a reason behind it, if and only if it fits 16 bits |
| `Response.PlainResponseArrives` | crates/muninn-modules/src/image_updates/docker_api.rs:363-396 | an unchunked response gives its status and the first n bytes behind its head where `content-length` spells n; all of them where it is missing or no number; without a 16-bit status it is refused |
| `Response.HttpResponseArrives` | crates/muninn-modules/src/image_updates/docker_api.rs:363-396 | a chunked response gives its status and its data, for every protocol, status, reason, other fields and cut into chunks |
| `Response.NoBlankLineNoHead` | crates/muninn-modules/src/image_updates/docker_api.rs:364-367 | a response is refused for want of a head if and only if it holds no blank line |
| `Response.LinesEndEitherWay` | crates/muninn-modules/src/image_updates/docker_api.rs:370 | a line ends at a line feed, with or without a carriage return before it |
| `Response.FieldIsTrimmed` | crates/muninn-modules/src/image_updates/docker_api.rs:453-458 | white space around the name and the value of a field is no part of them |
| `Response.SameWordMeans` | crates/muninn-modules/src/image_updates/docker_api.rs:384 | names and the coding are compared up to the case of ASCII letters |
| `Response.CutsAreJudgedByTheHead` | crates/muninn-modules/src/image_updates/docker_api.rs:363-396 | a cut response is refused until its head, or for a chunked one its closing line, is complete; otherwise it is accepted with the bytes that arrived |
| `Response.TruncationIsNoticedExactlyWhenChunked` | crates/muninn-modules/src/image_updates/docker_api.rs:363-396 | every cut that loses something is noticed if and only if the response is chunked or has no body |
| `Redaction.Redactor.constructor` | crates/muninn-core/src/secret.rs:156-164 | the list holds exactly the secrets that are long enough, longest first |
| `Redaction.Redactor.Apply` | crates/muninn-core/src/secret.rs:176-187 | the early return and the loop over the values come to replacing value after value, and no safe value is left |
| `Redaction.SortedKeeps` | crates/muninn-core/src/secret.rs:161-161 | sorting puts longest first and keeps the values |
| `Redaction.DedupKeeps` | crates/muninn-core/src/secret.rs:162-162 | dropping neighbours that are equal loses no value |
| `Redaction.ReplaceIsRefine` | crates/muninn-core/src/secret.rs:181-185 | replacing a value in a line that already carries masks cuts occurrences of the original line only |
| `Redaction.RedactionCuts` | crates/muninn-core/src/secret.rs:176-187 | the result is the line with a list of disjoint intervals replaced by the mask |
| `Redaction.CutsAreOccurrences` | crates/muninn-core/src/secret.rs:176-187 | each interval is an occurrence of a known value in the original line |
| `Redaction.OccurrencesAreCut` | crates/muninn-core/src/secret.rs:176-187 | every occurrence of every value meets some interval, of a value at least as long |
| `Redaction.NothingAppears` | crates/muninn-core/src/secret.rs:181-185 | no replacement of any value brings about a value that neither starts nor ends with `*` nor holds the mask |
| `Redaction.NothingSurvives` | crates/muninn-core/src/secret.rs:172-187 | no such value of the list occurs in the result, whatever the other values are and in whatever order they are replaced |
| `Redaction.RedactionIsIdempotent` | crates/muninn-core/src/secret.rs:176-187 | for lists of such values a second application changes nothing |
| `Redaction.UnsafeValueReappears` | crates/muninn-core/src/secret.rs:176-187 | a value that can be made up from a mask and its surroundings can be in the result of removing it |
| `Redaction.DefendedExactlyWhenSafe` | crates/muninn-core/src/secret.rs:172-187 | a value is removed from every line by every list that holds it, and by every redactor, if and only if it neither starts nor ends with `*` nor holds the mask |
| `Health.HealthState.Set` | crates/muninn-health/src/state.rs:179-181 | an unconditional write that returns the state before it and leaves the details alone |
| `Health.HealthState.TransitionFrom` | crates/muninn-health/src/state.rs:192-198 | a write only from the given state, telling whether it moved |
| `Health.HealthState.Update` | crates/muninn-health/src/state.rs:226-229 | an update of the details that leaves the state alone |
| `Health.HealthState.RecordModuleCheck` | crates/muninn-health/src/state.rs:232-241 | a module’s result is replaced and nothing else changes |
| `Health.ClearDegradedIfNothingIsFailing` | muninn/src/supervisor.rs:321-330 | undisturbed, it moves `Degraded` to `Ready` if every recorded check is good, and does nothing otherwise |
| `Supervisor.CheckKeepsCause` | muninn/src/supervisor.rs:321-330 | after a step of a self-check `Degraded` still has a cause |
| `Supervisor.StepKeepsInv` | muninn/src/supervisor.rs:56-602 | every step of every task and of the environment keeps the invariant |
| `Supervisor.RunKeepsInv` | muninn/src/supervisor.rs:56-602 | so does every interleaving, over any finite set of modules |
| `SupervisorRuns.DegradedHasACause` | muninn/src/supervisor.rs:282-330 | in every reachable state, `Degraded` means that some recorded check is a failure or some retry stands between its record and its swap |
| `SupervisorRuns.QuietServiceIsReady` | muninn/src/supervisor.rs:282-330 | once every check task has ended while Telegraf is in service, the state is `Ready` and every module’s last record is a success |
| `SupervisorRuns.RecoveryIsAlwaysPossible` | muninn/src/supervisor.rs:235-241 | from every reachable degraded state of a supervised Telegraf, successful checks alone lead back to `Ready` |
| `SupervisorRuns.MainWritesIncrease` | muninn/src/supervisor.rs:56-602 | the main task’s own writes strictly increase in the order of the states |
| `SupervisorRuns.EndedStep` | crates/muninn-health/src/state.rs:183-198 | once service has ended, a step makes muninn ready if and only if it is a failing check’s write of `Degraded`; no recovery does |
| `SupervisorRuns.ReadinessReturnsOnlyByAFailingCheck` | muninn/src/supervisor.rs:314-330 | after the end of service, readiness returns in a run if and only if some failing check sets `Degraded` in it |
| `SupervisorRuns.ReadinessCanReturnExactlyWhenACheckCanFail` | muninn/src/supervisor.rs:282-312 | after the end of service, some continuation is ready if and only if a self-check is about to write, is checking, or can yet be spawned |
| `SupervisorRuns.OkMeansStopped` | muninn/src/supervisor.rs:561-579 | a clean return means the stop arm, a reaped child, no pid, and `Stopped` written last; the state is `Stopped` if and only if no failing check has written since |
| `SupervisorRuns.ErrorIsFailedUnlessAWaitFailed` | muninn/src/supervisor.rs:72-81 | after an error the state is `Failed` if and only if the error is not a failed wait and no failing check has set `Degraded` since; `Failed` is the main task’s last write, and the pid is cleared, if and only if it is not a failed wait |
| `SupervisorRuns.DegradedSinceMeans` | muninn/src/supervisor.rs:349-532 | that is, if and only if the run holds no failing check’s write behind the main task’s last write |
| `SupervisorRuns.DegradedAfterFailed` | muninn/src/supervisor.rs:581-601 | a run that ends with `TelegrafExited` and the state `Degraded`, so muninn is ready after it has given up |
| `SupervisorRuns.PidClearedBeforeTheEnd` | muninn/src/supervisor.rs:585-590 | the pid is cleared before `Failed` or `Stopped` is written |
| `SupervisorRuns.StopWins` | muninn/src/supervisor.rs:533-551 | with a stop pending before a crash is settled on, no continuation reports a crash, and one in which Telegraf had been seen alive returns only through the stop arm |
| `SupervisorRuns.ReadyAfterStopping` | muninn/src/supervisor.rs:405-405 | a run in which muninn is ready again after `Stopping` |
| `SupervisorRuns.ErrorWithoutFailed` | muninn/src/supervisor.rs:585-585 | a run that ends in an error with `Ready` left behind |
| `SupervisorRuns.ReadyWhileFailing` | muninn/src/supervisor.rs:321-330 | a run in which `Ready` stands while a module’s last check is a failure |
| `SupervisorHistory.RunsAreHistories` | muninn/src/supervisor.rs:56-104 | a list of steps is a run if and only if each was allowed by what had happened before it: the order of the main task’s steps, a child that has not exited before it is confirmed, a stop that comes first, one spawner, and the checks’ own order |
| `SupervisorHistory.MemoryIsTheHistory` | muninn/src/supervisor.rs:56-104 | in every run the state word, the pid and the records are what the history of steps says |
| `SupervisorHistory.ReadyNeedsALivingChild` | muninn/src/supervisor.rs:208-213 | readiness is written only behind a confirmation before which Telegraf had not exited |
| `SupervisorHistory.DeadTelegrafIsNeverReady` | muninn/src/supervisor.rs:620-640 | a run in which Telegraf exits before it has been confirmed is never ready |
| `SupervisorCode.Run` | muninn/src/supervisor.rs:56-104 | for every outcome of the stages, of the settling and of supervision, with a stop signal in any stage, while settling, in service, during the drain or not at all, and with a wait that fails in service, in grace or behind the kill: what the code returns is the outcome stated, and what it leaves in memory is what a run of the protocol leaves |
| `SupervisorCode.StopTelegraf` | muninn/src/supervisor.rs:561-579 | so does the stop arm, with the grace period, the kill and a failed wait |
| `SupervisorCode.Supervise` | muninn/src/supervisor.rs:552-602 | so does the selection between the stop signal, also during the drain, the exit and a failed wait |
| `SupervisorCode.RetryUntilItWorks` | muninn/src/supervisor.rs:282-312 | so does the loop of a self-check, by steps of its own task only: it ends with the first success, and is asleep with a failure recorded as long as there is none |
| `ChildOutput.Telegraf.DrainOutput` | crates/muninn-telegraf/src/process.rs:188-201 | the list of readers is emptied, and the wait ends as specified |
| `ChildOutput.Telegraf.ReportExit` | muninn/src/supervisor.rs:558-602 | a stop before or with the exit takes the stop arm, which drains the whole list; one that interrupts the drain takes it too, and finds the list empty |
| `ChildOutput.AwaitIsTheLatest` | crates/muninn-telegraf/src/process.rs:188-201 | undisturbed, the wait ends with the last reader or at the deadline, whichever comes first |
| `ChildOutput.OutputIsWaitedForUnlessStopped` | crates/muninn-telegraf/src/process.rs:177-201 | the output is waited for before the exit is reported if and only if no stop comes strictly between the exit and the end of the drain |
| `ChildOutput.DrainIsBounded` | crates/muninn-telegraf/src/process.rs:75-82 | an exit is reported within two seconds |
| `AcceptLoop.PermitsAreConserved` | crates/muninn-health/src/serve.rs:89-168 | free permits, the one in the loop’s hand and live connections add up to the same after every run of events |
| `AcceptLoop.EveryPermitIsAccountedFor` | crates/muninn-health/src/serve.rs:89-168 | in every reachable state they add up to the maximum, failed accepts included |
| `AcceptLoop.ShutdownIsNeverBehindAPermit` | crates/muninn-health/src/serve.rs:101-135 | a pending shutdown stays takeable through every run of events until it is taken, is the loop’s only step while every permit is held by a peer, and the loop then returns without any peer’s doing |
| `AcceptLoop.AtCapacityOnlyTheShutdown` | crates/muninn-health/src/serve.rs:101-118 | at capacity, until a connection ends, the loop takes no step but the shutdown |
| `AcceptLoop.AcceptsNeedPermits` | crates/muninn-health/src/serve.rs:94-168 | without a connection ending, no run accepts more peers than there are permits left |
| `AcceptLoop.NoConnectionAfterShutdown` | crates/muninn-health/src/serve.rs:170-179 | once it is taken no connection is ever added |
| `AcceptLoop.ShutdownNeedsASignal` | crates/muninn-health/src/serve.rs:94-135 | in any run the shutdown is taken only after a signal, and only once |
| `AcceptLoop.DrainWaitsForTheLast` | crates/muninn-health/src/serve.rs:170-179 | unless the drain times out, the loop returns only when every connection has ended |
| `AcceptLoop.DrainCanEnd` | crates/muninn-health/src/serve.rs:170-179 | the drain can always end that way, with every permit back |
| `AcceptLoop.AcceptingCanResume` | crates/muninn-health/src/serve.rs:94-135 | while the loop runs, connections that end always make it accept again |
| `TelegrafModel.Merge` | crates/muninn-telegraf/src/model.rs:300-333 | the loops over options, sub-tables and sources come to the specified union |
| `TelegrafModel.MergeMeans` | crates/muninn-telegraf/src/model.rs:300-333 | keys keep first-seen order, arrays become the union with no value lost, the first value wins otherwise, and so does the first sub-table of a name |
| `TelegrafModel.MergeIsIdempotent` | crates/muninn-telegraf/src/model.rs:300-333 | merging an instance into itself changes nothing |
| `TelegrafModel.MergeIsAssociativeExactly` | crates/muninn-telegraf/src/model.rs:300-333 | grouping does not matter if and only if no key holds an array, then another kind, then an array with something new |
| `TelegrafModel.MergeOrderShowsExactlyInDisagreement` | crates/muninn-telegraf/src/model.rs:292-333 | the content does not depend on which instance merges into which if and only if they agree on every option that is no array on both sides |
| `TelegrafModel.BuiltApart` | crates/muninn-telegraf/src/model.rs:235-267 | scalars and sub-tables keep to themselves, each in call order, however the builder calls are interleaved |
| `TelegrafModel.TelegrafConfig.Add` | crates/muninn-telegraf/src/model.rs:360-375 | an addition merges into the first instance with the same plugin and merge key, or is appended, in the bucket of its section |
| `TelegrafModel.BucketHoldsGroups` | crates/muninn-telegraf/src/model.rs:360-375 | after any additions a bucket holds each group once, as the left fold of its members, with unkeyed instances all kept |
| `TelegrafModel.NoGroupTwice` | crates/muninn-telegraf/src/model.rs:360-375 | a bucket never holds two instances with the same plugin and merge key |
| `RenderOrder.SortIsTheOrder` | crates/muninn-telegraf/src/model.rs:395-399 | sorting gives the one list of the same instances in which ranks rise, instances of one rank are in alphabetical order of their plugins, character by character, and those at one place are as they were |
| `RenderOrder.SortIsStable` | crates/muninn-telegraf/src/model.rs:395-399 | instances at one place keep the order they were added in |
| `RenderOrder.OrderShowsExactlyAtSharedPlaces` | crates/muninn-telegraf/src/model.rs:395-399 | any order of one list of instances sorts alike if and only if no two different ones of it share rank and plugin |
| `AdditionOrder.AddedApart` | crates/muninn-telegraf/src/model.rs:360-375 | additions to the two buckets do not mix: each is what its own instances make of it |
| `AdditionOrder.OrderShowsExactlyInDifferentLines` | crates/muninn-telegraf/src/renderer.rs:25-60 | where nothing merges, every order of addition, inputs and outputs mixed, renders the same text if and only if instances of one bucket at one rank and plugin have the same lines |
| `AdditionOrder.AdditionOrderDoesNotShow` | crates/muninn-telegraf/src/model.rs:377-399 | adding any permutation of unmerged instances that differ in bucket, rank or plugin renders the same text |
| `AdditionOrder.RenderedTellsTheLines` | crates/muninn-telegraf/src/renderer.rs:56-59 | dropping the trailing blank line loses nothing: equal texts come from equal lines |
| `AdditionOrder.MergedOrderCanShow` | crates/muninn-telegraf/src/model.rs:300-317 | two instances that merge and share no place, yet render differently in their two orders |
| `MergeOrder.SameExactlyWhenNested` | crates/muninn-telegraf/src/model.rs:300-333 | what a group comes to in one respect is the same for every order of its members if and only if any two of them are nested in it |
| `MergeOrder.StartsMeans` | crates/muninn-telegraf/src/model.rs:300-333 | merging a second list into a first gives the second if and only if it starts with the first and adds each new thing once |
| `MergeOrder.LinesTell` | crates/muninn-telegraf/src/renderer.rs:83-108 | two instances of one plugin have the same lines if and only if section, sources, their label, scalars and sub-tables are the same |
| `MergeOrder.GroupOrderShowsExactly` | crates/muninn-telegraf/src/model.rs:300-333 | the lines a group comes to are the same for every order of its members if and only if of any two, each list starts the other’s (sources, keys, the items of arrays), other values, sub-tables and sections are the same, and all have one label or no sources |
| `GroupOrder.FixedOrderShowsLabels` | crates/muninn-telegraf/src/model.rs:395-399 | two orders of the same groups show the same lines when groups with different lines come in one order |
| `GroupOrder.MoveShows` | crates/muninn-telegraf/src/model.rs:395-399 | moving a group from before one with other lines to behind it shows in the lines |
| `GroupOrder.BucketShowsExactly` | crates/muninn-telegraf/src/model.rs:360-399 | within one bucket no order of addition shows if and only if every group comes to the same lines in every order, and of two groups with different lines all members of one stand before all members of the other |
| `GroupOrder.WholeInAnyOrder` | crates/muninn-telegraf/src/model.rs:360-375 | under that condition a group has its lines in any order of addition, and stands where one of its members does |
| `GroupOrder.OrderShowsExactly` | crates/muninn-telegraf/src/model.rs:360-399 | every order of addition, inputs and outputs mixed and merging or not, renders the same text if and only if both buckets satisfy that |
| `Renderer.Render` | crates/muninn-telegraf/src/renderer.rs:25-60 | the lines pushed one after the other are the specified rendering, with no blank line at the end |
| `Renderer.RenderInstance` | crates/muninn-telegraf/src/renderer.rs:83-108 | an instance is its comment, its header, its scalars, then its sub-tables |
| `Renderer.CommentsTellTheSources` | crates/muninn-telegraf/src/renderer.rs:25-60 | the comments are the header with the version, then for each section with instances a title and their sources in rank order |
| `MergeOrder.SourcesReadBack` | crates/muninn-telegraf/src/model.rs:217-228 | a source comment is read back as its label and its sources: `module: cpu`, or `modules: load, system` |
| `Renderer.ReadableReadsBack` | crates/muninn-telegraf/src/renderer.rs:25-108 | a TOML table reader gets back the agent options, then every input and every output by rising rank, then plugin, then order of addition, with its own scalars and sub-tables |
| `Renderer.ReadBackWasReadable` | crates/muninn-telegraf/src/renderer.rs:25-108 | what reads back as the configuration had keys that TOML can hold |
| `Renderer.ReadsBackExactlyWhenReadable` | crates/muninn-telegraf/src/renderer.rs:25-117 | the rendering reads back if and only if no key is doubled in a table and every instance stands in its own section |
| `Renderer.BuiltInAnyOrderReadsBack` | crates/muninn-telegraf/src/model.rs:7-19 | whatever order the builder calls came in, for any inputs and outputs with any agent options, no scalar is ever assigned to a sub-table |
| `AptPolicy.ParsePending` | crates/muninn-modules/src/updates/debian.rs:734-758 | the loop finds what the `Inst` lines say, in order, and nothing else |
| `AptPolicy.PendingInParts` | crates/muninn-modules/src/updates/debian.rs:734-758 | what is pending keeps the order of the lines, and each line speaks for itself |
| `AptPolicy.InstLineSays` | crates/muninn-modules/src/updates/debian.rs:734-758 | an `Inst` line gives its first word and the first word behind the first parenthesis, whatever stands between, such as the installed version; without a parenthesis the candidate is empty, and no other line counts |
| `AptPolicy.WantedIsTheLast` | crates/muninn-modules/src/updates/debian.rs:861-864 | the version wanted for a name is that of the last line pending under it |
| `AptPolicy.HeaderExactly` | crates/muninn-modules/src/updates/debian.rs:867-873 | a line is a header of a name if and only if it begins at column zero and is that name with one or more colons behind it |
| `Words.ParsesExactlySpellings` | crates/muninn-modules/src/updates/debian.rs:883-900 | a word counts as a number if and only if it is the decimal of a number below 2^32, perhaps with leading zeros or a plus sign |
| `Words.LowerContainsMeans` | crates/muninn-modules/src/updates/debian.rs:887-890 | a source is a security one if and only if the suffix stands in it in letters of any case |
| `Words.SpacesAreTrimmed` | crates/muninn-modules/src/updates/debian.rs:875-876 | a line is read without the white space on either side |
| `AptPolicy.ParsePolicy` | crates/muninn-modules/src/updates/debian.rs:860-903 | the loop over lines, with its package, open entry and result, selects a name if and only if a security source line stands, with no other header or entry between, under an entry of the version that the last line pending under that name gives, under a header of that name |
| `AptPolicy.RunIsSelection` | crates/muninn-modules/src/updates/debian.rs:860-903 | the loop returns exactly the names selected so, whatever the lines are |
| `AptPolicy.SecurityIsPending` | crates/muninn-modules/src/updates/debian.rs:297-324 | the security updates are a subset of the pending names, and no more of them than pending lines |
| `AptPolicy.CountsAreNotCut` | crates/muninn-modules/src/updates/debian.rs:298-335 | whatever apt prints, a check of fewer than 2^32 packages publishes the number pending and the number of security updates, unless the second pass was needed and failed or took too long, which is reported as the one it was |
| `AptPolicy.TooManyNames` | crates/muninn-modules/src/updates/debian.rs:794-816 | where apt cannot be started with so many names, the check says that apt failed |
| `AptTables.PrintKinds` | crates/muninn-modules/src/updates/debian.rs:867-900 | every line of a printed policy is taken for what it is, but for versions that are numbers, for negative priorities, and for what stands behind the priority of a version |
| `AptTables.RunAll` | crates/muninn-modules/src/updates/debian.rs:860-903 | whatever policies were printed, the loop finds exactly the packages with a recognised security source under the entry of the version wanted |
| `AptTables.ReadRightlyExactlyWhenRecognised` | crates/muninn-modules/src/updates/debian.rs:836-903 | the loop finds exactly the packages for which the version of the last line pending under their name has a security source, whatever is pending, if and only if every version with such a source is no number, its line ends in one, and it has such a source without a negative priority |
| `AptTables.WithoutNegativePriorities` | crates/muninn-modules/src/updates/debian.rs:883-900 | where no priority is negative, only a version that is a number, or has something else behind its priority such as a phasing percentage, goes unrecognised |
| `AptTables.PinMisleads` | crates/muninn-modules/src/updates/debian.rs:893-900 | a printed policy with a negative priority that is read as a security update though the wanted version has no security source |
| `AptTables.ConsistentExactlyWhenNotCut` | crates/muninn-modules/src/updates/debian.rs:298-335 | for every number n of pending lines and every limit on the arguments of a program: no output of either pass makes the check inconsistent if and only if the second pass cannot be started for n names, n is below 2^32, or the low 32 bits of n are all set |
| `AptTables.NeverInconsistent` | crates/muninn-modules/src/updates/debian.rs:787-833 | where no program can be started with 2^32 arguments, no check is ever inconsistent, however many packages apt lists |

## Left out

- Sockets, files, process spawning, tokio, axum, hyper, signal delivery, and the real apt and Docker:
  each is an environment step or an arbitrary input.
- YAML, JSON and command-line parsing, including the mapping of JSON bodies to containers and digests, and
  the parsing of the Docker endpoint, whose failure is the only source of `InvalidEndpoint`.
- TOML values: `toml` quotes them, and a string may take several lines. A key line carries an opaque value,
  keys are taken to be bare, and the dashes of a section rule are left off.
- `Supervisor` and `AcceptLoop` are step relations on values rather than classes: the point is every
  interleaving, which no single method shows. `SupervisorCode` gives the supervisor's code over the class
  `Health.HealthState` and ties each piece, running undisturbed, to steps of the relation; the accept loop has no such
  code. A step is atomic and memory is sequentially consistent; poisoned locks are not modelled.
- The tasks' inner work (version check, preconditions, configuration check, the checks' own time limits) is one
  step that succeeds or fails. The spawner may be polled between two spawns, which allows more runs than tokio does.
- `ImageUpdates.Daemon.Run` and the lemmas about it take the wall clock and the time between containers as arbitrary
  functions of the container's number; `Duration` is an unbounded number of time units.
- `PluginInstance` is a value: muninn moves instances and keeps them by value in a vector, so there is no
  aliasing to lose. `rank` is a natural number rather than 16 bits.
- `MergeOrder` and `GroupOrder` take instances whose keys do not repeat, whose sources hold no comma and whose
  label holds no colon. Every label and source muninn writes is a fixed word of that kind.
- `muninn/src/main.rs:550-555`: when the health server ends, `supervisor::run` is dropped wherever it is. The
  protocol has no such step.
- Redaction and responses work on bytes. Text that is not UTF-8 in a chunk length is refused like any other
  length that is not hexadecimal, without its own message; no distinction is made between error texts.
- `ImageReference`, `LineProtocol` and `AptPolicy` work on characters. `str::lines` is applied before the model of
  apt's output begins. `to_ascii_lowercase` is modelled on ASCII letters.
- `AptTables` prints policies in which each version is listed once, a package asked for twice is answered twice
  alike, source lines do not end in a number, versions do not end in a colon, and nothing behind a version's
  priority names a security suite, as apt's own output has it.
- How many arguments a program can be started with is a parameter of `AptTables`; the limit on their total size
  is not modelled.
- `UpdateReport` reads empty tag values, which stricter line-protocol readers may refuse; the daemon gives every
  container a name.
- The 4 MiB cap on a whole response before it is parsed, `body_excerpt`, and the check of request paths.
- Details that the protocol does not use: uptimes, versions, log texts, exit descriptions.
- Rules settled by one branch: configuration validation, exit codes, state names, version parsing, Prometheus
  labels, `host_env`, durations.

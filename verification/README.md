# Proofs about the delivery machinery

This project models the programs that plan, audit, admit, publish and scale the work of this repository, and
proves what they promise. Each module models one of them:

- **Test shards.** `ShardPlan` is the greedy scheduler every end-to-end shard runs for itself, `ShardTight`
  shows that its bound cannot be improved, and `ShardCombine` is the auditor that accepts or refuses the
  shards' results. `DelphiLatest` and `DelphiCombine` do the same for the Delphi test shards and their
  re-runs.
- **Releases.** `ReleasePlan` is the version tool's plan and what the release script asks of it,
  `PlanMarkers` splices the plan into pull-request bodies, `Census` lists what a release contains,
  `ReleaseAssets` and `ReleaseNotes` are the files and the text of a release, and `Publication` is the
  sequence of remote writes, any of which may fail, lose its reply or be the last one before a crash.
- **Image admission.** `OciPaths`, `OciLayers`, `OciOverlay`, `OciInspect` and `ImageLock` admit an OCI
  archive: the text checks on paths, the file system that layers with whiteouts describe, the dictionary of
  private files the layer pass keeps, the blob closure, and the lock of an image pair. `OciExamples` are
  images for which that dictionary is wrong.
- **Evidence.** `ResultTransport` is the create-only result store with any number of worker executions and
  one polling collector, `DnsQuestion` the DNS question parser (sections 3.1, 4.1.1 and 4.1.2 of RFC 1035),
  `Teardown` the termination check under an unreliable describe API, `BatteryVerdict` the recomputation of a
  verdict from returned JUnit files, and `CanonicalJson` with `BatteryInventory` the canonical text that
  pins a test battery.
- **Capacity.** `WorkerScaling` is the queue-depth scaling of a worker class.

`Wrappers`, `Ordering`, `Text`, `Counters` and `Arithmetic` hold result types, Python's `sorted` and list
filters, its string operations and its counters, and products and quotients.

Loops and updates of the programs are methods here, each proved equal to a specification function or
predicate; the theorems are about those. The remote repository of `Publication` is an object with one method
per remote write. `ResultTransport` is a state machine over single store operations, because its executions
interleave. What the programs get from commands, decoders, hashes and the network is a parameter, and a
parameter that can fail does so in every way the program distinguishes.

## Where code and documentation differ

The model follows the code; each difference is a lemma.

- Both shard auditors promise that the selections partition the list. They check that nothing listed is
  missed or shared, but not that what was selected is listed (`ShardCombine.StraySelectionAccepted`,
  `DelphiCombine.StrayTestAccepted`); the promise holds exactly when every selected name is listed.
- Both shard auditors refuse failed tests by comparing a total with 0, so a negative count, which they
  accept, can make up for a failure (`ShardCombine.NegativeFailuresAccepted`,
  `DelphiCombine.NegativeFailuresAccepted`). Acceptance means that nothing failed exactly when no negative
  number of failures, or for Delphi of errors, is reported (`ShardCombine.CombineIsSound`,
  `DelphiCombine.CombineIsSound`). What it means for what was selected and what ran does not depend on
  signs.
- The Cypress auditor writes a total and per-suite counts. Only the total drops, after each shard, what is
  not positive, so they add up exactly when no running sum of a count is negative
  (`ShardCombine.SuitesCarryTotal`).
- The layer pass keeps a private file in its dictionary after a later entry has replaced it by a directory
  (`OciExamples.FileTurnedDirectory`). It judges members by their names, so a member below a link outside
  the private root can replace a private file unseen (`OciExamples.LinkReachesPrivateFile`). An archive
  that is admitted with such layers comes with wrong private files, whatever decodes it
  (`OciExamples.AdmittedAndWrong`, `OciExamples.AdmittedAndReplaced`). When links lead no member to the private root, for which it is enough
  that no name goes through the name of a link, the dictionary is the private part of the final file system
  exactly when no private file is left clobbered (`OciOverlay.PrivateFilesAgree`).
- The one accepted path that is not in normal form is "." (`OciPaths.DotIsRegular`), and the only one for
  which a containing directory is not recognised (`OciPaths.PrefixTest`).
- A dot inside a DNS label is accepted, so two label lists can read as one name
  (`DnsQuestion.DotInsideLabelCollides`); a packet that reads as an ordinary name asks for that name's
  labels exactly when none of its labels holds a dot (`DnsQuestion.NameAsksForItsLabels`).
- A PASS can hide a failure behind a negative count (`BatteryVerdict.NegativeCountersHideFailures`); it is
  backed by the files exactly when no suite reports a negative number of failures or errors
  (`BatteryVerdict.PassIsBacked`). Negative numbers of tests or skips do no harm.
- The teardown's documentation says that an id the API calls invalid within the polling window is a failure,
  not a success. In the code a describe call that fails for any reason is retried: when no answer can be
  used the exit code is 1 (`Teardown.NeverResolvedFails`), but a failed call can be followed by exit code 0
  (`Teardown.FailureThenSuccess`).

## Model

| member | source | states |
|---|---|---|
| ShardPlan.LightestIsLeast | ci/local/e2e_shards.py:65 | the chosen shard is the one whose load no other undercuts, the lowest number among ties, and no other shard is |
| ShardPlan.LightestShard | ci/local/e2e_shards.py:65 | the scan over the load array finds that shard |
| ShardPlan.PlaceOne | ci/local/e2e_shards.py:65-67 | one iteration changes the load array and the plan by exactly one placement |
| ShardPlan.Assign | ci/local/e2e_shards.py:60-68 | the loop over the load array returns the greedy plan of the specs, heaviest first, ties by name |
| ShardPlan.GreedyPlaces | ci/local/e2e_shards.py:64-67 | greedy numbers exactly the specs of its list, each from 1 to the shard count |
| ShardPlan.LoadIsSeconds | ci/local/e2e_shards.py:62-67 | the running load of a shard is the seconds of the specs the plan gives it |
| ShardPlan.ShardsCarryTotal | ci/local/e2e_shards.py:60-68 | the shards' seconds add up to the seconds of all specs |
| ShardPlan.AverageStep | ci/local/e2e_shards.py:65-67 | the shard that receives a spec holds at most an equal share of what any other assignment packs below its own maximum, without that spec |
| ShardPlan.HeavyStep | ci/local/e2e_shards.py:64-67 | a spec heavier than a third of another assignment's maximum is never placed above that maximum |
| ShardPlan.GreedyWithinBound | ci/local/e2e_shards.py:64-67 | after every placement every load is within 4/3 - 1/(3n) of any other assignment's maximum |
| ShardPlan.HeaviestShardBound | ci/local/e2e_shards.py:60-68 | when no recorded duration is negative, the heaviest shard is at most 4/3 - 1/(3n) times the heaviest shard of any other assignment to n shards |
| ShardPlan.SecondsOfRecords | ci/local/e2e_shards.py:61 | a shard's seconds are the recorded ones of its specs and 12 for each of its specs without a record |
| ShardPlan.RecordedBound | ci/local/e2e_shards.py:60-68 | the bound in those terms: recorded seconds, and 12 for every spec without a record |
| ShardPlan.GreedyDeals | ci/local/e2e_shards.py:60-68 | without any record the greedy loop deals the specs out in turn, and its loads differ by one spec at most |
| ShardPlan.UnrecordedSpecsDealt | ci/local/e2e_shards.py:36-85 | then the specs, in the order of their names, go to shards 1 to n in turn |
| ShardPlan.UnrecordedSpecsSpread | ci/local/e2e_shards.py:36-85 | and two shards differ by at most one spec |
| Ordering.StringLeqExactly | ci/local/e2e_shards.py:64 | strings are ordered by the first character in which they differ, a prefix first |
| ShardTight.Loads | ci/local/e2e_shards.py:64-67 | on specs of 2n-1, 2n-1, ..., n+1, n+1, n, n, n seconds, the load of every one of n shards after every placement but the last |
| ShardTight.OtherFits | ci/local/e2e_shards.py:60-68 | another assignment keeps each of the n shards within 3n seconds |
| ShardTight.BoundIsAttained | ci/local/e2e_shards.py:60-68 | for every number of shards the bound is reached exactly, so it cannot be improved |
| ShardPlan.ShardsBalanced | ci/local/e2e_shards.py:64-67 | two shards never differ by more than the largest weight |
| ShardPlan.AssignedPlaces | ci/local/e2e_shards.py:60-68 | the plan gives exactly the given specs a shard from 1 to n |
| ShardPlan.AssignedIgnoresOrder | ci/local/e2e_shards.py:60-68 | every permutation of the specs gets the same plan |
| ShardPlan.CmdPlan | ci/local/e2e_shards.py:71-85 | an out-of-range shard or an empty tree is refused; otherwise the manifest is written for the sorted specs |
| ShardPlan.SelectedKeepsOrder | ci/local/e2e_shards.py:78 | a shard's list is in the order of the full run, without repetition |
| ShardPlan.IndependentPlansPartition | ci/local/e2e_shards.py:41-47 | n shards that plan alone, each from its own walk of the same specs, write the same spec list and disjoint selections that cover it |
| ShardCombine.CheckRan | ci/local/e2e_shards.py:146-156 | no problem is reported exactly when the directory ran what it selected, each spec once, each with a test |
| ShardCombine.TakeSelection | ci/local/e2e_shards.py:142-145 | the owner table holds exactly the selected names, and a problem is reported exactly when a name comes twice |
| ShardCombine.TakeCounts | ci/local/e2e_shards.py:154-160 | the run's counts and every suite's counts grow by the sums over its records |
| ShardCombine.SuiteOfPath | ci/local/e2e_shards.py:88-91 | the suite of a path is its third part when there is a fourth |
| ShardCombine.SuiteOfSamePath | ci/local/e2e_shards.py:88-91 | a leading './' or a doubled '/' does not count |
| ShardCombine.CheckLabels | ci/local/e2e_shards.py:163-171 | no problem is reported exactly when the labels are 1/n to n/n, each once, for the n directories |
| ShardCombine.TakeDir | ci/local/e2e_shards.py:134-162 | after each directory the tables and the problem list describe all directories so far |
| ShardCombine.Conclude | ci/local/e2e_shards.py:163-188 | after the last directory, exit code 0 exactly when the directories are clean |
| ShardCombine.CmdCombine | ci/local/e2e_shards.py:125-188 | exit code 0 exactly when the directories are clean; then the written totals are those of all directories |
| ShardCombine.KeptExceedsLeast | ci/local/e2e_shards.py:162 | the total that `+=` leaves is the sum over all records less the least running sum over the directories |
| ShardCombine.KeptTotalIsSum | ci/local/e2e_shards.py:162 | so it is the sum exactly when no running sum is negative |
| ShardCombine.CombineIsSound | ci/local/e2e_shards.py:125-188 | exit code 0 means each shard reported once and every listed spec ran exactly once over all directories, with a count of tests that is not 0; and it means that nothing failed exactly when no record reports a negative number of failed tests |
| ShardCombine.SuitesCarryTotal | ci/local/e2e_shards.py:157-162 | the per-suite counts add up to the total exactly when no running sum of the count is negative |
| ShardCombine.PartitionExactlyWhenListed | ci/local/e2e_shards.py:142-145 | accepted selections partition the spec list exactly when every selected name is listed |
| ShardCombine.StraySelectionAccepted | ci/local/e2e_shards.py:172-174 | a selection outside the list is accepted |
| ShardCombine.NegativeFailuresAccepted | ci/local/e2e_shards.py:184-185 | a failed test that a negative count makes up for is accepted |
| ShardCombine.PartitionAccepted | ci/local/e2e_shards.py:125-188 | shards that ran their own plans completely are accepted exactly when the running sum of failed tests ends at its least; without negative numbers of failed tests, exactly when no test failed |
| DelphiLatest.Group | ci/local/delphi_python_results.py:108-113 | each shard's runs are listed in input order, and only shards with runs are listed |
| DelphiLatest.Older | ci/local/delphi_python_results.py:117-125 | a repeated attempt number is refused; otherwise the directories left out are those a later run of the shard replaces |
| DelphiLatest.Drop | ci/local/delphi_python_results.py:114-125 | the loop over shards fails exactly when two directories hold one attempt of one shard, and otherwise drops exactly the superseded directories |
| DelphiLatest.Latest | ci/local/delphi_python_results.py:104-136 | fails exactly when two directories hold one attempt of one shard; otherwise prints, in input order, the directories no later attempt replaces |
| DelphiLatest.OnePerShard | ci/local/delphi_python_results.py:104-136 | every unlabelled directory is kept, and of each shard exactly one, holding its highest attempt |
| DelphiLatest.OrderDoesNotCount | ci/local/delphi_python_results.py:105-107 | the order in which directories are given changes neither acceptance nor what is kept |
| DelphiCombine.RunCounts | ci/local/delphi_python_results.py:37-46 | a run without counts is refused; otherwise its passes are added up, without deselected tests |
| DelphiCombine.PassCounts | ci/local/delphi_python_results.py:37-46 | a pass counts all it reports except deselected tests |
| DelphiCombine.UnitTimes | ci/local/delphi_python_results.py:59-72 | the loop over records yields each unit's parallel and serial sums and each test's parallel sum |
| DelphiCombine.LongestTests | ci/local/delphi_python_results.py:73-76 | the loop over tests keeps for each unit its largest value, starting from 0 |
| DelphiCombine.Durations | ci/local/delphi_python_results.py:54-77 | and each unit's longest value is the largest per-test sum in it, 0 when there is none |
| DelphiCombine.RecordCounts | ci/local/delphi_python_results.py:59-72 | a record counts for its own test, and for its unit's serial or parallel time as its test is serial or not |
| DelphiCombine.TimesConserved | ci/local/delphi_python_results.py:54-77 | no recorded time of a test with a unit is lost or counted twice |
| DelphiCombine.TakeSelection | ci/local/delphi_python_results.py:162-165 | the owner table holds exactly the selected tests, and a problem is reported exactly when a test comes twice |
| DelphiCombine.CheckTests | ci/local/delphi_python_results.py:156-161 | no problem exactly when the run collected the same tests as the first, as multisets |
| DelphiCombine.TakeLongest | ci/local/delphi_python_results.py:175-176 | each unit keeps the larger of its value so far and the run's |
| DelphiCombine.TakeTimes | ci/local/delphi_python_results.py:172-176 | after each run the unit times are those of all runs so far |
| DelphiCombine.TakeDir | ci/local/delphi_python_results.py:150-176 | after each run every table and the problem list describe all runs so far |
| DelphiCombine.MissingTests | ci/local/delphi_python_results.py:177-181 | no problem exactly when every collected test was selected |
| DelphiCombine.Conclude | ci/local/delphi_python_results.py:177-195 | after the last run, exit code 0 exactly when the runs are clean |
| DelphiCombine.CmdCombine | ci/local/delphi_python_results.py:139-195 | exit code 0 exactly when the runs are clean; then the written counts and times are those of all runs |
| DelphiCombine.CombineIsSound | ci/local/delphi_python_results.py:139-195 | exit code 0 means every collected test was selected exactly once over all shards, each of which has counts, names its own shard and collected the same tests; and that no pass had a failure or an error exactly when no pass reports a negative number of either |
| DelphiCombine.LongestWithinTotal | ci/local/delphi_python_results.py:54-77 | when no recorded time is negative, a unit's longest parallel test never exceeds the unit's parallel total |
| DelphiCombine.PartitionExactlyWhenCollected | ci/local/delphi_python_results.py:162-165 | accepted selections partition the collected tests exactly when every selected test was collected |
| DelphiCombine.StrayTestAccepted | ci/local/delphi_python_results.py:177-179 | a selected test that nobody collected is accepted |
| DelphiCombine.NegativeFailuresAccepted | ci/local/delphi_python_results.py:191-192 | a failure that a negative count makes up for is accepted |
| PlanMarkers.Index | scripts/polis_release.py:156-161 | the first occurrence, and none exactly when there is none |
| PlanMarkers.NoOverlap | scripts/polis_release.py:17-18 | two occurrences of the markers are the same or do not overlap |
| PlanMarkers.CountMeaning | scripts/polis_release.py:156-161 | counting without overlap finds 0 or 1 exactly when there is no or one occurrence |
| PlanMarkers.ReplaceAccepts | scripts/polis_release.py:156-161 | splicing is refused exactly when the markers are neither absent nor one pair in order |
| PlanMarkers.OutsideIsAllButThePair | scripts/polis_release.py:160-161 | a splice removes exactly one text, from the old begin marker to the old end marker |
| PlanMarkers.ReplaceLeavesOnePair | scripts/polis_release.py:156-161 | after a splice there is one marker pair, around exactly the new section, and all other text is as it was |
| PlanMarkers.ReplaceReplaces | scripts/polis_release.py:156-161 | splicing twice is splicing the second section |
| PlanMarkers.MarkdownMarkerFree | scripts/polis_release.py:139-141 | escaped text never holds a marker |
| PlanMarkers.WordsSplit | scripts/polis_release.py:139-140 | white space ends a word and otherwise does not count |
| PlanMarkers.OneWord | scripts/polis_release.py:139-140 | and a text without it is one word |
| PlanMarkers.MarkdownReads | scripts/polis_release.py:139-141 | escaped text reads as the words of the value, one space apart |
| PlanMarkers.PlanSectionWellFormed | scripts/polis_release.py:144-153 | the built section can be spliced and refreshed exactly when no unescaped field holds a marker |
| PlanMarkers.RefreshableExactly | scripts/polis_release.py:144-161 | a body that received a plan can be refreshed later exactly when no unescaped field of that plan holds a marker |
| PlanMarkers.AngleFreePlansRefresh | scripts/polis_release.py:144-161 | a body that received a plan without '<' in the unescaped fields can always be refreshed |
| PlanMarkers.MadePlansRefresh | scripts/polis_release.py:120-161 | for a plan that `compute` returns with a canonical version, a body that received it can be refreshed later exactly when no migration name holds a marker, and names that the version tool takes for migrations hold none |
| PlanMarkers.UnescapedMarkerBlocksRefresh | scripts/polis_release.py:120-161 | the script's own checks do not give that: a plan that passes them but names the end marker for a migration, which the version tool refuses, is spliced once, and then every refresh is refused |
| Census.Pages | scripts/polis_release.py:59-68 | the loop returns the pages up to the first short one, and fails on anything but a list or at the page ceiling |
| Census.PagesComplete | scripts/polis_release.py:59-68 | a list that does not change comes back whole and in order when it has fewer than 100000 rows, and is refused otherwise |
| Census.NotesData | scripts/polis_release.py:236-265 | the loop over the commits builds the notes that the step-by-step census defines, with its errors |
| Census.VisitsAccount | scripts/polis_release.py:245-262 | after every commit the direct list, the seen numbers and the entries are those of the commits so far |
| Census.NotesAreExact | scripts/polis_release.py:236-265 | direct commits in order; one entry per owning pull request unless it only prepared the release; no other entry; entries in order of merge |
| Census.SolePromotion | scripts/polis_release.py:239-243 | the promotion is the one pull request of the merge's listing that was merged into stable as that commit |
| Census.SoleOwner | scripts/polis_release.py:246-251 | a commit's pull request is the one of its listing that was merged as a commit of the release and is not the promotion |
| Census.EveryCommitAccounted | scripts/polis_release.py:236-265 | every commit is listed as direct unless exactly one pull request brought it; that request has exactly one entry, or none if it is a preparation branch that touches only version mirrors |
| Census.EveryCommitInTheNotes | scripts/polis_release.py:236-283 | so the rendered notes have, for every commit of the range, a line for its pull request, unless that only prepared the release, or for the commit itself |
| Census.CensusSucceeds | scripts/polis_release.py:236-265 | the census succeeds exactly when one request promoted the merge and every listing it needs can be read whole |
| ReleaseAssets.Validate | scripts/publish-polis-cli-release.py:17-54 | the loop accepts exactly complete release directories and returns archives and checksums in order |
| ReleaseAssets.AssetNamesDistinct | scripts/publish-polis-cli-release.py:24-28 | no two of the expected file names are equal |
| ReleaseAssets.ExactlyEight | scripts/publish-polis-cli-release.py:52-54 | an accepted directory holds exactly eight files, each archive with its own checksum |
| ReleaseAssets.CompleteExactly | scripts/publish-polis-cli-release.py:17-54 | a directory is accepted exactly when it holds, for each target, the archive of this version, commit and target with its own checksum, and nothing else |
| ReleasePlan.VersionExactly | scripts/polis_release.py:16 | a version is three numbers in canonical decimal form, with dots between |
| ReleasePlan.ReleaseTagExactly | scripts/polis_release.py:96 | a release tag is "v" and such a version |
| ReleasePlan.CommitExactly | scripts/polis_release.py:35-38 | a commit is forty lower-case hexadecimal digits |
| ReleaseNotes.NotesStateSchema | scripts/polis_release.py:268-283 | rendered notes always contain the schema line that publishing demands |
| ReleaseNotes.NotesListMigrations | scripts/polis_release.py:268-283 | they say whether there are migrations, and have a line for each |
| ReleaseNotes.NotesListPulls | scripts/polis_release.py:268-283 | a line for each pull request, its title escaped, with its link |
| ReleaseNotes.NotesListCommits | scripts/polis_release.py:268-283 | and one for each direct commit, with its first twelve digits and its link |
| Publication.Hub.CreateRef | scripts/polis_release.py:458-459 | a tag is added only where none is, and nothing else changes |
| Publication.Hub.CreateDraft | scripts/publish-polis-cli-release.py:65-67 | a draft is added only for an existing tag without a release |
| Publication.Hub.Upload | scripts/publish-polis-cli-release.py:68-69 | exactly the arriving assets are added to the tag's release |
| Publication.Hub.Edit | scripts/publish-polis-cli-release.py:70-71 | the tag's release becomes public, and nothing else changes |
| Publication.Hub.PublishRelease | scripts/publish-polis-cli-release.py:57-71 | the three writes in their order leave the remote that the specification gives, wherever they stop |
| Publication.Hub.Publication | scripts/polis_release.py:411-468 | one attempt leaves the remote and the outcome that the specification gives, for every fault |
| Publication.PublishEffect | scripts/publish-polis-cli-release.py:57-71 | publishing changes no tag and at most adds one release, ours, of this tag |
| Publication.AttemptEffect | scripts/polis_release.py:411-468 | an attempt creates at most the packet's own tag, changes no tag, leaves an existing release alone, and any new one is ours |
| Publication.OtherReleasesUntouched | scripts/polis_release.py:430-431 | an attempt never touches releases of other tags |
| Publication.EveryReleaseIsOurs | scripts/polis_release.py:411-468 | in every run of attempts with faults and crashes, the tag has at most one release, with the packet's title and notes over the packet's annotated tag, and a published one has a complete asset set |
| Publication.NothingIsOverwritten | scripts/polis_release.py:398-408 | over every run a created tag keeps target and annotation, and a published release is never rewritten |
| Publication.DraftIsRefused | scripts/polis_release.py:434-436 | a leftover draft is refused without a write |
| Publication.FinishedIsLeftAlone | scripts/polis_release.py:434-447 | a retry on a finished release writes nothing, and reports it published exactly when its checks pass and its assets are the published ones |
| Publication.VerifiedTag | scripts/polis_release.py:120-136 | a verified packet's tag is a release tag that is absent or names the packet's commit |
| Publication.VerifiedExactly | scripts/polis_release.py:286-311 | a packet verifies exactly when the stable head is a merge with its second parent's tree, the tool plans it from the first parent to the second, and version, mirrors, updater, tags and notes are the packet's |
| Publication.PublishedIsPromotion | scripts/polis_release.py:411-468 | an attempt that writes anything, or finds its release finished, was approved, with complete assets, for such a promotion |
| Publication.AlreadyPublishedExactly | scripts/polis_release.py:434-447 | a release is reported as already published exactly when it is the only one of its tag, stands over the packet's tag and is the promotion's, with the attempt's assets |
| Publication.AttemptStops | scripts/polis_release.py:448-468 | the first write that fails, or whose reply is lost, is the attempt's last, and what it leaves is the tag, the draft, the assets that arrived or the public release accordingly |
| Publication.MovedTagIsRefused | scripts/polis_release.py:120-129 | a tag at another commit is refused without a write |
| Publication.SameView | scripts/polis_release.py:123-129 | the tags that the version tool sees, without the pending one, are the same before and after that tag exists |
| Publication.RetryVerifies | scripts/polis_release.py:286-311 | a packet that verified before its own tag existed verifies again after it |
| Publication.SmoothAttemptPublishes | scripts/polis_release.py:411-468 | for such a promotion, with no release there and the tag absent or ours, an attempt without faults publishes under its version, with its notes and exactly its assets |
| Publication.RetryCompletes | scripts/polis_release.py:411-468 | a crash after the tag was created is completed by a retry |
| Publication.EveryRunCanFinish | scripts/polis_release.py:411-468 | from every state of every run that has no release yet, one attempt without faults publishes, if the run began with such a promotion and branches, other tags and notes are the same |
| OciPaths.RegularNormal | ci/private_cert/image_admission.py:73-78 | an accepted path other than "." is its components joined, none empty, "." or ".." |
| OciPaths.PrefixTest | ci/private_cert/image_admission.py:247-248 | the text test for a containing directory is the test for a proper prefix of the components, exactly unless "." is compared with another name |
| OciPaths.DotIsRegular | ci/private_cert/image_admission.py:73-78 | "." is accepted, and is a textual prefix of nothing |
| OciLayers.PlaceStraight | ci/private_cert/image_admission.py:246-251 | where no link stands near the root, a name that reaches there leads to itself |
| OciLayers.ApplyNear | ci/private_cert/image_admission.py:238-259 | one accepted member puts no link near the root, and changes a path below it just as its name says, unless links lead it there |
| OciLayers.OverlayIsFlat | ci/private_cert/image_admission.py:222-259 | if links lead no member near the root, the file system below it is that of one flat list of members: layers, whiteouts and links make no difference |
| OciLayers.NoneBelowStayAway | ci/private_cert/image_admission.py:238-259 | links lead no member elsewhere when no name goes through the name of a link |
| OciLayers.AgreeUnlessStale | ci/private_cert/image_admission.py:256-259 | the file in the end is the last file written, exactly unless that was clobbered and not rewritten |
| OciOverlay.WhiteoutsElsewhere | ci/private_cert/image_admission.py:246-255 | an accepted whiteout names nothing above or below the private root |
| OciOverlay.EntryGuarded | ci/private_cert/image_admission.py:245-255 | what the checks of a member mean for its components: only directories above and at the root, only files and directories below, no whiteout near it |
| OciOverlay.LookupIsLastFile | ci/private_cert/image_admission.py:256-259 | the dictionary holds for each name the digest of the last file entry |
| OciOverlay.FinalFile | ci/private_cert/image_admission.py:222-259 | when links lead no member near the root, a private path holds the last stored file of the final file system, unless that is stale |
| OciOverlay.PrivateFilesAgree | ci/private_cert/image_admission.py:222-259 | for accepted layers whose links lead no member near the root, the dictionary is the private part of the final file system exactly when nothing private is stale |
| OciOverlay.NoNameBelowLinkIsStraight | ci/private_cert/image_admission.py:238-259 | the condition on links holds when no name goes through the name of a link |
| OciOverlay.UnmixedPathsAgree | ci/private_cert/image_admission.py:222-259 | under the same condition on links it is so whenever no private path is a file in one entry and a directory in another |
| OciExamples.FileTurnedDirectory | ci/private_cert/image_admission.py:256-259 | two accepted layers without links, the second turning launcher.py into a directory, whose dictionary is wrong |
| OciExamples.LinkReachesPrivateFile | ci/private_cert/image_admission.py:246-259 | one accepted layer with nothing stale whose dictionary is wrong, because a member below a link outside the root replaces a private file |
| OciExamples.LauncherReplaced | ci/private_cert/image_admission.py:246-259 | the same for launcher.py and a link named srv |
| OciExamples.AdmittedAndWrong | ci/private_cert/image_admission.py:222-264 | whatever decodes it, an archive that is admitted with a private file that a later layer turns into a directory comes with the wrong private files |
| OciExamples.AdmittedAndReplaced | ci/private_cert/image_admission.py:222-264 | and so does one that is admitted with a private file that a member replaces through a link |
| OciInspect.ReadMembers | ci/private_cert/image_admission.py:175-184 | the loop accepts exactly archives of safely named, distinct regular files and directories, and keeps the files |
| OciInspect.StoreEntries | ci/private_cert/image_admission.py:238-259 | one layer's members are accepted exactly when each passes its checks, and the dictionary grows by its private files |
| OciInspect.InspectLayer | ci/private_cert/image_admission.py:224-259 | one descriptor is accepted exactly when its type, blob, uncompressed digest and members are in order |
| OciInspect.InspectOci | ci/private_cert/image_admission.py:168-264 | the nested loops accept exactly the archives that hold what their one index entry leads to and nothing else, and return the image that those documents and members describe |
| OciInspect.MembersAreFiles | ci/private_cert/image_admission.py:176-184 | the table of members holds exactly the archive's files, each of which is there once |
| OciInspect.BlobClosure | ci/private_cert/image_admission.py:185-264 | an admitted archive holds oci-layout, index.json, the manifest and configuration of one linux/arm64 image and its layers, each blob once with its declared type, size and digest, and no other file |
| OciInspect.AdmittedExactly | ci/private_cert/image_admission.py:168-264 | and every archive that does is admitted |
| OciInspect.SafeNameExactly | ci/private_cert/image_admission.py:176-181 | a member's name is safe exactly when it is a regular path, with '/' behind it only for a directory |
| OciInspect.PassesExactly | ci/private_cert/image_admission.py:238-255 | a member passes exactly when its name, apart from leading './' and a directory's '/', is the root or a regular path that respects the private root |
| OciInspect.HexExactly | ci/private_cert/image_admission.py:26 | a digest is 64 lower-case hexadecimal digits |
| OciInspect.ImageFromMembers | ci/private_cert/image_admission.py:222-264 | the private files of the image are exactly the regular members below the private root, leading './' aside, each with the digest of the content stored last |
| OciInspect.PrivateMembersArePlain | ci/private_cert/image_admission.py:250-252 | no member below the private root is a link or a special file |
| OciInspect.AdmittedPrivateFiles | ci/private_cert/image_admission.py:222-264 | when links lead no member near the private root, the returned private files are those of the described file system exactly when no layer leaves a private file clobbered |
| OciInspect.ManifestDigestPinsImage | ci/private_cert/image_admission.py:260-264 | equal manifest digests mean equal blobs, configuration and private files, unless two blobs of one name collide |
| ImageLock.MakeEntry | ci/private_cert/image_admission.py:300-314 | a role's entry is made exactly when its recipe, review, archive, configuration and private files agree |
| ImageLock.MakeLock | ci/private_cert/image_admission.py:286-320 | a lock is made exactly for a complete review, two good entries, two different images and equal pins |
| ImageLock.EntryExactly | ci/private_cert/image_admission.py:300-317 | an entry is made exactly for an archive whose private files, member by member, are those of its reviewed recipe, and locks its digests |
| ImageLock.LockExactly | ci/private_cert/image_admission.py:286-320 | a lock is made exactly for a passed review of two such images that differ and are of the same sources |
| ImageLock.PinsExactly | ci/private_cert/image_admission.py:338-339 | a reference pins a digest exactly when it is a name, '@' and that digest |
| ImageLock.ValidatedPins | ci/private_cert/image_admission.py:323-351 | a validated lock is of the two different images that the admission record pins, of the right roles and the same sources |
| ImageLock.ImageDigest | ci/private_cert/image_admission.py:338-339 | the digest taken after the last '@' of a pinned reference is its SHA-256 digest |
| ImageLock.MadeLockValidates | ci/private_cert/image_admission.py:323-351 | a made lock validates for an admission record exactly when the record names the locked images and pins |
| ResultTransport.WorkerStepKeepsInv | ci/p022_results.py:41-76 | every worker step, with puts acknowledged or not and crashes included, keeps the store one execution's |
| ResultTransport.CollectorStepKeepsInv | ci/p022_results.py:79-133 | so does every collector step, and what the collector holds is what the store shows |
| ResultTransport.EveryStateConsistent | ci/p022_results.py:47-133 | hence every state of every run is consistent |
| ResultTransport.ReceiptHasItsStdout | ci/p022_results.py:71-76 | a visible receipt means visible output, both of one execution |
| ResultTransport.SingleWinner | ci/p022_results.py:41-44 | over a whole run at most one execution is ever told that its output was stored |
| ResultTransport.CollectorReturnsTheWinner | ci/p022_results.py:47-133 | the collector returns what the winner's command printed and its return code, 1 where that is no exit code, so 0 only for 0; it rejects no receipt, and misses a result only after a failed read |
| ResultTransport.EveryOutputTells | ci/p022_results.py:66-70 | in every state what an execution makes of its command is what the command printed and returned |
| ResultTransport.EndingsStay | ci/p022_results.py:47-70 | a command ends once: how it ended is never rewritten |
| ResultTransport.FinishedStays | ci/p022_results.py:123-133 | the collector's answer is final |
| ResultTransport.ValidatesWhatIsMade | ci/p022_results.py:94-104 | the collector accepts exactly the receipts that a worker of its campaign makes for these bytes, with the code they carry |
| ResultTransport.ReceiptBinds | ci/p022_results.py:94-104 | no other campaign's receipt is accepted, nor one for bytes of another length or digest |
| ResultTransport.StoredNeverChanges | ci/p022_results.py:41-44 | what is visible stays as it is |
| ResultTransport.CollectorCompletes | ci/p022_results.py:123-131 | with a visible receipt of admissible size and reads that succeed, the collector returns the winner's output |
| ResultTransport.NewExecutionDelivers | ci/p022_results.py:47-133 | from every reachable state in which no output is stored, a new execution can deliver any output up to the limit and its exit code |
| ResultTransport.WinnerDelivers | ci/p022_results.py:47-133 | and so can one that was told its output is stored |
| ResultTransport.StrandedNeverReturns | ci/p022_results.py:41-44 | but when the execution that stored the output dies before its receipt, no result is ever delivered under this token |
| ResultTransport.LostAcknowledgementStrands | ci/p022_results.py:41-44 | which an unacknowledged put of the output brings about |
| DnsQuestion.Question | ci/probe_box/dns.py:12-24 | the loop stays in bounds, terminates and computes the specified parse, with its three errors |
| DnsQuestion.ParseSound | ci/probe_box/dns.py:16-21 | an accepted name is the encoding of valid labels, followed by what was left |
| DnsQuestion.ParseComplete | ci/probe_box/dns.py:16-21 | the encoding of valid labels is parsed back to them, whatever follows |
| DnsQuestion.RoundTrip | ci/probe_box/dns.py:12-24 | parsing an encoded question returns its dotted, lower-cased name |
| DnsQuestion.AcceptedLanguage | ci/probe_box/dns.py:12-24 | a packet is accepted exactly when it is one A or AAAA question of class IN with ASCII labels of 1 to 63 bytes and nothing else |
| DnsQuestion.Unambiguous | ci/probe_box/dns.py:12-24 | a packet encodes at most one question |
| DnsQuestion.SameNameSameLabels | ci/probe_box/dns.py:20-24 | without dots inside labels, equal names mean equal labels up to case |
| DnsQuestion.SameLabelsExactly | ci/probe_box/dns.py:20-24 | a name without dots inside labels is read from its own labels, up to case, exactly when none of the labels read holds a dot |
| DnsQuestion.NameAsksForItsLabels | ci/probe_box/dns.py:12-24 | a packet that reads as such a name asks for that name's labels exactly when none of its labels holds a dot |
| DnsQuestion.DotInsideLabelCollides | ci/probe_box/dns.py:20-24 | with a dot inside a label they need not |
| DnsQuestion.LowerCases | ci/probe_box/dns.py:20 | lower-casing leaves no capital, changes nothing but capitals and loses nothing but case |
| Teardown.Describe | ci/p022_teardown.py:67-91 | failed, blank, malformed and non-list answers are errors, never an empty inventory; otherwise the last record of an instance counts |
| Teardown.Discover | ci/p022_teardown.py:119-132 | the loop stops at the first answer that shows an instance, and otherwise uses all attempts and finds nothing |
| Teardown.Judge | ci/p022_teardown.py:156-179 | one answer settles the matter exactly when it misses an instance, shows all terminated, or shows an unknown state, in this order |
| Teardown.Confirm | ci/p022_teardown.py:147-184 | the loop ends with the first answer that settles the matter, and with code 1 when none does |
| Teardown.Teardown | ci/p022_teardown.py:94-184 | the run's exit code, and at most as many describe calls as both limits together |
| Teardown.VerdictFromRecords | ci/p022_teardown.py:148-179 | what one answer decides, from its records: 0 when all expected instances are terminated, 1 when one is missing or in an unknown state, nothing when it cannot be read or all are on their way |
| Teardown.ConfirmedExactly | ci/p022_teardown.py:148-184 | confirmation returns 0 exactly when one answer shows every expected instance terminated and each earlier one could not be read or showed all of them in known states |
| Teardown.TroubleFails | ci/p022_teardown.py:163-179 | an answer that misses an instance or shows an unknown state ends the confirmation with 1 when it is reached |
| Teardown.ExpectedExactly | ci/p022_teardown.py:109-144 | what is expected is the given instance, or what the first readable answer with an instance names |
| Teardown.ExitZeroHasEvidence | ci/p022_teardown.py:94-184 | exit code 0 exactly without id and launch, or with such an answer for the instances that were given or discovered; otherwise 1 |
| Teardown.MissingInstanceFails | ci/p022_teardown.py:163-168 | an expected instance that is missing from an answer that is reached makes the exit code 1, whatever follows |
| Teardown.InvisibleLaunchFails | ci/p022_teardown.py:133-142 | a launch that never becomes visible is a failure |
| Teardown.ExitZeroMeansTerminated | ci/p022_teardown.py:170-174 | if answers are true and termination is final, after exit code 0 no expected instance is active |
| Teardown.TerminationIsRecognised | ci/p022_teardown.py:147-174 | answers that reach all-terminated within the attempts force exit code 0, however many calls fail before |
| Teardown.NeverResolvedFails | ci/p022_teardown.py:148-184 | when every answer of the confirmation is failed, blank, malformed or no list, the exit code is 1 |
| Teardown.FailureThenSuccess | ci/p022_teardown.py:156-174 | a describe call that fails can be followed by exit code 0 |
| BatteryVerdict.ReadReports | ci/p022_check_summary.py:129-165 | the aggregates are the sums over the files, their executed total and minimum, and no trouble is reported exactly when every file is usable |
| BatteryVerdict.ReadReport | ci/p022_check_summary.py:144-162 | one file counts the sums over its suites, nothing when it is not XML, and is reported exactly when it is not usable |
| BatteryVerdict.AddSuites | ci/p022_check_summary.py:153-158 | the loop over suites yields the four sums |
| BatteryVerdict.CheckPhase | ci/p022_check_summary.py:225-236 | a phase is accepted exactly when the claimed counts are those of the returned, usable, pinned number of files |
| BatteryVerdict.CheckRecovery | ci/p022_check_summary.py:195-244 | the recovery record is accepted exactly when it is coherent, and its recomputed outcome is returned |
| BatteryVerdict.CheckBattery | ci/p022_check_summary.py:248-301 | the battery record is accepted exactly when it is coherent with the declared scope |
| BatteryVerdict.Check | ci/p022_check_summary.py:168-307 | a summary is accepted exactly when it is coherent and states the recomputed verdict |
| BatteryVerdict.ExecutedIsSum | ci/p022_check_summary.py:159-164 | executed is the sum over the files |
| BatteryVerdict.PhaseFloorFollows | ci/p022_check_summary.py:238-241 | the floor on a phase's total follows from the floor on each file |
| BatteryVerdict.BackedExactly | ci/p022_check_summary.py:225-242 | files whose counts read as clean back them exactly when no suite reports a negative number of failures or errors |
| BatteryVerdict.PassIsBacked | ci/p022_check_summary.py:225-242 | a PASS checked against the files is of the expected commit and battery, and each phase has the pinned number of files, each at its floor, none with a failure or an error, exactly when no suite of the phase reports a negative number of failures or errors |
| BatteryVerdict.BackedRunPasses | ci/p022_check_summary.py:225-244 | a record that reports files which back it is accepted and passes |
| BatteryVerdict.CleanRunVerdict | ci/p022_check_summary.py:168-307 | a run backed by its files and with a whole battery, or none asked for, is accepted with exactly one verdict: FAIL if the battery returned another code than 0, else PASS |
| BatteryVerdict.FailExactly | ci/p022_check_summary.py:225-303 | an accepted summary says FAIL exactly when a return code is not 0, a report is missing, a floor is not reached, or a failure or an error is counted |
| BatteryVerdict.AcceptedForm | ci/p022_check_summary.py:168-301 | every accepted summary is of this schema, kind and trust, no certification, of the expected 40-digit commit, with all numbers up to a million and none negative, and public datasets only |
| BatteryVerdict.ShortBatteryRefused | ci/p022_check_summary.py:258-301 | a requested battery that misses a case, a dataset, a fixture or a restart, is another one, or has no result, is refused |
| BatteryVerdict.NothingExecutedRefused | ci/p022_check_summary.py:144-162 | one file in which nothing was executed, all skipped included, has the summary refused |
| BatteryVerdict.NegativeCountersHideFailures | ci/p022_check_summary.py:154-156 | an accepted summary with verdict PASS although a file has a failure, which a negative count hides |
| CanonicalJson.EscapeCharPrefixFree | ci/p022_battery_digest.py:44-45 | the escape of a character tells the character and where it ends |
| CanonicalJson.TailPrefixFree | ci/p022_battery_digest.py:44-45 | so does the text of a string |
| CanonicalJson.NumPrefixFree | ci/p022_battery_digest.py:44-45 | and that of a number before a character that ends it |
| CanonicalJson.EncodePrefixFree | ci/p022_battery_digest.py:44-45 | texts that agree up to where each value ends are of equal values |
| CanonicalJson.EncodeInjective | ci/p022_battery_digest.py:44-45 | equal text exactly when equal value: types and list order count, key order does not |
| BatteryInventory.Inventory | ci/p022_battery_digest.py:76-101 | the loop yields the canonical text, the selected entries and the number of them that declare a restart |
| BatteryInventory.TextsMultiset | ci/p022_battery_digest.py:94-99 | lists of values have the same texts, counted, exactly when they are the same multiset |
| BatteryInventory.SortedTextsEqual | ci/p022_battery_digest.py:97-99 | and the same sorted texts exactly then |
| BatteryInventory.CanonicalTextExact | ci/p022_battery_digest.py:76-101 | equal canonical text exactly when rows and public fixtures are equal as multisets |
| BatteryInventory.RowKeeps | ci/p022_battery_digest.py:89-91 | equal rows exactly when every projected field, missing as null, and the fingerprint are equal |
| BatteryInventory.FingerprintPins | ci/p022_battery_digest.py:48-60 | equal fingerprints mean the same schedule, absent, missing, unparseable text or JSON value, unless the two hashed texts collide, and only then |
| BatteryInventory.HashesOfEitherKind | ci/p022_battery_digest.py:57-60 | for two texts there are hashes of the right length that keep them apart, and others that do not |
| BatteryInventory.OrderDoesNotCount | ci/p022_battery_digest.py:76-101 | reordering the battery changes neither the text nor the restart count |
| BatteryInventory.RestartsCounted | ci/p022_battery_digest.py:63-93 | the restart count is the number of public entries whose schedule is a JSON object with a restart that is not null |
| WorkerScaling.AddTiers | cdk/workerClasses.ts:407-413 | the loop adds one tier per worker, each `jobsPerWorker` wide, the last one open |
| WorkerScaling.TiersExact | cdk/workerClasses.ts:401-413 | for every depth at or above the threshold exactly one tier applies, and asks for min(max, ceil(depth / jobsPerWorker)) workers |
| WorkerScaling.NeverBoth | cdk/workerClasses.ts:414-456 | both alarms never stand in one period |
| WorkerScaling.WindowsApart | cdk/workerClasses.ts:53-60 | after one alarm stood, the other needs a whole window of its own |
| WorkerScaling.StoppedExactlyWhenIdle | cdk/workerClasses.ts:429-456 | a standing group is stopped exactly after `inPeriods` periods that each reported zero queued, leased and parked jobs |
| WorkerScaling.ZeroExactlyWhenIdle | cdk/workerClasses.ts:401-456 | over every trace the group is at 0 exactly when it began at 0 and was never scaled out, or an idle window stopped it and no scale-out followed |
| WorkerScaling.LastAlarmDecides | cdk/workerClasses.ts:401-456 | the capacity is what the last standing alarm asked for |
| WorkerScaling.SteadyDemandIsServed | cdk/workerClasses.ts:401-427 | a depth that stays for a window brings the group to the size for it |
| WorkerScaling.StartedExactlyWhenQueued | cdk/workerClasses.ts:401-427 | a stopped group is started exactly by `outPeriods` periods that each reported a queued job, whatever the depths |
| WorkerScaling.QueuedDemandIsServed | cdk/workerClasses.ts:401-427 | and then has the least size that serves the depth reported last, or the maximum |
| WorkerScaling.KeptOtherwise | cdk/workerClasses.ts:401-456 | in every other period it keeps its size or is stopped |
| WorkerScaling.CapacityInRange | cdk/workerClasses.ts:407-413 | the capacity never exceeds the maximum |
| WorkerScaling.WantedGrows | cdk/workerClasses.ts:407-413 | a deeper queue never asks for fewer workers |

## Left out

- Commands, the hosting service, object storage, sockets, files, and the decoding of JSON, XML, tar and gzip: their answers are parameters.
- SHA-256: a parameter; where a digest pins something, the lemma names the collision that would break it.
- Floating point: recorded seconds are exact reals, and the two-decimal duration files are not modelled.
- Text of shard labels and of problem messages: a label is a pair of numbers, and only whether and what kind of problem is reported counts.
- The suffix filter of the directory walk in `all_specs`, and both `summary` commands.
- `prepare`, `upsert_pr` and `mirror_changes`: branch and pull-request writes before a release, and rewriting of version mirrors.
- The verify-only mode of `publication`, and `save_packet`, `gate` and `approved_run`: approval is a parameter of an attempt.
- Publication.EveryReleaseIsOurs: attempts of one packet come one at a time, and what others do in between leaves this tag and its releases alone.
- Census.EveryCommitAccounted: listings do not change while the census is taken, and a pull request is described the same way whichever commit leads to it.
- Census.NotesData: the dictionary of entries is the list of its values in the order of entry, since a number is entered once.
- ResultTransport.CollectorReturnsTheWinner: deadlines may strike at any poll, and the size of the receipt's JSON text is a parameter.
- OciOverlay.PrivateFilesAgree: its condition on links is enough but not necessary, because a link may also lead to the private root to write what is there already; that it is needed in general is `OciExamples.LinkReachesPrivateFile`.
- OciLayers.OverlayIsFlat: the extractor follows symbolic links within the image, up to any number of them, and copies what a hard link names; a member whose parents lead through too many links is not extracted, and an extractor that stops there is not modelled, nor one that unpacks each layer by itself and so follows no link of a lower layer.
- `validate_recipe`, `validate_config` and `bind_runtime_lock`: field checks, parameters of the lock.
- Teardown.Teardown: terminate calls decide nothing and are not modelled, and whether a launch was attempted is given as a truth value.
- BatteryVerdict.Check: tests of JSON types and key sets are taken as done, and a count attribute that is not a number is not modelled.
- CanonicalJson.EncodeInjective: values hold no floating-point numbers, and strings hold no lone surrogates.
- BatteryInventory.Inventory: every public fixture has a slug.
- WorkerScaling.LastAlarmDecides: an alarm acts in each period in which it stands, and the service's search for older datapoints when recent ones are missing is not modelled.
- The DNS forwarder around the parser, and the alarms of `createWorkerClasses` other than the two that set capacity.
- Queue leases, epochs and fencing: the queue's own code is not part of this model.
